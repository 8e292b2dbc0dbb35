/** The Go side of the exporter socket (cmd/exporter/main.go): frames are read back from the byte
    stream, and the network bodies of a frame are added up per domain. */
module ExporterReader {
  import opened Machine
  import opened FixedFields
  import opened Wire
  import opened ExporterFrames

  type i64 = x: int | -0x8000_0000_0000_0000 <= x < 0x8000_0000_0000_0000

  /** model.BPFTraceBody, its arrays as they came. */
  datatype Body = Body(title: seq<u8>, domain: seq<u8>, srcIp: seq<u8>, dstIp: seq<u8>, count: u64)

  /** What the reader tells the metrics service. A summary stands for one call per domain, in the
      unspecified order of a Go map. */
  datatype Call =
    | Reset
    | Summary(bodies: map<seq<u8>, Body>)
    | FileEvent(pid: u32, comm: seq<u8>, filepath: seq<u8>, isWrite: i32, count: i64)

  function Signed32(x: u32): i32 { if x < 0x8000_0000 then x else x - TWO32 }
  function Signed64(x: u64): i64 { if x < 0x8000_0000_0000_0000 then x else x - TWO64 }

  function BodyAt(p: seq<u8>, i: nat): Body {
    Body(Bytes(p, i, 32), Bytes(p, i + 32, 32), Bytes(p, i + 64, 16), Bytes(p, i + 80, 16), Le64(p, i + 96))
  }

  function EventAt(p: seq<u8>, i: nat): Call {
    FileEvent(Le32(p, i), Trim(Bytes(p, i + 4, 16)), Trim(Bytes(p, i + 20, 256)),
              Signed32(Le32(p, i + 276)), Signed64(Le64(p, i + 280)))
  }

  /** A body joins the summary: it replaces the one of its domain, the counts added. */
  function Joined(m: map<seq<u8>, Body>, b: Body): map<seq<u8>, Body> {
    var d := Trim(b.domain);
    m[d := if d in m then b.(count := Wrap64(b.count + m[d].count)) else b]
  }

  /** The first `n` bodies added up per domain. */
  function Summed(bs: seq<Body>, n: nat): map<seq<u8>, Body>
    requires n <= |bs|
  {
    if n == 0 then map[] else Joined(Summed(bs, n - 1), bs[n - 1])
  }

  function BodiesAt(p: seq<u8>, i: nat, n: nat): (bs: seq<Body>)
    ensures |bs| == n
  {
    seq(n, k requires 0 <= k < n => BodyAt(p, i + 104 * k))
  }

  /** The summary of the `n` bodies at `i`. */
  function SummaryAt(p: seq<u8>, i: nat, n: nat): Call {
    Summary(Summed(BodiesAt(p, i, n), n))
  }

  function EventsAt(p: seq<u8>, i: nat, n: nat): (cs: seq<Call>)
    ensures |cs| == n
  {
    seq(n, k requires 0 <= k < n => EventAt(p, i + 288 * k))
  }

  /** File events that are complete when `n` are announced. */
  function Whole(p: seq<u8>, i: nat, n: nat): (w: nat)
    requires i <= |p|
    ensures w <= n && i + 288 * w <= |p|
    ensures w < n ==> |p| < i + 288 * (w + 1)
  {
    Min(n, (|p| - i) / 288)
  }

  lemma WholeIs(p: seq<u8>, i: nat, n: nat, w: nat)
    requires w <= n && i + 288 * w <= |p| && (w < n ==> |p| < i + 288 * (w + 1))
    ensures Whole(p, i, n) == w
  {
  }

  /** Where the header after the frame at `i` is looked for. */
  function NextHeader(p: seq<u8>, i: nat): nat
    requires i + 8 <= |p|
  {
    i + 8 + (if Le32(p, i) == 1 then 104 else 288) * Le32(p, i + 4)
  }

  /** The calls made on account of the frame at `i`, whole or cut off. */
  function Said(p: seq<u8>, i: nat): seq<Call>
    requires i + 8 <= |p|
  {
    if Le32(p, i) == 1 then
      if |p| < NextHeader(p, i) then [Reset] else [Reset, SummaryAt(p, i + 8, Le32(p, i + 4))]
    else if Le32(p, i) == 2 then EventsAt(p, i + 8, Whole(p, i + 8, Le32(p, i + 4)))
    else []
  }

  predicate Sound(p: seq<u8>, i: nat)
    requires i + 8 <= |p|
  {
    (Le32(p, i) == 1 || Le32(p, i) == 2) && NextHeader(p, i) <= |p|
  }

  /** One round of the reader at a header position: it ends there, or it goes on behind a frame. */
  datatype Round = Stop(said: seq<Call>) | Go(said: seq<Call>, next: nat)

  function RoundAt(p: seq<u8>, i: nat): Round {
    if |p| < i + 8 then Stop([])
    else if Sound(p, i) then Go(Said(p, i), NextHeader(p, i))
    else Stop(Said(p, i))
  }

  function RoundsOf(p: seq<u8>): nat -> Round { (i: nat) => RoundAt(p, i) }

  /** The calls made from `i` on, when cancellation is noticed after `rounds` rounds. */
  function Calls(step: nat -> Round, i: nat, rounds: nat): seq<Call>
    decreases rounds
  {
    if rounds == 0 then []
    else
      match step(i)
      case Stop(said) => said
      case Go(said, next) => said + Calls(step, next, rounds - 1)
  }

  /** The last header position reached from `i` on. */
  function Boundary(step: nat -> Round, i: nat, rounds: nat): nat
    decreases rounds
  {
    if rounds == 0 || step(i).Stop? then i else Boundary(step, step(i).next, rounds - 1)
  }

  /** Whether the reader lives to notice the cancellation. */
  predicate Cancelled(step: nat -> Round, i: nat, rounds: nat)
    decreases rounds
  {
    rounds == 0 || (step(i).Go? && Cancelled(step, step(i).next, rounds - 1))
  }

  /** What a run comes to: its calls, the last header position, and whether it is cancelled. */
  datatype Sum = Sum(calls: seq<Call>, boundary: nat, cancelled: bool)

  function SumOf(step: nat -> Round, start: nat, rounds: nat): Sum {
    Sum(Calls(step, start, rounds), Boundary(step, start, rounds), Cancelled(step, start, rounds))
  }

  /** `done` has been said, and what is ahead of `pos`, with `left` rounds to go, makes up the rest of `sum`. */
  ghost predicate Ahead(step: nat -> Round, sum: Sum, done: seq<Call>, pos: nat, left: nat) {
    && sum.calls == done + Calls(step, pos, left)
    && sum.boundary == Boundary(step, pos, left)
    && sum.cancelled == Cancelled(step, pos, left)
  }

  lemma {:induction false} OneRound(step: nat -> Round, sum: Sum, done: seq<Call>, pos: nat, left: nat,
                                    said: seq<Call>, next: nat)
    requires Ahead(step, sum, done, pos, left) && left > 0 && step(pos) == Go(said, next)
    ensures Ahead(step, sum, done + said, next, left - 1)
  {
    Associate(done, said, Calls(step, next, left - 1));
  }

  lemma {:induction false} LastRound(step: nat -> Round, sum: Sum, done: seq<Call>, pos: nat, left: nat,
                                     said: seq<Call>)
    requires Ahead(step, sum, done, pos, left)
    requires if left == 0 then said == [] else step(pos) == Stop(said)
    ensures sum == Sum(done + said, pos, left == 0)
  {
  }

  lemma {:induction false} NextRound(step: nat -> Round, sum: Sum, done: seq<Call>, pos: nat, left: nat)
    requires Ahead(step, sum, done, pos, left) && left > 0
    ensures match step(pos)
      case Stop(said) => sum == Sum(done + said, pos, false)
      case Go(said, next) => Ahead(step, sum, done + said, next, left - 1)
  {
    match step(pos)
    case Stop(said) => LastRound(step, sum, done, pos, left, said);
    case Go(said, next) => OneRound(step, sum, done, pos, left, said, next);
  }

  function Flat(says: seq<seq<Call>>, n: nat): seq<Call>
    requires n <= |says|
  {
    if n == 0 then [] else Flat(says, n - 1) + says[n - 1]
  }

  /** Rounds that go on from one offset to the next say what each of them says. */
  lemma {:induction false} ManyRounds(step: nat -> Round, says: seq<seq<Call>>, offs: seq<nat>, n: nat, rounds: nat)
    requires n <= |says| < |offs| && n <= rounds && offs[0] == 0
    requires forall k :: 0 <= k < n ==> step(offs[k]) == Go(says[k], offs[k + 1])
    ensures Ahead(step, SumOf(step, 0, rounds), Flat(says, n), offs[n], rounds - n)
    decreases n
  {
    if n == 0 {
      NothingBefore(Calls(step, 0, rounds));
    } else {
      ManyRounds(step, says, offs, n - 1, rounds);
      OneRound(step, SumOf(step, 0, rounds), Flat(says, n - 1), offs[n - 1], rounds - (n - 1), says[n - 1], offs[n]);
    }
  }

  lemma {:induction false} EventsGrow(before: seq<Call>, p: seq<u8>, i: nat, n: nat)
    ensures (before + EventsAt(p, i, n)) + [EventAt(p, i + 288 * n)] == before + EventsAt(p, i, n + 1)
  {
  }

  // ----- the reader -----

  /** One connection. `data` is what arrives before it ends, fails or misses a deadline. */
  class Reader {
    const data: seq<u8>
    var pos: nat
    var calls: seq<Call>

    constructor (data: seq<u8>)
      ensures this.data == data && pos == 0 && calls == []
    {
      this.data := data;
      pos, calls := 0, [];
    }

    ghost predicate Valid()
      reads this
    {
      pos <= |data|
    }

    /** One round of the loop in readAndProcessBPFData: read a body and add it to its domain's. */
    method ReadBody(soFar: map<seq<u8>, Body>) returns (ok: bool, summaryBody: map<seq<u8>, Body>)
      requires Valid()
      modifies this`pos
      ensures Valid()
      ensures ok <==> old(pos) + 104 <= |data|
      ensures ok ==> pos == old(pos) + 104 && summaryBody == Joined(soFar, BodyAt(data, old(pos)))
    {
      if pos + 104 > |data| {
        return false, soFar;
      }
      var body := BodyAt(data, pos);
      pos := pos + 104;
      var domain := Trim(body.domain);
      if domain in soFar {
        body := body.(count := Wrap64(body.count + soFar[domain].count));
      }
      summaryBody := soFar[domain := body];
      return true, summaryBody;
    }

    /** The loop itself. */
    method ReadBodies(count: u32) returns (ok: bool, summaryBody: map<seq<u8>, Body>)
      requires Valid()
      modifies this`pos
      ensures Valid()
      ensures ok <==> old(pos) + 104 * count <= |data|
      ensures ok ==> pos == old(pos) + 104 * count && Summary(summaryBody) == SummaryAt(data, old(pos), count)
    {
      summaryBody := map[];
      ghost var start, bodies := pos, BodiesAt(data, pos, count);
      for i := 0 to count
        invariant pos == start + 104 * i <= |data|
        invariant summaryBody == Summed(bodies, i)
      {
        ok, summaryBody := ReadBody(summaryBody);
        if !ok {
          return;
        }
      }
      return true, summaryBody;
    }

    /** readAndProcessBPFData: all bodies are read before any is processed. */
    method ReadAndProcessBpfData(count: u32) returns (ok: bool)
      requires Valid()
      modifies this
      ensures Valid()
      ensures ok <==> old(pos) + 104 * count <= |data|
      ensures ok ==> pos == old(pos) + 104 * count
      ensures calls == old(calls) + if ok then [Reset, SummaryAt(data, old(pos), count)] else [Reset]
    {
      calls := calls + [Reset];
      var summaryBody;
      ok, summaryBody := ReadBodies(count);
      if !ok {
        return;
      }
      calls := calls + [Summary(summaryBody)];
    }

    /** readAndProcessKSMData: each event is processed as soon as it is read. */
    method ReadAndProcessKsmData(rowsNum: u32) returns (ok: bool)
      requires Valid()
      modifies this
      ensures Valid()
      ensures ok <==> old(pos) + 288 * rowsNum <= |data|
      ensures ok ==> pos == old(pos) + 288 * rowsNum
      ensures calls == old(calls) + EventsAt(data, old(pos), Whole(data, old(pos), rowsNum))
    {
      ghost var start, before := pos, calls;
      for i := 0 to rowsNum
        invariant pos == start + 288 * i <= |data|
        invariant calls == before + EventsAt(data, start, i)
      {
        if pos + 288 > |data| {
          WholeIs(data, start, rowsNum, i);
          return false;
        }
        EventsGrow(before, data, start, i);
        calls := calls + [EventAt(data, pos)];
        pos := pos + 288;
      }
      WholeIs(data, start, rowsNum, rowsNum);
      return true;
    }

    /** One round of readLoop: false when the header is missing or unknown, or a body is. */
    method ReadFrame() returns (ok: bool)
      requires Valid()
      modifies this
      ensures Valid()
      ensures calls == old(calls) + RoundAt(data, old(pos)).said
      ensures ok <==> RoundAt(data, old(pos)).Go?
      ensures ok ==> pos == RoundAt(data, old(pos)).next
    {
      if pos + 8 > |data| {
        NothingAfter(calls);
        return false;
      }
      var kind, rowsNum := Le32(data, pos), Le32(data, pos + 4);
      pos := pos + 8;
      if kind == 1 {
        ok := ReadAndProcessBpfData(rowsNum);
      } else if kind == 2 {
        ok := ReadAndProcessKsmData(rowsNum);
      } else {
        NothingAfter(calls);
        ok := false;
      }
    }

    /** What makes up the rest of `sum` stands ahead. */
    ghost predicate Owes(sum: Sum, left: nat)
      reads this
    {
      Ahead(RoundsOf(data), sum, calls, pos, left)
    }

    lemma {:induction false} OwesNothing(sum: Sum)
      requires Owes(sum, 0)
      ensures sum == Sum(calls, pos, true)
    {
      NothingAfter(calls);
      LastRound(RoundsOf(data), sum, calls, pos, 0, []);
    }

    /** A round inside the loop: it says its part, and the loop goes on or is over. */
    method NextFrame(ghost sum: Sum, ghost left: nat) returns (ok: bool)
      requires Valid() && left > 0 && Owes(sum, left)
      modifies this
      ensures Valid()
      ensures if ok then Owes(sum, left - 1) else sum == Sum(calls, old(pos), false)
    {
      ghost var before, boundary := calls, pos;
      ok := ReadFrame();
      NextRound(RoundsOf(data), sum, before, boundary, left);
    }

    /** The loop of readLoop: true when cancelled, which it notices at the start of a round, false when the bytes end
        or make no sense. Also the last header position. */
    method ReadRounds(ghost sum: Sum, rounds: nat) returns (cancelled: bool, boundary: nat)
      requires Valid() && Owes(sum, rounds)
      modifies this
      ensures Valid() && sum == Sum(calls, boundary, cancelled)
    {
      var left := rounds;
      while left > 0
        invariant Valid() && Owes(sum, left)
      {
        boundary := pos;
        var ok := NextFrame(sum, left);
        if !ok {
          return false, boundary;
        }
        left := left - 1;
      }
      OwesNothing(sum);
      return true, pos;
    }

    /** readLoop */
    method ReadLoop(rounds: nat) returns (cancelled: bool, boundary: nat)
      requires Valid()
      modifies this
      ensures Valid()
      ensures calls == old(calls) + Calls(RoundsOf(data), old(pos), rounds)
      ensures boundary == Boundary(RoundsOf(data), old(pos), rounds)
      ensures cancelled <==> Cancelled(RoundsOf(data), old(pos), rounds)
    {
      ghost var sum := SumOf(RoundsOf(data), pos, rounds);
      cancelled, boundary := ReadRounds(sum.(calls := calls + sum.calls), rounds);
    }
  }
}
