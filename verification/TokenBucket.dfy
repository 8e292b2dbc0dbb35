/** The rate buckets of src/ebpf/policy.h: the global byte bucket, the packet-rate bucket
    and the per-flow byte bucket when its calls come one at a time. All three refill by
    (elapsed * rate mod 2^64) / 10^9 and clamp at a burst. */
module TokenBucket {
  import opened Machine

  datatype Bucket = Bucket(tokens: u64, last: u64)

  datatype Call = Call(now: u64, cost: u64)

  /** Tokens credited for `delta` elapsed nanoseconds: the product wraps before the division. */
  function Refill(delta: u64, rate: u64): u64 {
    Wrap64(delta * rate) / NS_PER_SEC
  }

  function Refilled(b: Bucket, now: u64, rate: u64, burst: u64): Bucket {
    var refill := Refill(Sub64(now, b.last), rate);
    if refill == 0 then b else Bucket(Min(Wrap64(b.tokens + refill), burst), now)
  }

  /** One call: refill, then take `cost` or leave the tokens alone. The flag is true on a pass. */
  function Take(b: Bucket, c: Call, rate: u64, burst: u64): (Bucket, bool) {
    var r := Refilled(b, c.now, rate, burst);
    if r.tokens < c.cost then (r, false) else (r.(tokens := r.tokens - c.cost), true)
  }

  /** The global bucket starts full, without charging the packet that starts it. */
  function TakeGlobal(b: Bucket, c: Call, rate: u64, burst: u64): (Bucket, bool) {
    if b.last == 0 then (Bucket(burst, c.now), true) else Take(b, c, rate, burst)
  }

  function TakePps(b: Bucket, now: u64, limit: u64): (Bucket, bool) {
    Take(b, Call(now, 1), limit, limit)
  }

  class GlobalBucket {
    var tokens: u64
    var lastTs: u64

    function View(): Bucket
      reads this
    {
      Bucket(tokens, lastTs)
    }

    constructor ()
      ensures View() == Bucket(0, 0)
    {
      tokens, lastTs := 0, 0;
    }

    /** consume_global_tokens */
    method Consume(now: u64, pktLen: u64, rate: u64, burst: u64) returns (pass: bool)
      modifies this
      ensures (View(), pass) == TakeGlobal(old(View()), Call(now, pktLen), rate, burst)
    {
      if lastTs == 0 {
        tokens, lastTs := burst, now;
        return true;
      }
      var delta := Sub64(now, lastTs);
      var refill := Wrap64(delta * rate) / NS_PER_SEC;
      if refill > 0 {
        tokens := Wrap64(tokens + refill);
        if tokens > burst { tokens := burst; }
        lastTs := now;
      }
      if tokens < pktLen {
        return false;
      }
      tokens := tokens - pktLen;
      return true;
    }
  }

  class PpsBucket {
    var tokens: u64
    var lastTs: u64

    function View(): Bucket
      reads this
    {
      Bucket(tokens, lastTs)
    }

    /** User space stores a full bucket before the first packet. */
    constructor (limit: u64)
      ensures View() == Bucket(limit, 0)
    {
      tokens, lastTs := limit, 0;
    }

    /** consume_global_pps */
    method Consume(now: u64, limit: u64) returns (pass: bool)
      modifies this
      ensures (View(), pass) == TakePps(old(View()), now, limit)
    {
      var delta := Sub64(now, lastTs);
      var refill := Wrap64(delta * limit) / NS_PER_SEC;
      if refill > 0 {
        tokens := Wrap64(tokens + refill);
        if tokens > limit { tokens := limit; }
        lastTs := now;
      }
      if tokens < 1 {
        return false;
      }
      tokens := tokens - 1;
      return true;
    }
  }

  // ----- whole runs -----

  ghost predicate Clocked(from: nat, calls: seq<Call>) {
    && (forall i :: 0 <= i < |calls| ==> from <= calls[i].now)
    && (forall i, j :: 0 <= i <= j < |calls| ==> calls[i].now <= calls[j].now)
  }

  /** The cost passed by a run of calls, at one rate and burst. */
  function Passed(b: Bucket, calls: seq<Call>, rate: u64, burst: u64): nat
    decreases |calls|
  {
    if calls == [] then 0
    else
      var (b1, ok) := Take(b, calls[0], rate, burst);
      (if ok then calls[0].cost else 0) + Passed(b1, calls[1..], rate, burst)
  }

  /** Credit earned from the stamp of `b` until `t`, in real arithmetic rounded down. */
  function Earned(b: Bucket, t: nat, rate: u64): nat
    requires b.last <= t
  {
    (t - b.last) * rate / NS_PER_SEC
  }

  lemma RefillNeverOverCredits(delta: u64, rate: u64)
    ensures Refill(delta, rate) <= delta * rate / NS_PER_SEC
  {
    WrapUnderCredits(delta * rate, TWO64, NS_PER_SEC);
  }

  lemma EarnedInTwoPieces(b: Bucket, t: u64, t2: nat, rate: u64)
    requires b.last <= t <= t2
    ensures Earned(b, t, rate) + Earned(Bucket(0, t), t2, rate) <= Earned(b, t2, rate)
  {
    assert (t - b.last) * rate + (t2 - t) * rate == (t2 - b.last) * rate;
    FloorSuperadditive((t - b.last) * rate, (t2 - t) * rate, NS_PER_SEC);
  }

  lemma SubIsDifference(now: u64, last: u64)
    requires last <= now
    ensures Sub64(now, last) == now - last
  {
  }

  lemma SumWrapsDown(a: nat, b: nat)
    ensures Wrap64(a + b) <= a + b
  {
  }

  lemma RefilledPaid(b: Bucket, now: u64, rate: u64, burst: u64, t2: nat)
    requires b.last <= now <= t2
    ensures var r := Refilled(b, now, rate, burst);
      r.last <= now && r.tokens + Earned(r, t2, rate) <= b.tokens + Earned(b, t2, rate)
  {
    var refill := Refill(Sub64(now, b.last), rate);
    if refill != 0 {
      SubIsDifference(now, b.last);
      RefillNeverOverCredits(now - b.last, rate);
      EarnedInTwoPieces(b, now, t2, rate);
      SumWrapsDown(b.tokens, refill);
    }
  }

  /** One call pays for what it passes out of the tokens and the credit earned so far. */
  lemma TakePaid(b: Bucket, c: Call, rate: u64, burst: u64, t2: nat)
    requires b.last <= c.now <= t2
    ensures var (b1, ok) := Take(b, c, rate, burst);
      && b1.last <= c.now
      && (if ok then c.cost else 0) + b1.tokens + Earned(b1, t2, rate) <= b.tokens + Earned(b, t2, rate)
  {
    RefilledPaid(b, c.now, rate, burst, t2);
    var r := Refilled(b, c.now, rate, burst);
    var b1 := Take(b, c, rate, burst).0;
    assert Earned(b1, t2, rate) == Earned(r, t2, rate);
  }

  /** Safety of the limiter: from any state (tokens T, stamp L) and on a non-decreasing clock,
      the cost passed by time `t2` is at most T + floor(rate * (t2 - L) / 10^9). The products
      that wrap modulo 2^64 only ever credit less. */
  lemma {:induction false} PassedBound(b: Bucket, calls: seq<Call>, rate: u64, burst: u64, t2: nat)
    requires b.last <= t2
    requires Clocked(b.last, calls) && forall i :: 0 <= i < |calls| ==> calls[i].now <= t2
    ensures Passed(b, calls, rate, burst) <= b.tokens + Earned(b, t2, rate)
    decreases |calls|
  {
    if calls != [] {
      TakePaid(b, calls[0], rate, burst, t2);
      PassedBound(Take(b, calls[0], rate, burst).0, calls[1..], rate, burst, t2);
    }
  }

  /** The same for the global bucket, from any tokens and any stamp it can have once started. */
  lemma GlobalBound(b: Bucket, calls: seq<Call>, rate: u64, burst: u64, t2: nat)
    requires 0 < b.last <= t2
    requires Clocked(b.last, calls) && forall i :: 0 <= i < |calls| ==> calls[i].now <= t2
    ensures PassedGlobal(b, calls, rate, burst) <= b.tokens + Earned(b, t2, rate)
  {
    PassedBound(b, calls, rate, burst, t2);
    GlobalIsTake(b, calls, rate, burst);
  }

  /** From its first packet on, at a positive time `t0`: the burst plus the credit since then. */
  lemma GlobalFromFirst(t0: u64, len0: u64, calls: seq<Call>, rate: u64, burst: u64, t2: nat)
    requires 0 < t0 <= t2
    requires Clocked(t0, calls) && forall i :: 0 <= i < |calls| ==> calls[i].now <= t2
    ensures var b0 := TakeGlobal(Bucket(0, 0), Call(t0, len0), rate, burst).0;
      PassedGlobal(b0, calls, rate, burst) <= burst + (t2 - t0) * rate / NS_PER_SEC
  {
    GlobalBound(Bucket(burst, t0), calls, rate, burst, t2);
  }

  function PassedGlobal(b: Bucket, calls: seq<Call>, rate: u64, burst: u64): nat
    decreases |calls|
  {
    if calls == [] then 0
    else
      var (b1, ok) := TakeGlobal(b, calls[0], rate, burst);
      (if ok then calls[0].cost else 0) + PassedGlobal(b1, calls[1..], rate, burst)
  }

  lemma {:induction false} GlobalIsTake(b: Bucket, calls: seq<Call>, rate: u64, burst: u64)
    requires b.last > 0 && Clocked(b.last, calls)
    ensures PassedGlobal(b, calls, rate, burst) == Passed(b, calls, rate, burst)
    decreases |calls|
  {
    if calls != [] {
      var b1 := Take(b, calls[0], rate, burst).0;
      GlobalIsTake(b1, calls[1..], rate, burst);
    }
  }

  /** The same for the packet-rate bucket, a packet costing one token. */
  lemma PpsBound(b: Bucket, times: seq<u64>, limit: u64, t2: nat)
    requires b.last <= t2 && Machine.Clocked(b.last, times) && forall i :: 0 <= i < |times| ==> times[i] <= t2
    ensures PassedPps(b, times, limit) <= b.tokens + Earned(b, t2, limit)
  {
    var calls := seq(|times|, i requires 0 <= i < |times| => Call(times[i], 1));
    PassedBound(b, calls, limit, limit, t2);
    PpsIsTake(b, times, calls, limit);
  }

  function PassedPps(b: Bucket, times: seq<u64>, limit: u64): nat
    decreases |times|
  {
    if times == [] then 0
    else
      var (b1, ok) := TakePps(b, times[0], limit);
      (if ok then 1 else 0) + PassedPps(b1, times[1..], limit)
  }

  lemma {:induction false} PpsIsTake(b: Bucket, times: seq<u64>, calls: seq<Call>, limit: u64)
    requires |calls| == |times| && forall i :: 0 <= i < |times| ==> calls[i] == Call(times[i], 1)
    ensures PassedPps(b, times, limit) == Passed(b, calls, limit, limit)
    decreases |times|
  {
    if times != [] {
      PpsIsTake(TakePps(b, times[0], limit).0, times[1..], calls[1..], limit);
    }
  }

  /** With the 32-bit rates and bursts of the configuration the addition itself never wraps,
      and the tokens stay within the burst. */
  lemma ConfiguredNeverWraps(b: Bucket, c: Call, rate: u64, burst: u32)
    requires b.tokens <= burst
    ensures b.tokens + Refill(Sub64(c.now, b.last), rate) < TWO64
    ensures Take(b, c, rate, burst).0.tokens <= burst
  {
  }

  /** The refill is the credit earned exactly when the product does not wrap. */
  lemma RefillExactIff(delta: u64, rate: u64)
    ensures Refill(delta, rate) == delta * rate / NS_PER_SEC <==> delta * rate < TWO64
  {
    var x: nat := delta * rate;
    if x >= TWO64 {
      DivMonotone(Wrap64(x) + TWO64, x, NS_PER_SEC);
      FloorSuperadditive(Wrap64(x), TWO64, NS_PER_SEC);
    } else {
      SmallWraps(x);
    }
  }

  lemma SmallWraps(x: nat)
    requires x < TWO64
    ensures Wrap64(x) == x
  {
  }

  lemma RefillIsSmall(delta: u64, rate: u64)
    ensures Refill(delta, rate) <= 18_446_744_073
  {
  }

  /** One call on a bucket within its burst, its refill given: refused exactly when the clamped sum does not
      cover it; a pass takes its cost from that sum, a refusal only credits; the stamp moves when there is
      credit. */
  lemma RefusedFor(b: Bucket, c: Call, rate: u64, burst: u32, credit: nat)
    requires credit == Refill(Sub64(c.now, b.last), rate) && b.tokens <= burst
    ensures var (b1, ok) := Take(b, c, rate, burst);
      && (ok <==> c.cost <= Min(b.tokens + credit, burst))
      && b1.tokens + (if ok then c.cost else 0) == Min(b.tokens + credit, burst)
      && b1.last == (if credit == 0 then b.last else c.now)
  {
    RefillIsSmall(Sub64(c.now, b.last), rate);
    SmallWraps(b.tokens + credit);
  }

  /** At time `now` the bucket refuses exactly the calls that tokens and credit earned do not cover. */
  ghost predicate RefusesRightly(b: Bucket, now: u64, rate: u64, burst: u32)
    requires b.last <= now
  {
    forall cost: u64 :: Take(b, Call(now, cost), rate, burst).1 <==> cost <= Min(b.tokens + Earned(b, now, rate), burst)
  }

  /** It does so if and only if the product of idle time and rate does not wrap, or what is left of it fills
      the bucket all the same. Otherwise it refuses what it should pass, never the other way round. */
  lemma RefusedIff(b: Bucket, now: u64, rate: u64, burst: u32)
    requires b.last <= now && b.tokens <= burst
    ensures var idle := now - b.last;
      RefusesRightly(b, now, rate, burst) <==>
      idle * rate < TWO64 || b.tokens + Wrap64(idle * rate) / NS_PER_SEC >= burst
    ensures forall cost: u64 ::
      Take(b, Call(now, cost), rate, burst).1 ==> cost <= Min(b.tokens + Earned(b, now, rate), burst)
  {
    SubIsDifference(now, b.last);
    var credit := Refill(now - b.last, rate);
    RefillExactIff(now - b.last, rate);
    RefillNeverOverCredits(now - b.last, rate);
    forall cost: u64
      ensures Take(b, Call(now, cost), rate, burst).1 <==> cost <= Min(b.tokens + credit, burst)
    {
      RefusedFor(b, Call(now, cost), rate, burst, credit);
    }
    if credit < Earned(b, now, rate) && b.tokens + credit < burst {
      assert !Take(b, Call(now, b.tokens + credit + 1), rate, burst).1;
    }
  }

  // ----- what must be let through -----

  function Cost(calls: seq<Call>): nat {
    if calls == [] then 0 else calls[0].cost + Cost(calls[1..])
  }

  /** Tokens in hand are honoured: calls that they cover pass, all of them, at any times and any rate. */
  lemma {:induction false} BurstPasses(b: Bucket, calls: seq<Call>, rate: u64, burst: u32)
    requires Cost(calls) <= b.tokens <= burst
    ensures Passed(b, calls, rate, burst) == Cost(calls)
    decreases |calls|
  {
    if calls != [] {
      RefusedFor(b, calls[0], rate, burst, Refill(Sub64(calls[0].now, b.last), rate));
      BurstPasses(Take(b, calls[0], rate, burst).0, calls[1..], rate, burst);
    }
  }

  /** The packet that starts the global bucket passes whatever its length, and so does every burst after it
      that fits into one bucket. */
  lemma GlobalOpensFull(first: Call, calls: seq<Call>, rate: u64, burst: u32)
    requires first.now > 0 && Clocked(first.now, calls) && Cost(calls) <= burst
    ensures var (b, ok) := TakeGlobal(Bucket(0, 0), first, rate, burst);
      ok && PassedGlobal(b, calls, rate, burst) == Cost(calls)
  {
    BurstPasses(Bucket(burst, first.now), calls, rate, burst);
    GlobalIsTake(Bucket(burst, first.now), calls, rate, burst);
  }

  /** The packet-rate bucket refuses exactly when it is empty and has earned nothing, when the limit is zero,
      or when tokens and credit add up to 2^64; a pass takes one token. */
  lemma PpsPassesIff(b: Bucket, now: u64, limit: u64)
    requires b.tokens <= limit
    ensures var credit := (now - b.last) % 0x1_0000_0000_0000_0000 * limit % 0x1_0000_0000_0000_0000 / 1_000_000_000;
      var (b1, ok) := TakePps(b, now, limit);
      && (ok <==> limit > 0 && b.tokens + credit != 0 && b.tokens + credit != 0x1_0000_0000_0000_0000)
      && (b.tokens + credit < 0x1_0000_0000_0000_0000 ==>
            b1.tokens + (if ok then 1 else 0) == Min(b.tokens + credit, limit))
      && b1.tokens <= limit
      && b1.last == (if credit == 0 then b.last else now)
  {
    var credit := Refill(Sub64(now, b.last), limit);
    RefillIsSmall(Sub64(now, b.last), limit);
    WrapOfSum(b.tokens, credit);
  }

  lemma WrapOfSum(a: u64, b: u64)
    ensures Wrap64(a + b) == if a + b < TWO64 then a + b else a + b - TWO64
  {
  }

  /** After eighteen and a half idle seconds at a gigabyte per second an empty bucket refuses a single byte. */
  lemma StarvedAfterIdle(start: u64, burst: u32)
    requires start + 18_446_744_074 < TWO64 && burst > 0
    ensures !Take(Bucket(0, start), Call(start + 18_446_744_074, 1), NS_PER_SEC, burst).1
    ensures Earned(Bucket(0, start), start + 18_446_744_074, NS_PER_SEC) == 18_446_744_074
    ensures !RefusesRightly(Bucket(0, start), start + 18_446_744_074, NS_PER_SEC, burst)
  {
    var b := Bucket(0, start);
    SubIsDifference(start + 18_446_744_074, start);
    RefusedFor(b, Call(start + 18_446_744_074, 1), NS_PER_SEC, burst, 0);
    RefusedIff(b, start + 18_446_744_074, NS_PER_SEC, burst);
  }
}
