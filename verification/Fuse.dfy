/** The fuse of src/ebpf/policy.h: a bucket of 2500 admissions, refilled lazily with
    5 tokens per elapsed millisecond and carrying the remainder over exactly. */
module Fuse {
  import opened Machine

  const FUSE_INIT_TOKEN := 2500
  const REFILL_INTERVAL_NS := 1_000_000
  const TOKENS_TO_ADD := 5

  datatype State = State(lastTime: u64, tokens: u32)

  // ----- the eager bucket the fuse stands for -----

  /** One millisecond tick of the eager bucket. */
  function Tick(tokens: nat): nat {
    Min(FUSE_INIT_TOKEN, tokens + TOKENS_TO_ADD)
  }

  function AfterTicks(tokens: nat, n: nat): nat
    decreases n
  {
    if n == 0 then tokens else AfterTicks(Tick(tokens), n - 1)
  }

  /** An eager bucket: how many ticks it has seen since its first stamp, and its tokens. */
  datatype Eager = Eager(ticks: nat, tokens: nat)

  /** Ticks between the first stamp and time `t`. */
  function TicksAt(origin: nat, t: nat): nat
    requires origin <= t
  {
    (t - origin) / REFILL_INTERVAL_NS
  }

  /** A call at time `t`: let every tick up to `t` happen, then try to take one token. */
  function EagerCall(origin: nat, e: Eager, t: nat): (Eager, bool)
    requires origin <= t && e.ticks <= TicksAt(origin, t)
  {
    var k := TicksAt(origin, t);
    var tokens := AfterTicks(e.tokens, k - e.ticks);
    if tokens < 1 then (Eager(k, tokens), false) else (Eager(k, tokens - 1), true)
  }

  // ----- the fuse -----

  /** What one call does, told tick by tick. The flag is true when the call is admitted. */
  function Call(s: State, now: u64): (State, bool) {
    if s.lastTime == 0 then (State(now, FUSE_INIT_TOKEN), true)
    else
      var n := Sub64(now, s.lastTime) / REFILL_INTERVAL_NS;
      var tokens := AfterTicks(s.tokens, n);
      AfterTicksIsClamp(s.tokens, n);
      var last := Wrap64(s.lastTime + n * REFILL_INTERVAL_NS);
      if tokens < 1 then (State(last, tokens), false) else (State(last, tokens - 1), true)
  }

  lemma {:induction false} AfterTicksIsClamp(tokens: nat, n: nat)
    ensures AfterTicks(tokens, n) == if n == 0 then tokens else Min(FUSE_INIT_TOKEN, tokens + TOKENS_TO_ADD * n)
    decreases n
  {
    if n > 0 {
      AfterTicksIsClamp(Tick(tokens), n - 1);
    }
  }

  class FuseBucket {
    var lastTime: u64
    var tokens: u32

    function View(): State
      reads this
    {
      State(lastTime, tokens)
    }

    constructor ()
      ensures View() == State(0, 0)
    {
      lastTime, tokens := 0, 0;
    }

    /** trigger_fuse_ratelimit: true means the fuse blew and the packet is refused. */
    method Trigger(now: u64) returns (blown: bool)
      modifies this
      ensures (View(), !blown) == Call(old(View()), now)
    {
      if lastTime == 0 {
        lastTime, tokens := now, FUSE_INIT_TOKEN;
        return false;
      }
      var delta := Sub64(now, lastTime);
      RefillIsTicks(tokens, delta);
      StampAdvances(now, lastTime);
      if delta >= REFILL_INTERVAL_NS {
        var tokensToAdd := delta / REFILL_INTERVAL_NS * TOKENS_TO_ADD;
        lastTime := Sub64(now, delta % REFILL_INTERVAL_NS);
        var newTokens := Wrap64(tokens + tokensToAdd);
        tokens := if newTokens > FUSE_INIT_TOKEN then FUSE_INIT_TOKEN else newTokens;
      }
      if tokens < 1 {
        return true;
      }
      tokens := tokens - 1;
      return false;
    }
  }

  /** The refill computed at once is the one tick by tick, and never wraps. */
  lemma RefillIsTicks(tokens: u32, delta: u64)
    ensures var n := delta / REFILL_INTERVAL_NS; var added := Wrap64(tokens + n * TOKENS_TO_ADD);
      && (delta >= REFILL_INTERVAL_NS <==> n > 0)
      && AfterTicks(tokens, n) == if n == 0 then tokens else if added > FUSE_INIT_TOKEN then FUSE_INIT_TOKEN else added
  {
    var n := delta / REFILL_INTERVAL_NS;
    assert n <= 18_446_744_073_709;
    assert Wrap64(tokens + n * TOKENS_TO_ADD) == tokens + n * TOKENS_TO_ADD;
    AfterTicksIsClamp(tokens, n);
  }

  /** now - delta % I is the stamp moved on by whole intervals, wrapped. */
  lemma StampAdvances(now: u64, last: u64)
    ensures var delta := Sub64(now, last); var n := delta / REFILL_INTERVAL_NS;
      && Sub64(now, delta % REFILL_INTERVAL_NS) == Wrap64(last + n * REFILL_INTERVAL_NS)
      && (n == 0 ==> Wrap64(last + n * REFILL_INTERVAL_NS) == last)
  {
  }

  /** The verdict in closed form: from its first call on, the fuse admits exactly when the tokens left, and five
      more for every whole millisecond since the stamp, come to at least one; it then holds one less, and never
      more than 2500. */
  lemma AdmitsIff(s: State, now: u64)
    ensures var ms := (now - s.lastTime) % 0x1_0000_0000_0000_0000 / 1_000_000;
      var held := if ms == 0 then s.tokens else Min(2500, s.tokens + 5 * ms);
      var (s1, ok) := Call(s, now);
      if s.lastTime == 0 then ok && s1 == State(now, 2500)
      else (ok <==> held >= 1) && s1.tokens == (if ok then held - 1 else held)
  {
    if s.lastTime != 0 {
      AfterTicksIsClamp(s.tokens, Sub64(now, s.lastTime) / REFILL_INTERVAL_NS);
    }
  }

  // ----- whole runs -----

  function Run(s: State, times: seq<u64>): (r: (State, seq<bool>))
    ensures |r.1| == |times|
    decreases |times|
  {
    if times == [] then (s, [])
    else
      var (s1, ok) := Call(s, times[0]);
      var (s2, oks) := Run(s1, times[1..]);
      (s2, [ok] + oks)
  }

  lemma {:induction false} RunSnoc(s: State, times: seq<u64>, t: u64)
    ensures Run(s, times + [t]).0 == Call(Run(s, times).0, t).0
    ensures Run(s, times + [t]).1 == Run(s, times).1 + [Call(Run(s, times).0, t).1]
    decreases |times|
  {
    var more := times + [t];
    if times == [] {
      assert more[1..] == [];
    } else {
      assert more[1..] == times[1..] + [t];
      RunSnoc(Call(s, times[0]).0, times[1..], t);
    }
  }

  function EagerRun(origin: nat, e: Eager, times: seq<u64>): (Eager, seq<bool>)
    requires forall i :: 0 <= i < |times| ==> origin <= times[i] && e.ticks <= TicksAt(origin, times[i])
    requires forall i, j :: 0 <= i <= j < |times| ==> times[i] <= times[j]
    decreases |times|
  {
    if times == [] then (e, [])
    else
      var (e1, ok) := EagerCall(origin, e, times[0]);
      TicksGrow(origin, times);
      var (e2, oks) := EagerRun(origin, e1, times[1..]);
      (e2, [ok] + oks)
  }

  lemma TicksGrow(origin: nat, times: seq<u64>)
    requires forall i :: 0 <= i < |times| ==> origin <= times[i]
    requires forall i, j :: 0 <= i <= j < |times| ==> times[i] <= times[j]
    ensures forall i :: 0 <= i < |times| ==> TicksAt(origin, times[0]) <= TicksAt(origin, times[i])
  {
    forall i | 0 <= i < |times| ensures TicksAt(origin, times[0]) <= TicksAt(origin, times[i]) {
      DivMonotone(times[0] - origin, times[i] - origin, REFILL_INTERVAL_NS);
    }
  }

  /** The lazy state `s` stands for the eager state `e` counted from `origin`. */
  ghost predicate Represents(s: State, origin: nat, e: Eager) {
    s.lastTime == origin + e.ticks * REFILL_INTERVAL_NS && s.tokens == e.tokens
  }

  /** One lazy call and one eager call give the same verdict and stay related. */
  lemma CallSimulates(s: State, origin: nat, e: Eager, now: u64)
    requires 0 < origin <= now && e.ticks <= TicksAt(origin, now)
    requires Represents(s, origin, e)
    ensures Represents(Call(s, now).0, origin, EagerCall(origin, e, now).0)
    ensures Call(s, now).1 == EagerCall(origin, e, now).1
  {
    TicksSince(s, origin, e, now);
  }

  /** A call finds exactly the ticks between the represented one and its own time. */
  lemma TicksSince(s: State, origin: nat, e: Eager, now: u64)
    requires 0 < origin <= now && e.ticks <= TicksAt(origin, now)
    requires Represents(s, origin, e)
    ensures var n := TicksAt(origin, now) - e.ticks;
      && s.lastTime != 0 && Sub64(now, s.lastTime) / REFILL_INTERVAL_NS == n
      && Wrap64(s.lastTime + n * REFILL_INTERVAL_NS) == origin + TicksAt(origin, now) * REFILL_INTERVAL_NS
  {
    StepCount(now - origin, e.ticks, REFILL_INTERVAL_NS);
    var k := TicksAt(origin, now);
    assert now - origin == REFILL_INTERVAL_NS * k + (now - origin) % REFILL_INTERVAL_NS;
    assert Sub64(now, s.lastTime) == now - s.lastTime;
  }

  /** For every call sequence on a non-decreasing clock the lazy fuse gives the verdicts
      of the eager bucket, and ends in the state that represents the eager one. */
  lemma {:induction false} LazyIsEager(s: State, origin: nat, e: Eager, times: seq<u64>)
    requires 0 < origin && Clocked(s.lastTime, times)
    requires Represents(s, origin, e)
    ensures forall i :: 0 <= i < |times| ==> origin <= times[i] && e.ticks <= TicksAt(origin, times[i])
    ensures var (s', oks) := Run(s, times); var (e', oks') := EagerRun(origin, e, times);
      Represents(s', origin, e') && oks == oks'
    decreases |times|
  {
    forall i | 0 <= i < |times| ensures origin <= times[i] && e.ticks <= TicksAt(origin, times[i]) {
      StepCount(times[i] - origin, e.ticks, REFILL_INTERVAL_NS);
    }
    if times != [] {
      CallSimulates(s, origin, e, times[0]);
      var (s1, ok) := Call(s, times[0]);
      var (e1, ok') := EagerCall(origin, e, times[0]);
      LazyIsEager(s1, origin, e1, times[1..]);
    }
  }

  function Admissions(oks: seq<bool>): nat {
    if oks == [] then 0 else (if oks[0] then 1 else 0) + Admissions(oks[1..])
  }

  /** Tokens the eager bucket would hold at time `t` if nobody called. */
  function Held(s: State, t: nat): nat
    requires s.lastTime <= t
  {
    AfterTicks(s.tokens, (t - s.lastTime) / REFILL_INTERVAL_NS)
  }

  /** Budget between two moments: what is held at the first, plus the ticks in between. */
  function Budget(s: State, origin: nat, t1: nat, t2: nat): int
    requires s.lastTime <= t1 && origin <= t1 <= t2
  {
    Held(s, t1) + TOKENS_TO_ADD * (TicksAt(origin, t2) - TicksAt(origin, t1))
  }

  ghost predicate Stamped(s: State, origin: nat, k: nat) {
    0 < origin && s.lastTime == origin + k * REFILL_INTERVAL_NS && s.tokens <= FUSE_INIT_TOKEN
  }

  lemma BudgetNonnegative(s: State, origin: nat, t1: nat, t2: nat)
    requires s.lastTime <= t1 && origin <= t1 <= t2
    ensures Budget(s, origin, t1, t2) >= 0
  {
    DivMonotone(t1 - origin, t2 - origin, REFILL_INTERVAL_NS);
  }

  lemma HeldIs(s: State, origin: nat, k: nat, t: nat)
    requires Stamped(s, origin, k) && s.lastTime <= t
    ensures k <= TicksAt(origin, t) && Held(s, t) == AfterTicks(s.tokens, TicksAt(origin, t) - k)
  {
    StepCount(t - origin, k, REFILL_INTERVAL_NS);
  }

  lemma GrowsByTicks(tokens: nat, a: nat, b: nat)
    requires a <= b && tokens <= FUSE_INIT_TOKEN
    ensures AfterTicks(tokens, b) <= FUSE_INIT_TOKEN
    ensures AfterTicks(tokens, b) <= AfterTicks(tokens, a) + TOKENS_TO_ADD * (b - a)
  {
    AfterTicksIsClamp(tokens, a);
    AfterTicksIsClamp(tokens, b);
  }

  /** A call moves the stamp to the last tick before it and takes its token from what is held. */
  lemma CallTakes(s: State, origin: nat, k: nat, t: u64)
    requires Stamped(s, origin, k) && s.lastTime <= t
    ensures var (s1, ok) := Call(s, t);
      && Stamped(s1, origin, TicksAt(origin, t)) && s1.lastTime <= t
      && Held(s1, t) == Held(s, t) - if ok then 1 else 0
  {
    HeldIs(s, origin, k, t);
    GrowsByTicks(s.tokens, 0, TicksAt(origin, t) - k);
    CallSimulates(s, origin, Eager(k, s.tokens), t);
    var s1 := Call(s, t).0;
    assert s1.lastTime <= t by {
      assert (t - origin) == REFILL_INTERVAL_NS * TicksAt(origin, t) + (t - origin) % REFILL_INTERVAL_NS;
    }
    HeldIs(s1, origin, TicksAt(origin, t), t);
  }

  /** One call at time `t` spends at most what it takes from the budget. */
  lemma CallPaid(s: State, origin: nat, k: nat, t: u64, t1: nat, t2: nat)
    requires Stamped(s, origin, k) && s.lastTime <= t1 <= t <= t2
    ensures var (s1, ok) := Call(s, t);
      && Stamped(s1, origin, TicksAt(origin, t)) && s1.lastTime <= t
      && (if ok then 1 else 0) + Budget(s1, origin, t, t2) <= Budget(s, origin, t1, t2)
  {
    CallTakes(s, origin, k, t);
    HeldIs(s, origin, k, t1);
    HeldIs(s, origin, k, t);
    DivMonotone(t1 - origin, t - origin, REFILL_INTERVAL_NS);
    GrowsByTicks(s.tokens, TicksAt(origin, t1) - k, TicksAt(origin, t) - k);
  }

  /** Admissions in a run of calls at times in (t1, t2] are paid from what was held at t1
      and from the ticks in between. */
  lemma {:induction false} AdmissionsPaid(s: State, origin: nat, k: nat, times: seq<u64>, t1: nat, t2: nat)
    requires Stamped(s, origin, k) && s.lastTime <= t1 <= t2
    requires Clocked(t1, times) && forall i :: 0 <= i < |times| ==> times[i] <= t2
    ensures Admissions(Run(s, times).1) <= Budget(s, origin, t1, t2)
    decreases |times|
  {
    if times == [] {
      BudgetNonnegative(s, origin, t1, t2);
    } else {
      CallPaid(s, origin, k, times[0], t1, t2);
      var s1 := Call(s, times[0]).0;
      AdmissionsPaid(s1, origin, TicksAt(origin, times[0]), times[1..], times[0], t2);
      assert Run(s, times).1[1..] == Run(s1, times[1..]).1;
    }
  }

  lemma {:induction false} RunKeepsStamp(s: State, origin: nat, k: nat, times: seq<u64>, t: nat) returns (k': nat)
    requires Stamped(s, origin, k) && s.lastTime <= t
    requires Clocked(s.lastTime, times) && forall i :: 0 <= i < |times| ==> times[i] <= t
    ensures Stamped(Run(s, times).0, origin, k') && Run(s, times).0.lastTime <= t
    decreases |times|
  {
    k' := k;
    if times != [] {
      CallPaid(s, origin, k, times[0], times[0], times[0]);
      k' := RunKeepsStamp(Call(s, times[0]).0, origin, TicksAt(origin, times[0]), times[1..], t);
    }
  }

  /** Calls in one millisecond after the first are admitted up to 2500, and not one more. */
  lemma {:induction false} BurstExact(s: State, n: nat)
    requires s.lastTime > 0
    ensures forall i :: 0 <= i < n ==> (Run(s, Repeat(s.lastTime, n)).1[i] <==> i < s.tokens)
    decreases n
  {
    if n > 0 {
      var times := Repeat(s.lastTime, n);
      assert times[1..] == Repeat(s.lastTime, n - 1);
      AdmitsIff(s, s.lastTime);
      var s1 := Call(s, s.lastTime).0;
      BurstExact(s1, n - 1);
      assert Run(s, times).1[1..] == Run(s1, times[1..]).1;
    }
  }

  function Repeat(t: u64, n: nat): seq<u64> { seq(n, _ => t) }

  /** Window bound: whatever happened before t1, the calls at times in (t1, t2] admit at
      most 2500 packets plus 5 for every millisecond tick in between. */
  lemma WindowBound(start: u64, before: seq<u64>, window: seq<u64>, t1: nat, t2: nat)
    requires 0 < start <= t1 <= t2
    requires Clocked(start, before) && forall i :: 0 <= i < |before| ==> before[i] <= t1
    requires Clocked(t1, window) && forall i :: 0 <= i < |window| ==> window[i] <= t2
    ensures var s0 := Call(State(0, 0), start).0; var s1 := Run(s0, before).0;
      Admissions(Run(s1, window).1) <= 2500 + 5 * ((t2 - start) / 1_000_000 - (t1 - start) / 1_000_000)
  {
    var s0 := Call(State(0, 0), start).0;
    var k := RunKeepsStamp(s0, start, 0, before, t1);
    var s1 := Run(s0, before).0;
    AdmissionsPaid(s1, start, k, window, t1, t2);
    AfterTicksIsClamp(s1.tokens, (t1 - s1.lastTime) / REFILL_INTERVAL_NS);
  }
}
