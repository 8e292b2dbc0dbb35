/** Which promises of the per-flow bucket survive how many CPUs. The clock only moves forward, but a CPU may
    read it, be overtaken, and then work on a stamp later than its reading: from two CPUs on nothing that
    one CPU keeps is kept. */
module FlowBucketCpus {
  import opened Machine
  import opened FlowBucketSteps

  /** Calls at `rate`, each reading a clock that has shown `clock` and never goes back. */
  ghost predicate Timed(es: seq<Event>, clock: u64, rate: u64)
    decreases |es|
  {
    es == [] ||
    match es[0].move
    case Begin(now, r, _, _) => clock <= now && r == rate && Timed(es[1..], now, rate)
    case Advance => Timed(es[1..], clock, rate)
  }

  /** All credit, won or added, is covered by the time spanned. */
  ghost predicate Credited(init: u64, first: u64, rate: u64, n: nat, es: seq<Event>)
    requires Fits(es, n)
  {
    var s := Run(Start(init, first, n), es);
    first <= s.last && s.book.credited + Uncredited(s.cpus) <= (s.last - first) * rate / NS_PER_SEC
  }

  /** What has passed is covered by the initial tokens and the credit of the time spanned. */
  ghost predicate Covered(init: u64, first: u64, rate: u64, n: nat, es: seq<Event>)
    requires Fits(es, n)
  {
    var s := Run(Start(init, first, n), es);
    first <= s.last && s.book.passed <= init + (s.last - first) * rate / NS_PER_SEC
  }

  /** `n` CPUs never win more credit than time allows, whatever they do on a forward clock. */
  ghost predicate CreditFor(n: nat) {
    forall init: u64, first: u64, rate: u64, es: seq<Event> ::
      Fits(es, n) && Timed(es, first, rate) ==> Credited(init, first, rate, n, es)
  }

  /** `n` CPUs never pass more than tokens and credit, whatever they do on a forward clock. */
  ghost predicate StrictFor(n: nat) {
    forall init: u64, first: u64, rate: u64, es: seq<Event> ::
      Fits(es, n) && Timed(es, first, rate) ==> Covered(init, first, rate, n, es)
  }

  /** The same for the runs in which no CPU is overtaken. */
  ghost predicate StrictInOrder(n: nat) {
    forall init: u64, first: u64, rate: u64, es: seq<Event> ::
      Fits(es, n) && InOrder(Start(init, first, n), es, rate) ==> Covered(init, first, rate, n, es)
  }

  /** What the clock has shown after a move. */
  function Later(clock: u64, m: Move): u64 { if m.Begin? then m.now else clock }

  // ----- one CPU -----

  /** Stamp and clock readings are no later than the clock. */
  ghost predicate OnTime(s: State, clock: u64) {
    && s.last <= clock
    && (forall i :: 0 <= i < |s.cpus| ==>
          && (s.cpus[i].Started? ==> s.last <= s.cpus[i].now <= clock)
          && (s.cpus[i].Loaded? ==> s.cpus[i].now <= clock))
  }

  lemma OnTimeStep(s: State, m: Move, clock: u64)
    requires |s.cpus| == 1 && OnTime(s, clock) && (m.Begin? ==> clock <= m.now)
    ensures OnTime(Next(s, 0, m), Later(clock, m))
  {
  }

  /** One CPU is never overtaken. */
  lemma {:induction false} AloneInOrder(s: State, es: seq<Event>, clock: u64, rate: u64)
    requires |s.cpus| <= 1 && Fits(es, |s.cpus|) && OnTime(s, clock) && Timed(es, clock, rate)
    ensures InOrder(s, es, rate)
    decreases |es|
  {
    if es != [] {
      assert es[0].cpu == 0;
      assert Fits(es[1..], |s.cpus|);
      var m := es[0].move;
      OnTimeStep(s, m, clock);
      AloneInOrder(Next(s, 0, m), es[1..], Later(clock, m), rate);
    }
  }

  /** One CPU never overlaps with itself. */
  lemma {:induction false} AloneIsUndisturbed(s: State, es: seq<Event>)
    requires |s.cpus| <= 1 && Fits(es, |s.cpus|)
    ensures Undisturbed(s, es)
    decreases |es|
  {
    if es != [] {
      assert es[0].cpu == 0 && s.cpus == [s.cpus[0]];
      assert Outstanding(s.cpus) == Due(s.cpus[0]);
      assert Fits(es[1..], |s.cpus|);
      AloneIsUndisturbed(Next(s, es[0].cpu, es[0].move), es[1..]);
    }
  }

  lemma {:induction false} AloneIsCovered(init: u64, first: u64, rate: u64, n: nat, es: seq<Event>)
    requires n <= 1 && Fits(es, n) && InOrder(Start(init, first, n), es, rate)
    ensures Covered(init, first, rate, n, es)
  {
    AloneIsUndisturbed(Start(init, first, n), es);
    StrictBound(init, first, n, es, rate);
  }

  // ----- two CPUs -----

  lemma {:induction false} Prepend(s: State, e: Event, es: seq<Event>, clock: u64, rate: u64)
    returns (all: seq<Event>)
    requires e.cpu < |s.cpus| && Fits(es, |s.cpus|) && Timed(es, Later(clock, e.move), rate)
    requires e.move.Begin? ==> clock <= e.move.now && e.move.rate == rate
    ensures Fits(all, |s.cpus|) && Timed(all, clock, rate)
    ensures Run(s, all) == Run(Next(s, e.cpu, e.move), es)
    ensures InOrder(Next(s, e.cpu, e.move), es, rate) && (s.cpus[e.cpu].Started? ==> s.last <= s.cpus[e.cpu].now) ==>
              InOrder(s, all, rate)
  {
    all := [e] + es;
    assert all[1..] == es;
  }

  /** A run of `n` CPUs on one clock reading, at rate 0 from an empty bucket, that passes something. */
  ghost predicate Overdraws(es: seq<Event>, n: nat) {
    && Fits(es, n)
    && Timed(es, 7, 0)
    && InOrder(Start(0, 7, n), es, 0)
    && Run(Start(0, 7, n), es).last == 7
    && Run(Start(0, 7, n), es).book.passed > 0
  }

  /** From an empty bucket, a second CPU debits while the first one's refused debit is outstanding, and
      passes. Nobody is overtaken. */
  lemma OverlapOverdraws(n: nat)
    requires n >= 2
    ensures exists es: seq<Event> :: Overdraws(es, n)
  {
    var b := Begin(7, 0, 0, 1);
    var s0 := Start(0, 7, n);
    var s1 := Next(s0, 0, b);
    var s2 := Next(s1, 0, Advance);
    var s3 := Next(s2, 0, Advance);
    assert s3.cpus[0] == Debit(1) && s3.cpus[1] == Idle && s3.tokens == 0;
    var s4 := Next(s3, 0, Advance);
    assert s4.tokens == TWO64 - 1;
    var es := SecondPasses(s4);
    es := Prepend(s3, Event(0, Advance), es, 7, 0);
    es := Prepend(s2, Event(0, Advance), es, 7, 0);
    es := Prepend(s1, Event(0, Advance), es, 7, 0);
    es := Prepend(s0, Event(0, b), es, 7, 0);
    assert Overdraws(es, n);
  }

  /** An idle second CPU passes one byte of the wrapped word. */
  lemma SecondPasses(s: State) returns (es: seq<Event>)
    requires |s.cpus| >= 2 && s.cpus[1] == Idle && s.tokens == TWO64 - 1 && s.last == 7 && s.book.passed == 0
    ensures Fits(es, |s.cpus|) && Timed(es, 7, 0) && InOrder(s, es, 0)
    ensures Run(s, es).last == 7 && Run(s, es).book.passed == 1
  {
    var b := Begin(7, 0, 0, 1);
    var s1 := Next(s, 1, b);
    var s2 := Next(s1, 1, Advance);
    var s3 := Next(s2, 1, Advance);
    assert s3.cpus[1] == Debit(1);
    es := Prepend(s3, Event(1, Advance), [], 7, 0);
    es := Prepend(s2, Event(1, Advance), es, 7, 0);
    es := Prepend(s1, Event(1, Advance), es, 7, 0);
    es := Prepend(s, Event(1, b), es, 7, 0);
  }

  const EARLY: u64 := 1_000_000_001
  const LATE: u64 := 1_000_000_003

  /** A run of `n` CPUs at one byte per second that wins eighteen gigabytes in one second. */
  ghost predicate Overcredits(es: seq<Event>, n: nat) {
    && Fits(es, n)
    && Timed(es, 0, 1)
    && Run(Start(0, 0, n), es).last == EARLY
    && Run(Start(0, 0, n), es).book.credited == 18_446_744_073
  }

  /** The first CPU reads the clock and is overtaken by the second, which reads it later and stamps first: the
      difference the first one then computes is negative and wraps. */
  lemma OvertakenOvercredits(n: nat)
    requires n >= 2
    ensures exists es: seq<Event> :: Overcredits(es, n)
  {
    var b0, b1 := Begin(EARLY, 1, 0, 0), Begin(LATE, 1, 0, 0);
    var s0 := Start(0, 0, n);
    var s1 := Next(s0, 0, b0);
    var s2 := Next(s1, 1, b1);
    var s3 := Next(s2, 1, Advance);
    var s4 := Next(s3, 1, Advance);
    assert s4.cpus[0] == Started(EARLY, 1, 0, 0) && s4.last == LATE && s4.book.credited == 0;
    var es := OvertakenCredits(s4);
    es := Prepend(s3, Event(1, Advance), es, LATE, 1);
    es := Prepend(s2, Event(1, Advance), es, LATE, 1);
    es := Prepend(s1, Event(1, b1), es, EARLY, 1);
    es := Prepend(s0, Event(0, b0), es, 0, 1);
    assert Overcredits(es, n);
  }

  lemma OvertakenCredits(s: State) returns (es: seq<Event>)
    requires |s.cpus| >= 1 && s.cpus[0] == Started(EARLY, 1, 0, 0) && s.last == LATE && s.book.credited == 0
    ensures Fits(es, |s.cpus|) && Timed(es, LATE, 1)
    ensures Run(s, es).last == EARLY && Run(s, es).book.credited == 18_446_744_073
  {
    var s1 := Next(s, 0, Advance);
    var s2 := Next(s1, 0, Advance);
    assert s2.cpus[0] == Credit(18_446_744_073, 0, 0);
    es := Prepend(s2, Event(0, Advance), [], LATE, 1);
    es := Prepend(s1, Event(0, Advance), es, LATE, 1);
    es := Prepend(s, Event(0, Advance), es, LATE, 1);
  }

  // ----- the number of CPUs decides -----

  /** Credit keeps to the time spanned in all runs exactly when there is at most one CPU. */
  lemma CreditIff(n: nat)
    ensures CreditFor(n) <==> n <= 1
  {
    if n <= 1 {
      forall init: u64, first: u64, rate: u64, es: seq<Event> | Fits(es, n) && Timed(es, first, rate)
        ensures Credited(init, first, rate, n, es)
      {
        AloneInOrder(Start(init, first, n), es, first, rate);
        CreditBound(init, first, n, es, rate);
      }
    } else {
      OvertakenOvercredits(n);
      var es: seq<Event> :| Overcredits(es, n);
      assert !Credited(0, 0, 1, n, es);
    }
  }

  /** So does what passes, and among the runs in which nobody is overtaken no more CPUs are allowed. */
  lemma StrictIff(n: nat)
    ensures StrictFor(n) <==> n <= 1
    ensures StrictInOrder(n) <==> n <= 1
  {
    if n <= 1 {
      forall init: u64, first: u64, rate: u64, es: seq<Event> | Fits(es, n) && Timed(es, first, rate)
        ensures Covered(init, first, rate, n, es)
      {
        AloneInOrder(Start(init, first, n), es, first, rate);
        AloneIsCovered(init, first, rate, n, es);
      }
      forall init: u64, first: u64, rate: u64, es: seq<Event> |
          Fits(es, n) && InOrder(Start(init, first, n), es, rate)
        ensures Covered(init, first, rate, n, es)
      {
        AloneIsCovered(init, first, rate, n, es);
      }
    } else {
      OverlapOverdraws(n);
      var es: seq<Event> :| Overdraws(es, n);
      assert !Covered(0, 7, 0, n, es);
    }
  }
}
