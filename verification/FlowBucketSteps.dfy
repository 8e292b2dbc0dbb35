/** consume_flow_tokens of src/ebpf/policy.h, split at its atomic accesses, for any number of
    CPUs interleaving on one flow entry. A ledger beside the shared words records what the
    steps did, so that the shared token count can be compared with it. */
module FlowBucketSteps {
  import opened Machine
  import TB = TokenBucket

  /** Where one CPU stands inside a call, with its local variables. */
  datatype Local =
    | Idle
    | Started(now: u64, rate: u64, burst: u64, len: u64)             // next: load last_refill
    | Loaded(now: u64, last: u64, rate: u64, burst: u64, len: u64)   // next: compare-and-swap last_refill
    | Credit(refill: u64, burst: u64, len: u64)                      // next: fetch-add the refill
    | Check(burst: u64, len: u64)                                    // next: load tokens
    | Clamp(curr: u64, burst: u64, len: u64)                         // next: compare-and-swap tokens
    | Debit(len: u64)                                                // next: fetch-sub
    | GiveBack(len: u64)                                             // next: fetch-add the debit back

  /** One successful compare-and-swap of last_refill, and the refill it won. */
  datatype Swap = Swap(from: u64, to: u64, refill: u64)

  datatype Ledger = Ledger(credited: nat, clamped: int, passed: nat, swaps: seq<Swap>)

  datatype State = State(tokens: u64, last: u64, cpus: seq<Local>, book: Ledger)

  /** A CPU either begins a call, when idle, or performs the next atomic step of its call. */
  datatype Move = Begin(now: u64, rate: u64, burst: u64, len: u64) | Advance

  function Next(s: State, i: nat, m: Move): State
    requires i < |s.cpus|
  {
    match s.cpus[i]
    case Idle =>
      if m.Begin? then s.(cpus := s.cpus[i := Started(m.now, m.rate, m.burst, m.len)]) else s
    case Started(now, rate, burst, len) =>
      s.(cpus := s.cpus[i := Loaded(now, s.last, rate, burst, len)])
    case Loaded(now, last, rate, burst, len) =>
      var refill := TB.Refill(Sub64(now, last), rate);
      if refill == 0 || s.last != last then s.(cpus := s.cpus[i := Debit(len)])
      else s.(last := now,
              cpus := s.cpus[i := Credit(refill, burst, len)],
              book := s.book.(swaps := s.book.swaps + [Swap(last, now, refill)]))
    case Credit(refill, burst, len) =>
      s.(tokens := Wrap64(s.tokens + refill),
         cpus := s.cpus[i := Check(burst, len)],
         book := s.book.(credited := s.book.credited + refill))
    case Check(burst, len) =>
      s.(cpus := s.cpus[i := if s.tokens > burst then Clamp(s.tokens, burst, len) else Debit(len)])
    case Clamp(curr, burst, len) =>
      if s.tokens == curr then
        s.(tokens := burst,
           cpus := s.cpus[i := Debit(len)],
           book := s.book.(clamped := s.book.clamped + (curr - burst)))
      else s.(cpus := s.cpus[i := Debit(len)])
    case Debit(len) =>
      if s.tokens < len then
        s.(tokens := Wrap64(s.tokens - len), cpus := s.cpus[i := GiveBack(len)])
      else
        s.(tokens := s.tokens - len,
           cpus := s.cpus[i := Idle],
           book := s.book.(passed := s.book.passed + len))
    case GiveBack(len) =>
      s.(tokens := Wrap64(s.tokens + len), cpus := s.cpus[i := Idle])
  }

  datatype Event = Event(cpu: nat, move: Move)

  ghost predicate Fits(es: seq<Event>, n: nat) {
    forall k :: 0 <= k < |es| ==> es[k].cpu < n
  }

  function Run(s: State, es: seq<Event>): (r: State)
    requires Fits(es, |s.cpus|)
    ensures |r.cpus| == |s.cpus|
    decreases |es|
  {
    if es == [] then s
    else
      assert forall k :: 0 <= k < |es[1..]| ==> es[1..][k] == es[k + 1];
      Run(Next(s, es[0].cpu, es[0].move), es[1..])
  }

  function Start(tokens: u64, last: u64, n: nat): State {
    State(tokens, last, seq(n, _ => Idle), Ledger(0, 0, 0, []))
  }

  // ----- what CPUs still owe or are owed -----

  function Due(l: Local): nat {
    if l.GiveBack? then l.len else 0
  }

  function Won(l: Local): nat {
    if l.Credit? then l.refill else 0
  }

  /** Debits taken from refused packets and not yet given back. */
  function Outstanding(cpus: seq<Local>): nat {
    if cpus == [] then 0 else Due(cpus[0]) + Outstanding(cpus[1..])
  }

  /** Refills won by a compare-and-swap and not yet added. */
  function Uncredited(cpus: seq<Local>): nat {
    if cpus == [] then 0 else Won(cpus[0]) + Uncredited(cpus[1..])
  }

  lemma {:induction false} SumsAfterUpdate(cpus: seq<Local>, i: nat, l: Local)
    requires i < |cpus|
    ensures Outstanding(cpus[i := l]) == Outstanding(cpus) - Due(cpus[i]) + Due(l)
    ensures Uncredited(cpus[i := l]) == Uncredited(cpus) - Won(cpus[i]) + Won(l)
  {
    if i == 0 {
      assert cpus[0 := l][1..] == cpus[1..];
    } else {
      assert cpus[i := l][1..] == cpus[1..][i - 1 := l];
      SumsAfterUpdate(cpus[1..], i - 1, l);
    }
  }

  lemma {:induction false} IdleOwesNothing(n: nat)
    ensures Outstanding(seq(n, _ => Idle)) == 0 && Uncredited(seq(n, _ => Idle)) == 0
  {
    if n > 0 {
      assert seq(n, _ => Idle)[1..] == seq(n - 1, _ => Idle);
      IdleOwesNothing(n - 1);
    }
  }

  // ----- conservation modulo 2^64 -----

  /** The exact balance of the ledger; it may be negative or exceed 64 bits. */
  function Balance(init: u64, b: Ledger): int {
    init + b.credited - b.clamped - b.passed
  }

  ghost predicate Conserved(s: State, init: u64) {
    s.tokens == Wrap64(Balance(init, s.book) - Outstanding(s.cpus))
  }

  lemma WrapAdd(x: int, y: int)
    ensures Wrap64(Wrap64(x) + y) == Wrap64(x + y)
  {
  }

  /** A step moves the shared word by what it moves the ledger's balance and the CPU's own debt. */
  lemma StepBalance(s: State, i: nat, m: Move, init: u64)
    requires i < |s.cpus|
    ensures var s' := Next(s, i, m);
      && s'.cpus == s.cpus[i := s'.cpus[i]]
      && s'.tokens == Wrap64(s.tokens + (Balance(init, s'.book) - Due(s'.cpus[i]))
                             - (Balance(init, s.book) - Due(s.cpus[i])))
  {
  }

  lemma {:induction false} ConservedStep(s: State, i: nat, m: Move, init: u64)
    requires i < |s.cpus| && Conserved(s, init)
    ensures Conserved(Next(s, i, m), init)
  {
    var s' := Next(s, i, m);
    StepBalance(s, i, m, init);
    SumsAfterUpdate(s.cpus, i, s'.cpus[i]);
    WrapAdd(Balance(init, s.book) - Outstanding(s.cpus),
            Balance(init, s'.book) - Due(s'.cpus[i]) - (Balance(init, s.book) - Due(s.cpus[i])));
  }

  /** In every interleaving of any number of CPUs, the shared word is, modulo 2^64,
      initial + credits - clamped-off - passed - debits not yet given back. */
  lemma {:induction false} Conservation(s: State, es: seq<Event>, init: u64)
    requires Fits(es, |s.cpus|) && Conserved(s, init)
    ensures Conserved(Run(s, es), init)
    decreases |es|
  {
    if es != [] {
      ConservedStep(s, es[0].cpu, es[0].move, init);
      Conservation(Next(s, es[0].cpu, es[0].move), es[1..], init);
    }
  }

  lemma ConservationFromStart(init: u64, last: u64, n: nat, es: seq<Event>)
    requires Fits(es, n)
    ensures var s := Run(Start(init, last, n), es);
      s.tokens == Wrap64(init + s.book.credited - s.book.clamped - s.book.passed - Outstanding(s.cpus))
  {
    IdleOwesNothing(n);
    Conservation(Start(init, last, n), es, init);
  }

  // ----- the successful swaps form one chain -----

  function Credits(swaps: seq<Swap>): nat {
    if swaps == [] then 0 else Credits(swaps[..|swaps| - 1]) + swaps[|swaps| - 1].refill
  }

  /** Each swap starts where the one before it ended, going forward in time, at one rate;
      the first starts at `first` and the last ends at `last`. */
  ghost predicate Chain(swaps: seq<Swap>, first: u64, last: u64, rate: u64)
    decreases |swaps|
  {
    if swaps == [] then last == first
    else
      var w := swaps[|swaps| - 1];
      && w.from <= w.to == last
      && w.refill == TB.Refill(w.to - w.from, rate)
      && Chain(swaps[..|swaps| - 1], first, w.from, rate)
  }

  /** Every call runs at `rate`, and no CPU works on a stamp later than its own clock reading. */
  ghost predicate Steady(s: State, rate: u64) {
    forall i :: 0 <= i < |s.cpus| ==>
      && (s.cpus[i].Started? ==> s.cpus[i].rate == rate)
      && (s.cpus[i].Loaded? ==> s.cpus[i].rate == rate && s.cpus[i].last <= s.cpus[i].now)
  }

  /** The events a run may contain for the chain: calls at `rate`, and each load of last_refill
      finding a stamp no later than that CPU's clock reading. */
  ghost predicate InOrder(s: State, es: seq<Event>, rate: u64)
    requires Fits(es, |s.cpus|)
    decreases |es|
  {
    es == [] ||
    var e := es[0];
    && (e.move.Begin? ==> e.move.rate == rate)
    && (s.cpus[e.cpu].Started? ==> s.last <= s.cpus[e.cpu].now)
    && Fits(es[1..], |s.cpus|)
    && InOrder(Next(s, e.cpu, e.move), es[1..], rate)
  }

  ghost predicate Chained(s: State, first: u64, rate: u64) {
    && Steady(s, rate)
    && Chain(s.book.swaps, first, s.last, rate)
    && Credits(s.book.swaps) == s.book.credited + Uncredited(s.cpus)
  }

  lemma SteadyStep(s: State, e: Event, rate: u64)
    requires e.cpu < |s.cpus| && Steady(s, rate)
    requires e.move.Begin? ==> e.move.rate == rate
    requires s.cpus[e.cpu].Started? ==> s.last <= s.cpus[e.cpu].now
    ensures Steady(Next(s, e.cpu, e.move), rate)
  {
  }

  lemma ChainedStep(s: State, e: Event, first: u64, rate: u64)
    requires e.cpu < |s.cpus| && Chained(s, first, rate)
    requires e.move.Begin? ==> e.move.rate == rate
    requires s.cpus[e.cpu].Started? ==> s.last <= s.cpus[e.cpu].now
    ensures Chained(Next(s, e.cpu, e.move), first, rate)
  {
    SteadyStep(s, e, rate);
    CreditsStep(s, e);
    var s' := Next(s, e.cpu, e.move);
    if s'.book.swaps != s.book.swaps {
      var l := s.cpus[e.cpu];
      ChainGrows(s.book.swaps, first, Swap(l.last, l.now, TB.Refill(Sub64(l.now, l.last), rate)), rate);
    }
  }

  lemma ChainGrows(swaps: seq<Swap>, first: u64, w: Swap, rate: u64)
    requires Chain(swaps, first, w.from, rate)
    requires w.from <= w.to && w.refill == TB.Refill(Sub64(w.to, w.from), rate)
    ensures Chain(swaps + [w], first, w.to, rate)
  {
    assert (swaps + [w])[..|swaps + [w]| - 1] == swaps;
    assert Sub64(w.to, w.from) == w.to - w.from;
  }

  lemma {:induction false} CreditsStep(s: State, e: Event)
    requires e.cpu < |s.cpus|
    requires Credits(s.book.swaps) == s.book.credited + Uncredited(s.cpus)
    ensures var s' := Next(s, e.cpu, e.move);
      Credits(s'.book.swaps) == s'.book.credited + Uncredited(s'.cpus)
  {
    var i := e.cpu;
    var s' := Next(s, i, e.move);
    SumsAfterUpdate(s.cpus, i, s'.cpus[i]);
    assert s'.cpus == s.cpus[i := s'.cpus[i]];
    if s'.book.swaps != s.book.swaps {
      var swaps := s'.book.swaps;
      assert swaps[..|swaps| - 1] == s.book.swaps;
    }
  }

  lemma {:induction false} SwapsFormOneChain(s: State, es: seq<Event>, first: u64, rate: u64)
    requires Fits(es, |s.cpus|) && InOrder(s, es, rate) && Chained(s, first, rate)
    ensures Chained(Run(s, es), first, rate)
    decreases |es|
  {
    if es != [] {
      ChainedStep(s, es[0], first, rate);
      SwapsFormOneChain(Next(s, es[0].cpu, es[0].move), es[1..], first, rate);
    }
  }

  lemma {:induction false} ChainCredit(swaps: seq<Swap>, first: u64, last: u64, rate: u64)
    requires Chain(swaps, first, last, rate)
    ensures first <= last && Credits(swaps) <= (last - first) * rate / NS_PER_SEC
    decreases |swaps|
  {
    if swaps != [] {
      var w := swaps[|swaps| - 1];
      ChainCredit(swaps[..|swaps| - 1], first, w.from, rate);
      CreditOneMore(first, w.from, w.to, rate);
    }
  }

  lemma CreditOneMore(first: u64, from: u64, to: u64, rate: u64)
    requires first <= from <= to
    ensures (from - first) * rate / NS_PER_SEC + TB.Refill(to - from, rate) <= (to - first) * rate / NS_PER_SEC
  {
    TB.RefillNeverOverCredits(to - from, rate);
    var a, b := (from - first) * rate, (to - from) * rate;
    assert a + b == (to - first) * rate;
    FloorSuperadditive(a, b, NS_PER_SEC);
  }

  /** Total credit, won or already added, is bounded by the time the chain spans. */
  lemma CreditBound(init: u64, first: u64, n: nat, es: seq<Event>, rate: u64)
    requires Fits(es, n) && InOrder(Start(init, first, n), es, rate)
    ensures var s := Run(Start(init, first, n), es);
      && first <= s.last
      && s.book.credited + Uncredited(s.cpus) <= (s.last - first) * rate / NS_PER_SEC
  {
    IdleOwesNothing(n);
    SwapsFormOneChain(Start(init, first, n), es, first, rate);
    var s := Run(Start(init, first, n), es);
    ChainCredit(s.book.swaps, first, s.last, rate);
  }

  // ----- the strict bound, and the runs in which it holds -----

  /** Runs in which no CPU debits or clamps while another still owes a debit back. */
  ghost predicate Undisturbed(s: State, es: seq<Event>)
    requires Fits(es, |s.cpus|)
    decreases |es|
  {
    es == [] ||
    var e := es[0];
    && (s.cpus[e.cpu].Debit? || s.cpus[e.cpu].Clamp? ==> Outstanding(s.cpus) == 0)
    && Fits(es[1..], |s.cpus|)
    && Undisturbed(Next(s, e.cpu, e.move), es[1..])
  }

  /** Only what lies above a burst is ever clamped off. */
  ghost predicate ClampsDown(s: State) {
    && s.book.clamped >= 0
    && forall i :: 0 <= i < |s.cpus| && s.cpus[i].Clamp? ==> s.cpus[i].burst < s.cpus[i].curr
  }

  lemma ClampsDownStep(s: State, i: nat, m: Move)
    requires i < |s.cpus| && ClampsDown(s)
    ensures ClampsDown(Next(s, i, m))
  {
  }

  lemma {:induction false} NeverOverdrawn(s: State, es: seq<Event>, init: u64)
    requires Fits(es, |s.cpus|) && Undisturbed(s, es)
    requires Conserved(s, init) && Balance(init, s.book) >= 0 && ClampsDown(s)
    ensures Balance(init, Run(s, es).book) >= 0 && Run(s, es).book.clamped >= 0
    decreases |es|
  {
    if es != [] {
      var s1 := Next(s, es[0].cpu, es[0].move);
      ConservedStep(s, es[0].cpu, es[0].move, init);
      ClampsDownStep(s, es[0].cpu, es[0].move);
      assert Outstanding(s.cpus) == 0 ==> s.tokens <= Balance(init, s.book);
      NeverOverdrawn(s1, es[1..], init);
    }
  }

  /** Concurrent calls at one rate pass at most the initial tokens plus the credit of the
      time spanned, provided refused debits are given back before the next debit or clamp. */
  lemma StrictBound(init: u64, first: u64, n: nat, es: seq<Event>, rate: u64)
    requires Fits(es, n) && InOrder(Start(init, first, n), es, rate)
    requires Undisturbed(Start(init, first, n), es)
    ensures var s := Run(Start(init, first, n), es);
      && first <= s.last
      && s.book.passed <= init + (s.last - first) * rate / NS_PER_SEC
  {
    IdleOwesNothing(n);
    CreditBound(init, first, n, es, rate);
    NeverOverdrawn(Start(init, first, n), es, init);
  }

  // ----- one call at a time is the sequential bucket -----

  /** The only CPU takes `n` further steps. */
  function Solo(s: State, n: nat): State
    requires |s.cpus| == 1
    decreases n
  {
    if n == 0 then s else Solo(Next(s, 0, Advance), n - 1)
  }

  /** A call running alone from an idle state does what `TokenBucket.Take` does. */
  lemma SoloCallIsTake(tokens: u64, last: u64, c: TB.Call, rate: u64, burst: u64)
    ensures var s0 := Start(tokens, last, 1);
      var s := Solo(Next(s0, 0, Begin(c.now, rate, burst, c.cost)), 7);
      var (b, ok) := TB.Take(TB.Bucket(tokens, last), c, rate, burst);
      && s.cpus == [Idle]
      && TB.Bucket(s.tokens, s.last) == b
      && s.book.passed == (if ok then c.cost else 0)
  {
    var s0 := Start(tokens, last, 1);
    assert s0.cpus == [Idle];
    var refill := TB.Refill(Sub64(c.now, last), rate);
    var s1 := Next(s0, 0, Begin(c.now, rate, burst, c.cost));
    var s3 := Next(Next(s1, 0, Advance), 0, Advance);
    TwoMore(s1, 7, s3);
    if refill == 0 {
      assert s3.cpus == [Debit(c.cost)];
      SoloDebit(s3, c.cost, 5);
    } else {
      assert s3.cpus == [Credit(refill, burst, c.cost)];
      SoloCredit(s3, refill, burst, c.cost);
    }
  }

  lemma {:induction false} TwoMore(s: State, n: nat, t: State)
    requires |s.cpus| == 1 && n >= 2 && t == Next(Next(s, 0, Advance), 0, Advance)
    ensures Solo(s, n) == Solo(t, n - 2)
  {
  }

  /** What is left of it once the refill is won. */
  lemma SoloCredit(s: State, refill: u64, burst: u64, len: u64)
    requires s.cpus == [Credit(refill, burst, len)] && s.book.passed == 0
    ensures var tokens := Min(Wrap64(s.tokens + refill), burst);
      var t := Solo(s, 5);
      && t.cpus == [Idle] && t.last == s.last
      && t.tokens == (if tokens < len then tokens else tokens - len)
      && t.book.passed == (if tokens < len then 0 else len)
  {
    var s2 := Next(Next(s, 0, Advance), 0, Advance);
    TwoMore(s, 5, s2);
    if s2.tokens > burst {
      assert s2.cpus == [Clamp(s2.tokens, burst, len)];
      var s3 := Next(s2, 0, Advance);
      assert s3.cpus == [Debit(len)];
      SoloDebit(s3, len, 2);
    } else {
      assert s2.cpus == [Debit(len)];
      SoloDebit(s2, len, 3);
    }
  }

  lemma {:induction false} SoloIdle(s: State, n: nat)
    requires s.cpus == [Idle]
    ensures Solo(s, n) == s
    decreases n
  {
    if n > 0 { SoloIdle(s, n - 1); }
  }

  lemma SoloDebit(s: State, len: u64, n: nat)
    requires s.cpus == [Debit(len)] && n >= 2
    ensures Solo(s, n) == if s.tokens < len then s.(cpus := [Idle])
                          else s.(cpus := [Idle], tokens := s.tokens - len,
                                  book := s.book.(passed := s.book.passed + len))
  {
    var s1 := Next(s, 0, Advance);
    var s2 := Next(s1, 0, Advance);
    assert Solo(s, n) == Solo(s1, n - 1) == Solo(s2, n - 2);
    SoloIdle(s2, n - 2);
  }
}
