/** The limiters over whole runs: which packets charge which bucket, how much each of them can let through in
    a time, and when attack mode is on. */
module LimiterRuns {
  import opened Machine
  import opened StatusCode
  import opened Headers
  import opened Firewall
  import opened FirewallRuns
  import opened FlowRuns
  import TB = TokenBucket

  /** A fragment, or a packet of a protocol other than TCP, UDP and ICMP: what the later stages are for. */
  predicate IsLate(e: Event) { e.Xdp? && FrameOf(e.packet).Portless? }

  // ----- the packet rate -----

  lemma WithFlowPps(cfg: Config, s: State, key: FlowKey, len: u32, now: u64, room: bool)
    ensures WithFlow(cfg, s, key, len, now, room).0.pps == s.pps
  {
  }

  lemma LatePps(cfg: Config, s: State, key: FlowKey, len: u32, now: u64, room: bool)
    ensures Late(cfg, s, key, len, now, room).0.pps == TB.TakePps(s.pps, now, cfg.ppsLimit).0
  {
    WithFlowPps(cfg, s.(pps := TB.TakePps(s.pps, now, cfg.ppsLimit).0), key, len, now, room);
  }

  /** Each late packet is charged to the packet rate once, and nothing else is. */
  lemma PacketRateCharged(cfg: Config, s: State, e: Event)
    requires AllStored(s.conns)
    ensures Step(cfg, s, e).pps == if IsLate(e) then TB.TakePps(s.pps, e.at, cfg.ppsLimit).0 else s.pps
  {
    if e.Xdp? {
      ParseFrame(s, e.packet, e.at);
      if IsLate(e) {
        LatePps(cfg, AfterParse(s, e.packet, e.at), FrameOf(e.packet).key, |e.packet|, e.at, e.room);
      }
    }
  }

  predicate PassesLate(cfg: Config, s: State, e: Event)
    requires AllStored(s.conns)
  {
    IsLate(e) && XdpStep(cfg, s, e.packet, e.at, e.room).1 == XDP_PASS
  }

  /** Late packets among the first `j` events that XDP passes. */
  function LatePassed(cfg: Config, s0: State, es: seq<Event>, j: nat): nat
    requires AllStored(s0.conns) && j <= |es|
  {
    if j == 0 then 0
    else LatePassed(cfg, s0, es, j - 1) + if PassesLate(cfg, StateAt(cfg, s0, es, j - 1), es[j - 1]) then 1 else 0
  }

  /** A stamp lies before every packet still to come. */
  ghost predicate Before(last: u64, es: seq<Event>, j: nat)
    requires j <= |es|
  {
    forall m :: j <= m < |es| && es[m].Xdp? ==> last <= es[m].at
  }

  lemma StillBefore(last: u64, next: u64, es: seq<Event>, j: nat)
    requires 0 < j <= |es| && Before(last, es, j - 1)
    requires next == last || (es[j - 1].Xdp? && next <= es[j - 1].at)
    requires forall m, n :: 0 <= m <= n < |es| && es[m].Xdp? && es[n].Xdp? ==> es[m].at <= es[n].at
    ensures Before(next, es, j)
  {
  }

  /** `spent` so far and what the bucket can still give until `t2` are within `budget`. */
  ghost predicate Within(b: TB.Bucket, spent: nat, rate: u64, t2: nat, budget: nat) {
    b.last <= t2 && spent + b.tokens + TB.Earned(b, t2, rate) <= budget
  }

  lemma PpsPays(b: TB.Bucket, spent: nat, now: u64, limit: u64, t2: nat, budget: nat)
    requires Within(b, spent, limit, t2, budget) && b.last <= now <= t2
    ensures var (b1, ok) := TB.TakePps(b, now, limit);
      b1.last <= now && Within(b1, spent + (if ok then 1 else 0), limit, t2, budget)
  {
    TB.TakePaid(b, TB.Call(now, 1), limit, limit, t2);
  }

  lemma LatePassPaid(cfg: Config, s: State, e: Event, spent: nat, t2: nat, budget: nat)
    requires AllStored(s.conns) && Within(s.pps, spent, cfg.ppsLimit, t2, budget)
    requires e.Xdp? ==> s.pps.last <= e.at <= t2
    ensures var t, more := Step(cfg, s, e), if PassesLate(cfg, s, e) then 1 else 0;
      && Within(t.pps, spent + more, cfg.ppsLimit, t2, budget)
      && (t.pps.last == s.pps.last || (e.Xdp? && t.pps.last <= e.at))
  {
    PacketRateCharged(cfg, s, e);
    if IsLate(e) {
      PpsPays(s.pps, spent, e.at, cfg.ppsLimit, t2, budget);
      VerdictIff(cfg, s, e.packet, e.at, e.room);
    }
  }

  /** What the packet rate has let through by `j` is within `budget`. */
  ghost predicate LateWithin(cfg: Config, s0: State, es: seq<Event>, j: nat, t2: u64, budget: nat)
    requires AllStored(s0.conns) && j <= |es|
  {
    var b := StateAt(cfg, s0, es, j).pps;
    Within(b, LatePassed(cfg, s0, es, j), cfg.ppsLimit, t2, budget) && Before(b.last, es, j)
  }

  lemma {:induction false} LateWithinStep(cfg: Config, s0: State, es: seq<Event>, j: nat, next: nat, t2: u64,
                                          budget: nat)
    requires AllStored(s0.conns) && j < next == j + 1 <= |es| && PacketsClocked(es, 0, |es|, 0, t2)
    requires LateWithin(cfg, s0, es, j, t2, budget)
    ensures LateWithin(cfg, s0, es, next, t2, budget)
  {
    var s, e := StateAt(cfg, s0, es, j), es[j];
    LatePassPaid(cfg, s, e, LatePassed(cfg, s0, es, j), t2, budget);
    StillBefore(s.pps.last, Step(cfg, s, e).pps.last, es, next);
  }

  lemma {:induction false} LatePassedPaid(cfg: Config, s0: State, es: seq<Event>, j: nat, t2: u64, budget: nat)
    requires AllStored(s0.conns) && j <= |es|
    requires s0.pps.last <= t2 && PacketsClocked(es, 0, |es|, s0.pps.last, t2)
    requires Within(s0.pps, 0, cfg.ppsLimit, t2, budget)
    ensures LateWithin(cfg, s0, es, j, t2, budget)
    decreases j
  {
    if j > 0 {
      var last := j - 1;
      LatePassedPaid(cfg, s0, es, last, t2, budget);
      LateWithinStep(cfg, s0, es, last, j, t2, budget);
    }
  }

  /** In every run on a forward clock that ends by `t2`, XDP passes no more late packets than the bucket held
      and the limit earns in the time. */
  lemma {:induction false} PacketRateHolds(cfg: Config, s0: State, es: seq<Event>, t2: u64)
    requires AllStored(s0.conns) && s0.pps.last <= t2 && PacketsClocked(es, 0, |es|, s0.pps.last, t2)
    ensures LatePassed(cfg, s0, es, |es|) <= s0.pps.tokens + (t2 - s0.pps.last) * cfg.ppsLimit / 1_000_000_000
  {
    LatePassedPaid(cfg, s0, es, |es|, t2, s0.pps.tokens + TB.Earned(s0.pps, t2, cfg.ppsLimit));
  }

  // ----- what the limits make of a packet -----

  /** The packet gets as far as the limits: packet rate, addresses, flow entry and ports allow it. */
  predicate Reaches(cfg: Config, s: State, key: FlowKey, now: u64, room: bool) {
    && LatePasses(cfg, s, key, now, room) && (key in s.flows || room)
  }

  /** The rate and burst in force for a flow: those of its rule, else those its entry has kept from an earlier
      one; where these are zero, or missing, the configured ones. */
  function RateFor(cfg: Config, s: State, key: FlowKey): u64 {
    var own := if Ruled(s, key) then s.rules[RuleKey(key.saddr, 32, key.sport, 6)].rate
               else if key in s.flows then s.flows[key].rate else 0;
    if own > 0 then own else cfg.flowRate
  }

  function BurstFor(cfg: Config, s: State, key: FlowKey): u64 {
    var own := if Ruled(s, key) then s.rules[RuleKey(key.saddr, 32, key.sport, 6)].burst
               else if key in s.flows then s.flows[key].burst else 0;
    if own > 0 then own else cfg.flowBurst
  }

  /** The flow's bucket: a flow without an entry gets a full one. */
  function BucketFor(cfg: Config, s: State, key: FlowKey, now: u64): TB.Bucket {
    if key in s.flows then s.flows[key].bucket else TB.Bucket(cfg.flowBurst, now)
  }

  /** The state in which the policy finds a packet of `key`. */
  function WithEntry(cfg: Config, s: State, key: FlowKey, now: u64): State {
    s.(pps := TB.TakePps(s.pps, now, cfg.ppsLimit).0,
       flows := if key in s.flows then s.flows else s.flows[key := NewFlow(cfg, now)])
  }

  /** What the policy says about a late packet; None when it does not get that far. */
  function Outcome(cfg: Config, s: State, key: FlowKey, len: u32, now: u64, room: bool): Option<PolicyResult> {
    if TB.TakePps(s.pps, now, cfg.ppsLimit).1 && AddressesPass(cfg, key) && (key in s.flows || room)
    then Some(Policy(cfg, WithEntry(cfg, s, key, now), key, len, now).1) else None
  }

  /** A late packet is charged to the global bucket when no rule exempts it, and to its flow's bucket when the
      global one lets it through or a rule exempts it. */
  predicate ChargedGlobal(cfg: Config, s: State, key: FlowKey, now: u64, room: bool) {
    Reaches(cfg, s, key, now, room) && !Ruled(s, key)
  }

  predicate GlobalLets(cfg: Config, s: State, len: u32, now: u64) {
    TB.TakeGlobal(s.global, TB.Call(now, len), cfg.globalRate, cfg.globalBurst).1
  }

  predicate ChargedFlow(cfg: Config, s: State, key: FlowKey, len: u32, now: u64, room: bool) {
    Reaches(cfg, s, key, now, room) && (Ruled(s, key) || GlobalLets(cfg, s, len, now))
  }

  function FlowTake(cfg: Config, s: State, key: FlowKey, len: u32, now: u64): (TB.Bucket, bool) {
    TB.Take(BucketFor(cfg, s, key, now), TB.Call(now, len), RateFor(cfg, s, key), BurstFor(cfg, s, key))
  }

  lemma LimitsOutcome(cfg: Config, s: State, key: FlowKey, len: u32, now: u64)
    requires key in s.flows
    ensures var (t, r) := Limits(cfg, s, key, len, now);
      && (r == GlobalLimited <==> !Ruled(s, key) && !GlobalLets(cfg, s, len, now))
      && (r == PolicyPassed <==>
            (Ruled(s, key) || GlobalLets(cfg, s, len, now)) && FlowTake(cfg, s, key, len, now).1)
      && r != PortMiss
      && t.global == (if Ruled(s, key) then s.global
                      else TB.TakeGlobal(s.global, TB.Call(now, len), cfg.globalRate, cfg.globalBurst).0)
  {
  }

  /** Other entries stay as they are; this one has `bucket` now, and the same rate and burst are in force. */
  ghost predicate FlowMoves(cfg: Config, s: State, t: State, key: FlowKey, bucket: TB.Bucket) {
    && t.flows.Keys == s.flows.Keys + {key}
    && (forall k :: k in s.flows && k != key ==> t.flows[k] == s.flows[k])
    && t.flows[key].bucket == bucket
    && RateFor(cfg, t, key) == RateFor(cfg, s, key) && BurstFor(cfg, t, key) == BurstFor(cfg, s, key)
  }

  lemma LimitsFlow(cfg: Config, s: State, key: FlowKey, len: u32, now: u64)
    requires key in s.flows
    ensures FlowMoves(cfg, s, Limits(cfg, s, key, len, now).0, key,
                      if Ruled(s, key) || GlobalLets(cfg, s, len, now) then FlowTake(cfg, s, key, len, now).0
                      else s.flows[key].bucket)
  {
  }

  /** The outcome in terms of the checks: nothing when the packet does not get to the policy, a port miss, a
      refusal by the global bucket, one by the flow's bucket, or a pass. */
  lemma OutcomeIs(cfg: Config, s: State, key: FlowKey, len: u32, now: u64, room: bool)
    ensures var r := Outcome(cfg, s, key, len, now, room);
      && (r == Some(GlobalLimited) <==> ChargedGlobal(cfg, s, key, now, room) && !GlobalLets(cfg, s, len, now))
      && (r == Some(PolicyPassed) <==>
            ChargedFlow(cfg, s, key, len, now, room) && FlowTake(cfg, s, key, len, now).1)
      && (r == Some(FlowLimited) <==>
            ChargedFlow(cfg, s, key, len, now, room) && !FlowTake(cfg, s, key, len, now).1)
      && (r.Some? && r.value != PortMiss <==> Reaches(cfg, s, key, now, room))
  {
    var s1 := WithEntry(cfg, s, key, now);
    LimitsOutcome(cfg, s1, key, len, now);
    LimitsOutcome(cfg, s1.(conns := Recorded(s1.conns, key, now)), key, len, now);
  }

  lemma PolicyLimits(cfg: Config, s: State, key: FlowKey, len: u32, now: u64)
    requires key in s.flows
    ensures var t := Policy(cfg, s, key, len, now).0;
      if (key.proto == 6 || key.proto == 17) && !PortPassed(s, key) then t == s
      else
        var u := Limits(cfg, s, key, len, now).0;
        t.global == u.global && t.flows == u.flows && t.rules == s.rules
  {
    LimitsFrame(cfg, s, key, len, now);
    LimitsFrame(cfg, s.(conns := Recorded(s.conns, key, now)), key, len, now);
    if PortPassed(s, key) {
      SameLimits(cfg, s, Recorded(s.conns, key, now), key, len, now);
    }
  }

  lemma SameLimits(cfg: Config, s: State, conns: map<FlowKey, Conn>, key: FlowKey, len: u32, now: u64)
    requires key in s.flows
    ensures var t, u := Limits(cfg, s.(conns := conns), key, len, now).0, Limits(cfg, s, key, len, now).0;
      t.global == u.global && t.flows == u.flows
  {
  }

  lemma JudgedGlobal(cfg: Config, s: State, key: FlowKey, len: u32, now: u64)
    requires key in s.flows
    ensures Judged(cfg, s, key, len, now).0.global ==
      if PortsAllow(s, key) && !Ruled(s, key)
      then TB.TakeGlobal(s.global, TB.Call(now, len), cfg.globalRate, cfg.globalBurst).0 else s.global
  {
    PolicyLimits(cfg, s, key, len, now);
    LimitsOutcome(cfg, s, key, len, now);
  }

  lemma LateGlobal(cfg: Config, s: State, key: FlowKey, len: u32, now: u64, room: bool)
    ensures Late(cfg, s, key, len, now, room).0.global ==
      if ChargedGlobal(cfg, s, key, now, room)
      then TB.TakeGlobal(s.global, TB.Call(now, len), cfg.globalRate, cfg.globalBurst).0 else s.global
  {
    JudgedGlobal(cfg, WithEntry(cfg, s, key, now), key, len, now);
  }

  predicate PortsAllow(s: State, key: FlowKey) { key.proto == 6 || key.proto == 17 ==> PortPassed(s, key) }

  lemma PolicyFlow(cfg: Config, s: State, key: FlowKey, len: u32, now: u64)
    requires key in s.flows
    ensures FlowMoves(cfg, s, Policy(cfg, s, key, len, now).0, key,
                      if PortsAllow(s, key) && (Ruled(s, key) || GlobalLets(cfg, s, len, now))
                      then FlowTake(cfg, s, key, len, now).0 else s.flows[key].bucket)
  {
    PolicyLimits(cfg, s, key, len, now);
    LimitsFlow(cfg, s, key, len, now);
    LimitsFrame(cfg, s, key, len, now);
  }

  lemma CountingMoves(cfg: Config, s: State, t: State, key: FlowKey, bucket: TB.Bucket, len: u32, now: u64)
    requires FlowMoves(cfg, s, t, key, bucket)
    ensures FlowMoves(cfg, s, t.(flows := t.flows[key := Firewall.Counted(t.flows[key], len, now)]), key, bucket)
  {
  }

  lemma JudgedFlow(cfg: Config, s: State, key: FlowKey, len: u32, now: u64)
    requires key in s.flows
    ensures FlowMoves(cfg, s, Judged(cfg, s, key, len, now).0, key,
                      if PortsAllow(s, key) && (Ruled(s, key) || GlobalLets(cfg, s, len, now))
                      then FlowTake(cfg, s, key, len, now).0 else s.flows[key].bucket)
  {
    PolicyFlow(cfg, s, key, len, now);
    CountingMoves(cfg, s, Policy(cfg, s, key, len, now).0, key,
                  Policy(cfg, s, key, len, now).0.flows[key].bucket, len, now);
  }

  /** A new entry is a full bucket. */
  lemma NewMoves(cfg: Config, s: State, t: State, key: FlowKey, bucket: TB.Bucket, now: u64)
    requires key !in s.flows && FlowMoves(cfg, s.(flows := s.flows[key := NewFlow(cfg, now)]), t, key, bucket)
    ensures FlowMoves(cfg, s, t, key, bucket)
  {
  }

  lemma WithFlowMoves(cfg: Config, s: State, key: FlowKey, len: u32, now: u64, room: bool)
    requires key in s.flows || room
    ensures FlowMoves(cfg, s, WithFlow(cfg, s, key, len, now, room).0, key,
                      if PortsAllow(s, key) && (Ruled(s, key) || GlobalLets(cfg, s, len, now))
                      then FlowTake(cfg, s, key, len, now).0 else BucketFor(cfg, s, key, now))
  {
    if key in s.flows {
      JudgedFlow(cfg, s, key, len, now);
    } else {
      var s1 := s.(flows := s.flows[key := NewFlow(cfg, now)]);
      JudgedFlow(cfg, s1, key, len, now);
      NewMoves(cfg, s, Judged(cfg, s1, key, len, now).0, key,
               Judged(cfg, s1, key, len, now).0.flows[key].bucket, now);
    }
  }

  /** A late packet that gets past packet rate and addresses finds or makes its flow's entry, whose bucket is
      charged when it gets that far; any other leaves the flows alone. */
  lemma LateFlow(cfg: Config, s: State, key: FlowKey, len: u32, now: u64, room: bool)
    ensures var t := Late(cfg, s, key, len, now, room).0;
      if Outcome(cfg, s, key, len, now, room).None? then t.flows == s.flows && t.rules == s.rules
      else FlowMoves(cfg, s, t, key, if ChargedFlow(cfg, s, key, len, now, room)
                                     then FlowTake(cfg, s, key, len, now).0 else BucketFor(cfg, s, key, now))
  {
    var s1 := s.(pps := TB.TakePps(s.pps, now, cfg.ppsLimit).0);
    LateFrame(cfg, s, key, len, now, room);
    if key in s.flows || room {
      WithFlowMoves(cfg, s1, key, len, now, room);
      SameButPps(cfg, s, s1.pps, WithFlow(cfg, s1, key, len, now, room).0, key, len, now);
    }
  }

  lemma SameButPps(cfg: Config, s: State, pps: TB.Bucket, t: State, key: FlowKey, len: u32, now: u64)
    ensures var s1 := s.(pps := pps);
      && FlowTake(cfg, s1, key, len, now) == FlowTake(cfg, s, key, len, now)
      && BucketFor(cfg, s1, key, now) == BucketFor(cfg, s, key, now)
      && GlobalLets(cfg, s1, len, now) == GlobalLets(cfg, s, len, now)
      && (forall bucket :: FlowMoves(cfg, s1, t, key, bucket) <==> FlowMoves(cfg, s, t, key, bucket))
  {
  }

  // ----- whole runs: the global limit -----

  /** An event in the state it meets: what the policy says about its packet. */
  function OutcomeOf(cfg: Config, s: State, e: Event): Option<PolicyResult> {
    if IsLate(e) then Outcome(cfg, s, FrameOf(e.packet).key, |e.packet|, e.at, e.room) else None
  }

  /** The parsing stage changes nothing that the outcome or the charges depend on. */
  ghost predicate SameLimiters(s: State, t: State) {
    s.pps == t.pps && s.global == t.global && s.flows == t.flows && s.rules == t.rules && s.ports == t.ports
  }

  lemma LateParse(s: State, p: Packet, now: u64)
    requires FrameOf(p).Portless?
    ensures SameLimiters(s, AfterParse(s, p, now))
  {
    ParseFrame(s, p, now);
  }

  lemma SameCharges(cfg: Config, s: State, t: State, key: FlowKey, len: u32, now: u64, room: bool)
    requires SameLimiters(s, t)
    ensures ChargedGlobal(cfg, s, key, now, room) == ChargedGlobal(cfg, t, key, now, room)
    ensures ChargedFlow(cfg, s, key, len, now, room) == ChargedFlow(cfg, t, key, len, now, room)
    ensures FlowTake(cfg, s, key, len, now) == FlowTake(cfg, t, key, len, now)
    ensures BucketFor(cfg, s, key, now) == BucketFor(cfg, t, key, now)
  {
  }

  /** Each packet that gets to the limits and is not exempt is charged to the global bucket once, by its whole
      length, and nothing else is. */
  lemma GlobalCharged(cfg: Config, s: State, e: Event)
    requires AllStored(s.conns)
    ensures Step(cfg, s, e).global ==
      if IsLate(e) && ChargedGlobal(cfg, s, FrameOf(e.packet).key, e.at, e.room)
      then TB.TakeGlobal(s.global, TB.Call(e.at, |e.packet|), cfg.globalRate, cfg.globalBurst).0 else s.global
  {
    if e.Xdp? {
      ParseFrame(s, e.packet, e.at);
      if IsLate(e) {
        var key, t := FrameOf(e.packet).key, AfterParse(s, e.packet, e.at);
        LateParse(s, e.packet, e.at);
        SameCharges(cfg, s, t, key, |e.packet|, e.at, e.room);
        LateGlobal(cfg, t, key, |e.packet|, e.at, e.room);
      }
    }
  }

  /** The packet gets through the global limit, rather than round it. */
  predicate PassesGlobal(cfg: Config, s: State, e: Event) {
    IsLate(e) && !Ruled(s, FrameOf(e.packet).key) && OutcomeOf(cfg, s, e) in {Some(FlowLimited), Some(PolicyPassed)}
  }

  /** Bytes of such packets among the first `j` events. */
  function GlobalPassed(cfg: Config, s0: State, es: seq<Event>, j: nat): nat
    requires AllStored(s0.conns) && j <= |es|
  {
    if j == 0 then 0
    else
      var more := if PassesGlobal(cfg, StateAt(cfg, s0, es, j - 1), es[j - 1]) then |es[j - 1].packet| else 0;
      GlobalPassed(cfg, s0, es, j - 1) + more
  }

  lemma GlobalPassPaid(cfg: Config, s: State, e: Event, spent: nat, t2: nat, budget: nat)
    requires AllStored(s.conns) && s.global.last > 0 && Within(s.global, spent, cfg.globalRate, t2, budget)
    requires e.Xdp? ==> s.global.last <= e.at <= t2
    ensures var t, more := Step(cfg, s, e), if PassesGlobal(cfg, s, e) then |e.packet| else 0;
      && t.global.last > 0 && Within(t.global, spent + more, cfg.globalRate, t2, budget)
      && (t.global.last == s.global.last || (e.Xdp? && t.global.last <= e.at))
  {
    GlobalCharged(cfg, s, e);
    if IsLate(e) {
      OutcomeIs(cfg, s, FrameOf(e.packet).key, |e.packet|, e.at, e.room);
      TB.TakePaid(s.global, TB.Call(e.at, |e.packet|), cfg.globalRate, cfg.globalBurst, t2);
    }
  }

  ghost predicate GlobalWithin(cfg: Config, s0: State, es: seq<Event>, j: nat, t2: u64, budget: nat)
    requires AllStored(s0.conns) && j <= |es|
  {
    var b := StateAt(cfg, s0, es, j).global;
    b.last > 0 && Within(b, GlobalPassed(cfg, s0, es, j), cfg.globalRate, t2, budget) && Before(b.last, es, j)
  }

  lemma {:induction false} GlobalWithinStep(cfg: Config, s0: State, es: seq<Event>, j: nat, next: nat, t2: u64,
                                            budget: nat)
    requires AllStored(s0.conns) && j < next == j + 1 <= |es| && PacketsClocked(es, 0, |es|, 0, t2)
    requires GlobalWithin(cfg, s0, es, j, t2, budget)
    ensures GlobalWithin(cfg, s0, es, next, t2, budget)
  {
    var s, e := StateAt(cfg, s0, es, j), es[j];
    GlobalPassPaid(cfg, s, e, GlobalPassed(cfg, s0, es, j), t2, budget);
    StillBefore(s.global.last, Step(cfg, s, e).global.last, es, next);
  }

  lemma {:induction false} GlobalPassedPaid(cfg: Config, s0: State, es: seq<Event>, j: nat, t2: u64, budget: nat)
    requires AllStored(s0.conns) && j <= |es|
    requires 0 < s0.global.last <= t2 && PacketsClocked(es, 0, |es|, s0.global.last, t2)
    requires Within(s0.global, 0, cfg.globalRate, t2, budget)
    ensures GlobalWithin(cfg, s0, es, j, t2, budget)
    decreases j
  {
    if j > 0 {
      var last := j - 1;
      GlobalPassedPaid(cfg, s0, es, last, t2, budget);
      GlobalWithinStep(cfg, s0, es, last, j, t2, budget);
    }
  }

  /** Once the global bucket has started, no more bytes get through it by `t2` than it held and its rate earns. */
  lemma {:induction false} GlobalRateHolds(cfg: Config, s0: State, es: seq<Event>, t2: u64)
    requires AllStored(s0.conns)
    requires 0 < s0.global.last <= t2 && PacketsClocked(es, 0, |es|, s0.global.last, t2)
    ensures GlobalPassed(cfg, s0, es, |es|)
      <= s0.global.tokens + (t2 - s0.global.last) * cfg.globalRate / 1_000_000_000
  {
    GlobalPassedPaid(cfg, s0, es, |es|, t2, s0.global.tokens + TB.Earned(s0.global, t2, cfg.globalRate));
  }

  // ----- whole runs: the limit of one flow -----

  /** The entry of `k` is not evicted, nor is its whitelist rule set or evicted. */
  predicate Leaves(e: Event, k: FlowKey) {
    var rk := RuleKey(k.saddr, 32, k.sport, 6);
    e != EvictFlow(k) && e != EvictRule(rk) && !(e.SetRule? && e.ruleKey == rk)
  }

  predicate PassesFlow(cfg: Config, s: State, e: Event, k: FlowKey) {
    IsLate(e) && FrameOf(e.packet).key == k && OutcomeOf(cfg, s, e) == Some(PolicyPassed)
  }

  /** Bytes of flow `k` that its limit lets through among the first `j` events. */
  function FlowPassed(cfg: Config, s0: State, es: seq<Event>, k: FlowKey, j: nat): nat
    requires AllStored(s0.conns) && j <= |es|
  {
    if j == 0 then 0
    else
      var more := if PassesFlow(cfg, StateAt(cfg, s0, es, j - 1), es[j - 1], k) then |es[j - 1].packet| else 0;
      FlowPassed(cfg, s0, es, k, j - 1) + more
  }

  /** The bucket of a flow is charged once for each of its packets that gets to it, at the rate and burst in
      force, and they stay in force. */
  lemma FlowCharged(cfg: Config, s: State, e: Event, k: FlowKey)
    requires AllStored(s.conns) && k in s.flows && Leaves(e, k)
    ensures var t := Step(cfg, s, e);
      && k in t.flows && RateFor(cfg, t, k) == RateFor(cfg, s, k) && BurstFor(cfg, t, k) == BurstFor(cfg, s, k)
      && t.flows[k].bucket ==
         if IsLate(e) && FrameOf(e.packet).key == k && ChargedFlow(cfg, s, k, |e.packet|, e.at, e.room)
         then FlowTake(cfg, s, k, |e.packet|, e.at).0 else s.flows[k].bucket
  {
    if e.Xdp? {
      ParseFrame(s, e.packet, e.at);
      XdpFrame(cfg, s, e.packet, e.at, e.room);
      if IsLate(e) {
        var key, t := FrameOf(e.packet).key, AfterParse(s, e.packet, e.at);
        LateParse(s, e.packet, e.at);
        SameCharges(cfg, s, t, key, |e.packet|, e.at, e.room);
        LateFlow(cfg, t, key, |e.packet|, e.at, e.room);
        OutcomeIs(cfg, t, key, |e.packet|, e.at, e.room);
      }
    }
  }

  lemma FlowPassPaid(cfg: Config, s: State, e: Event, k: FlowKey, spent: nat, rate: u64, t2: nat, budget: nat)
    requires AllStored(s.conns) && k in s.flows && Leaves(e, k) && rate == RateFor(cfg, s, k)
    requires Within(s.flows[k].bucket, spent, rate, t2, budget)
    requires e.Xdp? ==> s.flows[k].bucket.last <= e.at <= t2
    ensures var t, more := Step(cfg, s, e), if PassesFlow(cfg, s, e, k) then |e.packet| else 0;
      && k in t.flows && RateFor(cfg, t, k) == rate
      && Within(t.flows[k].bucket, spent + more, rate, t2, budget)
      && (t.flows[k].bucket.last == s.flows[k].bucket.last || (e.Xdp? && t.flows[k].bucket.last <= e.at))
  {
    FlowCharged(cfg, s, e, k);
    if IsLate(e) && FrameOf(e.packet).key == k {
      OutcomeIs(cfg, s, k, |e.packet|, e.at, e.room);
      TB.TakePaid(s.flows[k].bucket, TB.Call(e.at, |e.packet|), rate, BurstFor(cfg, s, k), t2);
    }
  }

  ghost predicate FlowWithin(cfg: Config, s0: State, es: seq<Event>, k: FlowKey, j: nat, rate: u64, t2: u64,
                             budget: nat)
    requires AllStored(s0.conns) && j <= |es|
  {
    var s := StateAt(cfg, s0, es, j);
    && k in s.flows && RateFor(cfg, s, k) == rate
    && Within(s.flows[k].bucket, FlowPassed(cfg, s0, es, k, j), rate, t2, budget)
    && Before(s.flows[k].bucket.last, es, j)
  }

  lemma {:induction false} FlowWithinStep(cfg: Config, s0: State, es: seq<Event>, k: FlowKey, j: nat, next: nat,
                                          rate: u64, t2: u64, budget: nat)
    requires AllStored(s0.conns) && j < next == j + 1 <= |es| && Leaves(es[j], k) && PacketsClocked(es, 0, |es|, 0, t2)
    requires FlowWithin(cfg, s0, es, k, j, rate, t2, budget)
    ensures FlowWithin(cfg, s0, es, k, next, rate, t2, budget)
  {
    var s, e := StateAt(cfg, s0, es, j), es[j];
    FlowPassPaid(cfg, s, e, k, FlowPassed(cfg, s0, es, k, j), rate, t2, budget);
    StillBefore(s.flows[k].bucket.last, Step(cfg, s, e).flows[k].bucket.last, es, next);
  }

  lemma {:induction false} FlowPassedPaid(cfg: Config, s0: State, es: seq<Event>, k: FlowKey, j: nat, rate: u64,
                                          t2: u64, budget: nat)
    requires AllStored(s0.conns) && j <= |es| && k in s0.flows && rate == RateFor(cfg, s0, k)
    requires forall m :: 0 <= m < |es| ==> Leaves(es[m], k)
    requires s0.flows[k].bucket.last <= t2 && PacketsClocked(es, 0, |es|, s0.flows[k].bucket.last, t2)
    requires Within(s0.flows[k].bucket, 0, rate, t2, budget)
    ensures FlowWithin(cfg, s0, es, k, j, rate, t2, budget)
    decreases j
  {
    if j > 0 {
      var last := j - 1;
      FlowPassedPaid(cfg, s0, es, k, last, rate, t2, budget);
      FlowWithinStep(cfg, s0, es, k, last, j, rate, t2, budget);
    }
  }

  /** While entry and rule of a flow are left alone, no more of its bytes get through its limit by `t2` than its
      bucket held and the rate in force earns. */
  lemma {:induction false} FlowRateHolds(cfg: Config, s0: State, es: seq<Event>, k: FlowKey, t2: u64)
    requires AllStored(s0.conns) && k in s0.flows && forall m :: 0 <= m < |es| ==> Leaves(es[m], k)
    requires s0.flows[k].bucket.last <= t2 && PacketsClocked(es, 0, |es|, s0.flows[k].bucket.last, t2)
    ensures FlowPassed(cfg, s0, es, k, |es|)
      <= s0.flows[k].bucket.tokens + (t2 - s0.flows[k].bucket.last) * RateFor(cfg, s0, k) / 1_000_000_000
  {
    var b, rate := s0.flows[k].bucket, RateFor(cfg, s0, k);
    FlowPassedPaid(cfg, s0, es, k, |es|, rate, t2, b.tokens + TB.Earned(b, t2, rate));
  }

  lemma FullTake(cfg: Config, s: State, key: FlowKey, len: u32, now: u64)
    requires key !in s.flows && !Ruled(s, key)
    ensures RateFor(cfg, s, key) == cfg.flowRate && BurstFor(cfg, s, key) == cfg.flowBurst
    ensures var passed := len <= cfg.flowBurst;
      FlowTake(cfg, s, key, len, now) == (TB.Bucket(if passed then cfg.flowBurst - len else cfg.flowBurst, now), passed)
  {
    TB.RefusedFor(TB.Bucket(cfg.flowBurst, now), TB.Call(now, len), cfg.flowRate, cfg.flowBurst, 0);
  }

  /** A flow that is new gets a full bucket for its first packet, which therefore gets through it exactly if it is
      no longer than the burst. */
  lemma NewFlowIsFull(cfg: Config, s: State, e: Event)
    requires AllStored(s.conns) && IsLate(e) && FrameOf(e.packet).key !in s.flows
    requires ChargedFlow(cfg, s, FrameOf(e.packet).key, |e.packet|, e.at, e.room) && !Ruled(s, FrameOf(e.packet).key)
    ensures var t, k, passed := Step(cfg, s, e), FrameOf(e.packet).key, |e.packet| <= cfg.flowBurst;
      && k in t.flows && RateFor(cfg, t, k) == cfg.flowRate && BurstFor(cfg, t, k) == cfg.flowBurst
      && t.flows[k].bucket == TB.Bucket(if passed then cfg.flowBurst - |e.packet| else cfg.flowBurst, e.at)
      && (OutcomeOf(cfg, s, e) == Some(PolicyPassed) <==> passed)
  {
    var key := FrameOf(e.packet).key;
    FullTake(cfg, s, key, |e.packet|, e.at);
    NewFlowCharged(cfg, s, e, key);
    OutcomeIs(cfg, s, key, |e.packet|, e.at, e.room);
  }

  lemma NewFlowCharged(cfg: Config, s: State, e: Event, k: FlowKey)
    requires AllStored(s.conns) && IsLate(e) && FrameOf(e.packet).key == k
    requires ChargedFlow(cfg, s, k, |e.packet|, e.at, e.room)
    ensures FlowMoves(cfg, s, Step(cfg, s, e), k, FlowTake(cfg, s, k, |e.packet|, e.at).0)
  {
    var t := AfterParse(s, e.packet, e.at);
    LateParse(s, e.packet, e.at);
    SameCharges(cfg, s, t, k, |e.packet|, e.at, e.room);
    OutcomeIs(cfg, t, k, |e.packet|, e.at, e.room);
    LateFlow(cfg, t, k, |e.packet|, e.at, e.room);
  }
}
