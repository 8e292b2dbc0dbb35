/** Flow entries over whole runs, and the verdict on every kind of packet: the counters of a flow are
    exactly the packets passed, and the rate limits never decide a verdict. */
module FlowRuns {
  import opened Machine
  import opened StatusCode
  import opened Headers
  import opened Firewall
  import opened FirewallRuns
  import TB = TokenBucket
  import A = AttackMode

  // ----- verdicts -----

  /** A fragment or a packet of another protocol gets through the packet rate and the address checks,
      and either meets no flow entry at all or passes the port check. */
  predicate LatePasses(cfg: Config, s: State, key: FlowKey, now: u64, room: bool) {
    && TB.TakePps(s.pps, now, cfg.ppsLimit).1
    && AddressesPass(cfg, key)
    && ((key in s.flows || room) && (key.proto == 6 || key.proto == 17) ==> PortPassed(s, key))
  }

  lemma LimitsNeverMissPort(cfg: Config, s: State, key: FlowKey, len: u32, now: u64)
    requires key in s.flows
    ensures Limits(cfg, s, key, len, now).1 != PortMiss
  {
  }

  lemma PolicyMissIff(cfg: Config, s: State, key: FlowKey, len: u32, now: u64)
    requires key in s.flows
    ensures Policy(cfg, s, key, len, now).1 == PortMiss <==> HasPorts(key) && !PortPassed(s, key)
  {
    LimitsNeverMissPort(cfg, s, key, len, now);
    LimitsNeverMissPort(cfg, s.(conns := Recorded(s.conns, key, now)), key, len, now);
  }

  lemma LateVerdict(cfg: Config, s: State, key: FlowKey, len: u32, now: u64, room: bool)
    ensures Late(cfg, s, key, len, now, room).1 == if LatePasses(cfg, s, key, now, room) then XDP_PASS else XDP_DROP
  {
    var s1 := s.(pps := TB.TakePps(s.pps, now, cfg.ppsLimit).0);
    var s2 := if key in s.flows then s1 else s1.(flows := s1.flows[key := NewFlow(cfg, now)]);
    PolicyMissIff(cfg, s2, key, len, now);
  }

  /** The verdict on every packet. Neither the fuse nor the byte limits nor the attack mode take part
      in it, and no packet is ever sent back. */
  lemma VerdictIff(cfg: Config, s: State, p: Packet, now: u64, room: bool)
    ensures XdpStep(cfg, s, p, now, room).1 == XDP_PASS <==>
      match FrameOf(p)
      case Arp => true
      case OtherEther => true
      case Transport(key) => Admitted(s, key, now)
      case Portless(key) => LatePasses(cfg, s, key, now, room)
      case _ => false
    ensures XdpStep(cfg, s, p, now, room).1 != XDP_TX
  {
    if FrameOf(p).Portless? {
      LateVerdict(cfg, s.(attack := A.Look(s.attack, now).0), FrameOf(p).key, |p|, now, room);
    }
  }

  // ----- counters -----

  /** The counters of a flow entry; a missing one counts as zeros. */
  function Counters(flows: map<FlowKey, Flow>, k: FlowKey): (u64, u64) {
    if k in flows then (flows[k].packets, flows[k].bytes) else (0, 0)
  }

  lemma TakeKeepsCounters(cfg: Config, f: Flow, c: TB.Call)
    ensures TakeFlow(cfg, f, c).0.packets == f.packets && TakeFlow(cfg, f, c).0.bytes == f.bytes
  {
  }

  /** Other flows are left alone, and the counters of this one too. */
  ghost predicate OnlyLimits(before: map<FlowKey, Flow>, after: map<FlowKey, Flow>, key: FlowKey) {
    && after.Keys == before.Keys
    && (forall k :: k in before && k != key ==> after[k] == before[k])
    && Counters(after, key) == Counters(before, key)
  }

  lemma LimitsFlows(cfg: Config, s: State, key: FlowKey, len: u32, now: u64)
    requires key in s.flows
    ensures OnlyLimits(s.flows, Limits(cfg, s, key, len, now).0.flows, key)
  {
    var rule := RuleFor(s, key);
    if rule.Some? {
      TakeKeepsCounters(cfg, s.flows[key].(rate := rule.value.rate, burst := rule.value.burst), TB.Call(now, len));
    } else {
      TakeKeepsCounters(cfg, s.flows[key], TB.Call(now, len));
    }
  }

  lemma PolicyFlows(cfg: Config, s: State, key: FlowKey, len: u32, now: u64)
    requires key in s.flows
    ensures OnlyLimits(s.flows, Policy(cfg, s, key, len, now).0.flows, key)
  {
    LimitsFlows(cfg, s, key, len, now);
    LimitsFlows(cfg, s.(conns := Recorded(s.conns, key, now)), key, len, now);
  }

  /** What the later stages do to the flow table: at most one entry appears, that of the packet; it
      counts the packet exactly when the packet passes. */
  ghost predicate CountsOne(before: map<FlowKey, Flow>, after: map<FlowKey, Flow>, key: FlowKey, len: u32, passed: bool)
  {
    && (forall k :: k != key ==>
          Counters(after, k) == Counters(before, k) && (k in after <==> k in before))
    && (key in before ==> key in after)
    && Counters(after, key) ==
       if passed && key in after then
         (Wrap64(Counters(before, key).0 + 1), Wrap64(Counters(before, key).1 + len))
       else Counters(before, key)
  }

  lemma JudgedCounts(cfg: Config, s: State, key: FlowKey, len: u32, now: u64)
    requires key in s.flows
    ensures var (t, action) := Judged(cfg, s, key, len, now); CountsOne(s.flows, t.flows, key, len, action == XDP_PASS)
  {
    PolicyFlows(cfg, s, key, len, now);
  }

  /** A new entry has counted nothing, as a missing one has. */
  lemma NewCounts(before: map<FlowKey, Flow>, mid: map<FlowKey, Flow>, after: map<FlowKey, Flow>, key: FlowKey, f: Flow,
                  len: u32, passed: bool)
    requires key !in before && mid == before[key := f] && f.packets == 0 && f.bytes == 0
    requires CountsOne(mid, after, key, len, passed)
    ensures CountsOne(before, after, key, len, passed)
  {
  }

  lemma WithFlowCounts(cfg: Config, s: State, key: FlowKey, len: u32, now: u64, room: bool)
    ensures var (t, action) := WithFlow(cfg, s, key, len, now, room);
      CountsOne(s.flows, t.flows, key, len, action == XDP_PASS)
  {
    if key in s.flows {
      JudgedCounts(cfg, s, key, len, now);
    } else if room {
      var s1 := s.(flows := s.flows[key := NewFlow(cfg, now)]);
      JudgedCounts(cfg, s1, key, len, now);
      var (t, action) := Judged(cfg, s1, key, len, now);
      NewCounts(s.flows, s1.flows, t.flows, key, NewFlow(cfg, now), len, action == XDP_PASS);
    }
  }

  lemma LateCounts(cfg: Config, s: State, key: FlowKey, len: u32, now: u64, room: bool)
    ensures var (t, action) := Late(cfg, s, key, len, now, room);
      CountsOne(s.flows, t.flows, key, len, action == XDP_PASS)
  {
    WithFlowCounts(cfg, s.(pps := TB.TakePps(s.pps, now, cfg.ppsLimit).0), key, len, now, room);
  }

  lemma XdpCounts(cfg: Config, s: State, p: Packet, now: u64, room: bool)
    ensures var (t, action) := XdpStep(cfg, s, p, now, room);
      if FrameOf(p).Portless? then CountsOne(s.flows, t.flows, FrameOf(p).key, |p|, action == XDP_PASS)
      else t.flows == s.flows
  {
    if FrameOf(p).Portless? {
      LateCounts(cfg, s.(attack := A.Look(s.attack, now).0), FrameOf(p).key, |p|, now, room);
    }
  }

  /** The event is a packet of flow `k` that passes and meets a flow entry. */
  predicate Passed(cfg: Config, s: State, e: Event, k: FlowKey)
    requires AllStored(s.conns)
  {
    && e.Xdp? && FrameOf(e.packet).Portless? && FrameOf(e.packet).key == k
    && XdpStep(cfg, s, e.packet, e.at, e.room).1 == XDP_PASS
    && k in Step(cfg, s, e).flows
  }

  /** What one event means for the counters of a flow. */
  datatype Mark = Evicted | Counted(len: u32) | Nothing

  function MarkOf(cfg: Config, s: State, e: Event, k: FlowKey): Mark
    requires AllStored(s.conns)
  {
    if e == EvictFlow(k) then Evicted
    else if Passed(cfg, s, e, k) then Counted(|e.packet|)
    else Nothing
  }

  function Marked(c: (u64, u64), m: Mark): (u64, u64) {
    match m
    case Evicted => (0, 0)
    case Counted(len) => (Wrap64(c.0 + 1), Wrap64(c.1 + len))
    case Nothing => c
  }

  lemma CountedOnce(cfg: Config, s: State, p: Packet, now: u64, room: bool, k: FlowKey)
    ensures var (t, action) := XdpStep(cfg, s, p, now, room);
      Counters(t.flows, k) ==
        if FrameOf(p).Portless? && FrameOf(p).key == k && action == XDP_PASS && k in t.flows
        then (Wrap64(Counters(s.flows, k).0 + 1), Wrap64(Counters(s.flows, k).1 + |p|)) else Counters(s.flows, k)
  {
    XdpCounts(cfg, s, p, now, room);
  }

  lemma StepCounts(cfg: Config, s: State, e: Event, k: FlowKey)
    requires AllStored(s.conns)
    ensures Counters(Step(cfg, s, e).flows, k) == Marked(Counters(s.flows, k), MarkOf(cfg, s, e, k))
  {
    if e.Xdp? {
      CountedOnce(cfg, s, e.packet, e.at, e.room, k);
    }
  }

  function Added(t: (nat, nat), m: Mark): (nat, nat) {
    match m
    case Evicted => (0, 0)
    case Counted(len) => (t.0 + 1, t.1 + len)
    case Nothing => t
  }

  /** Packets and bytes of flow `k` passed in the first `j` events, since its last eviction. */
  function Tally(cfg: Config, s0: State, es: seq<Event>, k: FlowKey, j: nat): (nat, nat)
    requires AllStored(s0.conns) && j <= |es|
  {
    if j == 0 then (0, 0)
    else Added(Tally(cfg, s0, es, k, j - 1), MarkOf(cfg, StateAt(cfg, s0, es, j - 1), es[j - 1], k))
  }

  /** Counters hold a tally modulo 2^64. */
  predicate Agree(c: (u64, u64), t: (nat, nat)) { c == (Wrap64(t.0), Wrap64(t.1)) }

  lemma AgreeStep(c: (u64, u64), t: (nat, nat), m: Mark)
    requires Agree(c, t)
    ensures Agree(Marked(c, m), Added(t, m))
  {
    if m.Counted? {
      WrapSum(1, t.0);
      WrapSum(m.len, t.1);
    }
  }

  /** In every run the counters of every flow are exactly the packets and bytes passed since the entry
      was last evicted, modulo 2^64. */
  lemma {:induction false} CountersExact(cfg: Config, s0: State, es: seq<Event>, k: FlowKey, j: nat)
    requires AllStored(s0.conns) && s0.flows == map[] && j <= |es|
    ensures Agree(Counters(StateAt(cfg, s0, es, j).flows, k), Tally(cfg, s0, es, k, j))
    decreases j
  {
    if j > 0 {
      CountersExact(cfg, s0, es, k, j - 1);
      var s, e := StateAt(cfg, s0, es, j - 1), es[j - 1];
      StepCounts(cfg, s, e, k);
      AgreeStep(Counters(s.flows, k), Tally(cfg, s0, es, k, j - 1), MarkOf(cfg, s, e, k));
    }
  }
}
