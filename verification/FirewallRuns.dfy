/** Whole runs of the firewall: any interleaving of outgoing packets at the TC program, incoming
    packets at the XDP program, blocklist and rule changes from user space, and LRU evictions. */
module FirewallRuns {
  import opened Machine
  import opened StatusCode
  import opened Headers
  import opened Firewall
  import D = DpiState
  import TB = TokenBucket

  type Packet = p: seq<u8> | |p| < TWO32 witness []

  datatype Event =
    | Tc(skb: seq<u8>, protocol: u16, sent: u64, reserve: bool)
    | Xdp(packet: Packet, at: u64, room: bool)
    | Block(ip: u32)
    | Unblock(ip: u32)
    | SetBan(ip: u32, ban: Ban)
    | EvictBan(ip: u32)
    | EvictConn(key: FlowKey)
    | EvictFlow(key: FlowKey)
    | SetRule(ruleKey: RuleKey, rule: Rule)
    | EvictRule(ruleKey: RuleKey)

  function Step(cfg: Config, s: State, e: Event): (r: State)
    requires AllStored(s.conns)
    ensures AllStored(r.conns)
  {
    match e
    case Tc(skb, protocol, now, reserve) =>
      TcStores(s, skb, protocol, now, reserve);
      TcStep(s, skb, protocol, now, reserve).0
    case Xdp(p, now, room) =>
      XdpKeepsClasses(cfg, s, p, now, room);
      XdpStep(cfg, s, p, now, room).0
    case Block(ip) => s.(perm := s.perm + {ip})
    case Unblock(ip) => s.(perm := s.perm - {ip})
    case SetBan(ip, ban) => s.(temp := s.temp[ip := ban])
    case EvictBan(ip) => s.(temp := s.temp - {ip})
    case EvictConn(key) => s.(conns := s.conns - {key})
    case EvictFlow(key) => s.(flows := s.flows - {key})
    case SetRule(rk, rule) => s.(rules := s.rules[rk := rule])
    case EvictRule(rk) => s.(rules := s.rules - {rk})
  }

  /** The state after the first `i` events. */
  function StateAt(cfg: Config, s0: State, es: seq<Event>, i: nat): (r: State)
    requires AllStored(s0.conns) && i <= |es|
    ensures AllStored(r.conns)
  {
    if i == 0 then s0 else Step(cfg, StateAt(cfg, s0, es, i - 1), es[i - 1])
  }

  /** Packets come in between `from` and `to`, in order of time. */
  ghost predicate PacketsClocked(es: seq<Event>, i: nat, j: nat, from: u64, to: u64)
    requires i <= j <= |es|
  {
    && (forall m :: i <= m < j && es[m].Xdp? ==> from <= es[m].at <= to)
    && (forall m, n :: i <= m <= n < j && es[m].Xdp? && es[n].Xdp? ==> es[m].at <= es[n].at)
  }

  // ----- one step of each program -----

  lemma EgressStores(existing: Option<Conn>, dstBlocked: bool, sight: Sight, now: u64, reserve: bool)
    requires existing.Some? ==> D.Stored(existing.value.dpi)
    ensures D.Stored(Egress(existing, dstBlocked, sight, now, reserve).0.dpi)
  {
  }

  lemma TcStores(s: State, skb: seq<u8>, protocol: u16, now: u64, reserve: bool)
    requires AllStored(s.conns)
    ensures AllStored(TcStep(s, skb, protocol, now, reserve).0.conns)
  {
    var sight := Sees(skb, protocol);
    if sight.Some? {
      EgressStores(Lookup(s.conns, sight.value.key), sight.value.key.daddr in s.tcPerm, sight.value, now, reserve);
    }
  }

  /** Nothing is removed or reclassified, and what is new is unclassified. */
  ghost predicate KeepsClasses(before: map<FlowKey, Conn>, after: map<FlowKey, Conn>) {
    && (forall k :: k in before ==>
          k in after && after[k].dpi == before[k].dpi && after[k].tlsVersion == before[k].tlsVersion)
    && (forall k :: k in after && k !in before ==> after[k].dpi == 0x00)
  }

  /** What the rate limits can touch: buckets, flows, and the ban of the packet's own source. */
  lemma LimitsFrame(cfg: Config, s: State, key: FlowKey, len: u32, now: u64)
    requires key in s.flows
    ensures var t := Limits(cfg, s, key, len, now).0;
      && t.conns == s.conns && t.tcPerm == s.tcPerm && t.perm == s.perm && t.ports == s.ports && t.rules == s.rules
      && (t.temp == s.temp || t.temp == s.temp[key.saddr := BanFrom(now)])
  {
  }

  /** The port check lets a TCP or UDP packet through: one of its ports is allowed, or it is UDP from or to one
      of six service ports. */
  predicate PortPassed(s: State, key: FlowKey) {
    && (key.proto == 6 || key.proto == 17)
    && (|| key.sport in s.ports || key.dport in s.ports
        || (key.proto == 17 && (key.sport in SERVICE_PORTS || key.dport in SERVICE_PORTS)))
  }

  const SERVICE_PORTS: set<u16> := {53, 67, 68, 123, 137, 5353}

  /** The address checks let it through: not from the broadcast address or 224.0.0.0/4, and not to the latter
      or the subnet's broadcast address; to the former from a DHCP client only. */
  predicate AddressesPass(cfg: Config, key: FlowKey) {
    && key.saddr != 0xFFFF_FFFF && !(0xE000_0000 <= key.saddr <= 0xEFFF_FFFF)
    && (if key.daddr == 0xFFFF_FFFF then key.dport == 67
        else !(0xE000_0000 <= key.daddr <= 0xEFFF_FFFF) && cfg.subnetBroadcast != Some(key.daddr))
  }

  /** A whitelist rule names the packet's source and its port. */
  predicate Ruled(s: State, key: FlowKey) {
    (key.proto == 6 || key.proto == 17) && RuleKey(key.saddr, 32, key.sport, 6) in s.rules
  }

  lemma PolicyFrame(cfg: Config, s: State, key: FlowKey, len: u32, now: u64)
    requires key in s.flows
    ensures var t := Policy(cfg, s, key, len, now).0;
      && t.tcPerm == s.tcPerm && t.perm == s.perm && t.ports == s.ports && t.rules == s.rules
      && (t.temp == s.temp || t.temp == s.temp[key.saddr := BanFrom(now)])
      && t.conns == if PortPassed(s, key) then Recorded(s.conns, key, now) else s.conns
  {
    LimitsFrame(cfg, s, key, len, now);
    LimitsFrame(cfg, s.(conns := Recorded(s.conns, key, now)), key, len, now);
  }

  lemma LateFrame(cfg: Config, s: State, key: FlowKey, len: u32, now: u64, room: bool)
    ensures var t := Late(cfg, s, key, len, now, room).0;
      && t.tcPerm == s.tcPerm && t.perm == s.perm && t.ports == s.ports && t.rules == s.rules
      && (t.temp == s.temp || t.temp == s.temp[key.saddr := BanFrom(now)])
      && (t.conns == s.conns || (PortPassed(s, key) && t.conns == Recorded(s.conns, key, now)))
  {
    var s1 := s.(pps := TB.TakePps(s.pps, now, cfg.ppsLimit).0);
    var s2 := if key in s.flows then s1 else s1.(flows := s1.flows[key := NewFlow(cfg, now)]);
    PolicyFrame(cfg, s2, key, len, now);
  }

  /** What the parsing stage can do: refresh the entry of an admitted packet. */
  lemma ParseFrame(s: State, p: Packet, now: u64)
    ensures var t, frame := AfterParse(s, p, now), FrameOf(p);
      && t == s.(conns := t.conns, fuse := t.fuse, attack := t.attack)
      && t.conns == (if frame.Transport? && Admitted(s, frame.key, now) then Recorded(s.conns, frame.key, now)
                     else s.conns)
  {
  }

  /** What an incoming packet can do to the conntrack table, the bans and the lists. */
  lemma XdpFrame(cfg: Config, s: State, p: Packet, now: u64, room: bool)
    ensures var t, frame := XdpStep(cfg, s, p, now, room).0, FrameOf(p);
      && t.tcPerm == s.tcPerm && t.perm == s.perm && t.ports == s.ports && t.rules == s.rules
      && (t.temp == s.temp || (frame.Portless? && t.temp == s.temp[frame.key.saddr := BanFrom(now)]))
      && (|| t.conns == s.conns
          || (frame.Portless? && PortPassed(s, frame.key) && t.conns == Recorded(s.conns, frame.key, now))
          || (frame.Transport? && Mirror(frame.key) in s.conns && t.conns == Recorded(s.conns, frame.key, now)))
  {
    ParseFrame(s, p, now);
    if FrameOf(p).Portless? {
      LateFrame(cfg, AfterParse(s, p, now), FrameOf(p).key, |p|, now, room);
    }
  }

  lemma RecordedKeepsClasses(conns: map<FlowKey, Conn>, key: FlowKey, now: u64)
    ensures KeepsClasses(conns, Recorded(conns, key, now))
  {
  }

  /** No incoming packet changes the classification of a flow. */
  lemma XdpKeepsClasses(cfg: Config, s: State, p: Packet, now: u64, room: bool)
    requires AllStored(s.conns)
    ensures KeepsClasses(s.conns, XdpStep(cfg, s, p, now, room).0.conns)
    ensures AllStored(XdpStep(cfg, s, p, now, room).0.conns)
  {
    XdpFrame(cfg, s, p, now, room);
    var frame := FrameOf(p);
    if frame.Portless? || frame.Transport? {
      RecordedKeepsClasses(s.conns, frame.key, now);
    }
  }

  // ----- admission: only what was opened from inside -----

  predicate Opens(e: Event, k: FlowKey) {
    e.Tc? && Sees(e.skb, e.protocol).Some? && Sees(e.skb, e.protocol).value.key == k
  }

  /** Some event before the `j`-th sent a packet of flow `k` out, and the entry was not evicted since. */
  ghost predicate OpenedBefore(es: seq<Event>, k: FlowKey, j: nat)
    requires j <= |es|
  {
    exists i :: 0 <= i < j && Opens(es[i], k) && forall m :: i < m < j ==> es[m] != EvictConn(k)
  }

  /** The `j`-th event is an incoming TCP or UDP packet, and XDP passes it. */
  ghost predicate Passes(cfg: Config, s0: State, es: seq<Event>, j: nat)
    requires AllStored(s0.conns) && j < |es|
  {
    && es[j].Xdp? && FrameOf(es[j].packet).Transport?
    && XdpStep(cfg, StateAt(cfg, s0, es, j), es[j].packet, es[j].at, es[j].room).1 == XDP_PASS
  }

  lemma StepKeepsPorts(cfg: Config, s: State, e: Event)
    requires AllStored(s.conns)
    ensures Step(cfg, s, e).ports == s.ports
  {
    if e.Xdp? {
      XdpFrame(cfg, s, e.packet, e.at, e.room);
    }
  }

  lemma {:induction false} PortsFixed(cfg: Config, s0: State, es: seq<Event>, j: nat)
    requires AllStored(s0.conns) && j <= |es|
    ensures StateAt(cfg, s0, es, j).ports == s0.ports
    decreases j
  {
    if j > 0 {
      PortsFixed(cfg, s0, es, j - 1);
      StepKeepsPorts(cfg, StateAt(cfg, s0, es, j - 1), es[j - 1]);
    }
  }

  /** While port 0 is not allowed, an incoming packet adds no conntrack entry. */
  lemma XdpAddsNothing(cfg: Config, s: State, p: Packet, now: u64, room: bool)
    requires 0 !in s.ports
    ensures XdpStep(cfg, s, p, now, room).0.conns.Keys == s.conns.Keys
  {
    XdpFrame(cfg, s, p, now, room);
    if FrameOf(p).Portless? {
      PortlessPorts(p);
    }
  }

  lemma StepAddsOnlyOpened(cfg: Config, s: State, e: Event, k: FlowKey)
    requires AllStored(s.conns) && 0 !in s.ports && k in Step(cfg, s, e).conns && !Opens(e, k)
    ensures k in s.conns && e != EvictConn(k)
  {
    if e.Xdp? {
      XdpAddsNothing(cfg, s, e.packet, e.at, e.room);
      assert k in XdpStep(cfg, s, e.packet, e.at, e.room).0.conns.Keys;
    }
  }

  lemma OpenedStillBefore(es: seq<Event>, k: FlowKey, j: nat)
    requires j < |es| && OpenedBefore(es, k, j) && es[j] != EvictConn(k)
    ensures OpenedBefore(es, k, j + 1)
  {
    var i :| 0 <= i < j && Opens(es[i], k) && forall m :: i < m < j ==> es[m] != EvictConn(k);
    assert forall m :: i < m < j + 1 ==> es[m] != EvictConn(k);
  }

  lemma {:induction false} EntriesOpened(cfg: Config, s0: State, es: seq<Event>, j: nat, k: FlowKey)
    requires s0.conns == map[] && 0 !in s0.ports && j <= |es|
    requires k in StateAt(cfg, s0, es, j).conns
    ensures OpenedBefore(es, k, j)
    decreases j
  {
    if j > 0 {
      if Opens(es[j - 1], k) {
        assert OpenedBefore(es, k, j);
      } else {
        PortsFixed(cfg, s0, es, j - 1);
        StepAddsOnlyOpened(cfg, StateAt(cfg, s0, es, j - 1), es[j - 1], k);
        EntriesOpened(cfg, s0, es, j - 1, k);
        OpenedStillBefore(es, k, j - 1);
      }
    }
  }

  /** In every run from an empty conntrack table with these ports allowed, every TCP or UDP packet
      let in answers one sent out earlier. */
  ghost predicate OnlyAnswers(ports: set<u16>) {
    forall cfg: Config, s0: State, es: seq<Event>, j: nat ::
      s0.conns == map[] && s0.ports == ports && j < |es| && Passes(cfg, s0, es, j) ==>
      OpenedBefore(es, Mirror(FrameOf(es[j].packet).key), j)
  }

  lemma OnlyAnswersWithoutPortZero(ports: set<u16>)
    requires 0 !in ports
    ensures OnlyAnswers(ports)
  {
    forall cfg: Config, s0: State, es: seq<Event>, j: nat |
        s0.conns == map[] && s0.ports == ports && j < |es| && Passes(cfg, s0, es, j)
      ensures OpenedBefore(es, Mirror(FrameOf(es[j].packet).key), j)
    {
      EntriesOpened(cfg, s0, es, j, Mirror(FrameOf(es[j].packet).key));
    }
  }

  // ----- with port 0 allowed, a fragment opens a flow -----

  /** The bytes of two IPv4 TCP packets from 10.0.0.1 to 10.0.0.2, all ports 0: a fragment at offset 8,
      and a whole packet with a bare header. */
  function Octet(fragment: bool, i: nat): u8 {
    if i == 12 then 8                                             // ethertype
    else if i == 14 then 0x45                                     // version and header length
    else if i == 17 then if fragment then 20 else 40              // total length
    else if i == 21 then if fragment then 1 else 0                // fragment offset
    else if i == 22 then 64                                       // time to live
    else if i == 23 then 6                                        // protocol
    else if i == 26 || i == 30 then 10
    else if i == 29 then 1
    else if i == 33 then 2
    else if i == 46 then 0x50                                     // TCP header length
    else 0
  }

  /** A first packet. */
  function Fragment(): Packet { seq(34, i requires 0 <= i < 34 => Octet(true, i)) }

  /** A second one. */
  function Intruder(): Packet { seq(54, i requires 0 <= i < 54 => Octet(false, i)) }

  const HOST_A: u32 := 0x0A00_0001
  const HOST_B: u32 := 0x0A00_0002

  lemma FragmentFrame()
    ensures FrameOf(Fragment()) == Portless(FlowKey(HOST_A, HOST_B, 0, 0, 6))
  {
    Untagged(Fragment());
  }

  lemma IntruderFrame()
    ensures FrameOf(Intruder()) == Transport(FlowKey(HOST_A, HOST_B, 0, 0, 6))
  {
    Untagged(Intruder());
  }

  const ROOMY: Config := Config(1000, 1000, 1000, 1000, 1000, None)

  /** The state in which the rate limits find a packet of a new flow that passed the port check. */
  function BeforeLimits(cfg: Config, s: State, key: FlowKey, now: u64): State {
    s.(pps := TB.TakePps(s.pps, now, cfg.ppsLimit).0, flows := s.flows[key := NewFlow(cfg, now)],
       conns := Recorded(s.conns, key, now))
  }

  lemma LateReachesLimits(cfg: Config, s: State, key: FlowKey, len: u32, now: u64)
    requires TB.TakePps(s.pps, now, cfg.ppsLimit).1 && Unicast(cfg, key.saddr, key.daddr, key.dport)
    requires key !in s.flows && PortPassed(s, key)
    ensures var t := Late(cfg, s, key, len, now, true).0;
      var u := Limits(cfg, BeforeLimits(cfg, s, key, now), key, len, now).0;
      t.conns == u.conns && t.perm == u.perm && t.temp == u.temp
  {
    var s1 := s.(pps := TB.TakePps(s.pps, now, cfg.ppsLimit).0);
    var s2 := s1.(flows := s1.flows[key := NewFlow(cfg, now)]);
    assert s2.(conns := Recorded(s2.conns, key, now)) == BeforeLimits(cfg, s, key, now);
  }

  /** The fragment passes the port check on its zeroed ports and leaves a conntrack entry. */
  lemma FragmentOpens(ports: set<u16>)
    requires 0 in ports
    ensures var t := XdpStep(ROOMY, Boot(ROOMY, ports), Fragment(), 1, true).0;
      && t.conns == map[FlowKey(HOST_B, HOST_A, 0, 0, 6) := Conn(1, 0x00, 0)]
      && t.perm == {} && t.temp == map[]
  {
    FragmentFrame();
    FragmentLate(Boot(ROOMY, ports));
  }

  lemma FragmentLate(s: State)
    requires s.conns == map[] && s.perm == {} && s.temp == map[] && s.flows == map[] && s.rules == map[]
    requires 0 in s.ports && s.pps == TB.Bucket(1000, 0) && s.global.last == 0
    ensures var t := Late(ROOMY, s, FlowKey(HOST_A, HOST_B, 0, 0, 6), 34, 1, true).0;
      && t.conns == map[FlowKey(HOST_B, HOST_A, 0, 0, 6) := Conn(1, 0x00, 0)]
      && t.perm == {} && t.temp == map[]
  {
    var key := FlowKey(HOST_A, HOST_B, 0, 0, 6);
    LateReachesLimits(ROOMY, s, key, 34, 1);
    LimitsFrame(ROOMY, BeforeLimits(ROOMY, s, key, 1), key, 34, 1);
    RoomyLimits(BeforeLimits(ROOMY, s, key, 1), key);
  }

  lemma RoomyLimits(s: State, key: FlowKey)
    requires key in s.flows && s.flows[key] == NewFlow(ROOMY, 1) && s.rules == map[] && s.global.last == 0
    ensures Limits(ROOMY, s, key, 34, 1).0.temp == s.temp
    ensures Limits(ROOMY, s, key, 34, 1).1 == PolicyPassed
  {
  }

  /** The second packet is admitted by that entry. */
  lemma IntruderPasses(s: State, now: u64, room: bool)
    requires s.conns == map[FlowKey(HOST_B, HOST_A, 0, 0, 6) := Conn(1, 0x00, 0)] && s.perm == {} && s.temp == map[]
    ensures XdpStep(ROOMY, s, Intruder(), now, room).1 == XDP_PASS
  {
    IntruderFrame();
    assert Admitted(s, FlowKey(HOST_A, HOST_B, 0, 0, 6), now);
  }

  /** Both of them pass: the run begins after loading, and nothing goes out. */
  lemma PortZeroPasses(ports: set<u16>)
    requires 0 in ports
    ensures Passes(ROOMY, Boot(ROOMY, ports), [Xdp(Fragment(), 1, true), Xdp(Intruder(), 2, true)], 1)
  {
    var s0, es := Boot(ROOMY, ports), [Xdp(Fragment(), 1, true), Xdp(Intruder(), 2, true)];
    FragmentOpens(ports);
    assert StateAt(ROOMY, s0, es, 0) == s0;
    var s := StateAt(ROOMY, s0, es, 1);
    assert s == XdpStep(ROOMY, s0, Fragment(), 1, true).0;
    IntruderFrame();
    IntruderPasses(s, 2, true);
  }

  lemma PortZeroLetsIn(ports: set<u16>)
    requires 0 in ports
    ensures !OnlyAnswers(ports)
  {
    var es := [Xdp(Fragment(), 1, true), Xdp(Intruder(), 2, true)];
    PortZeroPasses(ports);
    assert !OpenedBefore(es, Mirror(FrameOf(es[1].packet).key), 1);
  }

  /** XDP lets in only what answers a flow that TC has opened exactly when port 0 is not among the allowed
      ports, which is why the loader skips it. */
  lemma OnlyAnswersIff(ports: set<u16>)
    ensures OnlyAnswers(ports) <==> 0 !in ports
  {
    if 0 in ports {
      PortZeroLetsIn(ports);
    } else {
      OnlyAnswersWithoutPortZero(ports);
    }
  }
}
