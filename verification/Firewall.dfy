/** The state that the TC egress program (src/ebpf/trace_connect.c) and the XDP ingress program
    (src/ebpf/xdp_fw.c, src/ebpf/policy.h) share, and what one packet does to it, told as
    decisions on classes, keys and frames rather than on bytes. */
module Firewall {
  import opened Machine
  import opened StatusCode
  import opened Headers
  import D = DpiState
  import Fuse
  import TB = TokenBucket
  import A = AttackMode

  const BAN_NS := 300 * NS_PER_SEC

  datatype Conn = Conn(lastSeen: u64, dpi: bv8, tlsVersion: u8)

  datatype Ban = Ban(start: u64, end: u64)

  datatype RuleKey = RuleKey(remoteIp: u32, remoteMask: u32, remotePort: u16, proto: u8)

  datatype Rule = Rule(rate: u64, burst: u64)

  datatype Flow = Flow(
    packets: u64, bytes: u64, bucket: TB.Bucket, firstSeen: u64, lastSeen: u64, rate: u64, burst: u64)

  /** Limits injected at start-up; the byte limits are 32 bits wide in the configuration. */
  datatype Config = Config(
    globalRate: u32, globalBurst: u32, flowRate: u32, flowBurst: u32, ppsLimit: u64, subnetBroadcast: Option<u32>)

  datatype State = State(
    conns: map<FlowKey, Conn>,
    tcPerm: set<u32>,   // the TC object's own permanent blocklist, which is not shared with XDP's
    perm: set<u32>,
    temp: map<u32, Ban>,
    ports: set<u16>,
    rules: map<RuleKey, Rule>,
    flows: map<FlowKey, Flow>,
    fuse: Fuse.State,
    global: TB.Bucket,
    pps: TB.Bucket,
    attack: A.State)

  /** The state in which the programs start: empty tables, a full packet-rate bucket, everything else zero,
      and the loaded ports. */
  function Boot(cfg: Config, ports: set<u16>): State {
    State(map[], {}, {}, map[], ports, map[], map[],
          Fuse.State(0, 0), TB.Bucket(0, 0), TB.Bucket(cfg.ppsLimit, 0), A.State(0, 0))
  }

  /** Every entry holds one of the nine bytes the programs store. */
  ghost predicate AllStored(conns: map<FlowKey, Conn>) {
    forall k :: k in conns ==> D.Stored(conns[k].dpi)
  }

  // ----- TC egress -----

  /** What TC looks at in an outgoing packet: the five-tuple, whether any layer-7 byte is there,
      and whether those bytes open a TLS ClientHello. */
  datatype Sight = Sight(key: FlowKey, payload: bool, hello: bool)

  function Sees(skb: seq<u8>, protocol: u16): Option<Sight> {
    if |skb| < 34 || protocol != ETH_P_IP then None
    else
      var ihl, proto := skb[14] % 16, skb[23];
      if skb[14] / 16 != 4 || ihl < 5 || (proto != IPPROTO_TCP && proto != IPPROTO_UDP) then None
      else
        var l4: nat := 14 + 4 * ihl;
        if |skb| < l4 + 4 then None
        else Some(Sight(FlowKey(Be32(skb, 26), Be32(skb, 30), Be16(skb, l4), Be16(skb, l4 + 2), proto),
                        |skb| > l4 + 12 && |skb| > L7(skb, l4),
                        proto == IPPROTO_TCP && |skb| > l4 + 12 && OpensHello(skb, L7(skb, l4))))
  }

  function L7(skb: seq<u8>, l4: nat): nat
    requires l4 + 12 < |skb|
  {
    l4 + 4 * (skb[l4 + 12] / 16)
  }

  predicate OpensHello(skb: seq<u8>, at: nat) {
    |skb| >= at + 6 && skb[at] == 0x16 && skb[at + 1] == 0x03 && skb[at + 5] == 0x01
  }

  /** How a flow without a lasting class is classified. */
  function Classify(dstBlocked: bool, s: Sight): D.Class {
    var dport := s.key.dport;
    if dstBlocked then D.Blocklisted
    else if dport == 53 || dport == 123 || dport == 67 || dport == 68 then D.Ignore
    else if (dport == 443 || dport == 80) && s.key.proto == IPPROTO_TCP then
      if s.hello then D.Pending(1) else D.Unknown
    else D.Ignore
  }

  function Encode(c: D.Class): bv8 {
    match c
    case Unknown => 0x00
    case Ignore => 0x01
    case Blocklisted => 0x02
    case Pending(n) =>
      if n == 1 then 0x13 else if n == 2 then 0x23 else if n == 3 then 0x33 else if n == 4 then 0x43 else 0x53
    case Done => 0x54
  }

  /** One outgoing packet: the new conntrack entry, and whether the packet was submitted to the
      ring buffer for inspection. `reserve` says whether the ring buffer had room. */
  function Egress(existing: Option<Conn>, dstBlocked: bool, s: Sight, now: u64, reserve: bool): (Conn, bool)
    requires existing.Some? ==> D.Stored(existing.value.dpi)
  {
    var known := if existing.Some? then D.Decode(existing.value.dpi) else D.Unknown;
    match known
    case Unknown =>
      var c := Classify(dstBlocked, s);
      (Conn(now, Encode(c), if c.Pending? then 1 else 0), c.Pending? && reserve)
    case Pending(n) =>
      var seen := existing.value.(lastSeen := now);
      if n >= 5 then (seen.(dpi := Encode(D.Done)), false)
      else if !s.payload || !reserve then (seen, false)
      else (seen.(dpi := Encode(D.Pending(n + 1))), true)
    case _ => (existing.value.(lastSeen := now), false)
  }

  function Lookup<K, V>(m: map<K, V>, k: K): Option<V> {
    if k in m then Some(m[k]) else None
  }

  function TcStep(s: State, skb: seq<u8>, protocol: u16, now: u64, reserve: bool): (State, bool)
    requires AllStored(s.conns)
  {
    match Sees(skb, protocol)
    case None => (s, false)
    case Some(sight) =>
      var (conn, submitted) := Egress(Lookup(s.conns, sight.key), sight.key.daddr in s.tcPerm, sight, now, reserve);
      (s.(conns := s.conns[sight.key := conn]), submitted)
  }

  const L3_OFFSET := 14
  const MAX_L7_PAYLOAD := 2000
  const DIR_OUT: u8 := 1

  /** What TC writes into the ring buffer. The direction of a flow's first event is left as the reserved
      memory had it. */
  datatype L7Event = L7Event(
    srcIp: u32, dstIp: u32, srcPort: u16, dstPort: u16, proto: u8, timestamp: u64, packet: seq<u8>,
    direction: Option<u8>)

  /** The bytes of an outgoing packet sent to the ring buffer: from layer 3 on, at most 2000. */
  function Snapshot(skb: seq<u8>): seq<u8>
    requires |skb| >= 34
  {
    skb[L3_OFFSET..Min(|skb|, L3_OFFSET + MAX_L7_PAYLOAD)]
  }

  function EventOf(skb: seq<u8>, key: FlowKey, now: u64, continued: bool): L7Event
    requires |skb| >= 34
  {
    L7Event(key.saddr, key.daddr, key.sport, key.dport, key.proto, now, Snapshot(skb),
            if continued then Some(DIR_OUT) else None)
  }

  predicate IsPending(conns: map<FlowKey, Conn>, key: FlowKey)
    requires AllStored(conns)
  {
    key in conns && D.Decode(conns[key].dpi).Pending?
  }

  /** The event one outgoing packet puts into the ring buffer. */
  function TcEvent(s: State, skb: seq<u8>, protocol: u16, now: u64, reserve: bool): Option<L7Event>
    requires AllStored(s.conns)
  {
    match Sees(skb, protocol)
    case None => None
    case Some(sight) =>
      if TcStep(s, skb, protocol, now, reserve).1
      then Some(EventOf(skb, sight.key, now, IsPending(s.conns, sight.key))) else None
  }

  // ----- XDP ingress -----

  predicate Active(b: Ban, now: u64) {
    b.start <= now && (b.end == 0 || now < b.end)
  }

  predicate TempBanned(s: State, ip: u32, now: u64) {
    ip in s.temp && Active(s.temp[ip], now)
  }

  /** The decision on an unfragmented TCP or UDP packet from outside: its source is on no list in
      force, and the flow was opened from inside towards a host not on the blocklist. */
  predicate Admitted(s: State, key: FlowKey, now: u64) {
    && key.saddr !in s.perm
    && !TempBanned(s, key.saddr, now)
    && Mirror(key) in s.conns
    && s.conns[Mirror(key)].dpi != 0x02
  }

  predicate PortAllowed(s: State, key: FlowKey) {
    key.dport in s.ports || key.sport in s.ports
  }

  /** Service ports that the UDP port check lets through: NTP, DHCP, NetBIOS names, DNS, mDNS. */
  predicate Special(key: FlowKey) {
    key.proto == IPPROTO_UDP &&
    (key.sport in {123, 67, 68, 137, 53, 5353} || key.dport in {123, 67, 68, 137, 53, 5353})
  }

  predicate HasPorts(key: FlowKey) { key.proto == IPPROTO_TCP || key.proto == IPPROTO_UDP }

  /** record_established: refresh or create the mirrored entry. */
  function Recorded(conns: map<FlowKey, Conn>, key: FlowKey, now: u64): map<FlowKey, Conn> {
    var rev := Mirror(key);
    if rev in conns then conns[rev := conns[rev].(lastSeen := now)]
    else conns[rev := Conn(now, 0x00, 0)]
  }

  function RuleFor(s: State, key: FlowKey): Option<Rule> {
    if HasPorts(key) then Lookup(s.rules, RuleKey(key.saddr, 32, key.sport, IPPROTO_TCP)) else None
  }

  function NewFlow(cfg: Config, now: u64): Flow {
    Flow(0, 0, TB.Bucket(cfg.flowBurst, now), now, now, 0, 0)
  }

  /** The per-flow bucket of one flow, its own rate and burst before the configured ones. */
  function TakeFlow(cfg: Config, f: Flow, c: TB.Call): (Flow, bool) {
    var rate, burst := if f.rate != 0 then f.rate else cfg.flowRate, if f.burst != 0 then f.burst else cfg.flowBurst;
    var (b, ok) := TB.Take(f.bucket, c, rate, burst);
    (f.(bucket := b), ok)
  }

  datatype PolicyResult = PortMiss | GlobalLimited | FlowLimited | PolicyPassed

  function StatusOf(r: PolicyResult): bv32 {
    match r
    case PortMiss => MakeStatus(ACT_DROP, STG_PORT_WHT, RSN_PORT_MISS)
    case GlobalLimited => MakeStatus(ACT_DROP, STG_GLOBAL_LMT, RSN_LIMIT_BYTES)
    case FlowLimited => MakeStatus(ACT_DROP, STG_FLOW_LMT, RSN_LIMIT_BYTES)
    case PolicyPassed => MakeStatus(ACT_PASS, STG_FLOW_LMT, RSN_SUCCESS)
  }

  /** apply_policy on a packet of flow `key`, whose flow entry exists. */
  function Policy(cfg: Config, s: State, key: FlowKey, len: u32, now: u64): (State, PolicyResult)
    requires key in s.flows
  {
    if HasPorts(key) && !Special(key) && !PortAllowed(s, key) then (s, PortMiss)
    else
      var s1 := if HasPorts(key) then s.(conns := Recorded(s.conns, key, now)) else s;
      Limits(cfg, s1, key, len, now)
  }

  /** The rate limits: a rule sets the flow's own limits and skips the global bucket. */
  function Limits(cfg: Config, s: State, key: FlowKey, len: u32, now: u64): (State, PolicyResult)
    requires key in s.flows
  {
    var rule := RuleFor(s, key);
    if rule.Some? then
      var f := s.flows[key].(rate := rule.value.rate, burst := rule.value.burst);
      var (f1, ok) := TakeFlow(cfg, f, TB.Call(now, len));
      (s.(flows := s.flows[key := f1]), if ok then PolicyPassed else FlowLimited)
    else
      var (g, passed) := TB.TakeGlobal(s.global, TB.Call(now, len), cfg.globalRate, cfg.globalBurst);
      var s1 := s.(global := g);
      if !passed then (s1, GlobalLimited)
      else
        var (f1, ok) := TakeFlow(cfg, s.flows[key], TB.Call(now, len));
        var s2 := s1.(flows := s1.flows[key := f1]);
        if ok then (s2, PolicyPassed)
        else (s2.(temp := s2.temp[key.saddr := BanFrom(now)]), FlowLimited)
  }

  /** The ban of a source that exceeded its flow bucket; its end wraps at 64 bits. */
  function BanFrom(now: u64): Ban { Ban(now, Wrap64(now + BAN_NS)) }

  predicate Multicast(ip: u32) { 0xE000_0000 <= ip < 0xF000_0000 }

  /** What the address checks let through: no broadcast or multicast source, and a destination that
      is neither, limited broadcasts to the DHCP server port excepted. Addresses in host order. */
  predicate Unicast(cfg: Config, saddr: u32, daddr: u32, dport: u16) {
    && saddr != 0xFFFF_FFFF && !Multicast(saddr) && !Multicast(daddr)
    && (daddr == 0xFFFF_FFFF ==> dport == 67)
    && (cfg.subnetBroadcast == Some(daddr) ==> daddr == 0xFFFF_FFFF)
  }

  function Counted(f: Flow, len: u32, now: u64): Flow {
    f.(packets := Wrap64(f.packets + 1), bytes := Wrap64(f.bytes + len), lastSeen := now)
  }

  /** The policy on a packet whose flow entry exists, and the counters when it passes. The rate limits
      leave their mark on the state but not on the verdict: only a port miss does. */
  function Judged(cfg: Config, s: State, key: FlowKey, len: u32, now: u64): (State, XdpAction)
    requires key in s.flows
  {
    var (t, r) := Policy(cfg, s, key, len, now);
    if r == PortMiss then (t, XDP_DROP)
    else (t.(flows := t.flows[key := Counted(t.flows[key], len, now)]), XDP_PASS)
  }

  function WithFlow(cfg: Config, s: State, key: FlowKey, len: u32, now: u64, room: bool): (State, XdpAction) {
    if key in s.flows then Judged(cfg, s, key, len, now)
    else if !room then (s, XDP_PASS)
    else Judged(cfg, s.(flows := s.flows[key := NewFlow(cfg, now)]), key, len, now)
  }

  /** The stages after parsing, for fragments and other protocols. */
  function Late(cfg: Config, s: State, key: FlowKey, len: u32, now: u64, room: bool): (State, XdpAction) {
    var (pps, ok) := TB.TakePps(s.pps, now, cfg.ppsLimit);
    var t := s.(pps := pps);
    if !ok || !Unicast(cfg, key.saddr, key.daddr, key.dport) then (t, XDP_DROP)
    else WithFlow(cfg, t, key, len, now, room)
  }

  /** ICMP: charged to the fuse, and dropped whatever the fuse says. */
  function IcmpStep(s: State, now: u64): State {
    var (fuse, admitted) := Fuse.Call(s.fuse, now);
    var s1 := s.(fuse := fuse);
    if admitted then s1 else s1.(attack := A.Trip(s1.attack, now))
  }

  // ----- the parsing stage of XDP: return code, status word, state -----

  function BadPacket(): bv32 { MakeStatus(ACT_DROP, STG_PARSE, RSN_BAD_PKT) }

  /** The status word of the conntrack and blocklist check. */
  function CheckStatus(s: State, key: FlowKey, now: u64): bv32 {
    if key.saddr in s.perm then MakeStatus(ACT_DROP, STG_PERM_BLK, RSN_RULE_STATIC)
    else if TempBanned(s, key.saddr, now) then MakeStatus(ACT_DROP, STG_TEMP_BLK, RSN_RULE_DYNA)
    else if Mirror(key) !in s.conns then MakeStatus(ACT_DROP, STG_ESTABLISHED, RSN_DPI_PENDING)
    else if s.conns[Mirror(key)].dpi == 1 then MakeStatus(ACT_PASS, STG_ESTABLISHED, RSN_DPI_PASSED)
    else if s.conns[Mirror(key)].dpi == 2 then MakeStatus(ACT_DROP, STG_ESTABLISHED, RSN_DPI_VIOLATION)
    else MakeStatus(ACT_PASS, STG_ESTABLISHED, RSN_DPI_PENDING)
  }

  /** Its return code. */
  function CheckCode(s: State, key: FlowKey, now: u64): int {
    if !Admitted(s, key, now) then -1 else if s.conns[Mirror(key)].dpi == 1 then 1 else 3
  }

  /** Its effect: an admitted packet refreshes its entry. */
  function Checked(s: State, key: FlowKey, now: u64): State {
    if Admitted(s, key, now) then s.(conns := Recorded(s.conns, key, now)) else s
  }

  function NetworkStatus(s: State, p: seq<u8>, l3: nat, now: u64): bv32 {
    match Network(p, l3)
    case Transport(key) => CheckStatus(s, key, now)
    case Portless(_) =>
      if HasIpv4(p, l3) && IsFragment(p, l3) then 0 else MakeStatus(ACT_PASS, STG_PARSE, RSN_UNSUPPORTED)
    case _ => BadPacket()
  }

  function ParseStatus(s: State, p: seq<u8>, now: u64): bv32 {
    match Link(p)
    case None => BadPacket()
    case Some((l3, etype)) =>
      if etype == ETH_P_IP then NetworkStatus(s, p, l3, now)
      else if etype == ETH_P_IPV6 then MakeStatus(ACT_DROP, STG_PARSE, RSN_UNSUPPORTED)
      else 0
  }

  function FrameCode(s: State, frame: Frame, now: u64): int {
    match frame
    case Arp => 1
    case Portless(_) => 0
    case Transport(key) => CheckCode(s, key, now)
    case _ => -1
  }

  /** What the parsing stage leaves behind from the IPv4 header on. */
  function AfterNetwork(s: State, frame: Frame, now: u64): State {
    match frame
    case Icmp => IcmpStep(s, now)
    case Transport(key) => Checked(s, key, now)
    case _ => s
  }

  /** And from the start: the attack timer is looked at once the link layer is there. */
  function AfterParse(s: State, p: seq<u8>, now: u64): State {
    var frame := FrameOf(p);
    AfterNetwork(if frame.BadLink? then s else s.(attack := A.Look(s.attack, now).0), frame, now)
  }

  /** One incoming packet. `room` says whether the flow table could take a new entry. */
  function XdpStep(cfg: Config, s: State, p: seq<u8>, now: u64, room: bool): (State, XdpAction)
    requires |p| < TWO32
  {
    var t := AfterParse(s, p, now);
    match FrameOf(p)
    case Arp => (t, XDP_PASS)
    case OtherEther => (t, XDP_PASS)
    case Portless(key) => Late(cfg, t, key, |p|, now, room)
    case Transport(key) => (t, if Admitted(s, key, now) then XDP_PASS else XDP_DROP)
    case _ => (t, XDP_DROP)
  }
}
