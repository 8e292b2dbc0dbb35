/** What XDP lets in, against what was really sent: TC takes ports from wherever a transport header would
    stand, fragments and cut-off headers included, so the theorem about flows that TC has opened becomes one
    about packets sent only where TC reads them right. */
module AnswerRuns {
  import opened Machine
  import opened Headers
  import opened Firewall
  import opened FirewallRuns
  import opened ConntrackRuns

  /** An outgoing packet as TC gets it: its bytes and the protocol the kernel notes for it. */
  datatype Outgoing = Outgoing(skb: seq<u8>, protocol: u16)

  /** The event sends a whole TCP or UDP packet of flow `k`. */
  predicate Sent(e: Event, k: FlowKey) { e.Tc? && FrameOf(e.skb) == Transport(k) }

  /** Some event before the `j`-th did, and the entry was not evicted since. */
  ghost predicate SentBefore(es: seq<Event>, k: FlowKey, j: nat)
    requires j <= |es|
  {
    exists i :: 0 <= i < j && Sent(es[i], k) && forall m :: i < m < j ==> es[m] != EvictConn(k)
  }

  /** What TC takes for a packet of a flow is a whole packet of that flow. */
  predicate ReadRight(o: Outgoing) {
    Sees(o.skb, o.protocol).Some? ==> FrameOf(o.skb) == Transport(Sees(o.skb, o.protocol).value.key)
  }

  ghost predicate SendsFrom(es: seq<Event>, out: iset<Outgoing>) {
    forall i :: 0 <= i < |es| && es[i].Tc? ==> Outgoing(es[i].skb, es[i].protocol) in out
  }

  /** In every run from an empty conntrack table, with these ports allowed and only packets of `out` going
      out, every TCP or UDP packet let in answers one that was sent. */
  ghost predicate OnlySentAnswered(ports: set<u16>, out: iset<Outgoing>) {
    forall cfg: Config, s0: State, es: seq<Event>, j: nat ::
      s0.conns == map[] && s0.ports == ports && SendsFrom(es, out) && j < |es| && Passes(cfg, s0, es, j) ==>
      SentBefore(es, Mirror(FrameOf(es[j].packet).key), j)
  }

  // ----- which packets are read right -----

  /** An untagged IPv4 packet is read right exactly when TC passes it over, or it is no fragment and its
      transport header is complete. */
  lemma ReadRightIff(o: Outgoing)
    requires |o.skb| >= 14 && Be16(o.skb, 12) == ETH_P_IP
    ensures ReadRight(o) <==> Sees(o.skb, o.protocol).None? || (Announces(o.skb) && Complete(o.skb))
  {
    Untagged(o.skb);
    if Sees(o.skb, o.protocol).Some? {
      ParsersAgree(o.skb);
    }
  }

  /** An outgoing UDP fragment at offset 8 from 10.0.0.2 to 10.0.0.1 with four bytes of payload. */
  function LateOctet(i: nat): u8 {
    if i == 12 then 8                                             // ethertype
    else if i == 14 then 0x45                                     // version and header length
    else if i == 17 then 24                                       // total length
    else if i == 21 then 1                                        // fragment offset
    else if i == 22 then 64                                       // time to live
    else if i == 23 then 17                                       // protocol
    else if i == 26 || i == 30 then 10
    else if i == 29 then 2
    else if i == 33 then 1
    else if i == 34 then 0x12
    else if i == 35 then 0x34
    else if i == 36 then 0x56
    else if i == 37 then 0x78
    else 0
  }

  function LateFragment(): Outgoing { Outgoing(seq(38, i requires 0 <= i < 38 => LateOctet(i)), ETH_P_IP) }

  /** TC takes its payload for ports. */
  lemma LateFragmentMisread()
    ensures var o := LateFragment();
      && FrameOf(o.skb) == Portless(FlowKey(HOST_B, HOST_A, 0, 0, 17))
      && Sees(o.skb, o.protocol).Some?
      && Sees(o.skb, o.protocol).value.key == FlowKey(HOST_B, HOST_A, 0x1234, 0x5678, 17)
      && !ReadRight(o)
  {
    Untagged(LateFragment().skb);
  }

  // ----- a packet for every flow -----

  /** The `i`-th of the 54 bytes of a packet of flow `k`, untagged, with a bare header. */
  function WholeOctet(k: FlowKey, i: nat): u8 {
    if i == 12 then 8                                             // ethertype
    else if i == 14 then 0x45                                     // version and header length
    else if i == 23 then k.proto
    else if 26 <= i < 30 then Byte(k.saddr, 29 - i)
    else if 30 <= i < 34 then Byte(k.daddr, 33 - i)
    else if 34 <= i < 36 then Byte(k.sport, 35 - i)
    else if 36 <= i < 38 then Byte(k.dport, 37 - i)
    else if i == 46 then 0x50                                     // TCP header length
    else 0
  }

  /** The `i`-th byte of a number, from the least significant one on. */
  function Byte(v: nat, i: nat): u8 { if i == 0 then v % 256 else Byte(v / 256, i - 1) }

  lemma {:induction false} BytesOfPort(v: u16)
    ensures 256 * (Byte(v, 1) as int) + Byte(v, 0) == v
  {
    assert Byte(v, 1) == Byte(v / 256, 0);
  }

  lemma {:induction false} BytesOfWord(v: u32)
    ensures TWO16 * (256 * (Byte(v, 3) as int) + Byte(v, 2)) + (256 * (Byte(v, 1) as int) + Byte(v, 0)) == v
  {
    var high := v / TWO16;
    assert v / 256 / 256 == high;
    assert Byte(v, 2) == Byte(v / 256, 1) == Byte(high, 0);
    assert Byte(v, 3) == Byte(v / 256, 2) == Byte(high, 1);
    BytesOfPort(high);
    assert Byte(v, 1) == v / 256 % 256;
  }

  function Whole(k: FlowKey): Packet { seq(54, i requires 0 <= i < 54 => WholeOctet(k, i)) }

  lemma {:induction false} WholeFrame(k: FlowKey)
    requires HasPorts(k)
    ensures FrameOf(Whole(k)) == Transport(k)
  {
    var p := Whole(k);
    Untagged(p);
    BytesOfWord(k.saddr);
    BytesOfWord(k.daddr);
    BytesOfPort(k.sport);
    BytesOfPort(k.dport);
    assert Be32(p, 26) == k.saddr && Be32(p, 30) == k.daddr;
    assert Be16(p, 34) == k.sport && Be16(p, 36) == k.dport;
  }

  // ----- a misread packet lets something in -----

  /** After loading, TC opens a flow for what it sees, and the next packet from outside passes. */
  lemma OpenedLetsIn(cfg: Config, ports: set<u16>, o: Outgoing, k: FlowKey)
    requires Sees(o.skb, o.protocol).Some? && Sees(o.skb, o.protocol).value.key == k
    ensures var es := [Tc(o.skb, o.protocol, 1, true), Xdp(Whole(Mirror(k)), 2, true)];
      FrameOf(es[1].packet) == Transport(Mirror(k)) && Passes(cfg, Boot(cfg, ports), es, 1)
  {
    var s0, es := Boot(cfg, ports), [Tc(o.skb, o.protocol, 1, true), Xdp(Whole(Mirror(k)), 2, true)];
    WholeFrame(Mirror(k));
    OpenedStays(cfg, s0, es, k, 0, 1);
    NothingListed(cfg, ports, es[0]);
    AsShipped(cfg, ports, es, 1, Whole(Mirror(k)), 2, true);
    assert Mirror(Mirror(k)) == k;
    assert StateAt(cfg, s0, es, 0) == s0;
  }

  lemma NothingListed(cfg: Config, ports: set<u16>, e: Event)
    requires e.Tc?
    ensures Step(cfg, Boot(cfg, ports), e).perm == {} && Step(cfg, Boot(cfg, ports), e).temp == map[]
  {
  }

  lemma NotSent(es: seq<Event>, k: FlowKey)
    requires |es| > 0 && !Sent(es[0], k)
    ensures !SentBefore(es, k, 1)
  {
  }

  lemma MisreadLetsIn(ports: set<u16>, out: iset<Outgoing>, o: Outgoing)
    requires o in out && !ReadRight(o)
    ensures !OnlySentAnswered(ports, out)
  {
    var k := Sees(o.skb, o.protocol).value.key;
    var es := [Tc(o.skb, o.protocol, 1, true), Xdp(Whole(Mirror(k)), 2, true)];
    OpenedLetsIn(ROOMY, ports, o, k);
    assert Mirror(Mirror(k)) == k;
    assert SendsFrom(es, out);
    NotSent(es, k);
    assert Boot(ROOMY, ports).conns == map[] && Boot(ROOMY, ports).ports == ports;
  }

  lemma PortZeroUnasked(ports: set<u16>, out: iset<Outgoing>)
    requires 0 in ports
    ensures !OnlySentAnswered(ports, out)
  {
    var es := [Xdp(Fragment(), 1, true), Xdp(Intruder(), 2, true)];
    PortZeroPasses(ports);
    assert SendsFrom(es, out);
    NotSent(es, Mirror(FrameOf(es[1].packet).key));
    assert Boot(ROOMY, ports).conns == map[] && Boot(ROOMY, ports).ports == ports;
  }

  // ----- packets read right: only answers to what was sent -----

  lemma OpenedIsSent(es: seq<Event>, out: iset<Outgoing>, k: FlowKey, j: nat)
    requires SendsFrom(es, out) && (forall o :: o in out ==> ReadRight(o))
    requires j <= |es| && OpenedBefore(es, k, j)
    ensures SentBefore(es, k, j)
  {
    var i :| 0 <= i < j && Opens(es[i], k) && forall m :: i < m < j ==> es[m] != EvictConn(k);
    assert ReadRight(Outgoing(es[i].skb, es[i].protocol));
    assert Sent(es[i], k);
  }

  lemma ReadRightSuffices(ports: set<u16>, out: iset<Outgoing>)
    requires 0 !in ports && forall o :: o in out ==> ReadRight(o)
    ensures OnlySentAnswered(ports, out)
  {
    forall cfg: Config, s0: State, es: seq<Event>, j: nat |
        s0.conns == map[] && s0.ports == ports && SendsFrom(es, out) && j < |es| && Passes(cfg, s0, es, j)
      ensures SentBefore(es, Mirror(FrameOf(es[j].packet).key), j)
    {
      var k := Mirror(FrameOf(es[j].packet).key);
      EntriesOpened(cfg, s0, es, j, k);
      OpenedIsSent(es, out, k, j);
    }
  }

  /** XDP lets in only answers to packets that were sent exactly when port 0 is not among the allowed ports
      and TC reads every packet right that may go out. */
  lemma OnlySentAnsweredIff(ports: set<u16>, out: iset<Outgoing>)
    ensures OnlySentAnswered(ports, out) <==> 0 !in ports && forall o :: o in out ==> ReadRight(o)
  {
    if 0 in ports {
      PortZeroUnasked(ports, out);
    } else if o :| o in out && !ReadRight(o) {
      MisreadLetsIn(ports, out, o);
    } else {
      ReadRightSuffices(ports, out);
    }
  }

  /** So it fails, whatever the ports, as soon as that fragment may go out: without a packet of the flow sent,
      a whole one from port 0x5678 to port 0x1234 is let in. */
  lemma LateFragmentLetsIn(cfg: Config, ports: set<u16>, out: iset<Outgoing>)
    requires LateFragment() in out
    ensures var o, k := LateFragment(), FlowKey(HOST_A, HOST_B, 0x5678, 0x1234, 17);
      var es := [Tc(o.skb, o.protocol, 1, true), Xdp(Whole(k), 2, true)];
      FrameOf(Whole(k)) == Transport(k) && Passes(cfg, Boot(cfg, ports), es, 1) && !SentBefore(es, Mirror(k), 1)
    ensures !OnlySentAnswered(ports, out)
  {
    LateFragmentMisread();
    OpenedLetsIn(cfg, ports, LateFragment(), FlowKey(HOST_B, HOST_A, 0x1234, 0x5678, 17));
    OnlySentAnsweredIff(ports, out);
  }
}
