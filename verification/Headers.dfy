/** The packet parsers of src/ebpf/parser.h: a cursor moving over the packet bytes, and the
    frame the bytes spell, told by offsets. */
module Headers {
  import opened Machine

  const ETH_P_IP := 0x0800
  const ETH_P_ARP := 0x0806
  const ETH_P_IPV6 := 0x86DD
  const ETH_P_8021Q := 0x8100
  const ETH_P_8021AD := 0x88A8

  const IPPROTO_ICMP := 1
  const IPPROTO_TCP := 6
  const IPPROTO_UDP := 17

  datatype FlowKey = FlowKey(saddr: u32, daddr: u32, sport: u16, dport: u16, proto: u8)

  /** The same conversation seen from the other end. */
  function Mirror(k: FlowKey): FlowKey {
    FlowKey(k.daddr, k.saddr, k.dport, k.sport, k.proto)
  }

  // ----- the frame by offsets -----

  predicate IsTag(etype: u16) { etype == ETH_P_8021Q || etype == ETH_P_8021AD }

  /** Skip up to `n` VLAN tags from `at`; None when a tag is cut off. */
  function SkipTags(p: seq<u8>, at: nat, etype: u16, n: nat): Option<(nat, u16)>
    decreases n
  {
    if n == 0 || !IsTag(etype) then Some((at, etype))
    else if |p| < at + 4 then None
    else SkipTags(p, at + 4, Be16(p, at + 2), n - 1)
  }

  /** Where layer 3 starts and its ethertype. */
  function Link(p: seq<u8>): Option<(nat, u16)> {
    if |p| < 14 then None else SkipTags(p, 14, Be16(p, 12), 2)
  }

  /** A complete IPv4 header at `l3`. The version nibble is not looked at. */
  predicate HasIpv4(p: seq<u8>, l3: nat) {
    |p| >= l3 + 20 && p[l3] % 16 >= 5 && |p| >= l3 + 4 * (p[l3] % 16)
  }

  function L4(p: seq<u8>, l3: nat): nat
    requires HasIpv4(p, l3)
  {
    l3 + 4 * (p[l3] % 16)
  }

  predicate HasTcp(p: seq<u8>, l4: nat) {
    |p| >= l4 + 20 && p[l4 + 12] / 16 >= 5 && |p| >= l4 + 4 * (p[l4 + 12] / 16)
  }

  predicate HasUdp(p: seq<u8>, l4: nat) { |p| >= l4 + 8 }

  predicate HasIcmp(p: seq<u8>, l4: nat) { |p| >= l4 + 8 }

  /** More fragments, or a fragment offset. */
  predicate IsFragment(p: seq<u8>, l3: nat)
    requires HasIpv4(p, l3)
  {
    Be16(p, l3 + 6) % 0x4000 != 0
  }

  datatype Frame =
    | BadLink
    | Arp
    | Ipv6
    | OtherEther
    | BadNetwork
    | Transport(key: FlowKey)
    | Icmp
    | Portless(key: FlowKey)     // a fragment, or a protocol other than TCP, UDP and ICMP

  function FrameOf(p: seq<u8>): Frame {
    match Link(p)
    case None => BadLink
    case Some((l3, etype)) =>
      if etype == ETH_P_ARP then Arp
      else if etype == ETH_P_IPV6 then Ipv6
      else if etype != ETH_P_IP then OtherEther
      else Network(p, l3)
  }

  function Network(p: seq<u8>, l3: nat): Frame {
    if !HasIpv4(p, l3) then BadNetwork
    else
      var l4, saddr, daddr, proto := L4(p, l3), Be32(p, l3 + 12), Be32(p, l3 + 16), p[l3 + 9];
      if IsFragment(p, l3) then Portless(FlowKey(saddr, daddr, 0, 0, proto))
      else if proto == IPPROTO_TCP then
        if HasTcp(p, l4) then Transport(FlowKey(saddr, daddr, Be16(p, l4), Be16(p, l4 + 2), proto)) else BadNetwork
      else if proto == IPPROTO_UDP then
        if HasUdp(p, l4) then Transport(FlowKey(saddr, daddr, Be16(p, l4), Be16(p, l4 + 2), proto)) else BadNetwork
      else if proto == IPPROTO_ICMP then
        if HasIcmp(p, l4) then Icmp else BadNetwork
      else Portless(FlowKey(saddr, daddr, 0, 0, proto))
  }

  /** The payload length noted for a packet with a complete TCP or UDP header; zero for all others. */
  function PayloadLength(p: seq<u8>, l3: nat): nat {
    if !HasIpv4(p, l3) || IsFragment(p, l3) then 0
    else
      var l4 := L4(p, l3);
      if p[l3 + 9] == IPPROTO_TCP && HasTcp(p, l4) then
        var headers := 4 * (p[l3] % 16) + 4 * (p[l4 + 12] / 16);
        if Be16(p, l3 + 2) >= headers then Be16(p, l3 + 2) - headers else 0
      else if p[l3 + 9] == IPPROTO_UDP && HasUdp(p, l4) then
        if Be16(p, l4 + 4) > 8 then Be16(p, l4 + 4) - 8 else 0
      else 0
  }

  function NotedPayload(p: seq<u8>): nat {
    if Link(p).Some? && Link(p).value.1 == ETH_P_IP then PayloadLength(p, Link(p).value.0) else 0
  }

  /** An untagged IPv4 frame has its network layer at byte 14. */
  lemma Untagged(p: seq<u8>)
    requires |p| >= 14 && Be16(p, 12) == ETH_P_IP
    ensures Link(p) == Some((14, ETH_P_IP)) && FrameOf(p) == Network(p, 14)
  {
  }

  /** Frames without ports carry zero ports. */
  lemma PortlessPorts(p: seq<u8>)
    requires FrameOf(p).Portless?
    ensures FrameOf(p).key.sport == 0 && FrameOf(p).key.dport == 0
  {
  }

  // ----- the cursor -----

  class HdrCursor {
    var pos: nat

    constructor ()
      ensures pos == 0
    {
      pos := 0;
    }

    /** parse_eth */
    method ParseEth(p: seq<u8>) returns (ok: bool, proto: u16)
      requires pos == 0
      modifies this
      ensures old(pos) <= pos <= |p|
      ensures ok <==> |p| >= 14
      ensures ok ==> pos == 14 && proto == Be16(p, 12)
    {
      if pos + 14 > |p| {
        return false, 0;
      }
      proto := Be16(p, pos + 12);
      pos := pos + 14;
      return true, proto;
    }

    /** parse_vlan_stack: at most two tags. */
    method ParseVlanStack(p: seq<u8>, etype: u16) returns (ok: bool, proto: u16)
      requires pos <= |p|
      modifies this
      ensures old(pos) <= pos <= |p|
      ensures SkipTags(p, old(pos), etype, 2) == if ok then Some((pos, proto)) else None
    {
      proto := etype;
      for i := 0 to 2
        invariant old(pos) <= pos <= |p|
        invariant SkipTags(p, pos, proto, 2 - i) == SkipTags(p, old(pos), etype, 2)
      {
        if proto != ETH_P_8021Q && proto != ETH_P_8021AD {
          return true, proto;
        }
        if pos + 4 > |p| {
          return false, proto;
        }
        proto := Be16(p, pos + 2);
        pos := pos + 4;
      }
      return true, proto;
    }

    /** parse_ipv4 */
    method ParseIpv4(p: seq<u8>) returns (ok: bool, proto: u8)
      requires pos <= |p|
      modifies this
      ensures old(pos) <= pos <= |p|
      ensures ok <==> HasIpv4(p, old(pos))
      ensures ok ==> pos == L4(p, old(pos)) && proto == p[old(pos) + 9]
    {
      if pos + 20 > |p| {
        return false, 0;
      }
      var ihl := p[pos] % 16;
      if ihl < 5 {
        return false, 0;
      }
      var ipEnd := pos + ihl * 4;
      if ipEnd > |p| {
        return false, 0;
      }
      proto := p[pos + 9];
      pos := ipEnd;
      return true, proto;
    }

    /** parse_tcp; `ip` is where the IPv4 header starts. The payload length discounts padding
        after the length the IPv4 header claims. */
    method ParseTcp(p: seq<u8>, ip: nat) returns (ok: bool, payloadLen: nat)
      requires pos <= |p| && HasIpv4(p, ip)
      modifies this
      ensures old(pos) <= pos <= |p|
      ensures ok <==> HasTcp(p, old(pos))
      ensures ok ==>
        var headers := 4 * (p[ip] % 16) + 4 * (p[old(pos) + 12] / 16);
        && pos == old(pos) + 4 * (p[old(pos) + 12] / 16)
        && payloadLen + headers == (if Be16(p, ip + 2) >= headers then Be16(p, ip + 2) else headers)
    {
      if pos + 20 > |p| {
        return false, 0;
      }
      var tcpHdrLen: nat := p[pos + 12] / 16 * 4;
      if tcpHdrLen < 20 {
        return false, 0;
      }
      var tcpEnd := pos + tcpHdrLen;
      if tcpEnd > |p| {
        return false, 0;
      }
      pos := tcpEnd;
      var ipTotLen: nat := Be16(p, ip + 2);
      var ipHdrLen: nat := p[ip] % 16 * 4;
      if ipTotLen >= ipHdrLen + tcpHdrLen {
        payloadLen := ipTotLen - ipHdrLen - tcpHdrLen;
      } else {
        payloadLen := 0;
      }
      return true, payloadLen;
    }

    /** parse_udp and parse_icmp: eight bytes each. */
    method ParseEight(p: seq<u8>) returns (ok: bool)
      requires pos <= |p|
      modifies this
      ensures old(pos) <= pos <= |p|
      ensures ok <==> |p| >= old(pos) + 8
      ensures ok ==> pos == old(pos) + 8
    {
      if pos + 8 > |p| {
        return false;
      }
      pos := pos + 8;
      return true;
    }
  }
}
