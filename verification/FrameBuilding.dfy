/** Frames as a sender builds them, and that the parsers read back what was put in: tags, options and payloads of
    any kind, whole or cut off. */
module FrameBuilding {
  import opened Machine
  import opened Wire
  import opened Headers

  // ----- the link layer -----

  /** An 802.1Q or 802.1ad tag and what it carries besides the next ethertype. */
  datatype Tag = Tag(service: bool, tci: u16)

  /** The tags, each its own ethertype first, and the ethertype behind them. */
  function TagBytes(tags: seq<Tag>, etype: u16): (b: seq<u8>)
    ensures |b| == 4 * |tags| + 2
  {
    if tags == [] then Two(etype)
    else (if tags[0].service then [0x88, 0xA8] else [0x81, 0x00]) + Two(tags[0].tci) + TagBytes(tags[1..], etype)
  }

  /** A frame: twelve bytes of addresses, at most two tags, an ethertype, and the rest. */
  function Framed(macs: seq<u8>, tags: seq<Tag>, etype: u16, rest: seq<u8>): seq<u8> {
    macs + TagBytes(tags, etype) + rest
  }

  predicate Plain(etype: u16) { etype != 0x8100 && etype != 0x88A8 }

  /** Tags are skipped one by one. */
  lemma {:induction false} TagsSkipped(p: seq<u8>, at: nat, tags: seq<Tag>, etype: u16, n: nat)
    requires Holds(p, at, TagBytes(tags, etype)) && |tags| <= n && (|tags| < n ==> Plain(etype))
    ensures SkipTags(p, at + 2, Be16(p, at), n) == Some((at + 2 + 4 * |tags|, etype))
    decreases |tags|
  {
    var b := TagBytes(tags, etype);
    assert p[at..at + |b|][0] == p[at] && p[at..at + |b|][1] == p[at + 1];
    if tags != [] {
      var head := (if tags[0].service then [0x88, 0xA8] else [0x81, 0x00]) + Two(tags[0].tci);
      HoldsBoth(p, at, head, TagBytes(tags[1..], etype));
      TagsSkipped(p, at + 4, tags[1..], etype, n - 1);
    }
  }

  lemma {:induction false} LinkBack(macs: seq<u8>, tags: seq<Tag>, etype: u16, rest: seq<u8>)
    requires |macs| == 12 && |tags| <= 2 && (|tags| < 2 ==> Plain(etype))
    ensures Link(Framed(macs, tags, etype, rest)) == Some((14 + 4 * |tags|, etype))
    ensures Framed(macs, tags, etype, rest)[14 + 4 * |tags|..] == rest
  {
    var p := Framed(macs, tags, etype, rest);
    assert p[12..12 + |TagBytes(tags, etype)|] == TagBytes(tags, etype);
    TagsSkipped(p, 12, tags, etype, 2);
  }

  // ----- the network layer depends on nothing in front of it -----

  lemma NetworkShifts(p: seq<u8>, l3: nat)
    requires l3 <= |p|
    ensures Network(p, l3) == Network(p[l3..], 0)
    ensures PayloadLength(p, l3) == PayloadLength(p[l3..], 0)
  {
    var q := p[l3..];
    assert forall k :: 0 <= k < |q| ==> q[k] == p[l3 + k];
  }

  /** What a frame is by its ethertype and what follows. */
  function Meant(etype: u16, rest: seq<u8>): Frame {
    if etype == 0x0806 then Arp else if etype == 0x86DD then Ipv6
    else if etype == 0x0800 then Network(rest, 0) else OtherEther
  }

  lemma {:induction false} FrameIs(macs: seq<u8>, tags: seq<Tag>, etype: u16, rest: seq<u8>)
    requires |macs| == 12 && |tags| <= 2 && Plain(etype)
    ensures FrameOf(Framed(macs, tags, etype, rest)) == Meant(etype, rest)
    ensures NotedPayload(Framed(macs, tags, etype, rest)) == if etype == 0x0800 then PayloadLength(rest, 0) else 0
  {
    LinkBack(macs, tags, etype, rest);
    NetworkShifts(Framed(macs, tags, etype, rest), 14 + 4 * |tags|);
  }

  /** Up to two tags, of either kind and with any contents, change nothing about how a frame is read. */
  lemma {:induction false} TagsTransparent(macs: seq<u8>, tags: seq<Tag>, etype: u16, rest: seq<u8>)
    requires |macs| == 12 && |tags| <= 2 && Plain(etype)
    ensures FrameOf(Framed(macs, tags, etype, rest)) == FrameOf(Framed(macs, [], etype, rest))
    ensures NotedPayload(Framed(macs, tags, etype, rest)) == NotedPayload(Framed(macs, [], etype, rest))
  {
    FrameIs(macs, tags, etype, rest);
    FrameIs(macs, [], etype, rest);
  }

  /** With more tags than are skipped, the first one too many is the ethertype. */
  lemma {:induction false} TagsBeyond(p: seq<u8>, at: nat, tags: seq<Tag>, etype: u16, n: nat)
    requires Holds(p, at, TagBytes(tags, etype)) && n < |tags|
    ensures SkipTags(p, at + 2, Be16(p, at), n)
      == Some((at + 2 + 4 * n, if tags[n].service then 0x88A8 else 0x8100))
    decreases n
  {
    var b := TagBytes(tags, etype);
    var head := (if tags[0].service then [0x88, 0xA8] else [0x81, 0x00]) + Two(tags[0].tci);
    assert p[at..at + |b|][0] == p[at] && p[at..at + |b|][1] == p[at + 1];
    if n > 0 {
      HoldsBoth(p, at, head, TagBytes(tags[1..], etype));
      TagsBeyond(p, at + 4, tags[1..], etype, n - 1);
    }
  }

  /** A third tag is too many: the frame passes for one of an unknown kind. */
  lemma {:induction false} ThirdTag(macs: seq<u8>, tags: seq<Tag>, etype: u16, rest: seq<u8>)
    requires |macs| == 12 && |tags| > 2
    ensures FrameOf(Framed(macs, tags, etype, rest)) == OtherEther
  {
    var p := Framed(macs, tags, etype, rest);
    assert p[12..12 + |TagBytes(tags, etype)|] == TagBytes(tags, etype);
    TagsBeyond(p, 12, tags, etype, 2);
  }

  // ----- the network layer -----

  /** An IPv4 header; what the parsers do not look at is there all the same. */
  datatype Ip = Ip(version: u8, tos: u8, total: u16, id: u16, frag: u16, ttl: u8, proto: u8, checksum: u16,
                   saddr: u32, daddr: u32, options: seq<u8>)

  predicate ValidIp(ip: Ip) { ip.version < 16 && |ip.options| % 4 == 0 && |ip.options| <= 40 }

  function IpBytes(ip: Ip): (b: seq<u8>)
    requires ValidIp(ip)
    ensures |b| == 20 + |ip.options|
  {
    var words: u8 := 5 + |ip.options| / 4;
    [16 * ip.version + words, ip.tos] + Two(ip.total) + Two(ip.id) + Two(ip.frag) + [ip.ttl, ip.proto]
    + Two(ip.checksum) + Two(ip.saddr / 0x1_0000) + Two(ip.saddr % 0x1_0000)
    + Two(ip.daddr / 0x1_0000) + Two(ip.daddr % 0x1_0000) + ip.options
  }

  lemma HeaderBack(ip: Ip, payload: seq<u8>)
    requires ValidIp(ip)
    ensures var p, l4 := IpBytes(ip) + payload, 20 + |ip.options|;
      && HasIpv4(p, 0) && L4(p, 0) == l4 && p[l4..] == payload
      && p[9] == ip.proto && Be16(p, 2) == ip.total && Be16(p, 6) == ip.frag
      && Be32(p, 12) == ip.saddr && Be32(p, 16) == ip.daddr && p[0] % 16 == 5 + |ip.options| / 4
  {
    assert IpBytes(ip)[20..] == ip.options;
  }

  /** A complete transport header: eight bytes, or what TCP's data offset says, at least twenty. */
  predicate WholeHeader(proto: u8, payload: seq<u8>) {
    if proto == 6 then |payload| >= 20 && payload[12] >= 0x50 && |payload| >= 4 * (payload[12] / 16)
    else |payload| >= 8
  }

  /** How a sender means the packet: a fragment has flow and protocol but no ports, and so has a protocol that has
      none; TCP, UDP and ICMP need their header. */
  function MeantIp(ip: Ip, payload: seq<u8>): Frame {
    if ip.frag % 0x4000 != 0 || ip.proto !in {1, 6, 17} then Portless(FlowKey(ip.saddr, ip.daddr, 0, 0, ip.proto))
    else if !WholeHeader(ip.proto, payload) then BadNetwork
    else if ip.proto == 1 then Icmp
    else Transport(FlowKey(ip.saddr, ip.daddr, Be16(payload, 0), Be16(payload, 2), ip.proto))
  }

  lemma TransportShifts(p: seq<u8>, l4: nat)
    requires l4 <= |p|
    ensures HasTcp(p, l4) <==> HasTcp(p[l4..], 0)
    ensures HasUdp(p, l4) <==> HasUdp(p[l4..], 0)
    ensures HasIcmp(p, l4) <==> HasIcmp(p[l4..], 0)
    ensures |p| >= l4 + 4 ==> Be16(p, l4) == Be16(p[l4..], 0) && Be16(p, l4 + 2) == Be16(p[l4..], 2)
    ensures |p| >= l4 + 6 ==> Be16(p, l4 + 4) == Be16(p[l4..], 4)
    ensures |p| > l4 + 12 ==> p[l4 + 12] == p[l4..][12]
  {
  }

  lemma NetworkBack(ip: Ip, payload: seq<u8>)
    requires ValidIp(ip)
    ensures Network(IpBytes(ip) + payload, 0) == MeantIp(ip, payload)
  {
    HeaderBack(ip, payload);
    TransportShifts(IpBytes(ip) + payload, 20 + |ip.options|);
  }

  /** What is noted as the length of the payload: what the IPv4 total length leaves behind both headers, or what
      UDP's own length leaves behind its header; nothing for fragments, other protocols and cut-off headers. */
  function MeantPayload(ip: Ip, payload: seq<u8>): nat {
    if ip.frag % 0x4000 != 0 || ip.proto !in {6, 17} || !WholeHeader(ip.proto, payload) then 0
    else
      var claimed: int := if ip.proto == 6 then ip.total - (20 + |ip.options|) - 4 * (payload[12] / 16)
                          else Be16(payload, 4) - 8;
      if claimed < 0 then 0 else claimed
  }

  lemma PayloadBack(ip: Ip, payload: seq<u8>)
    requires ValidIp(ip)
    ensures PayloadLength(IpBytes(ip) + payload, 0) == MeantPayload(ip, payload)
  {
    HeaderBack(ip, payload);
    TransportShifts(IpBytes(ip) + payload, 20 + |ip.options|);
  }

  /** Reading inverts building: for every header, options, payload and up to two tags, the frame is what the sender
      meant, and its payload is noted as long as the headers claim. */
  lemma {:induction false} ReadsWhatIsBuilt(macs: seq<u8>, tags: seq<Tag>, ip: Ip, payload: seq<u8>)
    requires |macs| == 12 && |tags| <= 2 && ValidIp(ip)
    ensures var p := Framed(macs, tags, 0x0800, IpBytes(ip) + payload);
      FrameOf(p) == MeantIp(ip, payload) && NotedPayload(p) == MeantPayload(ip, payload)
  {
    FrameIs(macs, tags, 0x0800, IpBytes(ip) + payload);
    NetworkBack(ip, payload);
    PayloadBack(ip, payload);
  }

  lemma HeaderCut(ip: Ip, m: nat)
    requires ValidIp(ip) && m < |IpBytes(ip)|
    ensures Network(IpBytes(ip)[..m], 0) == BadNetwork
  {
    WordsBack(ip);
    CutIsBad(IpBytes(ip), m);
  }

  lemma WordsBack(ip: Ip)
    requires ValidIp(ip)
    ensures IpBytes(ip)[0] % 16 == 5 + |ip.options| / 4 && |IpBytes(ip)| == 4 * (IpBytes(ip)[0] % 16)
  {
  }

  lemma CutIsBad(b: seq<u8>, m: nat)
    requires m < |b| == 4 * (b[0] % 16)
    ensures Network(b[..m], 0) == BadNetwork
  {
  }

  /** An IPv4 packet cut off in its header is a bad network packet. */
  lemma {:induction false} NetworkCut(macs: seq<u8>, tags: seq<Tag>, ip: Ip, m: nat)
    requires |macs| == 12 && |tags| <= 2 && ValidIp(ip) && m < |IpBytes(ip)|
    ensures FrameOf(Framed(macs, tags, 0x0800, IpBytes(ip)[..m])) == BadNetwork
  {
    FrameIs(macs, tags, 0x0800, IpBytes(ip)[..m]);
    HeaderCut(ip, m);
  }

  /** So is one whose header claims fewer than five words. */
  lemma {:induction false} HeaderTooShort(macs: seq<u8>, tags: seq<Tag>, rest: seq<u8>)
    requires |macs| == 12 && |tags| <= 2 && |rest| > 0 && rest[0] % 16 < 5
    ensures FrameOf(Framed(macs, tags, 0x0800, rest)) == BadNetwork
  {
    FrameIs(macs, tags, 0x0800, rest);
  }

  /** A frame cut off in its addresses, tags or ethertype is a bad link. */
  lemma {:induction false} LinkCut(macs: seq<u8>, tags: seq<Tag>, etype: u16, rest: seq<u8>, m: nat)
    requires |macs| == 12 && |tags| <= 2 && m < 14 + 4 * |tags|
    ensures FrameOf(Framed(macs, tags, etype, rest)[..m]) == BadLink
  {
    var p := Framed(macs, tags, etype, rest);
    if m >= 14 {
      TagsCut(p, 12, tags, etype, m, 2);
    }
  }

  lemma {:induction false} TagsCut(p: seq<u8>, at: nat, tags: seq<Tag>, etype: u16, m: nat, n: nat)
    requires at + 4 * |tags| + 2 <= |p| && p[at..at + 4 * |tags| + 2] == TagBytes(tags, etype)
    requires |tags| <= n && at + 2 <= m < at + 2 + 4 * |tags|
    ensures SkipTags(p[..m], at + 2, Be16(p[..m], at), n) == None
    decreases |tags|
  {
    var b := TagBytes(tags, etype);
    var head := (if tags[0].service then [0x88, 0xA8] else [0x81, 0x00]) + Two(tags[0].tci);
    assert p[at..at + |b|][0] == p[at] && p[at..at + |b|][1] == p[at + 1];
    HoldsBoth(p, at, head, TagBytes(tags[1..], etype));
    if m >= at + 6 {
      TagsCut(p, at + 4, tags[1..], etype, m, n - 1);
    }
  }
}
