/** The two BPF programs as they run: fields for the kernel maps, one method per function, reading
    raw bytes and updating the maps in place. Each is proved against `Firewall`. */
module Dataplane {
  import opened Machine
  import opened StatusCode
  import opened Headers
  import opened Firewall
  import D = DpiState
  import Fuse
  import TB = TokenBucket
  import A = AttackMode
  import opened StatusWords

  const VDT_DROP := -1
  const VDT_DPI_PASSED := 1
  const VDT_DPI_PENDING := 3

  /** The status word of the flow limit. */
  function FlowStatus(ok: bool): bv32 {
    if ok then MakeStatus(ACT_PASS, STG_FLOW_LMT, RSN_SUCCESS) else MakeStatus(ACT_DROP, STG_FLOW_LMT, RSN_LIMIT_BYTES)
  }

  class Programs {
    const cfg: Config
    const fuse: Fuse.FuseBucket
    const global: TB.GlobalBucket
    const pps: TB.PpsBucket
    const attack: A.AttackTimer
    var conns: map<FlowKey, Conn>
    const tcPerm: set<u32>
    var perm: set<u32>
    var temp: map<u32, Ban>
    var ports: set<u16>
    var rules: map<RuleKey, Rule>
    var flows: map<FlowKey, Flow>

    ghost predicate Valid()
      reads this
    {
      AllStored(conns)
    }

    function View(): State
      reads this, fuse, global, pps, attack
    {
      State(conns, tcPerm, perm, temp, ports, rules, flows, fuse.View(), global.View(), pps.View(), attack.View())
    }

    constructor (cfg: Config, ports: set<u16>)
      ensures Valid()
      ensures this.cfg == cfg && fresh(fuse) && fresh(global) && fresh(pps) && fresh(attack)
      ensures View() == Boot(cfg, ports)
    {
      this.cfg := cfg;
      tcPerm := {};
      this.ports := ports;
      fuse := new Fuse.FuseBucket();
      global := new TB.GlobalBucket();
      pps := new TB.PpsBucket(cfg.ppsLimit);
      attack := new A.AttackTimer();
      conns, perm, temp, rules, flows := map[], {}, map[], map[], map[];
    }

    // ----- TC egress -----

    /** tc_egress_record. The event is what goes to the ring buffer, if anything does. */
    method TcEgressRecord(skb: seq<u8>, protocol: u16, now: u64, reserve: bool) returns (event: Option<L7Event>)
      requires Valid()
      modifies this`conns
      ensures Valid()
      ensures View() == TcStep(old(View()), skb, protocol, now, reserve).0
      ensures event == TcEvent(old(View()), skb, protocol, now, reserve)
    {
      if |skb| < 34 { return None; }
      if protocol != ETH_P_IP { return None; }
      var version, ihl, proto := skb[L3_OFFSET] / 16, skb[L3_OFFSET] % 16, skb[L3_OFFSET + 9];
      if version != 4 || ihl < 5 || (proto != IPPROTO_TCP && proto != IPPROTO_UDP) {
        return None;
      }
      var l4: nat := 14 + ihl * 4;
      if l4 + 4 > |skb| { return None; }
      var key := FlowKey(Be32(skb, L3_OFFSET + 12), Be32(skb, L3_OFFSET + 16), Be16(skb, l4), Be16(skb, l4 + 2), proto);
      event := RecordFlow(skb, l4, key, now, reserve);
    }

    /** From the look-up of the five-tuple on. */
    method RecordFlow(skb: seq<u8>, l4: nat, key: FlowKey, now: u64, reserve: bool) returns (event: Option<L7Event>)
      requires Valid() && 34 <= |skb|
      modifies this`conns
      ensures Valid()
      ensures var payload := |skb| > l4 + 12 && |skb| > L7(skb, l4);
        var hello := key.proto == IPPROTO_TCP && |skb| > l4 + 12 && OpensHello(skb, L7(skb, l4));
        var (conn, submitted) :=
          Egress(Lookup(old(conns), key), key.daddr in tcPerm, Sight(key, payload, hello), now, reserve);
        && conns == old(conns)[key := conn]
        && event == if submitted then Some(EventOf(skb, key, now, IsPending(old(conns), key))) else None
    {
      if key in conns {
        var st, attempts := D.DpiSt(conns[key].dpi), D.DpiAttempts(conns[key].dpi);
        D.NibbleAndByteAgree(conns[key].dpi);
        if st == D.DPI_IGNORE || st == D.DPI_BLOCKLIST || st == D.DPI_TLS_DONE {
          conns := conns[key := conns[key].(lastSeen := now)];
          return None;
        }
        if st == D.DPI_TLS_PENDING {
          event := Continue(skb, l4, key, attempts, now, reserve);
          return;
        }
      }
      event := ClassifyNew(skb, l4, key, now, reserve);
    }

    /** The branch for a flow whose ClientHello is still being collected. */
    method Continue(skb: seq<u8>, l4: nat, key: FlowKey, attempts: bv8, now: u64, reserve: bool)
      returns (event: Option<L7Event>)
      requires Valid() && 34 <= |skb| && key in conns
      requires D.Decode(conns[key].dpi).Pending? && attempts == D.DpiAttempts(conns[key].dpi)
      modifies this`conns
      ensures Valid()
      ensures var payload := |skb| > l4 + 12 && |skb| > L7(skb, l4);
        var (conn, submitted) :=
          Egress(Some(old(conns[key])), key.daddr in tcPerm, Sight(key, payload, false), now, reserve);
        && conns == old(conns)[key := conn]
        && event == if submitted then Some(EventOf(skb, key, now, true)) else None
    {
      D.AttemptsAdvance(conns[key].dpi);
      D.NibbleAndByteAgree(conns[key].dpi);
      conns := conns[key := conns[key].(lastSeen := now)];
      if attempts >= D.MAX_DPI_ATTEMPTS {
        conns := conns[key := conns[key].(dpi := D.DpiMake(D.DPI_TLS_DONE, attempts))];
        return None;
      }
      if l4 + 12 + 1 > |skb| { return None; }
      var payloadOffset := l4 + skb[l4 + 12] / 16 * 4;
      if |skb| <= payloadOffset { return None; }
      if !reserve { return None; }
      event := Capture(skb, key, now, Some(DIR_OUT));
      conns := conns[key := conns[key].(dpi := D.DpiMake(D.DPI_TLS_PENDING, attempts + 1))];
    }

    /** Fill an event: the five-tuple, the time, and at most 2000 bytes from layer 3 on. */
    method Capture(skb: seq<u8>, key: FlowKey, now: u64, direction: Option<u8>) returns (event: Option<L7Event>)
      requires 34 <= |skb|
      ensures event == Some(EventOf(skb, key, now, true).(direction := direction))
    {
      var copyLen := |skb| - L3_OFFSET;
      if copyLen > MAX_L7_PAYLOAD {
        copyLen := MAX_L7_PAYLOAD;
      }
      return Some(L7Event(key.saddr, key.daddr, key.sport, key.dport, key.proto, now,
                          skb[L3_OFFSET..L3_OFFSET + copyLen], direction));
    }

    /** The branch that classifies a flow and writes its entry. */
    method ClassifyNew(skb: seq<u8>, l4: nat, key: FlowKey, now: u64, reserve: bool) returns (event: Option<L7Event>)
      requires Valid() && 34 <= |skb|
      requires key in conns ==> D.Decode(conns[key].dpi) == D.Unknown
      modifies this`conns
      ensures Valid()
      ensures var hello := key.proto == IPPROTO_TCP && |skb| > l4 + 12 && OpensHello(skb, L7(skb, l4));
        var (conn, submitted) :=
          Egress(Lookup(old(conns), key), key.daddr in tcPerm, Sight(key, true, hello), now, reserve);
        && conns == old(conns)[key := conn]
        && event == if submitted then Some(EventOf(skb, key, now, false)) else None
    {
      var dpiState, tlsVersion := D.DPI_UNKNOWN, 0;
      event := None;
      if key.daddr in tcPerm {
        dpiState := D.DPI_BLOCKLIST;
      } else if key.dport == 53 || key.dport == 123 || key.dport == 67 || key.dport == 68 {
        dpiState := D.DPI_IGNORE;
      } else if key.dport == 443 || key.dport == 80 {
        if key.proto == IPPROTO_TCP {
          if l4 + 12 + 1 <= |skb| {
            var payloadOffset := l4 + skb[l4 + 12] / 16 * 4;
            if payloadOffset + 6 <= |skb| {
              if skb[payloadOffset] == 0x16 {
                if skb[payloadOffset + 1] == 0x03 && skb[payloadOffset + 5] == 0x01 {
                  dpiState := D.DPI_TLS_PENDING;
                  tlsVersion := 1;
                  if reserve {
                    event := Capture(skb, key, now, None);
                  }
                }
              }
            }
          }
        } else {
          dpiState := D.DPI_IGNORE;
        }
      } else {
        dpiState := D.DPI_IGNORE;
      }
      D.FirstBytes();
      conns := conns[key := Conn(now, D.FirstByte(dpiState), tlsVersion)];
    }

    // ----- XDP ingress -----

    /** check_conntrack_and_blacklist: always one of three verdicts, so that nothing after it in
        the TCP and UDP branches is ever reached. */
    method CheckConntrackAndBlacklist(key: FlowKey, now: u64) returns (verdict: int, status: bv32)
      requires Valid()
      modifies this`conns
      ensures Valid()
      ensures verdict == VDT_DROP || verdict == VDT_DPI_PASSED || verdict == VDT_DPI_PENDING
      ensures verdict == CheckCode(old(View()), key, now)
      ensures status == CheckStatus(old(View()), key, now)
      ensures conns == Checked(old(View()), key, now).conns
    {
      if key.saddr in perm {
        return VDT_DROP, MakeStatus(ACT_DROP, STG_PERM_BLK, RSN_RULE_STATIC);
      }
      if key.saddr in temp {
        var bv := temp[key.saddr];
        if now >= bv.start && (bv.end == 0 || now < bv.end) {
          return VDT_DROP, MakeStatus(ACT_DROP, STG_TEMP_BLK, RSN_RULE_DYNA);
        }
      }
      var lookupKey := FlowKey(key.daddr, key.saddr, key.dport, key.sport, key.proto);
      if lookupKey !in conns {
        return VDT_DROP, MakeStatus(ACT_DROP, STG_ESTABLISHED, RSN_DPI_PENDING);
      }
      verdict, status := SwitchOnClass(lookupKey, now);
    }

    /** The switch on the raw class byte of an existing entry. */
    method SwitchOnClass(lookupKey: FlowKey, now: u64) returns (verdict: int, status: bv32)
      requires lookupKey in conns
      modifies this`conns
      ensures var dpi := old(conns)[lookupKey].dpi;
        && verdict == (if dpi == 2 then VDT_DROP else if dpi == 1 then VDT_DPI_PASSED else VDT_DPI_PENDING)
        && status == (if dpi == 1 then MakeStatus(ACT_PASS, STG_ESTABLISHED, RSN_DPI_PASSED)
                      else if dpi == 2 then MakeStatus(ACT_DROP, STG_ESTABLISHED, RSN_DPI_VIOLATION)
                      else MakeStatus(ACT_PASS, STG_ESTABLISHED, RSN_DPI_PENDING))
      ensures conns == if verdict == VDT_DROP then old(conns)
                       else old(conns)[lookupKey := old(conns)[lookupKey].(lastSeen := now)]
    {
      var raw := conns[lookupKey].dpi;
      if raw == 1 {
        conns := conns[lookupKey := conns[lookupKey].(lastSeen := now)];
        return VDT_DPI_PASSED, MakeStatus(ACT_PASS, STG_ESTABLISHED, RSN_DPI_PASSED);
      } else if raw == 2 {
        return VDT_DROP, MakeStatus(ACT_DROP, STG_ESTABLISHED, RSN_DPI_VIOLATION);
      } else {
        conns := conns[lookupKey := conns[lookupKey].(lastSeen := now)];
        return VDT_DPI_PENDING, MakeStatus(ACT_PASS, STG_ESTABLISHED, RSN_DPI_PENDING);
      }
    }

    /** enforce_l4_l7_policy_and_dpi as ICMP reaches it, without a conntrack entry: it always refuses.
        `status` is the word so far. */
    method EnforceIcmp(now: u64, underAttack: bool, statusSoFar: bv32) returns (rc: int, status: bv32)
      modifies fuse, attack
      ensures rc == -1
      ensures (fuse.View(), attack.View()) ==
        (var (f, admitted) := Fuse.Call(old(fuse.View()), now);
         (f, if admitted then old(attack.View()) else A.Trip(old(attack.View()), now)))
      ensures status ==
        if !Fuse.Call(old(fuse.View()), now).1 then 0x0202_0040 else if underAttack then 0x0201_0001 else statusSoFar
    {
      status := statusSoFar;
      var blown := fuse.Trigger(now);
      if blown {
        attack.Blow(now);
        return -1, MakeStatus(ACT_DROP, STG_FUSE, RSN_LIMIT_BYTES);
      }
      if underAttack {
        return -1, MakeStatus(ACT_DROP, STG_PARSE, RSN_BAD_PKT);
      }
      return -1, status;
    }

    /** parse_packet_and_flood_protect. A negative code drops or passes as the status says, 1 and 3
        pass at once, 0 goes on to the later stages with the returned key. */
    method ParsePacketAndFloodProtect(p: seq<u8>, now: u64)
      returns (rc: int, status: bv32, key: FlowKey, payloadLen: nat)
      requires Valid() && |p| < TWO32
      modifies this`conns, fuse, attack
      ensures Valid()
      ensures rc == FrameCode(old(View()), FrameOf(p), now)
      ensures status == ParseStatus(old(View()), p, now)
      ensures Leaves(AfterParse(old(View()), p, now))
      ensures rc == 0 ==> FrameOf(p).Portless? && key == FrameOf(p).key
      ensures payloadLen == NotedPayload(p)
    {
      var hc := new HdrCursor();
      var ok, etype := ParseLink(hc, p);
      if !ok {
        return -1, MakeStatus(ACT_DROP, STG_PARSE, RSN_BAD_PKT), FlowKey(0, 0, 0, 0, 0), 0;
      }
      var underAttack := attack.Check(now);
      AttackAside(old(View()), attack.View(), p, now);
      assert View() == old(View()).(attack := attack.View());
      rc, status, key, payloadLen := ParseByType(hc, p, etype, now, underAttack);
    }

    /** The Ethernet header and the VLAN tags. */
    method ParseLink(hc: HdrCursor, p: seq<u8>) returns (ok: bool, etype: u16)
      requires hc.pos == 0
      modifies hc
      ensures hc.pos <= |p|
      ensures Link(p) == if ok then Some((hc.pos, etype)) else None
    {
      ok, etype := hc.ParseEth(p);
      if !ok {
        return;
      }
      ok, etype := hc.ParseVlanStack(p, etype);
    }

    /** The switch on the ethertype, the cursor behind the link layer. */
    method ParseByType(hc: HdrCursor, p: seq<u8>, etype: u16, now: u64, underAttack: bool)
      returns (rc: int, status: bv32, key: FlowKey, payloadLen: nat)
      requires Valid() && hc.pos <= |p| && Link(p) == Some((hc.pos, etype))
      modifies this`conns, fuse, attack, hc
      ensures Valid()
      ensures rc == FrameCode(old(View()), FrameOf(p), now)
      ensures status == ParseStatus(old(View()), p, now)
      ensures Leaves(AfterNetwork(old(View()), FrameOf(p), now))
      ensures rc == 0 ==> FrameOf(p).Portless? && key == FrameOf(p).key
      ensures payloadLen == NotedPayload(p)
    {
      status, key, payloadLen := 0, FlowKey(0, 0, 0, 0, 0), 0;
      if etype == ETH_P_IP {
        rc, status, key, payloadLen := ParseNetwork(hc, p, now, underAttack);
      } else if etype == ETH_P_ARP {
        rc := 1;
      } else if etype == ETH_P_IPV6 {
        rc, status := -1, MakeStatus(ACT_DROP, STG_PARSE, RSN_UNSUPPORTED);
      } else {
        rc := -1;
      }
    }

    /** The parsing stage has brought the state to `s`, as far as it can change it. */
    ghost predicate Leaves(s: State)
      reads this, fuse, attack
    {
      conns == s.conns && fuse.View() == s.fuse && attack.View() == s.attack
    }

    /** What the parsing stage answers about the packet whose IPv4 header starts at `ip`. */
    ghost predicate Answers(s: State, p: seq<u8>, ip: nat, now: u64, rc: int, status: bv32, key: FlowKey,
                            payloadLen: nat)
    {
      && rc == FrameCode(s, Network(p, ip), now)
      && status == NetworkStatus(s, p, ip, now)
      && (rc == 0 ==> Network(p, ip).Portless? && key == Network(p, ip).key)
      && payloadLen == PayloadLength(p, ip)
    }

    /** From the IPv4 header at the cursor on. */
    method ParseNetwork(hc: HdrCursor, p: seq<u8>, now: u64, underAttack: bool)
      returns (rc: int, status: bv32, key: FlowKey, payloadLen: nat)
      requires Valid() && hc.pos <= |p|
      modifies this`conns, fuse, attack, hc
      ensures Valid() && old(hc.pos) <= hc.pos <= |p|
      ensures Answers(old(View()), p, old(hc.pos), now, rc, status, key, payloadLen)
      ensures Leaves(AfterNetwork(old(View()), Network(p, old(hc.pos)), now))
    {
      key := FlowKey(0, 0, 0, 0, 0);
      var ip := hc.pos;
      var ok, proto := hc.ParseIpv4(p);
      if !ok {
        return -1, MakeStatus(ACT_DROP, STG_PARSE, RSN_BAD_PKT), key, 0;
      }
      key := FlowKey(Be32(p, ip + 12), Be32(p, ip + 16), 0, 0, proto);
      if Be16(p, ip + 6) % 0x4000 != 0 {
        return 0, 0, key, 0;
      }
      if proto == IPPROTO_TCP {
        rc, status, payloadLen := TcpCase(hc, p, ip, key, now);
      } else if proto == IPPROTO_UDP {
        rc, status, payloadLen := UdpCase(hc, p, ip, key, now);
      } else if proto == IPPROTO_ICMP {
        rc, status := IcmpCase(hc, p, ip, now, underAttack);
        payloadLen := 0;
      } else {
        return 0, MakeStatus(ACT_PASS, STG_PARSE, RSN_UNSUPPORTED), key, 0;
      }
    }

    /** The cursor stands behind the IPv4 header at `ip` of an unfragmented packet of protocol `proto`. */
    ghost predicate Behind(hc: HdrCursor, p: seq<u8>, ip: nat, proto: u8)
      reads hc
    {
      HasIpv4(p, ip) && !IsFragment(p, ip) && p[ip + 9] == proto && hc.pos == L4(p, ip)
    }

    method TcpCase(hc: HdrCursor, p: seq<u8>, ip: nat, network: FlowKey, now: u64)
      returns (rc: int, status: bv32, payloadLen: nat)
      requires Valid() && Behind(hc, p, ip, IPPROTO_TCP)
      requires network == FlowKey(Be32(p, ip + 12), Be32(p, ip + 16), 0, 0, IPPROTO_TCP)
      modifies this`conns, hc
      ensures Valid() && old(hc.pos) <= hc.pos <= |p|
      ensures Answers(old(View()), p, ip, now, rc, status, network, payloadLen)
      ensures conns == AfterNetwork(old(View()), Network(p, ip), now).conns && Network(p, ip) != Icmp
    {
      var l4 := hc.pos;
      var ok, tcpPayload := hc.ParseTcp(p, ip);
      if !ok {
        return -1, MakeStatus(ACT_DROP, STG_PARSE, RSN_BAD_PKT), 0;
      }
      payloadLen := tcpPayload;
      var key := network.(sport := Be16(p, l4), dport := Be16(p, l4 + 2));
      assert Network(p, ip) == Transport(key);
      rc, status := CheckConntrackAndBlacklist(key, now);
    }

    method UdpCase(hc: HdrCursor, p: seq<u8>, ip: nat, network: FlowKey, now: u64)
      returns (rc: int, status: bv32, payloadLen: nat)
      requires Valid() && Behind(hc, p, ip, IPPROTO_UDP)
      requires network == FlowKey(Be32(p, ip + 12), Be32(p, ip + 16), 0, 0, IPPROTO_UDP)
      modifies this`conns, hc
      ensures Valid() && old(hc.pos) <= hc.pos <= |p|
      ensures Answers(old(View()), p, ip, now, rc, status, network, payloadLen)
      ensures conns == AfterNetwork(old(View()), Network(p, ip), now).conns && Network(p, ip) != Icmp
    {
      var l4 := hc.pos;
      var ok := hc.ParseEight(p);
      if !ok {
        return -1, MakeStatus(ACT_DROP, STG_PARSE, RSN_BAD_PKT), 0;
      }
      payloadLen := if Be16(p, l4 + 4) > 8 then Be16(p, l4 + 4) - 8 else 0;
      var key := network.(sport := Be16(p, l4), dport := Be16(p, l4 + 2));
      assert Network(p, ip) == Transport(key);
      rc, status := CheckConntrackAndBlacklist(key, now);
    }

    method IcmpCase(hc: HdrCursor, p: seq<u8>, ip: nat, now: u64, underAttack: bool) returns (rc: int, status: bv32)
      requires Valid() && Behind(hc, p, ip, IPPROTO_ICMP)
      modifies fuse, attack, hc
      ensures Valid() && old(hc.pos) <= hc.pos <= |p|
      ensures rc == -1 && status == BadPacket() && Network(p, ip) in {BadNetwork, Icmp}
      ensures Leaves(AfterNetwork(old(View()), Network(p, ip), now))
    {
      var ok := hc.ParseEight(p);
      if !ok {
        return -1, MakeStatus(ACT_DROP, STG_PARSE, RSN_BAD_PKT);
      }
      rc, status := EnforceIcmp(now, underAttack, 0);
      return -1, MakeStatus(ACT_DROP, STG_PARSE, RSN_BAD_PKT);
    }

    /** verify_broadcast_and_policy: false drops. */
    method VerifyBroadcastAndPolicy(saddr: u32, daddr: u32, dport: u16) returns (ok: bool)
      ensures ok <==> Unicast(cfg, saddr, daddr, dport)
    {
      if saddr == 0xFFFF_FFFF {
        return false;
      }
      if saddr / 0x1000_0000 == 14 {
        return false;
      }
      if daddr == 0xFFFF_FFFF {
        return dport == 67;
      }
      if daddr / 0x1000_0000 == 14 {
        return false;
      }
      if cfg.subnetBroadcast.Some? {
        if daddr == cfg.subnetBroadcast.value {
          return false;
        }
      }
      return true;
    }

    /** lookup_or_create_flow: false when the table refuses a new entry. */
    method LookupOrCreateFlow(key: FlowKey, now: u64, room: bool) returns (found: bool)
      modifies this`flows
      ensures found <==> key in old(flows) || room
      ensures flows == if key in old(flows) || !room then old(flows) else old(flows)[key := NewFlow(cfg, now)]
    {
      if key in flows {
        return true;
      }
      if !room {
        return false;
      }
      flows := flows[key := Flow(0, 0, TB.Bucket(cfg.flowBurst, now), now, now, 0, 0)];
      return true;
    }

    /** The refill of consume_flow_tokens, one call at a time: every compare-and-swap succeeds. */
    method RefillFlow(b: TB.Bucket, now: u64, activeRate: u64, activeBurst: u64) returns (r: TB.Bucket)
      ensures r == TB.Refilled(b, now, activeRate, activeBurst)
    {
      var tokens, lastRefill := b.tokens, b.last;
      var delta := Sub64(now, lastRefill);
      if delta > 0 {
        var refill := Wrap64(delta * activeRate) / NS_PER_SEC;
        if refill > 0 {
          lastRefill := now;
          tokens := Wrap64(tokens + refill);
          if tokens > activeBurst {
            tokens := activeBurst;
          }
        }
      }
      return TB.Bucket(tokens, lastRefill);
    }

    /** consume_flow_tokens */
    method ConsumeFlowTokens(key: FlowKey, now: u64, pktLen: u64) returns (pass: bool)
      requires key in flows
      modifies this`flows
      ensures flows == old(flows)[key := TakeFlow(cfg, old(flows)[key], TB.Call(now, pktLen)).0]
      ensures pass == TakeFlow(cfg, old(flows)[key], TB.Call(now, pktLen)).1
    {
      var st := flows[key];
      var activeRate: u64 := if st.rate != 0 then st.rate else cfg.flowRate;
      var activeBurst: u64 := if st.burst != 0 then st.burst else cfg.flowBurst;
      var b := RefillFlow(st.bucket, now, activeRate, activeBurst);
      pass := b.tokens >= pktLen;
      if pass {
        b := b.(tokens := b.tokens - pktLen);
      }
      flows := flows[key := st.(bucket := b)];
    }

    /** record_established */
    method RecordEstablished(key: FlowKey, now: u64)
      requires Valid()
      modifies this`conns
      ensures Valid() && conns == Recorded(old(conns), key, now)
    {
      var rev := FlowKey(key.daddr, key.saddr, key.dport, key.sport, key.proto);
      if rev in conns {
        conns := conns[rev := conns[rev].(lastSeen := now)];
      } else {
        conns := conns[rev := Conn(now, 0x00, 0)];
      }
    }

    /** apply_policy, returning the status word it leaves. */
    method ApplyPolicy(key: FlowKey, len: u32, now: u64) returns (status: bv32)
      requires Valid() && key in flows
      modifies this`conns, this`flows, this`temp, global
      ensures Valid()
      ensures View() == Policy(cfg, old(View()), key, len, now).0
      ensures status == StatusOf(Policy(cfg, old(View()), key, len, now).1)
    {
      var isSpecial := false;
      if key.proto == IPPROTO_UDP {
        if key.sport == 123 || key.dport == 123 ||
           key.dport == 67 || key.dport == 68 ||
           key.dport == 137 || key.sport == 67 || key.sport == 68 || key.sport == 137 ||
           key.dport == 53 || key.dport == 5353 || key.sport == 53 || key.sport == 5353 {
          isSpecial := true;
        }
      }
      if key.proto == IPPROTO_TCP || key.proto == IPPROTO_UDP {
        if !isSpecial && key.dport !in ports && key.sport !in ports {
          return MakeStatus(ACT_DROP, STG_PORT_WHT, RSN_PORT_MISS);
        }
        RecordEstablished(key, now);
      }
      status := ApplyLimits(key, len, now);
    }

    /** Steps 4 to 6 of apply_policy. */
    method ApplyLimits(key: FlowKey, len: u32, now: u64) returns (status: bv32)
      requires Valid() && key in flows
      modifies this`flows, this`temp, global
      ensures View() == Limits(cfg, old(View()), key, len, now).0
      ensures status == StatusOf(Limits(cfg, old(View()), key, len, now).1)
    {
      var ruleKey := RuleKey(key.saddr, 32, key.sport, IPPROTO_TCP);
      var ruled := (key.proto == IPPROTO_TCP || key.proto == IPPROTO_UDP) && ruleKey in rules;
      if ruled {
        flows := flows[key := flows[key].(rate := rules[ruleKey].rate, burst := rules[ruleKey].burst)];
        var ok := ConsumeFlowTokens(key, now, len);
        return FlowStatus(ok);
      }
      status := ApplyOpenLimits(key, len, now);
    }

    /** The same for a packet no rule applies to: the global limit first, and a ban when the flow's own limit
        refuses. */
    method ApplyOpenLimits(key: FlowKey, len: u32, now: u64) returns (status: bv32)
      requires Valid() && key in flows && RuleFor(View(), key).None?
      modifies this`flows, this`temp, global
      ensures View() == Limits(cfg, old(View()), key, len, now).0
      ensures status == StatusOf(Limits(cfg, old(View()), key, len, now).1)
    {
      var pass := global.Consume(now, len, cfg.globalRate, cfg.globalBurst);
      if !pass {
        return MakeStatus(ACT_DROP, STG_GLOBAL_LMT, RSN_LIMIT_BYTES);
      }
      pass := ConsumeFlowTokens(key, now, len);
      if !pass {
        temp := temp[key.saddr := Ban(now, Wrap64(now + 300 * NS_PER_SEC))];
      }
      return FlowStatus(pass);
    }

    /** update_flow_stats */
    method UpdateFlowStats(key: FlowKey, len: u32, now: u64)
      requires key in flows
      modifies this`flows
      ensures flows == old(flows)[key := Counted(old(flows)[key], len, now)]
    {
      var st := flows[key];
      flows := flows[key := st.(packets := Wrap64(st.packets + 1), bytes := Wrap64(st.bytes + len), lastSeen := now)];
    }

    /** xdp_fw */
    method XdpFw(p: seq<u8>, now: u64, room: bool) returns (action: XdpAction)
      requires Valid() && |p| < TWO32
      modifies this`conns, this`flows, this`temp, fuse, attack, global, pps
      ensures Valid()
      ensures (View(), action) == XdpStep(cfg, old(View()), p, now, room)
    {
      ghost var s := View();
      var rc, status, key, payloadLen := ParsePacketAndFloodProtect(p, now);
      assert View() == AfterParse(s, p, now) by { AfterParseFrame(s, p, now); }
      StepVerdict(cfg, s, p, now, room);
      action := ResolveAction(status);
      if rc < 0 {
        return;
      } else if rc == 1 {
        return XDP_PASS;
      } else if rc == 3 {
        return XDP_PASS;
      }
      action := LaterStages(p, key, now, room, action);
    }

    /** xdp_fw from the packet-rate limit on; `resolved` is the action of the parsing stage. */
    method LaterStages(p: seq<u8>, key: FlowKey, now: u64, room: bool, resolved: XdpAction) returns (action: XdpAction)
      requires Valid() && |p| < TWO32 && resolved == XDP_PASS
      modifies this`conns, this`flows, this`temp, global, pps
      ensures Valid()
      ensures (View(), action) == Late(cfg, old(View()), key, |p|, now, room)
    {
      var ok := pps.Consume(now, cfg.ppsLimit);
      if !ok {
        return XDP_DROP;
      }
      var unicast := VerifyBroadcastAndPolicy(key.saddr, key.daddr, key.dport);
      if !unicast {
        return XDP_DROP;
      }
      action := FlowStages(p, key, now, room, resolved);
    }

    /** And from the look-up of the flow entry on. */
    method FlowStages(p: seq<u8>, key: FlowKey, now: u64, room: bool, resolved: XdpAction) returns (action: XdpAction)
      requires Valid() && |p| < TWO32 && resolved == XDP_PASS
      modifies this`conns, this`flows, this`temp, global
      ensures Valid()
      ensures (View(), action) == WithFlow(cfg, old(View()), key, |p|, now, room)
    {
      var found := LookupOrCreateFlow(key, now, room);
      if !found {
        return XDP_PASS;
      }
      action := PolicyStages(p, key, now, resolved);
    }

    /** And from the policy on. */
    method PolicyStages(p: seq<u8>, key: FlowKey, now: u64, resolved: XdpAction) returns (action: XdpAction)
      requires Valid() && |p| < TWO32 && resolved == XDP_PASS && key in flows
      modifies this`conns, this`flows, this`temp, global
      ensures Valid()
      ensures (View(), action) == Judged(cfg, old(View()), key, |p|, now)
    {
      var sc := ApplyPolicy(key, |p|, now);
      var afterPolicy := ResolveAction(sc);
      if afterPolicy == XDP_DROP &&
         (sc & 0x00FF_0000 == STG_PERM_BLK || sc & 0x00FF_0000 == STG_TEMP_BLK || sc & 0x0000_FFFF == RSN_PORT_MISS) {
        return XDP_DROP;
      }
      UpdateFlowStats(key, |p|, now);
      return resolved;
    }
  }
}
