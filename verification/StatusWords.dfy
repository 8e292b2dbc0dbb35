/** The status words of the parsing stage: what the pipeline resolves from them, and that the tools which
    unpack them can tell the verdict and its cause. */
module StatusWords {
  import opened Machine
  import opened StatusCode
  import opened Headers
  import opened Firewall
  import D = DpiState
  import A = AttackMode

  /** The check's word resolves to a pass exactly for admitted packets, in step with its return code. */
  lemma CheckVerdict(s: State, key: FlowKey, now: u64)
    ensures ResolveAction(CheckStatus(s, key, now)) == if Admitted(s, key, now) then XDP_PASS else XDP_DROP
    ensures CheckCode(s, key, now) < 0 <==> !Admitted(s, key, now)
    ensures CheckCode(s, key, now) != 0
  {
  }

  /** The attack timer has no part in the parsing stage's answers. */
  lemma AttackAside(s: State, attack: A.State, p: seq<u8>, now: u64)
    ensures ParseStatus(s.(attack := attack), p, now) == ParseStatus(s, p, now)
    ensures FrameCode(s.(attack := attack), FrameOf(p), now) == FrameCode(s, FrameOf(p), now)
  {
  }

  /** Return code and status word agree with the verdict on the packet: a negative code leaves it to the
      word, any other code but 0 passes. They part, a negative code beside a passing word, exactly on
      unknown ethertypes. */
  lemma ParseVerdict(s: State, p: seq<u8>, now: u64)
    ensures var code, action := FrameCode(s, FrameOf(p), now), ResolveAction(ParseStatus(s, p, now));
      && code in {-1, 0, 1, 3}
      && (code == 0 <==> FrameOf(p).Portless?)
      && (code >= 0 ==> action == XDP_PASS)
      && (code < 0 && action != XDP_DROP <==> FrameOf(p).OtherEther?)
      && (FrameOf(p).Transport? ==> (action == XDP_PASS <==> Admitted(s, FrameOf(p).key, now)))
  {
    if FrameOf(p).Transport? {
      CheckVerdict(s, FrameOf(p).key, now);
    }
  }

  /** The verdict of the whole step in terms of code and word; only code 0 leaves it to the later stages. */
  lemma StepVerdict(cfg: Config, s: State, p: seq<u8>, now: u64, room: bool)
    requires |p| < TWO32
    ensures var code, action := FrameCode(s, FrameOf(p), now), ResolveAction(ParseStatus(s, p, now));
      && (code == 0 <==> FrameOf(p).Portless?)
      && (code != 0 ==> XdpStep(cfg, s, p, now, room) == (AfterParse(s, p, now), if code < 0 then action else XDP_PASS))
      && (code == 0 ==> action == XDP_PASS)
      && (code == 0 ==>
            XdpStep(cfg, s, p, now, room) == Late(cfg, AfterParse(s, p, now), FrameOf(p).key, |p|, now, room))
      && code in {-1, 0, 1, 3}
  {
    ParseVerdict(s, p, now);
    if FrameOf(p).Transport? {
      CheckVerdict(s, FrameOf(p).key, now);
    }
  }

  lemma NetworkFrame(s: State, frame: Frame, now: u64)
    ensures var t := AfterNetwork(s, frame, now); t == s.(conns := t.conns, fuse := t.fuse, attack := t.attack)
  {
  }

  /** The parsing stage changes the conntrack table, the fuse and the attack timer only. */
  lemma AfterParseFrame(s: State, p: seq<u8>, now: u64)
    ensures var t := AfterParse(s, p, now); t == s.(conns := t.conns, fuse := t.fuse, attack := t.attack)
  {
    NetworkFrame(s, FrameOf(p), now);
    NetworkFrame(s.(attack := A.Look(s.attack, now).0), FrameOf(p), now);
  }

  /** What user space unpacks from the check's word: the stage names the list or the conntrack table, and
      the reason tells its cases apart; the return code sets ignored flows apart. */
  lemma CheckCause(s: State, key: FlowKey, now: u64)
    requires AllStored(s.conns)
    ensures var c, k := CheckStatus(s, key, now), Mirror(key);
      && (GetAction(c) == if Admitted(s, key, now) then 1 else 2)
      && (GetStage(c) == 4 && GetReason(c) == 0x20 <==> key.saddr in s.perm)
      && (GetStage(c) == 5 && GetReason(c) == 0x21 <==> key.saddr !in s.perm && TempBanned(s, key.saddr, now))
      && (GetStage(c) == 3 <==> key.saddr !in s.perm && !TempBanned(s, key.saddr, now))
      && (GetStage(c) == 3 ==>
            && (GetReason(c) == 0x61 <==> k in s.conns && D.Decode(s.conns[k].dpi) == D.Ignore)
            && (GetReason(c) == 0x62 <==> k in s.conns && D.Decode(s.conns[k].dpi) == D.Blocklisted)
            && (GetReason(c) in {0x60, 0x61, 0x62})
            && (GetAction(c) == 2 && GetReason(c) == 0x60 <==> k !in s.conns))
      && (CheckCode(s, key, now) == 1 <==> Admitted(s, key, now) && D.Decode(s.conns[k].dpi) == D.Ignore)
      && (CheckCode(s, key, now) in {-1, 1, 3})
  {
    PackUnpack(ACT_DROP, STG_PERM_BLK, RSN_RULE_STATIC, 0);
    PackUnpack(ACT_DROP, STG_TEMP_BLK, RSN_RULE_DYNA, 0);
    PackUnpack(ACT_DROP, STG_ESTABLISHED, RSN_DPI_PENDING, 0);
    PackUnpack(ACT_PASS, STG_ESTABLISHED, RSN_DPI_PASSED, 0);
    PackUnpack(ACT_DROP, STG_ESTABLISHED, RSN_DPI_VIOLATION, 0);
    PackUnpack(ACT_PASS, STG_ESTABLISHED, RSN_DPI_PENDING, 0);
    if Mirror(key) in s.conns {
      D.NibbleAndByteAgree(s.conns[Mirror(key)].dpi);
    }
  }

  /** What it unpacks from any other word of the parsing stage: stage 1, with one reason for bad packets, ICMP
      among them, and one for what is not supported; no word at all for ARP, unknown ethertypes and fragments. */
  lemma ParseCause(s: State, p: seq<u8>, now: u64)
    ensures var c, frame := ParseStatus(s, p, now), FrameOf(p);
      && (frame.Arp? || frame.OtherEther? ==> c == 0)
      && (frame.BadLink? || frame.BadNetwork? || frame.Icmp? ==>
            GetAction(c) == 2 && GetStage(c) == 1 && GetReason(c) == 1)
      && (frame.Ipv6? ==> GetAction(c) == 2 && GetStage(c) == 1 && GetReason(c) == 2)
      && (frame.Portless? ==>
            if Be16(p, Link(p).value.0 + 6) % 0x4000 != 0 then c == 0
            else GetAction(c) == 1 && GetStage(c) == 1 && GetReason(c) == 2)
      && (frame.Transport? ==> c == CheckStatus(s, frame.key, now))
    ensures var code, frame := FrameCode(s, FrameOf(p), now), FrameOf(p);
      && (code == 0 <==> frame.Portless?)
      && (frame.Transport? ==> code == CheckCode(s, frame.key, now))
      && (!frame.Transport? ==> (code == 1 <==> frame.Arp?) && code in {-1, 0, 1})
  {
    PackUnpack(ACT_DROP, STG_PARSE, RSN_BAD_PKT, 0);
    PackUnpack(ACT_DROP, STG_PARSE, RSN_UNSUPPORTED, 0);
    PackUnpack(ACT_PASS, STG_PARSE, RSN_UNSUPPORTED, 0);
  }

  /** And from the word of the policy: which check refused, and that only a port miss carries its reason, which is
      what the pipeline drops on. */
  lemma PolicyCause(r: PolicyResult)
    ensures var c := StatusOf(r);
      && (r == PolicyPassed <==> GetAction(c) == 1)
      && (r == PolicyPassed ==> GetStage(c) == 8 && GetReason(c) == 0)
      && (r != PolicyPassed ==> GetAction(c) == 2)
      && (r == PortMiss <==> GetStage(c) == 6) && (r == PortMiss <==> GetReason(c) == 0x30)
      && (r == GlobalLimited <==> GetStage(c) == 7)
      && (r == FlowLimited <==> GetAction(c) == 2 && GetStage(c) == 8)
      && (r == GlobalLimited || r == FlowLimited ==> GetReason(c) == 0x40)
  {
    PackUnpack(ACT_DROP, STG_PORT_WHT, RSN_PORT_MISS, 0);
    PackUnpack(ACT_DROP, STG_GLOBAL_LMT, RSN_LIMIT_BYTES, 0);
    PackUnpack(ACT_DROP, STG_FLOW_LMT, RSN_LIMIT_BYTES, 0);
    PackUnpack(ACT_PASS, STG_FLOW_LMT, RSN_SUCCESS, 0);
  }
}
