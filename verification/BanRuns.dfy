/** Temporary bans over whole runs: what XDP bans, for how long the ban is in force, and that every
    TCP or UDP packet of the banned source is dropped meanwhile. */
module BanRuns {
  import opened Machine
  import opened StatusCode
  import opened Headers
  import opened Firewall
  import opened FirewallRuns
  import TB = TokenBucket

  const FIVE_MINUTES := 300_000_000_000

  /** The flow's own bucket refuses the packet: that of its entry, or a full one when it is new, at the entry's
      own rate and burst, or the configured ones where it has none. */
  predicate OverOwnLimit(cfg: Config, s: State, key: FlowKey, len: u32, now: u64) {
    var known := key in s.flows;
    var bucket := if known then s.flows[key].bucket else TB.Bucket(cfg.flowBurst, now);
    var rate: u64 := if known && s.flows[key].rate > 0 then s.flows[key].rate else cfg.flowRate;
    var burst: u64 := if known && s.flows[key].burst > 0 then s.flows[key].burst else cfg.flowBurst;
    !TB.Take(bucket, TB.Call(now, len), rate, burst).1
  }

  /** A packet runs into its own flow's limit: it gets through the packet rate, the address checks,
      the port check and the global limit, no rule exempts it, and its flow bucket refuses it. */
  predicate Over(cfg: Config, s: State, key: FlowKey, len: u32, now: u64, room: bool) {
    && TB.TakePps(s.pps, now, cfg.ppsLimit).1
    && AddressesPass(cfg, key)
    && (key in s.flows || room)
    && (key.proto == 6 || key.proto == 17 ==> PortPassed(s, key))
    && !Ruled(s, key)
    && TB.TakeGlobal(s.global, TB.Call(now, len), cfg.globalRate, cfg.globalBurst).1
    && OverOwnLimit(cfg, s, key, len, now)
  }

  /** The event is such a packet from `ip`. */
  predicate Exceeds(cfg: Config, s: State, e: Event, ip: u32) {
    && e.Xdp? && FrameOf(e.packet).Portless?
    && var key, len := FrameOf(e.packet).key, |e.packet|;
    && key.saddr == ip
    && Over(cfg, s, key, len, e.at, e.room)
  }

  lemma LimitsBan(cfg: Config, s: State, key: FlowKey, len: u32, now: u64)
    requires key in s.flows
    ensures Limits(cfg, s, key, len, now).0.temp ==
      if RuleFor(s, key).None?
         && TB.TakeGlobal(s.global, TB.Call(now, len), cfg.globalRate, cfg.globalBurst).1
         && !TakeFlow(cfg, s.flows[key], TB.Call(now, len)).1
      then s.temp[key.saddr := BanFrom(now)] else s.temp
  {
  }

  lemma PolicyBan(cfg: Config, s: State, key: FlowKey, len: u32, now: u64)
    requires key in s.flows
    ensures Policy(cfg, s, key, len, now).0.temp ==
      if (HasPorts(key) ==> PortPassed(s, key)) && RuleFor(s, key).None?
         && TB.TakeGlobal(s.global, TB.Call(now, len), cfg.globalRate, cfg.globalBurst).1
         && !TakeFlow(cfg, s.flows[key], TB.Call(now, len)).1
      then s.temp[key.saddr := BanFrom(now)] else s.temp
  {
    LimitsBan(cfg, s, key, len, now);
    LimitsBan(cfg, s.(conns := Recorded(s.conns, key, now)), key, len, now);
  }

  lemma JudgedBan(cfg: Config, s: State, key: FlowKey, len: u32, now: u64)
    requires key in s.flows
    ensures Judged(cfg, s, key, len, now).0.temp == Policy(cfg, s, key, len, now).0.temp
  {
  }

  lemma LateBan(cfg: Config, s: State, key: FlowKey, len: u32, now: u64, room: bool)
    ensures Late(cfg, s, key, len, now, room).0.temp ==
      if Over(cfg, s, key, len, now, room) then s.temp[key.saddr := BanFrom(now)] else s.temp
  {
    var s1 := s.(pps := TB.TakePps(s.pps, now, cfg.ppsLimit).0);
    var s2 := if key in s.flows then s1 else s1.(flows := s1.flows[key := NewFlow(cfg, now)]);
    PolicyBan(cfg, s2, key, len, now);
    JudgedBan(cfg, s2, key, len, now);
    assert s2.flows[key] == if key in s.flows then s.flows[key] else NewFlow(cfg, now);
    assert RuleFor(s2, key) == RuleFor(s, key) && PortPassed(s2, key) == PortPassed(s, key) && s2.global == s.global;
  }

  /** An incoming packet changes the bans exactly when it exceeds its flow's limit, and then bans its
      own source and no other. */
  lemma BannedIffExceeds(cfg: Config, s: State, e: Event)
    requires AllStored(s.conns) && e.Xdp?
    ensures Step(cfg, s, e).temp ==
      if FrameOf(e.packet).Portless? && Exceeds(cfg, s, e, FrameOf(e.packet).key.saddr)
      then s.temp[FrameOf(e.packet).key.saddr := BanFrom(e.at)] else s.temp
  {
    ParseFrame(s, e.packet, e.at);
    if FrameOf(e.packet).Portless? {
      LateBan(cfg, AfterParse(s, e.packet, e.at), FrameOf(e.packet).key, |e.packet|, e.at, e.room);
    }
  }

  /** A ban set at `t` is in force for the five minutes that follow and at no other time. */
  ghost predicate InForceAsMeant(t: u64) {
    forall now: u64 :: Active(BanFrom(t), now) <==> t <= now < t + FIVE_MINUTES
  }

  /** It is so exactly when the end of the ban does not pass the end of the 64-bit clock. */
  lemma InForceIff(t: u64)
    ensures InForceAsMeant(t) <==> t + FIVE_MINUTES <= TWO64
  {
    if t + FIVE_MINUTES < TWO64 {
      assert BanFrom(t).end == t + FIVE_MINUTES;
    } else if t + FIVE_MINUTES == TWO64 {
      assert BanFrom(t).end == 0;
    } else {
      assert BanFrom(t).end == t + FIVE_MINUTES - TWO64;
      assert !Active(BanFrom(t), t);
    }
  }

  /** A bucket smaller than the packet. */
  const TIGHT: Config := ROOMY.(flowBurst := 20)

  /** Every first fragment exceeds it, at any time, when port 0 is allowed; so it bans its source, from then on
      if and only if the end of the ban does not pass the end of the clock. */
  lemma FragmentExceeds(ports: set<u16>, now: u64)
    requires 0 in ports
    ensures var s, e := Boot(TIGHT, ports), Xdp(Fragment(), now, true);
      && Exceeds(TIGHT, s, e, HOST_A)
      && (TempBanned(Step(TIGHT, s, e), HOST_A, now) <==> now + FIVE_MINUTES <= TWO64)
  {
    FragmentFrame();
    var s, e, key := Boot(TIGHT, ports), Xdp(Fragment(), now, true), FlowKey(HOST_A, HOST_B, 0, 0, 6);
    FullPps(now);
    assert Over(TIGHT, s, key, 34, now, true);
    BannedIffExceeds(TIGHT, s, e);
    ActiveIff(now, now);
  }

  lemma FullPps(now: u64)
    ensures TB.TakePps(TB.Bucket(1000, 0), now, 1000).1
  {
    TB.RefusedFor(TB.Bucket(1000, 0), TB.Call(now, 1), 1000, 1000, TB.Refill(Sub64(now, 0), 1000));
  }

  /** A ban in the last instant of the clock is over as soon as it is set: its source is not banned. */
  lemma LastInstantFails(ports: set<u16>)
    requires 0 in ports
    ensures var now: u64, s, e := TWO64 - 1, Boot(TIGHT, ports), Xdp(Fragment(), TWO64 - 1, true);
      && Exceeds(TIGHT, s, e, HOST_A)
      && !TempBanned(Step(TIGHT, s, e), HOST_A, now)
      && !InForceAsMeant(now)
  {
    FragmentExceeds(ports, TWO64 - 1);
    InForceIff(TWO64 - 1);
  }

  /** No event of the run from `i` on, up to `j`, replaces or removes the ban of `ip` from outside:
      user space leaves it alone and it is not evicted. */
  ghost predicate Untouched(es: seq<Event>, ip: u32, i: nat, j: nat)
    requires i <= j <= |es|
  {
    forall m :: i <= m < j ==> es[m] != EvictBan(ip) && !(es[m].SetBan? && es[m].ip == ip)
  }

  predicate BanIs(s: State, ip: u32, t: u64) { ip in s.temp && s.temp[ip] == BanFrom(t) }

  lemma BanSet(cfg: Config, s: State, e: Event, ip: u32)
    requires AllStored(s.conns) && Exceeds(cfg, s, e, ip)
    ensures BanIs(Step(cfg, s, e), ip, e.at)
  {
    BannedIffExceeds(cfg, s, e);
  }

  /** When the last event before the `j`-th that banned `ip` came; `i` is one. */
  function LastBan(cfg: Config, s0: State, es: seq<Event>, ip: u32, i: nat, j: nat): u64
    requires AllStored(s0.conns) && i < j <= |es| && es[i].Xdp?
    decreases j
  {
    if i + 1 == j then es[i].at
    else if Exceeds(cfg, StateAt(cfg, s0, es, j - 1), es[j - 1], ip) then es[j - 1].at
    else LastBan(cfg, s0, es, ip, i, j - 1)
  }

  lemma BanKept(cfg: Config, s: State, e: Event, ip: u32, t: u64)
    requires AllStored(s.conns) && BanIs(s, ip, t) && !Exceeds(cfg, s, e, ip)
    requires e != EvictBan(ip) && !(e.SetBan? && e.ip == ip)
    ensures BanIs(Step(cfg, s, e), ip, t)
  {
    if e.Xdp? {
      BannedIffExceeds(cfg, s, e);
    }
  }

  lemma BanMoves(cfg: Config, s: State, e: Event, ip: u32, t: u64)
    requires AllStored(s.conns) && BanIs(s, ip, t) && e != EvictBan(ip) && !(e.SetBan? && e.ip == ip)
    ensures BanIs(Step(cfg, s, e), ip, if Exceeds(cfg, s, e, ip) then e.at else t)
  {
    if Exceeds(cfg, s, e, ip) {
      BanSet(cfg, s, e, ip);
    } else {
      BanKept(cfg, s, e, ip, t);
    }
  }

  lemma {:induction false} BanStandsOn(cfg: Config, s0: State, es: seq<Event>, ip: u32, i: nat, j: nat, next: nat)
    requires AllStored(s0.conns) && i < j < next == j + 1 <= |es| && es[i].Xdp?
    requires BanIs(StateAt(cfg, s0, es, j), ip, LastBan(cfg, s0, es, ip, i, j))
    requires es[j] != EvictBan(ip) && !(es[j].SetBan? && es[j].ip == ip)
    ensures BanIs(StateAt(cfg, s0, es, next), ip, LastBan(cfg, s0, es, ip, i, next))
  {
    BanMoves(cfg, StateAt(cfg, s0, es, j), es[j], ip, LastBan(cfg, s0, es, ip, i, j));
  }

  /** The ban stands at `j` as the last banning packet left it. */
  lemma {:induction false} BanStands(cfg: Config, s0: State, es: seq<Event>, ip: u32, i: nat, j: nat)
    requires AllStored(s0.conns) && i < j <= |es|
    requires Exceeds(cfg, StateAt(cfg, s0, es, i), es[i], ip)
    requires Untouched(es, ip, i + 1, j)
    ensures BanIs(StateAt(cfg, s0, es, j), ip, LastBan(cfg, s0, es, ip, i, j))
    decreases j
  {
    if i + 1 == j {
      BanSet(cfg, StateAt(cfg, s0, es, i), es[i], ip);
    } else {
      var last := j - 1;
      BanStands(cfg, s0, es, ip, i, last);
      BanStandsOn(cfg, s0, es, ip, i, last, j);
    }
  }

  lemma {:induction false} LastBanBetween(cfg: Config, s0: State, es: seq<Event>, ip: u32, i: nat, j: nat, to: u64)
    requires AllStored(s0.conns) && i < j <= |es| && es[i].Xdp?
    requires es[i].at <= to && PacketsClocked(es, i + 1, j, es[i].at, to)
    ensures es[i].at <= LastBan(cfg, s0, es, ip, i, j) <= to
    decreases j
  {
    if i + 1 < j {
      LastBanBetween(cfg, s0, es, ip, i, j - 1, to);
    }
  }

  /** Within five minutes of a ban the source is banned, if and only if the end of the last ban before does
      not pass the end of the 64-bit clock. */
  lemma BannedIff(cfg: Config, s0: State, es: seq<Event>, ip: u32, i: nat, j: nat, now: u64)
    requires AllStored(s0.conns) && i < j <= |es|
    requires Exceeds(cfg, StateAt(cfg, s0, es, i), es[i], ip)
    requires es[i].at <= now < es[i].at + FIVE_MINUTES
    requires Untouched(es, ip, i + 1, j) && PacketsClocked(es, i + 1, j, es[i].at, now)
    ensures TempBanned(StateAt(cfg, s0, es, j), ip, now) <==> LastBan(cfg, s0, es, ip, i, j) + FIVE_MINUTES <= TWO64
  {
    BanStands(cfg, s0, es, ip, i, j);
    LastBanBetween(cfg, s0, es, ip, i, j, now);
    ActiveIff(LastBan(cfg, s0, es, ip, i, j), now);
  }

  lemma ActiveIff(t: u64, now: u64)
    requires t <= now < t + FIVE_MINUTES
    ensures Active(BanFrom(t), now) <==> t + FIVE_MINUTES <= TWO64
  {
    if t + FIVE_MINUTES > TWO64 {
      assert BanFrom(t).end == t + FIVE_MINUTES - TWO64;
    } else {
      InForceIff(t);
    }
  }

  /** Once banned, every TCP or UDP packet of the source is dropped for five minutes, renewals or not. */
  lemma BannedIsDropped(cfg: Config, s0: State, es: seq<Event>, ip: u32, i: nat, j: nat, p: Packet, now: u64,
                        room: bool)
    requires AllStored(s0.conns) && i < j <= |es|
    requires Exceeds(cfg, StateAt(cfg, s0, es, i), es[i], ip)
    requires FrameOf(p).Transport? && FrameOf(p).key.saddr == ip
    requires es[i].at <= now < es[i].at + FIVE_MINUTES && LastBan(cfg, s0, es, ip, i, j) + FIVE_MINUTES <= TWO64
    requires Untouched(es, ip, i + 1, j) && PacketsClocked(es, i + 1, j, es[i].at, now)
    ensures XdpStep(cfg, StateAt(cfg, s0, es, j), p, now, room).1 == XDP_DROP
  {
    BannedIff(cfg, s0, es, ip, i, j, now);
  }

  /** No event from `i` on, up to `j`, bans the source again. */
  ghost predicate Unrenewed(cfg: Config, s0: State, es: seq<Event>, ip: u32, i: nat, j: nat)
    requires AllStored(s0.conns) && i <= j <= |es|
    decreases j
  {
    i < j ==> !Exceeds(cfg, StateAt(cfg, s0, es, j - 1), es[j - 1], ip) && Unrenewed(cfg, s0, es, ip, i, j - 1)
  }

  /** When no later packet renews the ban, it decides nothing from its end on: what is then let in
      is what would be let in without it. */
  lemma {:induction false} BanEnds(cfg: Config, s0: State, es: seq<Event>, ip: u32, i: nat, j: nat)
    requires AllStored(s0.conns) && i < j < |es|
    requires Exceeds(cfg, StateAt(cfg, s0, es, i), es[i], ip)
    requires es[j].Xdp? && FrameOf(es[j].packet).Transport? && FrameOf(es[j].packet).key.saddr == ip
    requires es[i].at + FIVE_MINUTES <= es[j].at
    requires Untouched(es, ip, i + 1, j)
    requires Unrenewed(cfg, s0, es, ip, i + 1, j)
    ensures var s, e := StateAt(cfg, s0, es, j), es[j];
      XdpStep(cfg, s, e.packet, e.at, e.room).1 == XdpStep(cfg, s.(temp := s.temp - {ip}), e.packet, e.at, e.room).1
  {
    BanStands(cfg, s0, es, ip, i, j);
    UnrenewedIsLast(cfg, s0, es, ip, i, j);
    InForceIff(es[i].at);
  }

  lemma {:induction false} UnrenewedIsLast(cfg: Config, s0: State, es: seq<Event>, ip: u32, i: nat, j: nat)
    requires AllStored(s0.conns) && i < j <= |es| && es[i].Xdp? && Unrenewed(cfg, s0, es, ip, i + 1, j)
    ensures LastBan(cfg, s0, es, ip, i, j) == es[i].at
    decreases j
  {
    if i + 1 < j {
      UnrenewedIsLast(cfg, s0, es, ip, i, j - 1);
    }
  }

  // ----- the permanent list -----

  /** User space has blocked `ip` and not unblocked it since. */
  predicate Listed(es: seq<Event>, ip: u32, j: nat)
    requires j <= |es|
    decreases j
  {
    j > 0 && (es[j - 1] == Block(ip) || (es[j - 1] != Unblock(ip) && Listed(es, ip, j - 1)))
  }

  lemma ListStep(cfg: Config, s: State, e: Event, ip: u32)
    requires AllStored(s.conns)
    ensures ip in Step(cfg, s, e).perm <==> e == Block(ip) || (ip in s.perm && e != Unblock(ip))
  {
    if e.Xdp? {
      XdpFrame(cfg, s, e.packet, e.at, e.room);
    }
  }

  /** The list XDP looks in is the one user space keeps. */
  lemma {:induction false} ListedIff(cfg: Config, s0: State, es: seq<Event>, ip: u32, j: nat)
    requires AllStored(s0.conns) && s0.perm == {} && j <= |es|
    ensures ip in StateAt(cfg, s0, es, j).perm <==> Listed(es, ip, j)
    decreases j
  {
    if j > 0 {
      var last := j - 1;
      ListedIff(cfg, s0, es, ip, last);
      ListStep(cfg, StateAt(cfg, s0, es, last), es[last], ip);
    }
  }

  /** While it blocks a source, every TCP and UDP packet of it is dropped. */
  lemma {:induction false} ListedIsDropped(cfg: Config, s0: State, es: seq<Event>, ip: u32, j: nat, p: Packet, now: u64,
                                           room: bool)
    requires AllStored(s0.conns) && s0.perm == {} && j <= |es| && Listed(es, ip, j)
    requires FrameOf(p).Transport? && FrameOf(p).key.saddr == ip
    ensures XdpStep(cfg, StateAt(cfg, s0, es, j), p, now, room).1 == XDP_DROP
  {
    ListedIff(cfg, s0, es, ip, j);
  }
}
