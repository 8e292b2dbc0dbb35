/** The life of one conntrack entry over whole runs: how its class moves, how often its packets are
    sent to the ring buffer, and which answers XDP lets in because of it. */
module ConntrackRuns {
  import opened Machine
  import opened StatusCode
  import opened Headers
  import opened Firewall
  import opened FirewallRuns
  import D = DpiState

  /** The class of a flow; a flow without an entry counts as unknown. */
  function ClassOf(conns: map<FlowKey, Conn>, k: FlowKey): D.Class
    requires AllStored(conns)
  {
    if k in conns then D.Decode(conns[k].dpi) else D.Unknown
  }

  /** The event sends a packet of flow `k` to the ring buffer. */
  predicate Submits(s: State, e: Event, k: FlowKey)
    requires AllStored(s.conns)
  {
    Opens(e, k) && TcStep(s, e.skb, e.protocol, e.sent, e.reserve).1
  }

  /** How a class may move in one step. */
  predicate Moves(before: D.Class, after: D.Class, submitted: bool) {
    match before
    case Unknown => after in {D.Unknown, D.Ignore, D.Blocklisted, D.Pending(1)} && (submitted ==> after == D.Pending(1))
    case Pending(n) =>
      if submitted then n < 5 && after == D.Pending(n + 1) else after == before || (n == 5 && after == D.Done)
    case _ => after == before && !submitted
  }

  lemma EgressMoves(existing: Option<Conn>, dstBlocked: bool, sight: Sight, now: u64, reserve: bool)
    requires existing.Some? ==> D.Stored(existing.value.dpi)
    ensures var (conn, submitted) := Egress(existing, dstBlocked, sight, now, reserve);
      && D.Stored(conn.dpi)
      && Moves(if existing.Some? then D.Decode(existing.value.dpi) else D.Unknown, D.Decode(conn.dpi), submitted)
  {
  }

  lemma TcMoves(s: State, skb: seq<u8>, protocol: u16, now: u64, reserve: bool, k: FlowKey)
    requires AllStored(s.conns)
    ensures var (t, submitted) := TcStep(s, skb, protocol, now, reserve);
      && AllStored(t.conns)
      && Moves(ClassOf(s.conns, k), ClassOf(t.conns, k),
               Sees(skb, protocol).Some? && Sees(skb, protocol).value.key == k && submitted)
  {
    TcStores(s, skb, protocol, now, reserve);
    var sight := Sees(skb, protocol);
    if sight.Some? && sight.value.key == k {
      EgressMoves(Lookup(s.conns, k), k.daddr in s.tcPerm, sight.value, now, reserve);
    }
  }

  lemma StepMoves(cfg: Config, s: State, e: Event, k: FlowKey)
    requires AllStored(s.conns) && e != EvictConn(k)
    ensures Moves(ClassOf(s.conns, k), ClassOf(Step(cfg, s, e).conns, k), Submits(s, e, k))
  {
    if e.Tc? {
      TcMoves(s, e.skb, e.protocol, e.sent, e.reserve, k);
    } else if e.Xdp? {
      XdpKeepsClasses(cfg, s, e.packet, e.at, e.room);
    }
  }

  /** Submissions of flow `k` in the first `j` events, counted from its last eviction. */
  function Submissions(cfg: Config, s0: State, es: seq<Event>, k: FlowKey, j: nat): nat
    requires AllStored(s0.conns) && j <= |es|
  {
    if j == 0 || es[j - 1] == EvictConn(k) then 0
    else Submissions(cfg, s0, es, k, j - 1) + if Submits(StateAt(cfg, s0, es, j - 1), es[j - 1], k) then 1 else 0
  }

  function Attempts(c: D.Class): nat {
    match c
    case Pending(n) => n
    case Done => 5
    case _ => 0
  }

  /** What is left of a flow's budget of inspections. */
  function Rank(c: D.Class): int {
    match c
    case Unknown => 5
    case Pending(n) => 5 - n
    case _ => 0
  }

  /** The budget never grows, and every submission uses some of it up. */
  lemma RankDecreases(before: D.Class, after: D.Class, submitted: bool)
    requires Moves(before, after, submitted) && 0 <= Rank(before)
    ensures 0 <= Rank(after) <= Rank(before)
    ensures submitted ==> Rank(after) < Rank(before)
  {
  }

  /** Every submission is counted in the byte, which counts no further than five. */
  lemma AttemptsCount(before: D.Class, after: D.Class, submitted: bool)
    requires Moves(before, after, submitted) && Attempts(before) <= 5
    ensures Attempts(before) + (if submitted then 1 else 0) <= Attempts(after) <= 5
  {
  }

  /** Submissions never exceed the attempts the entry's byte has counted, nor five. */
  lemma {:induction false} SubmissionsBounded(cfg: Config, s0: State, es: seq<Event>, k: FlowKey, j: nat)
    requires s0.conns == map[] && j <= |es|
    ensures var c := ClassOf(StateAt(cfg, s0, es, j).conns, k);
      Submissions(cfg, s0, es, k, j) <= Attempts(c) <= 5
  {
    if j > 0 {
      SubmissionsBounded(cfg, s0, es, k, j - 1);
      var s, e := StateAt(cfg, s0, es, j - 1), es[j - 1];
      if e != EvictConn(k) {
        StepMoves(cfg, s, e, k);
        AttemptsCount(ClassOf(s.conns, k), ClassOf(Step(cfg, s, e).conns, k), Submits(s, e, k));
      }
    }
  }

  /** What a flow has used of its budget and what is left of it. */
  function Spent(cfg: Config, s0: State, es: seq<Event>, k: FlowKey, j: nat): int
    requires AllStored(s0.conns) && j <= |es|
  {
    Submissions(cfg, s0, es, k, j) + Rank(ClassOf(StateAt(cfg, s0, es, j).conns, k))
  }

  lemma {:induction false} StepSpends(cfg: Config, s0: State, es: seq<Event>, k: FlowKey, j: nat)
    requires AllStored(s0.conns) && j < |es| && es[j] != EvictConn(k)
    ensures Spent(cfg, s0, es, k, j + 1) <= Spent(cfg, s0, es, k, j)
  {
    var s, e := StateAt(cfg, s0, es, j), es[j];
    StepMoves(cfg, s, e, k);
    RankDecreases(ClassOf(s.conns, k), ClassOf(Step(cfg, s, e).conns, k), Submits(s, e, k));
  }

  /** From any state on, each further submission costs one unit of the budget. */
  lemma {:induction false} SubmissionsCost(cfg: Config, s0: State, es: seq<Event>, k: FlowKey, i: nat, j: nat)
    requires AllStored(s0.conns) && i <= j <= |es|
    requires forall m :: i <= m < j ==> es[m] != EvictConn(k)
    ensures Spent(cfg, s0, es, k, j) <= Spent(cfg, s0, es, k, i)
  {
    var spent := seq(|es| + 1, m requires 0 <= m <= |es| => Spent(cfg, s0, es, k, m));
    forall m | i <= m < j ensures spent[m + 1] <= spent[m] {
      StepSpends(cfg, s0, es, k, m);
    }
    Descends(spent, i, j);
  }

  lemma {:induction false} Descends(xs: seq<int>, i: nat, j: nat)
    requires i <= j < |xs| && forall m :: i <= m < j ==> xs[m + 1] <= xs[m]
    ensures xs[j] <= xs[i]
    decreases j
  {
    if i < j {
      assert xs[j - 1 + 1] <= xs[j - 1];
      Descends(xs, i, j - 1);
    }
  }

  predicate Settled(c: D.Class) { c.Ignore? || c.Blocklisted? || c.Done? }

  lemma SettledStep(cfg: Config, s: State, e: Event, k: FlowKey)
    requires AllStored(s.conns) && e != EvictConn(k) && Settled(ClassOf(s.conns, k))
    ensures ClassOf(Step(cfg, s, e).conns, k) == ClassOf(s.conns, k) && !Submits(s, e, k)
  {
    StepMoves(cfg, s, e, k);
  }

  ghost predicate SettledAt(cfg: Config, s0: State, es: seq<Event>, k: FlowKey, j: nat, c: D.Class, submissions: nat)
    requires AllStored(s0.conns) && j <= |es|
  {
    ClassOf(StateAt(cfg, s0, es, j).conns, k) == c && Submissions(cfg, s0, es, k, j) == submissions
  }

  lemma {:induction false} SettledOn(cfg: Config, s0: State, es: seq<Event>, k: FlowKey, j: nat, next: nat, c: D.Class,
                                     submissions: nat)
    requires AllStored(s0.conns) && j < next == j + 1 <= |es| && es[j] != EvictConn(k) && Settled(c)
    requires SettledAt(cfg, s0, es, k, j, c, submissions)
    ensures SettledAt(cfg, s0, es, k, next, c, submissions)
  {
    SettledStep(cfg, StateAt(cfg, s0, es, j), es[j], k);
  }

  lemma {:induction false} SettledRun(cfg: Config, s0: State, es: seq<Event>, k: FlowKey, i: nat, j: nat, c: D.Class,
                                      submissions: nat)
    requires AllStored(s0.conns) && i <= j <= |es| && Settled(c)
    requires forall m :: i <= m < j ==> es[m] != EvictConn(k)
    requires SettledAt(cfg, s0, es, k, i, c, submissions)
    ensures SettledAt(cfg, s0, es, k, j, c, submissions)
    decreases j
  {
    if i < j {
      var last := j - 1;
      SettledRun(cfg, s0, es, k, i, last, c, submissions);
      SettledOn(cfg, s0, es, k, last, j, c, submissions);
    }
  }

  /** A settled class stays until eviction, and nothing more of the flow is submitted. */
  lemma {:induction false} SettledStays(cfg: Config, s0: State, es: seq<Event>, k: FlowKey, i: nat, j: nat)
    requires AllStored(s0.conns) && i <= j <= |es|
    requires forall m :: i <= m < j ==> es[m] != EvictConn(k)
    requires Settled(ClassOf(StateAt(cfg, s0, es, i).conns, k))
    ensures ClassOf(StateAt(cfg, s0, es, j).conns, k) == ClassOf(StateAt(cfg, s0, es, i).conns, k)
    ensures Submissions(cfg, s0, es, k, j) == Submissions(cfg, s0, es, k, i)
  {
    SettledRun(cfg, s0, es, k, i, j, ClassOf(StateAt(cfg, s0, es, i).conns, k), Submissions(cfg, s0, es, k, i));
  }

  // ----- the decision on TCP and UDP -----

  /** The IPv4 header announces an unfragmented TCP or UDP packet. */
  predicate Announces(p: seq<u8>) {
    && Link(p).Some? && Link(p).value.1 == ETH_P_IP
    && var l3 := Link(p).value.0;
    HasIpv4(p, l3) && !IsFragment(p, l3) && (p[l3 + 9] == IPPROTO_TCP || p[l3 + 9] == IPPROTO_UDP)
  }

  /** The transport header is complete. */
  predicate Complete(p: seq<u8>)
    requires Announces(p)
  {
    var l3 := Link(p).value.0;
    if p[l3 + 9] == IPPROTO_TCP then HasTcp(p, L4(p, l3)) else HasUdp(p, L4(p, l3))
  }

  function KeyAt(p: seq<u8>): FlowKey
    requires Announces(p) && Complete(p)
  {
    var l3 := Link(p).value.0;
    var l4 := L4(p, l3);
    FlowKey(Be32(p, l3 + 12), Be32(p, l3 + 16), Be16(p, l4), Be16(p, l4 + 2), p[l3 + 9])
  }

  /** The whole pipeline as one decision: the headers are there, no list in force names the source,
      and the mirrored flow has an entry that is not blocklisted. */
  ghost predicate Decision(s: State, p: seq<u8>, now: u64)
    requires AllStored(s.conns) && Announces(p)
  {
    && Complete(p)
    && var key := KeyAt(p);
    && key.saddr !in s.perm
    && (key.saddr in s.temp ==> var b := s.temp[key.saddr]; now < b.start || (b.end != 0 && b.end <= now))
    && Mirror(key) in s.conns
    && ClassOf(s.conns, Mirror(key)) != D.Blocklisted
  }

  lemma PassIffDecision(cfg: Config, s: State, p: Packet, now: u64, room: bool)
    requires AllStored(s.conns) && Announces(p)
    ensures XdpStep(cfg, s, p, now, room).1 == XDP_PASS <==> Decision(s, p, now)
    ensures FrameOf(p).Transport? <==> Complete(p)
    ensures Complete(p) ==> FrameOf(p).key == KeyAt(p)
  {
    if Complete(p) {
      assert FrameOf(p) == Transport(KeyAt(p));
      var rev := Mirror(KeyAt(p));
      if rev in s.conns {
        assert D.Stored(s.conns[rev].dpi);
      }
    }
  }

  /** TC and XDP read the same five-tuple from the same bytes: on an untagged frame with version 4, what
      XDP takes for a TCP or UDP packet TC sees with the same key, and what TC sees is that packet for
      XDP, unless it is a fragment or its transport header is cut off. */
  lemma ParsersAgree(p: seq<u8>)
    requires |p| >= 14 && Be16(p, 12) == ETH_P_IP && (|p| >= 15 ==> p[14] / 16 == 4)
    ensures FrameOf(p).Transport? ==> Sees(p, ETH_P_IP).Some? && Sees(p, ETH_P_IP).value.key == FrameOf(p).key
    ensures Sees(p, ETH_P_IP).Some? && Announces(p) && Complete(p) ==>
              FrameOf(p) == Transport(Sees(p, ETH_P_IP).value.key)
    ensures Sees(p, ETH_P_IP).Some? && !Announces(p) ==> FrameOf(p).Portless? || FrameOf(p) == BadNetwork
  {
    assert Link(p) == Some((14, ETH_P_IP));
  }

  // ----- answers -----

  /** TC's own blocklist never changes: user space fills XDP's. */
  lemma {:induction false} TcListFixed(cfg: Config, s0: State, es: seq<Event>, j: nat)
    requires AllStored(s0.conns) && j <= |es|
    ensures StateAt(cfg, s0, es, j).tcPerm == s0.tcPerm
    decreases j
  {
    if j > 0 {
      TcListFixed(cfg, s0, es, j - 1);
      StepKeepsTcList(cfg, StateAt(cfg, s0, es, j - 1), es[j - 1]);
    }
  }

  lemma StepKeepsTcList(cfg: Config, s: State, e: Event)
    requires AllStored(s.conns)
    ensures Step(cfg, s, e).tcPerm == s.tcPerm
  {
    if e.Xdp? {
      XdpFrame(cfg, s, e.packet, e.at, e.room);
    }
  }

  lemma UnlistedEgress(existing: Option<Conn>, sight: Sight, now: u64, reserve: bool)
    requires existing.Some? ==> D.Stored(existing.value.dpi) && D.Decode(existing.value.dpi) != D.Blocklisted
    ensures D.Stored(Egress(existing, false, sight, now, reserve).0.dpi)
    ensures D.Decode(Egress(existing, false, sight, now, reserve).0.dpi) != D.Blocklisted
  {
  }

  lemma UnlistedStep(cfg: Config, s: State, e: Event, k: FlowKey)
    requires AllStored(s.conns) && k.daddr !in s.tcPerm && ClassOf(s.conns, k) != D.Blocklisted
    ensures ClassOf(Step(cfg, s, e).conns, k) != D.Blocklisted
  {
    if e.Tc? {
      if Opens(e, k) {
        UnlistedEgress(Lookup(s.conns, k), Sees(e.skb, e.protocol).value, e.sent, e.reserve);
      }
    } else if e.Xdp? {
      XdpKeepsClasses(cfg, s, e.packet, e.at, e.room);
    }
  }

  /** A flow whose destination is not on TC's own list is never classified as blocklisted. */
  lemma {:induction false} NeverBlocklisted(cfg: Config, s0: State, es: seq<Event>, k: FlowKey, j: nat)
    requires s0.conns == map[] && k.daddr !in s0.tcPerm && j <= |es|
    ensures ClassOf(StateAt(cfg, s0, es, j).conns, k) != D.Blocklisted
    decreases j
  {
    if j > 0 {
      NeverBlocklisted(cfg, s0, es, k, j - 1);
      TcListFixed(cfg, s0, es, j - 1);
      UnlistedStep(cfg, StateAt(cfg, s0, es, j - 1), es[j - 1], k);
    }
  }

  /** As shipped, TC's list is empty: no entry of any run is ever blocklisted, and what XDP lets in it lets
      in on account of its own lists and the existence of the entry alone. */
  lemma AsShipped(cfg: Config, ports: set<u16>, es: seq<Event>, j: nat, p: Packet, now: u64, room: bool)
    requires j <= |es| && FrameOf(p).Transport?
    ensures var s, key := StateAt(cfg, Boot(cfg, ports), es, j), FrameOf(p).key;
      XdpStep(cfg, s, p, now, room).1 == XDP_PASS <==>
      key.saddr !in s.perm && !TempBanned(s, key.saddr, now) && Mirror(key) in s.conns
  {
    var s, key := StateAt(cfg, Boot(cfg, ports), es, j), FrameOf(p).key;
    NeverBlocklisted(cfg, Boot(cfg, ports), es, Mirror(key), j);
    assert Mirror(key) in s.conns ==> D.Stored(s.conns[Mirror(key)].dpi);
  }

  lemma OpenStep(cfg: Config, s: State, e: Event, k: FlowKey)
    requires AllStored(s.conns) && e != EvictConn(k) && (k in s.conns || Opens(e, k))
    ensures k in Step(cfg, s, e).conns
  {
    if e.Xdp? {
      XdpKeepsClasses(cfg, s, e.packet, e.at, e.room);
    }
  }

  lemma {:induction false} OpenedStays(cfg: Config, s0: State, es: seq<Event>, k: FlowKey, i: nat, j: nat)
    requires AllStored(s0.conns) && i < j <= |es| && Opens(es[i], k)
    requires forall m :: i <= m < j ==> es[m] != EvictConn(k)
    ensures k in StateAt(cfg, s0, es, j).conns
    decreases j
  {
    if i + 1 < j {
      OpenedStays(cfg, s0, es, k, i, j - 1);
    }
    OpenStep(cfg, StateAt(cfg, s0, es, j - 1), es[j - 1], k);
  }

  /** After a packet of flow `k` went out to a host not on TC's own list, its answers are let in, whatever
      happened in between short of an eviction, exactly when no list of XDP's names that host. */
  lemma AnswersPass(cfg: Config, s0: State, es: seq<Event>, k: FlowKey, i: nat, j: nat)
    requires s0.conns == map[] && k.daddr !in s0.tcPerm && i < j < |es|
    requires Opens(es[i], k) && forall m :: i <= m < j ==> es[m] != EvictConn(k)
    requires es[j].Xdp? && FrameOf(es[j].packet) == Transport(Mirror(k))
    ensures var s := StateAt(cfg, s0, es, j);
      Passes(cfg, s0, es, j) <==> k.daddr !in s.perm && !TempBanned(s, k.daddr, es[j].at)
  {
    OpenedStays(cfg, s0, es, k, i, j);
    NeverBlocklisted(cfg, s0, es, k, j);
    var s := StateAt(cfg, s0, es, j);
    assert Mirror(Mirror(k)) == k;
    assert D.Stored(s.conns[k].dpi);
  }
}
