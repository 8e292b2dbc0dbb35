/** What TC inspects, told on the bytes of outgoing packets and of conntrack entries: how a packet is read, what
    becomes of the entry, what goes to the ring buffer, and how often over a whole run. */
module InspectionRuns {
  import opened Machine
  import opened Headers
  import opened Firewall
  import opened FirewallRuns
  import opened ConntrackRuns
  import D = DpiState

  // ----- packets -----

  /** Where the transport header of an untagged IPv4 packet starts. */
  function TransportAt(skb: seq<u8>): nat
    requires |skb| > 14 && skb[14] >= 0x45
  {
    14 + 4 * (skb[14] as int - 0x40)
  }

  /** The bytes are those of an IPv4 packet of flow `k`, TCP or UDP, as far as its ports. */
  predicate FlowIs(skb: seq<u8>, protocol: u16, k: FlowKey) {
    && protocol == 0x0800 && |skb| >= 34 && 0x45 <= skb[14] <= 0x4F
    && (skb[23] == 6 || skb[23] == 17)
    && var l4 := TransportAt(skb);
    && |skb| >= l4 + 4
    && k == FlowKey(Be32(skb, 26), Be32(skb, 30), Be16(skb, l4), Be16(skb, l4 + 2), skb[23])
  }

  /** There is a byte where TCP puts its data offset, and the packet goes on behind what it says. */
  predicate HasPayload(skb: seq<u8>)
    requires |skb| > 14 && skb[14] >= 0x45
  {
    var l4 := TransportAt(skb);
    |skb| > l4 + 12 && |skb| > l4 + 4 * (skb[l4 + 12] / 16)
  }

  /** What stands there opens a TLS record with a ClientHello. */
  predicate HelloIs(skb: seq<u8>)
    requires |skb| > 14 && skb[14] >= 0x45
  {
    var l4 := TransportAt(skb);
    |skb| > l4 + 12 &&
    var l7 := l4 + 4 * (skb[l4 + 12] / 16);
    |skb| >= l7 + 6 && skb[l7] == 0x16 && skb[l7 + 1] == 0x03 && skb[l7 + 5] == 0x01
  }

  lemma FlowIsSeen(skb: seq<u8>, protocol: u16, k: FlowKey)
    ensures FlowIs(skb, protocol, k) <==> Sees(skb, protocol).Some? && Sees(skb, protocol).value.key == k
    ensures FlowIs(skb, protocol, k) ==>
      Sees(skb, protocol).value == Sight(k, HasPayload(skb), k.proto == 6 && HelloIs(skb))
  {
  }

  /** A packet of no flow leaves everything alone. */
  lemma NoFlow(s: State, skb: seq<u8>, protocol: u16, now: u64, reserve: bool)
    requires AllStored(s.conns) && forall k :: !FlowIs(skb, protocol, k)
    ensures TcStep(s, skb, protocol, now, reserve) == (s, false) && TcEvent(s, skb, protocol, now, reserve).None?
  {
    if Sees(skb, protocol).Some? {
      FlowIsSeen(skb, protocol, Sees(skb, protocol).value.key);
    }
  }

  // ----- entries -----

  /** A flow without a lasting class: no entry, or one that says nothing. */
  predicate Fresh(s: State, k: FlowKey) { k in s.conns ==> s.conns[k].dpi == 0x00 }

  /** What is then written: 0x02 for a host on TC's list, 0x13 for a ClientHello to a web port, 0x00 for another TCP
      packet to one, and 0x01 for everything else. */
  function FirstByteOf(s: State, skb: seq<u8>, k: FlowKey): bv8
    requires |skb| > 14 && skb[14] >= 0x45
  {
    if k.daddr in s.tcPerm then 0x02
    else if k.proto == 6 && (k.dport == 443 || k.dport == 80) then if HelloIs(skb) then 0x13 else 0x00
    else 0x01
  }

  /** The first class of a flow: nothing else changes, and an event goes out for a ClientHello exactly when the
      ring buffer has room. */
  lemma FreshFlow(s: State, skb: seq<u8>, protocol: u16, now: u64, reserve: bool, k: FlowKey)
    requires AllStored(s.conns) && FlowIs(skb, protocol, k) && Fresh(s, k)
    ensures var b := FirstByteOf(s, skb, k);
      && TcStep(s, skb, protocol, now, reserve).0 ==
         s.(conns := s.conns[k := Conn(now, b, if b == 0x13 then 1 else 0)])
      && (TcEvent(s, skb, protocol, now, reserve).Some? <==> b == 0x13 && reserve)
      && (TcStep(s, skb, protocol, now, reserve).1 <==> b == 0x13 && reserve)
  {
    FlowIsSeen(skb, protocol, k);
  }

  /** A flow whose hello is being collected: with payload and room the packet goes out and is counted, without it
      is passed over; after the fifth the next packet only closes the flow. */
  lemma PendingFlow(s: State, skb: seq<u8>, protocol: u16, now: u64, reserve: bool, k: FlowKey)
    requires AllStored(s.conns) && FlowIs(skb, protocol, k)
    requires k in s.conns && s.conns[k].dpi in {0x13, 0x23, 0x33, 0x43, 0x53}
    ensures var b, goes := s.conns[k].dpi, s.conns[k].dpi != 0x53 && HasPayload(skb) && reserve;
      && TcStep(s, skb, protocol, now, reserve).0 ==
         s.(conns := s.conns[k := s.conns[k].(
           lastSeen := now,
           dpi := if b == 0x53 then 0x54
                  else if !goes then b
                  else if b == 0x13 then 0x23 else if b == 0x23 then 0x33 else if b == 0x33 then 0x43
                  else 0x53)])
      && (TcEvent(s, skb, protocol, now, reserve).Some? <==> goes)
      && (TcStep(s, skb, protocol, now, reserve).1 <==> goes)
  {
    FlowIsSeen(skb, protocol, k);
  }

  /** A flow with a lasting class is only noted. */
  lemma SettledFlow(s: State, skb: seq<u8>, protocol: u16, now: u64, reserve: bool, k: FlowKey)
    requires AllStored(s.conns) && FlowIs(skb, protocol, k)
    requires k in s.conns && s.conns[k].dpi in {0x01, 0x02, 0x54}
    ensures TcStep(s, skb, protocol, now, reserve) ==
      (s.(conns := s.conns[k := s.conns[k].(lastSeen := now)]), false)
    ensures TcEvent(s, skb, protocol, now, reserve).None?
  {
    FlowIsSeen(skb, protocol, k);
  }

  // ----- events -----

  /** The event holds the packet from layer 3 on, up to 2000 bytes, with its time and its own five-tuple, which
      can be read again from what is held; the direction is set on all but the first. */
  lemma EventIs(s: State, skb: seq<u8>, protocol: u16, now: u64, reserve: bool, k: FlowKey)
    requires AllStored(s.conns) && FlowIs(skb, protocol, k) && TcEvent(s, skb, protocol, now, reserve).Some?
    ensures var e := TcEvent(s, skb, protocol, now, reserve).value;
      && e.packet == skb[14..Min(|skb|, 2014)]
      && (e.srcIp, e.dstIp, e.srcPort, e.dstPort, e.proto, e.timestamp)
         == (k.saddr, k.daddr, k.sport, k.dport, k.proto, now)
      && FlowIs(skb[..14] + e.packet, protocol, k)
      && e.direction == (if Fresh(s, k) then None else Some(1))
  {
    FlowIsSeen(skb, protocol, k);
    FlowInFront(skb, protocol, k, Min(|skb|, 2014));
  }

  lemma FlowInFront(skb: seq<u8>, protocol: u16, k: FlowKey, n: nat)
    requires FlowIs(skb, protocol, k) && n <= |skb| && (n == |skb| || n >= 78)
    ensures n >= 14 && FlowIs(skb[..14] + skb[14..n], protocol, k)
  {
    assert skb[..14] + skb[14..n] == skb[..n];
  }

  // ----- whole runs -----

  /** The event could be submitted: a packet of the flow with payload, and room in the ring buffer. */
  predicate Eligible(e: Event, k: FlowKey) {
    e.Tc? && FlowIs(e.skb, e.protocol, k) && HasPayload(e.skb) && e.reserve
  }

  function EligibleIn(es: seq<Event>, k: FlowKey, i: nat, j: nat): nat
    requires i <= j <= |es|
    decreases j
  {
    if i == j then 0 else EligibleIn(es, k, i, j - 1) + if Eligible(es[j - 1], k) then 1 else 0
  }

  /** The class of a pending flow after `n` attempts and `more` eligible packets. */
  predicate Collecting(c: D.Class, n: nat, more: nat) {
    if n + more < 5 then c == D.Pending(n + more) else c == D.Pending(5) || c == D.Done
  }

  lemma TcCollects(s: State, skb: seq<u8>, protocol: u16, now: u64, reserve: bool, k: FlowKey, n: nat, more: nat)
    requires AllStored(s.conns) && 1 <= n <= 5 && Collecting(ClassOf(s.conns, k), n, more)
    ensures var (t, goes), eligible := TcStep(s, skb, protocol, now, reserve),
                                       FlowIs(skb, protocol, k) && HasPayload(skb) && reserve;
      && AllStored(t.conns)
      && Collecting(ClassOf(t.conns, k), n, more + if eligible then 1 else 0)
      && (FlowIs(skb, protocol, k) ==> (goes <==> eligible && n + more < 5))
  {
    TcStores(s, skb, protocol, now, reserve);
    FlowIsSeen(skb, protocol, k);
  }

  lemma CollectingStep(cfg: Config, s: State, e: Event, k: FlowKey, n: nat, more: nat)
    requires AllStored(s.conns) && e != EvictConn(k) && 1 <= n <= 5 && Collecting(ClassOf(s.conns, k), n, more)
    ensures var more' := more + if Eligible(e, k) then 1 else 0;
      && Collecting(ClassOf(Step(cfg, s, e).conns, k), n, more')
      && (Submits(s, e, k) <==> Eligible(e, k) && n + more < 5)
  {
    if e.Tc? {
      FlowIsSeen(e.skb, e.protocol, k);
      TcCollects(s, e.skb, e.protocol, e.sent, e.reserve, k, n, more);
    } else if e.Xdp? {
      XdpKeepsClasses(cfg, s, e.packet, e.at, e.room);
    }
  }

  /** So many submissions and this class, after `n` attempts and `more` eligible packets. */
  predicate Progress(c: D.Class, submissions: nat, n: nat, more: nat, start: nat) {
    Collecting(c, n, more) && submissions == start + Min(5 - n, more)
  }

  /** The progress at `j` of a flow that had `n` attempts at `i`. */
  ghost predicate ProgressAt(cfg: Config, s0: State, es: seq<Event>, k: FlowKey, i: nat, j: nat, n: nat, start: nat)
    requires AllStored(s0.conns) && i <= j <= |es|
  {
    Progress(ClassOf(StateAt(cfg, s0, es, j).conns, k), Submissions(cfg, s0, es, k, j), n, EligibleIn(es, k, i, j),
             start)
  }

  lemma {:induction false} ProgressStep(cfg: Config, s0: State, es: seq<Event>, k: FlowKey, i: nat, j: nat, next: nat,
                                        n: nat, start: nat)
    requires AllStored(s0.conns) && i <= j < next == j + 1 <= |es| && es[j] != EvictConn(k)
    requires 1 <= n <= 5 && ProgressAt(cfg, s0, es, k, i, j, n, start)
    ensures ProgressAt(cfg, s0, es, k, i, next, n, start)
  {
    CollectingStep(cfg, StateAt(cfg, s0, es, j), es[j], k, n, EligibleIn(es, k, i, j));
    SubmissionsNext(cfg, s0, es, k, j, next);
  }

  lemma {:induction false} SubmissionsNext(cfg: Config, s0: State, es: seq<Event>, k: FlowKey, j: nat, next: nat)
    requires AllStored(s0.conns) && j < next == j + 1 <= |es| && es[j] != EvictConn(k)
    ensures StateAt(cfg, s0, es, next) == Step(cfg, StateAt(cfg, s0, es, j), es[j])
    ensures Submissions(cfg, s0, es, k, next) ==
      Submissions(cfg, s0, es, k, j) + if Submits(StateAt(cfg, s0, es, j), es[j], k) then 1 else 0
  {
  }

  lemma {:induction false} ProgressRun(cfg: Config, s0: State, es: seq<Event>, k: FlowKey, i: nat, j: nat, n: nat,
                                       start: nat)
    requires AllStored(s0.conns) && i <= j <= |es| && 1 <= n <= 5
    requires forall m :: i <= m < j ==> es[m] != EvictConn(k)
    requires ProgressAt(cfg, s0, es, k, i, i, n, start)
    ensures ProgressAt(cfg, s0, es, k, i, j, n, start)
    decreases j
  {
    if i < j {
      var last := j - 1;
      ProgressRun(cfg, s0, es, k, i, last, n, start);
      ProgressStep(cfg, s0, es, k, i, last, j, n, start);
    }
  }

  /** Nothing is missed and nothing too much: of a flow whose hello is being collected, with `n` packets submitted
      already, exactly the next 5 - n eligible packets are submitted. */
  lemma {:induction false} SubmissionsExact(cfg: Config, s0: State, es: seq<Event>, k: FlowKey, i: nat, j: nat, n: nat)
    requires AllStored(s0.conns) && i <= j <= |es| && 1 <= n <= 5
    requires forall m :: i <= m < j ==> es[m] != EvictConn(k)
    requires ClassOf(StateAt(cfg, s0, es, i).conns, k) == D.Pending(n)
    ensures Submissions(cfg, s0, es, k, j) == Submissions(cfg, s0, es, k, i) + Min(5 - n, EligibleIn(es, k, i, j))
    ensures Collecting(ClassOf(StateAt(cfg, s0, es, j).conns, k), n, EligibleIn(es, k, i, j))
  {
    ProgressRun(cfg, s0, es, k, i, j, n, Submissions(cfg, s0, es, k, i));
  }

  /** The event sends a ClientHello to a web port of a host off TC's list, the first of its flow, and finds room. */
  predicate StartsWithHello(s: State, e: Event, k: FlowKey) {
    && Fresh(s, k) && e.Tc? && FlowIs(e.skb, e.protocol, k) && HelloIs(e.skb) && e.reserve
    && k.proto == 6 && (k.dport == 443 || k.dport == 80) && k.daddr !in s.tcPerm
  }

  /** So a flow that starts with a hello has its first five packets with payload and room submitted. */
  lemma {:induction false} FirstFive(cfg: Config, s0: State, es: seq<Event>, k: FlowKey, i: nat, j: nat)
    requires AllStored(s0.conns) && i < j <= |es| && StartsWithHello(StateAt(cfg, s0, es, i), es[i], k)
    requires forall m :: i <= m < j ==> es[m] != EvictConn(k)
    ensures Submissions(cfg, s0, es, k, j) == Submissions(cfg, s0, es, k, i) + Min(5, EligibleIn(es, k, i, j))
  {
    var next := i + 1;
    FirstSubmission(cfg, s0, es, k, i, next, StateAt(cfg, s0, es, i));
    FourMore(cfg, s0, es, k, i, next, j);
  }

  lemma {:induction false} FirstSubmission(cfg: Config, s0: State, es: seq<Event>, k: FlowKey, i: nat, next: nat,
                                           s: State)
    requires AllStored(s0.conns) && i < next == i + 1 <= |es| && s == StateAt(cfg, s0, es, i)
    requires StartsWithHello(s, es[i], k)
    ensures ClassOf(StateAt(cfg, s0, es, next).conns, k) == D.Pending(1) && Eligible(es[i], k)
    ensures Submissions(cfg, s0, es, k, next) == Submissions(cfg, s0, es, k, i) + 1
  {
    HelloOpens(cfg, s, es[i], k);
    SubmissionsNext(cfg, s0, es, k, i, next);
  }

  lemma HelloOpens(cfg: Config, s: State, e: Event, k: FlowKey)
    requires AllStored(s.conns) && StartsWithHello(s, e, k)
    ensures ClassOf(Step(cfg, s, e).conns, k) == D.Pending(1) && Submits(s, e, k) && Eligible(e, k)
  {
    FreshFlow(s, e.skb, e.protocol, e.sent, e.reserve, k);
    FlowIsSeen(e.skb, e.protocol, k);
  }

  lemma {:induction false} FourMore(cfg: Config, s0: State, es: seq<Event>, k: FlowKey, i: nat, next: nat, j: nat)
    requires AllStored(s0.conns) && i < next == i + 1 <= j <= |es|
    requires forall m :: next <= m < j ==> es[m] != EvictConn(k)
    requires ClassOf(StateAt(cfg, s0, es, next).conns, k) == D.Pending(1) && Eligible(es[i], k)
    requires Submissions(cfg, s0, es, k, next) == Submissions(cfg, s0, es, k, i) + 1
    ensures Submissions(cfg, s0, es, k, j) == Submissions(cfg, s0, es, k, i) + Min(5, EligibleIn(es, k, i, j))
  {
    SubmissionsExact(cfg, s0, es, k, next, j, 1);
    EligibleFrom(es, k, i, next, j);
  }

  lemma {:induction false} EligibleFrom(es: seq<Event>, k: FlowKey, i: nat, next: nat, j: nat)
    requires i < next == i + 1 <= j <= |es|
    ensures EligibleIn(es, k, i, j) == EligibleIn(es, k, next, j) + if Eligible(es[i], k) then 1 else 0
    decreases j
  {
    if next < j {
      EligibleFrom(es, k, i, next, j - 1);
    }
  }
}
