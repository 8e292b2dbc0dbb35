/** Which entries stand in the conntrack and flow tables at any point of a run, and since when: exactly those that
    some packet made and none evicted, stamped by the last packet that used them. */
module EntryRuns {
  import opened Machine
  import opened StatusCode
  import opened Headers
  import opened Firewall
  import opened FirewallRuns
  import opened LimiterRuns

  // ----- conntrack -----

  /** A packet in whose course XDP refreshes or records the flow of its answers: one of that flow let in by its
      entry, or a fragment of it that gets past packet rate, addresses and ports. */
  predicate Refreshes(cfg: Config, s: State, e: Event, k: FlowKey)
    requires AllStored(s.conns)
  {
    e.Xdp? &&
    match FrameOf(e.packet)
    case Transport(key) => key == Mirror(k) && XdpStep(cfg, s, e.packet, e.at, e.room).1 == XDP_PASS
    case Portless(key) => key == Mirror(k) && (k.proto == 6 || k.proto == 17) && Reaches(cfg, s, key, e.at, e.room)
    case _ => false
  }

  predicate Uses(cfg: Config, s: State, e: Event, k: FlowKey)
    requires AllStored(s.conns)
  {
    Opens(e, k) || Refreshes(cfg, s, e, k)
  }

  function TimeOf(e: Event): u64 { if e.Tc? then e.sent else if e.Xdp? then e.at else 0 }

  lemma PolicyRecords(cfg: Config, s: State, key: FlowKey, len: u32, now: u64)
    requires key in s.flows
    ensures Policy(cfg, s, key, len, now).0.conns == if PortPassed(s, key) then Recorded(s.conns, key, now) else s.conns
  {
    PolicyFrame(cfg, s, key, len, now);
  }

  lemma LateRecords(cfg: Config, s: State, key: FlowKey, len: u32, now: u64, room: bool)
    ensures Late(cfg, s, key, len, now, room).0.conns ==
      if Reaches(cfg, s, key, now, room) && (key.proto == 6 || key.proto == 17)
      then Recorded(s.conns, key, now) else s.conns
  {
    PolicyRecords(cfg, WithEntry(cfg, s, key, now), key, len, now);
  }

  lemma XdpRecords(cfg: Config, s: State, e: Event)
    requires AllStored(s.conns) && e.Xdp?
    ensures var t, frame := Step(cfg, s, e), FrameOf(e.packet);
      t.conns ==
        if (frame.Transport? && XdpStep(cfg, s, e.packet, e.at, e.room).1 == XDP_PASS)
           || (frame.Portless? && (frame.key.proto == 6 || frame.key.proto == 17)
               && Reaches(cfg, s, frame.key, e.at, e.room))
        then Recorded(s.conns, frame.key, e.at) else s.conns
  {
    ParseFrame(s, e.packet, e.at);
    if IsLate(e) {
      var key, t := FrameOf(e.packet).key, AfterParse(s, e.packet, e.at);
      LateParse(s, e.packet, e.at);
      LateRecords(cfg, t, key, |e.packet|, e.at, e.room);
    }
  }

  lemma RecordedIs(conns: map<FlowKey, Conn>, key: FlowKey, now: u64, k: FlowKey)
    ensures var t := Recorded(conns, key, now);
      && (k in t <==> k in conns || key == Mirror(k))
      && (k in t ==> t[k].lastSeen == (if key == Mirror(k) then now else conns[k].lastSeen))
  {
  }

  /** Every event but an eviction keeps the entry; a use makes it if it is missing, and stamps it. */
  lemma EntryStep(cfg: Config, s: State, e: Event, k: FlowKey)
    requires AllStored(s.conns)
    ensures var t := Step(cfg, s, e).conns;
      && (k in t <==> Uses(cfg, s, e, k) || (k in s.conns && e != EvictConn(k)))
      && (k in t ==> t[k].lastSeen == if Uses(cfg, s, e, k) then TimeOf(e) else s.conns[k].lastSeen)
  {
    if e.Xdp? {
      XdpRecords(cfg, s, e);
      var frame := FrameOf(e.packet);
      if frame.Transport? || frame.Portless? {
        RecordedIs(s.conns, frame.key, e.at, k);
      }
    } else if e.Tc? {
      TcStamps(s, e.skb, e.protocol, e.sent, e.reserve, k);
    }
  }

  lemma TcStamps(s: State, skb: seq<u8>, protocol: u16, now: u64, reserve: bool, k: FlowKey)
    requires AllStored(s.conns)
    ensures var t, mine := TcStep(s, skb, protocol, now, reserve).0.conns,
                           Sees(skb, protocol).Some? && Sees(skb, protocol).value.key == k;
      && (k in t <==> mine || k in s.conns)
      && (k in t ==> t[k].lastSeen == if mine then now else s.conns[k].lastSeen)
  {
  }

  /** When flow `k` was last used before the `j`-th event, since its last eviction. */
  function LastUse(cfg: Config, s0: State, es: seq<Event>, k: FlowKey, j: nat): Option<u64>
    requires AllStored(s0.conns) && j <= |es|
  {
    if j == 0 then None
    else if Uses(cfg, StateAt(cfg, s0, es, j - 1), es[j - 1], k) then Some(TimeOf(es[j - 1]))
    else if es[j - 1] == EvictConn(k) then None
    else LastUse(cfg, s0, es, k, j - 1)
  }

  /** In every run from an empty table a flow has an entry exactly when it was used since its last eviction, and
      the entry bears the time of the last use. */
  lemma {:induction false} EntryIff(cfg: Config, s0: State, es: seq<Event>, k: FlowKey, j: nat)
    requires s0.conns == map[] && j <= |es|
    ensures var conns := StateAt(cfg, s0, es, j).conns;
      LastUse(cfg, s0, es, k, j) == if k in conns then Some(conns[k].lastSeen) else None
    decreases j
  {
    if j > 0 {
      var last := j - 1;
      EntryIff(cfg, s0, es, k, last);
      EntryStep(cfg, StateAt(cfg, s0, es, last), es[last], k);
    }
  }

  /** The TLS version is noted for flows whose hello was seen, and for no others. */
  ghost predicate TlsMarked(conns: map<FlowKey, Conn>) {
    forall k :: k in conns ==>
      conns[k].tlsVersion == if conns[k].dpi in {0x13, 0x23, 0x33, 0x43, 0x53, 0x54} then 1 else 0
  }

  lemma TlsStep(cfg: Config, s: State, e: Event)
    requires AllStored(s.conns) && TlsMarked(s.conns)
    ensures TlsMarked(Step(cfg, s, e).conns)
  {
    if e.Xdp? {
      XdpRecords(cfg, s, e);
    }
  }

  lemma {:induction false} TlsMarkedAlways(cfg: Config, s0: State, es: seq<Event>, j: nat)
    requires AllStored(s0.conns) && TlsMarked(s0.conns) && j <= |es|
    ensures TlsMarked(StateAt(cfg, s0, es, j).conns)
    decreases j
  {
    if j > 0 {
      var last := j - 1;
      TlsMarkedAlways(cfg, s0, es, last);
      TlsStep(cfg, StateAt(cfg, s0, es, last), es[last]);
    }
  }

  // ----- flows -----

  /** First and last packet of a flow entry. */
  datatype Span = Span(first: u64, last: u64)

  function SpanOf(flows: map<FlowKey, Flow>, k: FlowKey): Option<Span> {
    if k in flows then Some(Span(flows[k].firstSeen, flows[k].lastSeen)) else None
  }

  /** The entry found or made at `now`, and whether it counted the packet. */
  function Met(span: Option<Span>, now: u64, counted: bool): Option<Span> {
    if span.None? then Some(Span(now, now)) else if counted then Some(Span(span.value.first, now)) else span
  }

  lemma LimitsSpans(cfg: Config, s: State, key: FlowKey, len: u32, now: u64, k: FlowKey)
    requires key in s.flows
    ensures SpanOf(Limits(cfg, s, key, len, now).0.flows, k) == SpanOf(s.flows, k)
  {
  }

  lemma JudgedSpans(cfg: Config, s: State, key: FlowKey, len: u32, now: u64, k: FlowKey)
    requires key in s.flows
    ensures var (t, action) := Judged(cfg, s, key, len, now);
      SpanOf(t.flows, k) == if k == key && action == XDP_PASS then Met(SpanOf(s.flows, k), now, true)
                            else SpanOf(s.flows, k)
  {
    LimitsSpans(cfg, s, key, len, now, k);
    LimitsSpans(cfg, s.(conns := Recorded(s.conns, key, now)), key, len, now, k);
  }

  lemma LateSpans(cfg: Config, s: State, key: FlowKey, len: u32, now: u64, room: bool, k: FlowKey)
    ensures var (t, action) := Late(cfg, s, key, len, now, room);
      SpanOf(t.flows, k) ==
        if k == key && Outcome(cfg, s, key, len, now, room).Some? then Met(SpanOf(s.flows, k), now, action == XDP_PASS)
        else SpanOf(s.flows, k)
  {
    var s1 := WithEntry(cfg, s, key, now);
    JudgedSpans(cfg, s1, key, len, now, k);
  }

  /** What one event does to the entry of flow `k`. */
  function Spanned(cfg: Config, s: State, e: Event, k: FlowKey): Option<Span>
    requires AllStored(s.conns)
  {
    if e == EvictFlow(k) then None
    else if IsLate(e) && FrameOf(e.packet).key == k && OutcomeOf(cfg, s, e).Some?
    then Met(SpanOf(s.flows, k), e.at, PassesLate(cfg, s, e)) else SpanOf(s.flows, k)
  }

  lemma SpanStep(cfg: Config, s: State, e: Event, k: FlowKey)
    requires AllStored(s.conns)
    ensures SpanOf(Step(cfg, s, e).flows, k) == Spanned(cfg, s, e, k)
  {
    if e.Xdp? {
      ParseFrame(s, e.packet, e.at);
      if IsLate(e) {
        var key, t := FrameOf(e.packet).key, AfterParse(s, e.packet, e.at);
        LateParse(s, e.packet, e.at);
        LateSpans(cfg, t, key, |e.packet|, e.at, e.room, k);
      }
    }
  }
}
