/** The fuse and attack mode over whole runs: every complete ICMP packet is charged to the fuse, every refusal
    trips the timer, and from the last trip on attack mode is on for as long as it promises. */
module AlarmRuns {
  import opened Machine
  import opened Headers
  import opened Firewall
  import opened FirewallRuns
  import Fuse
  import TB = TokenBucket
  import A = AttackMode

  predicate IsIcmp(e: Event) { e.Xdp? && FrameOf(e.packet) == Icmp }

  /** An ICMP packet that the fuse refuses. */
  predicate Blows(s: State, e: Event) { IsIcmp(e) && !Fuse.Call(s.fuse, e.at).1 }

  /** The packet has its link-layer headers, so that the timer is looked at. */
  predicate Looked(e: Event) { e.Xdp? && FrameOf(e.packet) != BadLink }

  lemma ParseAlarms(s: State, p: Packet, now: u64)
    ensures var t, frame := AfterParse(s, p, now), FrameOf(p);
      && t.fuse == (if frame == Icmp then Fuse.Call(s.fuse, now).0 else s.fuse)
      && t.attack ==
         if frame == BadLink then s.attack
         else if frame == Icmp && !Fuse.Call(s.fuse, now).1 then A.Trip(A.Look(s.attack, now).0, now)
         else A.Look(s.attack, now).0
  {
  }

  lemma PolicyAlarms(cfg: Config, s: State, key: FlowKey, len: u32, now: u64)
    requires key in s.flows
    ensures var t := Policy(cfg, s, key, len, now).0; t.fuse == s.fuse && t.attack == s.attack
  {
  }

  lemma JudgedAlarms(cfg: Config, s: State, key: FlowKey, len: u32, now: u64)
    requires key in s.flows
    ensures var t := Judged(cfg, s, key, len, now).0; t.fuse == s.fuse && t.attack == s.attack
  {
    PolicyAlarms(cfg, s, key, len, now);
  }

  lemma LateAlarms(cfg: Config, s: State, key: FlowKey, len: u32, now: u64, room: bool)
    ensures var t := Late(cfg, s, key, len, now, room).0; t.fuse == s.fuse && t.attack == s.attack
  {
    var s1 := s.(pps := TB.TakePps(s.pps, now, cfg.ppsLimit).0);
    JudgedAlarms(cfg, if key in s.flows then s1 else s1.(flows := s1.flows[key := NewFlow(cfg, now)]), key, len, now);
  }

  /** Each complete ICMP packet is charged to the fuse once, and nothing else is; each one refused trips the timer,
      which is looked at for every packet with a link layer. */
  lemma AlarmStep(cfg: Config, s: State, e: Event)
    requires AllStored(s.conns)
    ensures var t := Step(cfg, s, e);
      && t.fuse == (if IsIcmp(e) then Fuse.Call(s.fuse, e.at).0 else s.fuse)
      && t.attack ==
         if Blows(s, e) then A.Trip(A.Look(s.attack, e.at).0, e.at)
         else if Looked(e) then A.Look(s.attack, e.at).0 else s.attack
  {
    if e.Xdp? {
      ParseAlarms(s, e.packet, e.at);
      if FrameOf(e.packet).Portless? {
        LateAlarms(cfg, AfterParse(s, e.packet, e.at), FrameOf(e.packet).key, |e.packet|, e.at, e.room);
      }
    }
  }

  // ----- the fuse -----

  /** When the ICMP packets among the first `j` events came. */
  function IcmpTimes(es: seq<Event>, j: nat): seq<u64>
    requires j <= |es|
  {
    if j == 0 then [] else IcmpTimes(es, j - 1) + if IsIcmp(es[j - 1]) then [es[j - 1].at] else []
  }

  /** ICMP packets among the first `j` events that the fuse admits. */
  function Spared(cfg: Config, s0: State, es: seq<Event>, j: nat): nat
    requires AllStored(s0.conns) && j <= |es|
  {
    if j == 0 then 0
    else
      var s, e := StateAt(cfg, s0, es, j - 1), es[j - 1];
      Spared(cfg, s0, es, j - 1) + if IsIcmp(e) && !Blows(s, e) then 1 else 0
  }

  lemma {:induction false} AdmissionsSnoc(oks: seq<bool>, ok: bool)
    ensures Fuse.Admissions(oks + [ok]) == Fuse.Admissions(oks) + if ok then 1 else 0
  {
    if oks != [] {
      assert (oks + [ok])[1..] == oks[1..] + [ok];
      AdmissionsSnoc(oks[1..], ok);
    }
  }

  /** In every run the fuse is the one called at the times of the ICMP packets, and spares what it admits. */
  lemma {:induction false} FuseFollows(cfg: Config, s0: State, es: seq<Event>, j: nat)
    requires AllStored(s0.conns) && j <= |es|
    ensures var (fuse, oks) := Fuse.Run(s0.fuse, IcmpTimes(es, j));
      StateAt(cfg, s0, es, j).fuse == fuse && Spared(cfg, s0, es, j) == Fuse.Admissions(oks)
    decreases j
  {
    if j > 0 {
      FuseFollows(cfg, s0, es, j - 1);
      var s, e := StateAt(cfg, s0, es, j - 1), es[j - 1];
      AlarmStep(cfg, s, e);
      if IsIcmp(e) {
        Fuse.RunSnoc(s0.fuse, IcmpTimes(es, j - 1), e.at);
        AdmissionsSnoc(Fuse.Run(s0.fuse, IcmpTimes(es, j - 1)).1, Fuse.Call(s.fuse, e.at).1);
      } else {
        NothingAfter(IcmpTimes(es, j - 1));
      }
    }
  }

  lemma {:induction false} IcmpTimesClocked(es: seq<Event>, j: nat, from: u64, to: u64)
    requires j <= |es| && PacketsClocked(es, 0, |es|, from, to)
    ensures var times := IcmpTimes(es, j);
      && Clocked(from, times)
      && (forall i :: 0 <= i < |times| ==> times[i] <= to)
      && (forall i, m :: 0 <= i < |times| && j <= m < |es| && es[m].Xdp? ==> times[i] <= es[m].at)
    decreases j
  {
    if j > 0 {
      IcmpTimesClocked(es, j - 1, from, to);
    }
  }

  /** From any moment t1 on, by t2, the fuse spares at most 2500 ICMP packets and five for each millisecond that
      ends in between; counted from its stamp. */
  lemma {:induction false} IcmpBound(cfg: Config, s0: State, es: seq<Event>, t1: u64, t2: u64)
    requires AllStored(s0.conns) && 0 < s0.fuse.lastTime <= t1 <= t2 && s0.fuse.tokens <= 2500
    requires PacketsClocked(es, 0, |es|, t1, t2)
    ensures Spared(cfg, s0, es, |es|)
      <= 2500 + 5 * ((t2 - s0.fuse.lastTime) / 1_000_000 - (t1 - s0.fuse.lastTime) / 1_000_000)
  {
    FuseFollows(cfg, s0, es, |es|);
    IcmpTimesClocked(es, |es|, t1, t2);
    FuseBound(s0.fuse, IcmpTimes(es, |es|), t1, t2);
  }

  lemma {:induction false} FuseBound(s: Fuse.State, times: seq<u64>, t1: u64, t2: u64)
    requires 0 < s.lastTime <= t1 <= t2 && s.tokens <= 2500
    requires Clocked(t1, times) && forall i :: 0 <= i < |times| ==> times[i] <= t2
    ensures Fuse.Admissions(Fuse.Run(s, times).1)
      <= 2500 + 5 * ((t2 - s.lastTime) / 1_000_000 - (t1 - s.lastTime) / 1_000_000)
  {
    Fuse.AdmissionsPaid(s, s.lastTime, 0, times, t1, t2);
    Fuse.GrowsByTicks(s.tokens, 0, (t1 - s.lastTime) / 1_000_000);
  }

  // ----- attack mode -----

  /** The timer after a trip at `at` that brought the score to `score`, by the time `clock`: no trip since, and
      forgotten only when the cooldown was over. */
  ghost predicate Tripped(a: A.State, at: u64, score: u64, clock: u64) {
    && a.last == at
    && (a.score == score || (a.score == 0 && clock - at >= A.Cooldown(score)))
  }

  lemma TrippedStays(cfg: Config, s: State, e: Event, at: u64, score: u64, clock: u64)
    requires AllStored(s.conns) && 0 < at <= clock && Tripped(s.attack, at, score, clock)
    requires !Blows(s, e) && (e.Xdp? ==> clock <= e.at)
    requires A.Cooldown(score) >= A.BASE_COOLDOWN
    ensures Tripped(Step(cfg, s, e).attack, at, score, if e.Xdp? then e.at else clock)
  {
    AlarmStep(cfg, s, e);
    if Looked(e) {
      A.SinceLast(e.at, at);
    }
  }

  lemma {:induction false} TrippedRun(cfg: Config, s0: State, es: seq<Event>, i: nat, j: nat, score: u64, to: u64)
    requires AllStored(s0.conns) && i < j <= |es| && es[i].Xdp? && 0 < es[i].at <= to
    requires PacketsClocked(es, i + 1, j, es[i].at, to)
    requires Tripped(StateAt(cfg, s0, es, i + 1).attack, es[i].at, score, es[i].at)
    requires forall m :: i < m < j ==> !Blows(StateAt(cfg, s0, es, m), es[m])
    requires A.Cooldown(score) >= A.BASE_COOLDOWN
    ensures Tripped(StateAt(cfg, s0, es, j).attack, es[i].at, score, to)
    decreases j
  {
    if i + 1 < j {
      var clock := if es[j - 1].Xdp? then es[j - 1].at else to;
      TrippedRun(cfg, s0, es, i, j - 1, score, clock);
      TrippedStays(cfg, StateAt(cfg, s0, es, j - 1), es[j - 1], es[i].at, score, clock);
    }
  }

  /** Attack mode in every run on a forward clock: after an ICMP packet that the fuse refuses, and until the next
      one, every packet finds the mode on exactly while less than five seconds and one more per thousand trips have
      passed, but at most a minute. The score is the one before, counted up by one, and does not wrap short. */
  lemma {:induction false} ModeAfterTrip(cfg: Config, s0: State, es: seq<Event>, i: nat, j: nat, score: u64)
    requires AllStored(s0.conns) && i < j < |es| && Blows(StateAt(cfg, s0, es, i), es[i]) && es[j].Xdp?
    requires es[i].at > 0 && PacketsClocked(es, i + 1, j + 1, es[i].at, es[j].at)
    requires forall m :: i < m < j ==> !Blows(StateAt(cfg, s0, es, m), es[m])
    requires score == (A.Look(StateAt(cfg, s0, es, i).attack, es[i].at).0.score + 1) % 0x1_0000_0000_0000_0000
    requires !A.WrapsShort(score)
    ensures A.Look(StateAt(cfg, s0, es, j).attack, es[j].at).1 <==>
      es[j].at - es[i].at < Min(60_000_000_000, 5_000_000_000 + score / 1000 * 1_000_000_000)
  {
    A.CooldownIsPromised(score);
    JustTripped(cfg, StateAt(cfg, s0, es, i), es[i], score);
    TrippedRun(cfg, s0, es, i, j, score, es[j].at);
    TrippedLook(StateAt(cfg, s0, es, j).attack, es[i].at, score, es[j].at);
  }

  lemma JustTripped(cfg: Config, s: State, e: Event, score: u64)
    requires AllStored(s.conns) && Blows(s, e)
    requires score == (A.Look(s.attack, e.at).0.score + 1) % 0x1_0000_0000_0000_0000
    ensures Tripped(Step(cfg, s, e).attack, e.at, score, e.at)
  {
    AlarmStep(cfg, s, e);
  }

  lemma TrippedLook(a: A.State, at: u64, score: u64, now: u64)
    requires 0 < at <= now && Tripped(a, at, score, now) && A.Cooldown(score) >= A.BASE_COOLDOWN
    ensures A.Look(a, now).1 <==> now - at < A.Cooldown(score)
  {
    A.SinceLast(now, at);
    assert A.Cooldown(0) == A.BASE_COOLDOWN;
  }
}
