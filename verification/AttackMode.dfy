/** The attack-mode timer of src/ebpf/stats.h and src/ebpf/policy.h: a fuse trip stamps it, and it
    stays on for a cooldown that grows with the score. */
module AttackMode {
  import opened Machine

  const BASE_COOLDOWN := 5 * NS_PER_SEC
  const MAX_COOLDOWN := 60 * NS_PER_SEC

  datatype State = State(last: u64, score: u64)

  /** The cooldown as computed: product and sum wrap at 64 bits, then the clamp. */
  function Cooldown(score: u64): u64 {
    Min(Wrap64(BASE_COOLDOWN + Wrap64(score / 1000 * NS_PER_SEC)), MAX_COOLDOWN)
  }

  /** The cooldown as meant: five seconds, one more per thousand trips, at most a minute. */
  function Promised(score: u64): nat {
    Min(BASE_COOLDOWN + score / 1000 * NS_PER_SEC, MAX_COOLDOWN)
  }

  /** One look at the timer: on or off. Looking after the cooldown forgets the score. */
  function Look(s: State, now: u64): (State, bool) {
    if s.last == 0 then (s, false)
    else if Sub64(now, s.last) < Cooldown(s.score) then (s, true)
    else (s.(score := 0), false)
  }

  function Trip(s: State, now: u64): State {
    State(now, Wrap64(s.score + 1))
  }

  class AttackTimer {
    var last: u64
    var score: u64

    function View(): State
      reads this
    {
      State(last, score)
    }

    constructor ()
      ensures View() == State(0, 0)
    {
      last, score := 0, 0;
    }

    /** check_attack_status */
    method Check(now: u64) returns (on: bool)
      modifies this
      ensures (View(), on) == Look(old(View()), now)
    {
      if last == 0 {
        return false;
      }
      var dynamicCooldown := Wrap64(BASE_COOLDOWN + Wrap64(score / 1000 * NS_PER_SEC));
      if dynamicCooldown > MAX_COOLDOWN {
        dynamicCooldown := MAX_COOLDOWN;
      }
      if Sub64(now, last) < dynamicCooldown {
        return true;
      }
      if score > 0 {
        score := 0;
      }
      return false;
    }

    /** What the packet that blows the fuse does. */
    method Blow(now: u64)
      modifies this
      ensures View() == Trip(old(View()), now)
    {
      score := Wrap64(score + 1);
      last := now;
    }
  }

  /** The cooldown before the clamp, as computed from the score. */
  function Unclamped(score: u64): u64 { Wrap64(BASE_COOLDOWN + score / 1000 * NS_PER_SEC) }

  /** The scores whose product wraps back into the first minute: the timer misjudges exactly these. */
  predicate WrapsShort(score: u64) {
    score / 1000 > 55 && Unclamped(score) < MAX_COOLDOWN
  }

  lemma WrapOnce(score: u64)
    ensures Cooldown(score) == Min(Unclamped(score), MAX_COOLDOWN)
  {
    WrapSum(BASE_COOLDOWN, score / 1000 * NS_PER_SEC);
  }

  lemma CooldownIsPromised(score: u64)
    ensures Cooldown(score) == Promised(score) <==> !WrapsShort(score)
    ensures WrapsShort(score) ==> Cooldown(score) == Unclamped(score) < Promised(score)
  {
    var q := score / 1000;
    WrapOnce(score);
    if q <= 55 {
      assert Unclamped(score) == BASE_COOLDOWN + q * NS_PER_SEC;
    }
  }

  /** Scores below eighteen trillion trips never wrap, and the first score above them does: its cooldown
      is not a minute but less than a third of a second. */
  const WRAPPING_SCORE: u64 := 18_446_744_069_000

  lemma OrdinaryScores(score: u64)
    requires score < WRAPPING_SCORE
    ensures !WrapsShort(score)
  {
    var q := score / 1000;
    assert Unclamped(score) == BASE_COOLDOWN + q * NS_PER_SEC;
  }

  lemma FirstWrappingScore()
    ensures WrapsShort(WRAPPING_SCORE) && Unclamped(WRAPPING_SCORE) == 290_448_384 < BASE_COOLDOWN
  {
  }

  // ----- every look after a trip -----

  function Looks(s: State, times: seq<u64>): (r: seq<bool>)
    ensures |r| == |times|
    decreases |times|
  {
    if times == [] then []
    else
      var (s1, on) := Look(s, times[0]);
      [on] + Looks(s1, times[1..])
  }

  ghost predicate OffThroughout(s: State, times: seq<u64>) {
    forall i :: 0 <= i < |times| ==> !Looks(s, times)[i]
  }

  lemma SinceLast(now: u64, last: u64)
    requires last <= now
    ensures Sub64(now, last) == now - last
  {
  }

  lemma {:induction false} OffStaysOff(s: State, from: u64, times: seq<u64>)
    requires s.last == 0 || (s.last <= from && s.score == 0 && from - s.last >= BASE_COOLDOWN)
    requires Clocked(from, times)
    ensures OffThroughout(s, times)
    decreases |times|
  {
    if times != [] {
      if s.last != 0 {
        SinceLast(times[0], s.last);
      }
      assert Cooldown(0) == BASE_COOLDOWN;
      var s1 := Look(s, times[0]).0;
      OffStaysOff(s1, times[0], times[1..]);
      assert Looks(s, times)[1..] == Looks(s1, times[1..]);
    }
  }

  /** The looks at `times` find the mode on exactly while less than `cooldown` has passed since the trip. */
  ghost predicate OnWithin(s: State, times: seq<u64>, cooldown: nat) {
    forall i :: 0 <= i < |times| ==> (Looks(s, times)[i] <==> times[i] - s.last < cooldown)
  }

  lemma {:induction false} LooksFollowCooldown(s: State, from: u64, times: seq<u64>)
    requires 0 < s.last <= from && Cooldown(s.score) >= BASE_COOLDOWN && Clocked(from, times)
    ensures OnWithin(s, times, Cooldown(s.score))
    decreases |times|
  {
    if times != [] {
      SinceLast(times[0], s.last);
      var s1 := Look(s, times[0]).0;
      assert Looks(s, times)[1..] == Looks(s1, times[1..]);
      if times[0] - s.last < Cooldown(s.score) {
        LooksFollowCooldown(s, times[0], times[1..]);
      } else {
        OffStaysOff(s1, times[0], times[1..]);
      }
    }
  }

  /** After a trip and without another one, every look, those that reset the score included, finds the
      mode on exactly while less than the promised cooldown has passed. */
  ghost predicate OnExactlyAsPromised(s: State) {
    forall times: seq<u64> :: Clocked(s.last, times) ==> OnWithin(s, times, Promised(s.score))
  }

  /** It is so if and only if the trip has a stamp (zero means that none happened) and the score is not one
      that wraps short before the clock ends. */
  lemma OnExactlyIff(s: State)
    ensures OnExactlyAsPromised(s) <==> s.last != 0 && !(WrapsShort(s.score) && s.last + Unclamped(s.score) < TWO64)
  {
    CooldownIsPromised(s.score);
    if s.last == 0 {
      NotOnAt(s, 0);
    } else if !WrapsShort(s.score) {
      forall times: seq<u64> | Clocked(s.last, times) ensures OnWithin(s, times, Promised(s.score)) {
        LooksFollowCooldown(s, s.last, times);
      }
    } else if s.last + Unclamped(s.score) < TWO64 {
      var now: u64 := s.last + Unclamped(s.score);
      SinceLast(now, s.last);
      NotOnAt(s, now);
    } else {
      forall times: seq<u64> | Clocked(s.last, times) ensures OnWithin(s, times, Promised(s.score)) {
        AlwaysOn(s, s.last, times);
      }
    }
  }

  lemma NotOnAt(s: State, now: u64)
    requires s.last <= now && !Look(s, now).1 && now - s.last < Promised(s.score)
    ensures !OnExactlyAsPromised(s)
  {
    assert Looks(s, [now])[0] == Look(s, now).1;
    assert Clocked(s.last, [now]) && !OnWithin(s, [now], Promised(s.score));
  }

  lemma {:induction false} AlwaysOn(s: State, from: u64, times: seq<u64>)
    requires 0 < s.last <= from && s.last + Cooldown(s.score) >= TWO64 && Clocked(from, times)
    ensures forall i :: 0 <= i < |times| ==> Looks(s, times)[i] && times[i] - s.last < Cooldown(s.score)
    decreases |times|
  {
    if times != [] {
      SinceLast(times[0], s.last);
      AlwaysOn(s, times[0], times[1..]);
      assert Looks(s, times)[1..] == Looks(s, times[1..]);
    }
  }

  /** What a trip does to the looks after it, whatever the timer said before: with the old score counted up
      by one, at time `now` above zero, every later look is on exactly while less than five seconds and one
      more per thousand trips have passed, but at most a minute. */
  ghost predicate TripIsSeen(before: State, now: u64) {
    var score: u64 := (before.score + 1) % 0x1_0000_0000_0000_0000;
    forall times: seq<u64>, i ::
      Clocked(now, times) && 0 <= i < |times| ==>
      (Looks(Trip(before, now), times)[i] <==>
       times[i] - now < Min(60_000_000_000, 5_000_000_000 + score / 1000 * 1_000_000_000))
  }

  lemma TripIsSeenIff(before: State, now: u64)
    ensures var score: u64 := (before.score + 1) % 0x1_0000_0000_0000_0000;
      TripIsSeen(before, now) <==>
      now != 0 && !(WrapsShort(score) && now + Unclamped(score) < 0x1_0000_0000_0000_0000)
  {
    var s := Trip(before, now);
    OnExactlyIff(s);
    assert TripIsSeen(before, now) <==> OnExactlyAsPromised(s) by {
      if TripIsSeen(before, now) {
        forall times: seq<u64> | Clocked(s.last, times) ensures OnWithin(s, times, Promised(s.score)) {
        }
      }
      if OnExactlyAsPromised(s) {
        forall times: seq<u64>, i | Clocked(now, times) && 0 <= i < |times|
          ensures Looks(s, times)[i] <==>
            times[i] - now < Min(60_000_000_000, 5_000_000_000 + s.score / 1000 * 1_000_000_000)
        {
          assert OnWithin(s, times, Promised(s.score));
        }
      }
    }
  }

  /** Once off, always off until the next trip, although looking resets the score: whenever a look
      at `from` finds the mode off, so does every later look. */
  ghost predicate NeverReturns(s: State) {
    forall from: u64, times: seq<u64> ::
      s.last <= from && Clocked(from, times) && !Look(s, from).1 ==> OffThroughout(Look(s, from).0, times)
  }

  /** That holds if and only if there was no trip, or the score does not wrap below five seconds, or the
      clock ends before the mode goes off. */
  lemma NeverReturnsIff(s: State)
    ensures NeverReturns(s) <==>
      s.last == 0 || Unclamped(s.score) >= BASE_COOLDOWN || s.last + Unclamped(s.score) >= TWO64
  {
    WrapOnce(s.score);
    if s.last != 0 && Unclamped(s.score) < BASE_COOLDOWN && s.last + Unclamped(s.score) < TWO64 {
      Returns(s, s.last + Unclamped(s.score));
    } else {
      forall from: u64, times: seq<u64> | s.last <= from && Clocked(from, times) && !Look(s, from).1
        ensures OffThroughout(Look(s, from).0, times)
      {
        SinceLast(from, s.last);
        OffStaysOff(Look(s, from).0, from, times);
      }
    }
  }

  lemma Returns(s: State, from: u64)
    requires 0 < s.last <= from && Cooldown(s.score) <= from - s.last < BASE_COOLDOWN
    ensures !NeverReturns(s)
  {
    SinceLast(from, s.last);
    var off := Look(s, from).0;
    assert off == State(s.last, 0) && Cooldown(0) == BASE_COOLDOWN;
    assert Looks(off, [from])[0];
    assert Clocked(from, [from]) && !Look(s, from).1;
    assert !OffThroughout(off, [from]);
  }

  /** Both fail after a trip at time 1 that brings the score to the first wrapping one: the mode goes off
      too early, and the look that finds it off brings it back. */
  lemma WrappedScoreFails()
    ensures !OnExactlyAsPromised(State(1, WRAPPING_SCORE)) && !NeverReturns(State(1, WRAPPING_SCORE))
  {
    FirstWrappingScore();
    OnExactlyIff(State(1, WRAPPING_SCORE));
    NeverReturnsIff(State(1, WRAPPING_SCORE));
  }
}
