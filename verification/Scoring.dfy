/** Behavioural scores under concurrency: `addScore` of internal/l7/engine.go adds
    in one critical section, bans in a second and deletes the score in a third, and
    other charges of the same address may run in between.  One address is enough:
    no section touches another's score. */
module Scoring {
  import opened Common

  /** `crossed` charges have reached the threshold and are yet to ban; `banned` ones
      have banned and are yet to delete.  `recent` counts the charges that reached
      the threshold since the last deletion, and `points` is everything charged. */
  datatype State = State(score: int, crossed: nat, banned: nat, bans: nat, recent: nat, points: int) {
    predicate Quiet() { crossed == 0 && banned == 0 }
  }

  datatype Step = Add(points: int) | Ban | Delete

  const INIT := State(0, 0, 0, 0, 0, 0)

  /** At most `room` charges are between their addition and their deletion. */
  predicate Enabled(s: State, e: Step, room: nat) {
    match e
    case Add(n) => n > 0 && s.crossed + s.banned < room
    case Ban => s.crossed > 0
    case Delete => s.banned > 0
  }

  function Apply(s: State, e: Step, threshold: int): State
    requires e.Ban? ==> s.crossed > 0
    requires e.Delete? ==> s.banned > 0
  {
    match e
    case Add(n) =>
      var hit := if s.score + n >= threshold then 1 else 0;
      s.(score := s.score + n, crossed := s.crossed + hit, recent := s.recent + hit, points := s.points + n)
    case Ban => s.(crossed := s.crossed - 1, banned := s.banned + 1, bans := s.bans + 1)
    case Delete => s.(score := 0, banned := s.banned - 1, recent := 0)
  }

  ghost predicate Runs(run: seq<Step>, threshold: int, room: nat)
    decreases |run|, 0
  {
    run == [] || (Runs(run[..|run| - 1], threshold, room) &&
                  Enabled(After(run[..|run| - 1], threshold, room), run[|run| - 1], room))
  }

  ghost function After(run: seq<Step>, threshold: int, room: nat): State
    requires Runs(run, threshold, room)
    decreases |run|, 1
  {
    if run == [] then INIT else Apply(After(run[..|run| - 1], threshold, room), run[|run| - 1], threshold)
  }

  lemma Idle(threshold: int, room: nat)
    ensures Runs([], threshold, room) && After([], threshold, room) == INIT
  {
  }

  lemma Append(run: seq<Step>, e: Step, threshold: int, room: nat)
    requires Runs(run, threshold, room) && Enabled(After(run, threshold, room), e, room)
    ensures Runs(run + [e], threshold, room)
    ensures After(run + [e], threshold, room) == Apply(After(run, threshold, room), e, threshold)
  {
    assert (run + [e])[..|run|] == run;
  }

  // ---------------------------------------------------------------- no points are lost

  /** What deletions have removed, and what the score still holds. */
  predicate Accounted(s: State, threshold: int, most: nat) {
    && s.recent <= s.bans + s.crossed && s.banned <= s.bans
    && 0 <= s.score <= threshold - 1 + s.recent * most
    && s.points - s.score <= (s.bans - s.banned) * (threshold - 1) + (s.bans + s.crossed - s.recent) * most
  }

  lemma AddAccounted(s: State, n: int, threshold: int, most: nat)
    requires threshold > 0 && Accounted(s, threshold, most) && 0 < n <= most
    ensures Accounted(Apply(s, Add(n), threshold), threshold, most)
  {
    MulDistributes(most, s.recent, 1);
  }

  lemma BanAccounted(s: State, threshold: int, most: nat)
    requires threshold > 0 && Accounted(s, threshold, most) && s.crossed > 0
    ensures Accounted(Apply(s, Ban, threshold), threshold, most)
  {
  }

  lemma DeleteAccounted(s: State, threshold: int, most: nat)
    requires threshold > 0 && Accounted(s, threshold, most) && s.banned > 0
    ensures Accounted(Apply(s, Delete, threshold), threshold, most)
  {
    var d := s.bans - s.banned;
    MulDistributes(threshold - 1, d, 1);
    MulDistributes(most, s.bans + s.crossed - s.recent, s.recent);
  }

  lemma {:induction false} RunAccounted(run: seq<Step>, threshold: int, room: nat, most: nat)
    requires threshold > 0 && Runs(run, threshold, room)
    requires forall i :: 0 <= i < |run| && run[i].Add? ==> run[i].points <= most
    ensures Accounted(After(run, threshold, room), threshold, most)
    decreases |run|
  {
    hide Accounted, Apply;
    if run == [] {
      assert Accounted(INIT, threshold, most) by { NothingAccounted(threshold, most); }
    } else {
      RunAccounted(run[..|run| - 1], threshold, room, most);
      var s := After(run[..|run| - 1], threshold, room);
      match run[|run| - 1]
      case Add(n) => AddAccounted(s, n, threshold, most);
      case Ban => BanAccounted(s, threshold, most);
      case Delete => DeleteAccounted(s, threshold, most);
    }
  }

  lemma NothingAccounted(threshold: int, most: nat)
    requires threshold > 0
    ensures Accounted(INIT, threshold, most)
  {
  }

  /** In every interleaving of charges of at most `most` points, all of an address's
      points are in its score or have been used up by its bans, at most
      threshold - 1 + most each, and by charges that are about to ban. */
  lemma PointsAreUsed(run: seq<Step>, threshold: int, room: nat, most: nat)
    requires threshold > 0 && Runs(run, threshold, room)
    requires forall i :: 0 <= i < |run| && run[i].Add? ==> run[i].points <= most
    ensures var s := After(run, threshold, room);
            s.points <= s.bans * (threshold - 1 + most) + s.crossed * most + s.score
  {
    RunAccounted(run, threshold, room, most);
    var s := After(run, threshold, room);
    hide After;
    Regroup(s, threshold, most);
  }

  lemma Regroup(s: State, threshold: int, most: nat)
    requires threshold > 0 && s.banned <= s.bans && s.recent <= s.bans + s.crossed
    ensures (s.bans - s.banned) * (threshold - 1) + (s.bans + s.crossed - s.recent) * most
         <= s.bans * (threshold - 1 + most) + s.crossed * most
  {
    MulMonotone(s.bans - s.banned, s.bans, threshold - 1);
    MulMonotone(s.bans + s.crossed - s.recent, s.bans + s.crossed, most);
    MulDistributes(most, s.bans, s.crossed);
    MulDistributes(s.bans, threshold - 1, most);
  }

  // ---------------------------------------------------------------- bans are paid for

  /** Every ban has cost the threshold. */
  predicate Paid(s: State, threshold: int) {
    s.bans * threshold + s.score <= s.points
  }

  /** One charge at a time. */
  predicate Alone(s: State, threshold: int) {
    && s.crossed + s.banned <= 1
    && s.bans * threshold <= s.points
    && (s.banned == 0 ==> Paid(s, threshold))
    && (s.crossed == 1 ==> s.score >= threshold)
  }

  lemma StepAlone(s: State, e: Step, threshold: int)
    requires Alone(s, threshold) && Enabled(s, e, 1)
    ensures Alone(Apply(s, e, threshold), threshold)
  {
    MulDistributes(threshold, s.bans, 1);
  }

  lemma {:induction false} RunAlone(run: seq<Step>, threshold: int, room: nat)
    requires threshold > 0 && room <= 1 && Runs(run, threshold, room)
    ensures Alone(After(run, threshold, room), threshold)
    decreases |run|
  {
    if run != [] {
      RunAlone(run[..|run| - 1], threshold, room);
      StepAlone(After(run[..|run| - 1], threshold, room), run[|run| - 1], threshold);
    }
  }

  /** With a threshold of one every charge bans, and the last to finish clears. */
  lemma {:induction false} RunOfOnes(run: seq<Step>, room: nat)
    requires Runs(run, 1, room)
    ensures var s := After(run, 1, room);
            s.bans + s.crossed <= s.points && s.score >= 0 && (s.Quiet() ==> s.score == 0)
    decreases |run|
  {
    if run != [] { RunOfOnes(run[..|run| - 1], room); }
  }

  /** A second charge before the first one's score is deleted bans for a single point. */
  function Doubled(threshold: int): seq<Step> {
    [Add(threshold), Add(1), Ban, Ban, Delete, Delete]
  }

  lemma DoubledRun(threshold: int, room: nat)
    requires threshold > 0 && room >= 2
    ensures Runs(Doubled(threshold), threshold, room)
    ensures After(Doubled(threshold), threshold, room) == State(0, 0, 0, 2, 0, threshold + 1)
  {
    hide Runs, After;
    var run := Doubled(threshold);
    Idle(threshold, room);
    assert run[..1] == [] + [run[0]] && run[..2] == run[..1] + [run[1]] && run[..3] == run[..2] + [run[2]];
    assert run[..4] == run[..3] + [run[3]] && run[..5] == run[..4] + [run[4]] && run == run[..5] + [run[5]];
    Append([], run[0], threshold, room);
    Append(run[..1], run[1], threshold, room);
    Append(run[..2], run[2], threshold, room);
    Append(run[..3], run[3], threshold, room);
    Append(run[..4], run[4], threshold, room);
    Append(run[..5], run[5], threshold, room);
  }

  /** In all runs every ban has cost the threshold, once no charge is under way,
      exactly when charges of an address never overlap -- or each one bans. */
  lemma PaidIff(threshold: int, room: nat)
    requires threshold > 0
    ensures (forall run :: Runs(run, threshold, room) && After(run, threshold, room).Quiet() ==>
               Paid(After(run, threshold, room), threshold))
       <==> room <= 1 || threshold == 1
  {
    if room <= 1 || threshold == 1 {
      forall run | Runs(run, threshold, room) && After(run, threshold, room).Quiet()
        ensures Paid(After(run, threshold, room), threshold)
      {
        if room <= 1 { RunAlone(run, threshold, room); } else { RunOfOnes(run, room); }
      }
    } else {
      DoubledRun(threshold, room);
      assert !Paid(After(Doubled(threshold), threshold, room), threshold);
    }
  }
}
