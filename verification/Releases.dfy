/** The counter of one target in internal/lb/balancer.go under concurrency: a pick
    adds one, and `DecActive` is two atomic additions, a decrement and, if that went
    below zero, the addition of what is missing.  Picks and releases may interleave
    between the two. */
module Releases {

  /** `owed` holds the corrections that releases are yet to add.  `value` is what the
      counter should hold, up by one for a pick and down by one, but not below zero,
      for a release; `over` counts the releases at a value of zero. */
  datatype Counter = Counter(count: int, owed: multiset<int>, value: nat, over: nat)

  datatype Half = Increment | Decrement | Correct(amount: int)

  predicate Enabled(s: Counter, h: Half) {
    h.Correct? ==> h.amount in s.owed
  }

  function Apply(s: Counter, h: Half): Counter {
    match h
    case Increment => s.(count := s.count + 1, value := s.value + 1)
    case Decrement =>
      var v := s.count - 1;
      Counter(v, if v < 0 then s.owed + multiset{-v} else s.owed,
              if s.value == 0 then 0 else s.value - 1, if s.value == 0 then s.over + 1 else s.over)
    case Correct(n) => s.(count := s.count + n, owed := s.owed - multiset{n})
  }

  ghost predicate Runs(start: nat, run: seq<Half>)
    decreases |run|, 0
  {
    run == [] || (Runs(start, run[..|run| - 1]) && Enabled(After(start, run[..|run| - 1]), run[|run| - 1]))
  }

  ghost function After(start: nat, run: seq<Half>): Counter
    requires Runs(start, run)
    decreases |run|, 1
  {
    if run == [] then Counter(start, multiset{}, start, 0)
    else Apply(After(start, run[..|run| - 1]), run[|run| - 1])
  }

  lemma Idle(start: nat)
    ensures Runs(start, []) && After(start, []) == Counter(start, multiset{}, start, 0)
  {
  }

  lemma Append(start: nat, run: seq<Half>, h: Half)
    requires Runs(start, run) && Enabled(After(start, run), h)
    ensures Runs(start, run + [h]) && After(start, run + [h]) == Apply(After(start, run), h)
  {
    assert (run + [h])[..|run|] == run;
  }

  /** Nothing is under way, at most `k` releases came at a value of zero, and picks
      ran only if they may. */
  ghost predicate Complete(start: nat, run: seq<Half>, k: nat, picks: bool) {
    Runs(start, run) && After(start, run).owed == multiset{} && After(start, run).over <= k && (Increment in run ==> picks)
  }

  // ---------------------------------------------------------------- when it holds

  /** As long as nothing is released at zero, the count is the value. */
  lemma {:induction false} ExactWithoutOver(start: nat, run: seq<Half>)
    requires Runs(start, run) && After(start, run).over == 0
    ensures var s := After(start, run); s.count == s.value && s.owed == multiset{}
    decreases |run|
  {
    if run != [] { ExactWithoutOver(start, run[..|run| - 1]); }
  }

  /** Without picks, one release at zero owes one correction until it is right again. */
  lemma {:induction false} OneOver(start: nat, run: seq<Half>)
    requires Runs(start, run) && Increment !in run && After(start, run).over == 1
    ensures var s := After(start, run);
            s.value == 0 && ((s.count == -1 && s.owed == multiset{1}) || (s.count == 0 && s.owed == multiset{}))
    decreases |run|
  {
    var init := run[..|run| - 1];
    assert Increment !in init;
    if After(start, init).over == 0 { ExactWithoutOver(start, init); } else { OneOver(start, init); }
  }

  // ---------------------------------------------------------------- when it fails

  /** As many releases as there are connections. */
  function Drained(start: nat): (run: seq<Half>)
    ensures forall h :: h in run ==> h == Decrement
  {
    if start == 0 then [] else Drained(start - 1) + [Decrement]
  }

  lemma {:induction false} DrainedTo(start: nat, k: nat)
    requires k <= start
    ensures Runs(start, Drained(k)) && After(start, Drained(k)) == Counter(start - k, multiset{}, start - k, 0)
  {
    hide Runs, After;
    if k == 0 {
      Idle(start);
    } else {
      DrainedTo(start, k - 1);
      Append(start, Drained(k - 1), Decrement);
    }
  }

  /** Two releases at zero overlap. */
  function TwoOver(start: nat): seq<Half> {
    Drained(start) + [Decrement] + [Decrement] + [Correct(1)] + [Correct(2)]
  }

  lemma TwoOverSteps()
    ensures Apply(Counter(0, multiset{}, 0, 0), Decrement) == Counter(-1, multiset{1}, 0, 1)
    ensures Apply(Counter(-1, multiset{1}, 0, 1), Decrement) == Counter(-2, multiset{1, 2}, 0, 2)
    ensures Apply(Counter(-2, multiset{1, 2}, 0, 2), Correct(1)) == Counter(-1, multiset{2}, 0, 2)
    ensures Apply(Counter(-1, multiset{2}, 0, 2), Correct(2)) == Counter(1, multiset{}, 0, 2)
  {
  }

  lemma TwoOverLeaveOne(start: nat)
    ensures Complete(start, TwoOver(start), 2, false)
    ensures After(start, TwoOver(start)) == Counter(1, multiset{}, 0, 2)
  {
    hide Runs, After, Apply;
    DrainedTo(start, start);
    TwoOverSteps();
    var run := Drained(start);
    Append(start, run, Decrement);
    Append(start, run + [Decrement], Decrement);
    Append(start, run + [Decrement] + [Decrement], Correct(1));
    Append(start, run + [Decrement] + [Decrement] + [Correct(1)], Correct(2));
  }

  /** One release at zero, and a pick and its own release before the correction. */
  function OneOverAndPick(start: nat): seq<Half> {
    Drained(start) + [Decrement] + [Increment] + [Decrement] + [Correct(1)] + [Correct(1)]
  }

  lemma OneOverAndPickSteps()
    ensures Apply(Counter(0, multiset{}, 0, 0), Decrement) == Counter(-1, multiset{1}, 0, 1)
    ensures Apply(Counter(-1, multiset{1}, 0, 1), Increment) == Counter(0, multiset{1}, 1, 1)
    ensures Apply(Counter(0, multiset{1}, 1, 1), Decrement) == Counter(-1, Twice(1), 0, 1)
  {
  }

  lemma OneOverAndPickCorrected()
    ensures 1 in Twice(1)
    ensures Apply(Counter(-1, Twice(1), 0, 1), Correct(1)) == Counter(0, multiset{1}, 0, 1)
    ensures Apply(Counter(0, multiset{1}, 0, 1), Correct(1)) == Counter(1, multiset{}, 0, 1)
  {
    assert Twice(1) - multiset{1} == multiset{1};
    assert multiset{1} - multiset{1} == multiset{};
  }

  function Twice(n: int): multiset<int> {
    multiset{n} + multiset{n}
  }

  lemma OneOverAndPickLeavesOne(start: nat)
    ensures Complete(start, OneOverAndPick(start), 1, true)
    ensures After(start, OneOverAndPick(start)) == Counter(1, multiset{}, 0, 1)
  {
    hide Runs, After, Apply, Twice;
    DrainedTo(start, start);
    OneOverAndPickSteps();
    OneOverAndPickCorrected();
    var run := Drained(start);
    Append(start, run, Decrement);
    Append(start, run + [Decrement], Increment);
    Append(start, run + [Decrement] + [Increment], Decrement);
    Append(start, run + [Decrement] + [Increment] + [Decrement], Correct(1));
    Append(start, run + [Decrement] + [Increment] + [Decrement] + [Correct(1)], Correct(1));
  }

  /** Every interleaving with at most `k` releases at zero ends at the value that
      picks and clamped releases should leave exactly when there is none -- or one
      and no pick. */
  lemma ClampedIff(start: nat, k: nat, picks: bool)
    ensures (forall run :: Complete(start, run, k, picks) ==> After(start, run).count == After(start, run).value)
       <==> k == 0 || (k == 1 && !picks)
  {
    if k == 0 || (k == 1 && !picks) {
      forall run | Complete(start, run, k, picks) ensures After(start, run).count == After(start, run).value {
        if After(start, run).over == 0 { ExactWithoutOver(start, run); } else { OneOver(start, run); }
      }
    } else if picks {
      OneOverAndPickLeavesOne(start);
      assert Complete(start, OneOverAndPick(start), k, picks);
    } else {
      TwoOverLeaveOne(start);
      assert Complete(start, TwoOver(start), k, picks);
    }
  }
}
