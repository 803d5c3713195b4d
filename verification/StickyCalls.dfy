/** Concurrent picks of one source in internal/lb/balancer.go.  A pick looks the
    source up under the sticky table's read lock; if it finds no usable assignment
    it chooses a target and assigns it under the write lock, and other picks may run
    in between.  A lookup and the load of its target's health flag are one step. */
module StickyCalls {
  import opened Common
  import L = Balancing

  /** `missed` are the picks, with their source, between lookup and assignment;
      `clock` is the latest reading. */
  datatype State = State(ttl: nat, table: map<string, L.Assignment>, up: seq<bool>, missed: map<nat, string>, clock: int)

  /** The target that a missed pick assigns is any its algorithm may choose. */
  datatype Step =
    | Lookup(call: nat, key: string, now: int)
    | Assign(call: nat, target: nat, now: int)
    | Prune(now: int)
    | SetHealth(target: nat, healthy: bool)

  function Empty(ttl: nat, up: seq<bool>, clock: int): State {
    State(ttl, map[], up, map[], clock)
  }

  predicate Enabled(s: State, e: Step) {
    match e
    case Lookup(call, _, now) => call !in s.missed && s.clock <= now
    case Assign(call, i, now) => call in s.missed && i < |s.up| && s.clock <= now
    case Prune(now) => s.clock <= now
    case SetHealth(i, _) => i < |s.up|
  }

  /** The target that a lookup returns. */
  function Hit(s: State, key: string, now: int): Option<nat> {
    if key in s.table && now < s.table[key].expiry && s.table[key].target < |s.up| && s.up[s.table[key].target]
    then Some(s.table[key].target) else None
  }

  function Apply(s: State, e: Step): State
    requires Enabled(s, e)
  {
    match e
    case Lookup(call, key, now) =>
      s.(clock := now, missed := if Hit(s, key, now).Some? then s.missed else s.missed[call := key])
    case Assign(call, i, now) =>
      s.(clock := now, table := s.table[s.missed[call] := L.Assignment(i, now + s.ttl)], missed := Without(s.missed, call))
    case Prune(now) => s.(clock := now, table := map k | k in s.table && s.table[k].expiry > now :: s.table[k])
    case SetHealth(i, healthy) => s.(up := s.up[i := healthy])
  }

  ghost predicate Runs(start: State, run: seq<Step>)
    decreases |run|, 0
  {
    run == [] || (Runs(start, run[..|run| - 1]) && Enabled(After(start, run[..|run| - 1]), run[|run| - 1]))
  }

  ghost function After(start: State, run: seq<Step>): State
    requires Runs(start, run)
    decreases |run|, 1
  {
    if run == [] then start else Apply(After(start, run[..|run| - 1]), run[|run| - 1])
  }

  lemma Idle(start: State)
    ensures Runs(start, []) && After(start, []) == start
  {
  }

  lemma Append(start: State, run: seq<Step>, e: Step)
    requires Runs(start, run) && Enabled(After(start, run), e)
    ensures Runs(start, run + [e]) && After(start, run + [e]) == Apply(After(start, run), e)
  {
    assert (run + [e])[..|run|] == run;
  }

  /** The source's assignment, and how many of its picks are about to make another. */
  ghost predicate Held(s: State, key: string, a: L.Assignment, late: nat) {
    key in s.table && s.table[key] == a && a.target < |s.up| && |Late(s, key)| <= late
  }

  ghost function Late(s: State, key: string): set<nat> {
    set call | call in s.missed && s.missed[call] == key
  }

  /** Before expiry, and while the source's lookups find its target up. */
  ghost predicate Undisturbed(start: State, run: seq<Step>, key: string, a: L.Assignment) {
    && Runs(start, run)
    && (forall i :: 0 <= i < |run| && (run[i].Lookup? || run[i].Prune?) ==> run[i].now < a.expiry)
    && (forall i :: 0 <= i < |run| && run[i].Lookup? && run[i].key == key ==> UpAt(start, run, i, a.target))
  }

  ghost predicate UpAt(start: State, run: seq<Step>, k: nat, target: nat)
    requires k <= |run|
  {
    Runs(start, run[..k]) && target < |After(start, run[..k]).up| && After(start, run[..k]).up[target]
  }

  /** Every lookup of the source in the run returns the assigned target. */
  ghost predicate Sticks(start: State, run: seq<Step>, key: string, target: nat) {
    forall k :: 0 <= k < |run| && run[k].Lookup? && run[k].key == key ==> HitAt(start, run, k, key, target)
  }

  ghost predicate HitAt(start: State, run: seq<Step>, k: nat, key: string, target: nat)
    requires k < |run| && run[k].Lookup?
  {
    Runs(start, run[..k]) && Hit(After(start, run[..k]), key, run[k].now) == Some(target)
  }

  lemma StepHeld(s: State, e: Step, key: string, a: L.Assignment)
    requires Enabled(s, e) && Held(s, key, a, 0)
    requires e.Lookup? || e.Prune? ==> e.now < a.expiry
    requires e.Lookup? && e.key == key ==> s.up[a.target]
    ensures Held(Apply(s, e), key, a, 0)
    ensures e.Lookup? && e.key == key ==> Hit(s, key, e.now) == Some(a.target)
  {
    var s' := Apply(s, e);
    assert forall call :: call in s.missed && s.missed[call] == key ==> call in Late(s, key);
    assert Late(s', key) == {};
  }

  /** With no pick of the source about to assign, its assignment answers every
      lookup in every interleaving. */
  lemma {:induction false} SticksAlone(start: State, run: seq<Step>, key: string, a: L.Assignment)
    requires Held(start, key, a, 0) && Undisturbed(start, run, key, a)
    ensures Sticks(start, run, key, a.target) && Held(After(start, run), key, a, 0)
    decreases |run|
  {
    hide Held, Hit, Apply, Enabled;
    if run != [] {
      var n := |run| - 1;
      var init, e := run[..n], run[n];
      forall i | 0 <= i < n ensures init[i] == run[i] && init[..i] == run[..i] {
      }
      assert forall i :: 0 <= i < n && init[i].Lookup? && init[i].key == key ==> UpAt(start, run, i, a.target);
      SticksAlone(start, init, key, a);
      StepHeld(After(start, init), e, key, a);
      forall k | 0 <= k < |run| && run[k].Lookup? && run[k].key == key ensures HitAt(start, run, k, key, a.target) {
        if k < n { assert HitAt(start, init, k, key, a.target); }
      }
    }
  }

  // ---------------------------------------------------------------- an overtaken pick

  /** A run from an empty table to a state in which the source has an assignment and
      at most `late` of its picks are about to make another. */
  ghost predicate Reached(ttl: nat, up: seq<bool>, clock: int, before: seq<Step>, key: string, a: L.Assignment, late: nat) {
    Runs(Empty(ttl, up, clock), before) && Held(After(Empty(ttl, up, clock), before), key, a, late)
  }

  /** Two picks of the source miss, and one of them assigns the first target. */
  function BothMiss(key: string, clock: int): seq<Step> {
    [Lookup(0, key, clock), Lookup(1, key, clock), Assign(1, 0, clock)]
  }

  /** The other one assigns the second target. */
  function Overwrites(key: string, clock: int): seq<Step> {
    [Assign(0, 1, clock), Lookup(2, key, clock)]
  }

  lemma BothMissAfter(key: string, ttl: nat, clock: int)
    ensures var start, run := Empty(ttl, [true, true], clock), BothMiss(key, clock);
            Runs(start, run)
            && After(start, run) == State(ttl, map[key := L.Assignment(0, clock + ttl)], [true, true], map[0 := key], clock)
  {
    hide Runs, After;
    var start, run := Empty(ttl, [true, true], clock), BothMiss(key, clock);
    Idle(start);
    assert run[..1] == [] + [run[0]] && run[..2] == run[..1] + [run[1]] && run == run[..2] + [run[2]];
    Append(start, [], run[0]);
    Append(start, run[..1], run[1]);
    Append(start, run[..2], run[2]);
    assert Without(map[0 := key, 1 := key], 1) == map[0 := key];
  }

  lemma OverwritesDoesNotStick(key: string, ttl: nat, clock: int)
    requires ttl > 0
    ensures Reached(ttl, [true, true], clock, BothMiss(key, clock), key, L.Assignment(0, clock + ttl), 1)
    ensures var start := After(Empty(ttl, [true, true], clock), BothMiss(key, clock));
            Undisturbed(start, Overwrites(key, clock), key, L.Assignment(0, clock + ttl))
            && !Sticks(start, Overwrites(key, clock), key, 0)
  {
    BothMissAfter(key, ttl, clock);
    var start := After(Empty(ttl, [true, true], clock), BothMiss(key, clock));
    hide Runs, After;
    var run, a := Overwrites(key, clock), L.Assignment(0, clock + ttl);
    assert Late(start, key) == {0};
    Idle(start);
    assert run[..1] == [] + [run[0]] && run == run[..1] + [run[1]];
    Append(start, [], run[0]);
    Append(start, run[..1], run[1]);
    assert After(start, run[..1]).table[key] == L.Assignment(1, clock + ttl);
    assert UpAt(start, run, 1, 0) && !HitAt(start, run, 1, key, 0);
  }

  /** Affinity holds in all interleavings from all such states exactly when no pick of
      the source is about to make another assignment. */
  lemma StickyIff(ttl: nat, late: nat)
    requires ttl > 0
    ensures (forall up, clock, before, run, key, a ::
               Reached(ttl, up, clock, before, key, a, late) && Undisturbed(After(Empty(ttl, up, clock), before), run, key, a) ==>
                 Sticks(After(Empty(ttl, up, clock), before), run, key, a.target))
       <==> late == 0
  {
    hide Runs, After;
    if late == 0 {
      forall up, clock, before, run, key, a
        | Reached(ttl, up, clock, before, key, a, late) && Undisturbed(After(Empty(ttl, up, clock), before), run, key, a)
        ensures Sticks(After(Empty(ttl, up, clock), before), run, key, a.target)
      {
        SticksAlone(After(Empty(ttl, up, clock), before), run, key, a);
      }
    } else {
      OverwritesDoesNotStick("", ttl, 0);
      assert Reached(ttl, [true, true], 0, BothMiss("", 0), "", L.Assignment(0, 0 + ttl), late);
    }
  }
}
