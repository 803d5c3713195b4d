/** The per-path debouncer of internal/config/watcher.go.  One goroutine handles
    file events in order; every update event starts a timer goroutine of its own. */
module Debounce {
  import opened Common

  datatype Change = Change(path: string, removed: bool)

  datatype Timer = Timer(path: string, seed: int, started: int, fired: bool)

  datatype State = State(pending: map<string, int>, timers: seq<Timer>)

  /** An update event reads the clock (`seed`), then stores the reading and starts
      its timer (`at`).  A timer fires when its goroutine takes the lock. */
  datatype Op =
    | Update(path: string, seed: int, at: int)
    | Remove(path: string, at: int)
    | Fire(timer: nat, at: int)

  predicate Enabled(s: State, op: Op, debounce: int) {
    op.Fire? ==>
      op.timer < |s.timers| && !s.timers[op.timer].fired && s.timers[op.timer].started + debounce <= op.at
  }

  /** No newer event has replaced the timer's reading. */
  predicate Current(s: State, t: Timer) {
    Lookup(s.pending, t.path) == Some(t.seed)
  }

  function Step(s: State, op: Op, debounce: int): State
    requires Enabled(s, op, debounce)
  {
    match op
    case Update(path, seed, at) =>
      State(s.pending[path := seed], s.timers + [Timer(path, seed, at, false)])
    case Remove(_, _) => s
    case Fire(k, _) =>
      var t := s.timers[k];
      State(if Current(s, t) then Without(s.pending, t.path) else s.pending, s.timers[k := t.(fired := true)])
  }

  function Emission(s: State, op: Op, debounce: int): Option<Change>
    requires Enabled(s, op, debounce)
  {
    match op
    case Update(_, _, _) => None
    case Remove(path, _) => Some(Change(path, true))
    case Fire(k, _) =>
      if Current(s, s.timers[k]) then Some(Change(s.timers[k].path, false)) else None
  }

  // ---------------------------------------------------------------- runs

  /** `next` may follow `op`: the lock is taken in clock order, and an event is
      handled only once the previous one has been. */
  predicate Follows(op: Op, next: Op) {
    && op.at <= next.at
    && (next.Update? && !op.Fire? ==> op.at <= next.seed)
  }

  ghost predicate Runs(ops: seq<Op>, debounce: int)
    decreases |ops|, 0
  {
    ops == []
    || (var init, op := ops[..|ops| - 1], ops[|ops| - 1];
        && Runs(init, debounce)
        && Enabled(After(init, debounce), op, debounce)
        && (op.Update? ==> op.seed <= op.at)
        && forall i :: 0 <= i < |init| ==> Follows(init[i], op))
  }

  ghost function After(ops: seq<Op>, debounce: int): State
    requires Runs(ops, debounce)
    decreases |ops|, 1
  {
    if ops == [] then State(map[], [])
    else Step(After(ops[..|ops| - 1], debounce), ops[|ops| - 1], debounce)
  }

  lemma {:induction false} Prefix(ops: seq<Op>, debounce: int, k: nat)
    requires Runs(ops, debounce) && k <= |ops|
    ensures Runs(ops[..k], debounce)
    ensures k < |ops| ==> Enabled(After(ops[..k], debounce), ops[k], debounce)
    decreases |ops|
  {
    if k == |ops| {
      assert ops[..k] == ops;
    } else {
      var init := ops[..|ops| - 1];
      Prefix(init, debounce, k);
      assert init[..k] == ops[..k];
    }
  }

  lemma Idle(debounce: int)
    ensures Runs([], debounce) && After([], debounce) == State(map[], [])
  {
  }

  lemma Append(ops: seq<Op>, op: Op, debounce: int)
    requires Runs(ops, debounce) && Enabled(After(ops, debounce), op, debounce) && (op.Update? ==> op.seed <= op.at)
    requires forall i :: 0 <= i < |ops| ==> Follows(ops[i], op)
    ensures Runs(ops + [op], debounce) && After(ops + [op], debounce) == Step(After(ops, debounce), op, debounce)
  {
    assert (ops + [op])[..|ops|] == ops;
  }

  /** What step `k` of the run sends: the decision taken under the lock.  The hand-over
      to the consumer's channel follows once the lock is back. */
  ghost function Sent(ops: seq<Op>, debounce: int, k: nat): Option<Change>
    requires Runs(ops, debounce) && k < |ops|
  {
    Prefix(ops, debounce, k);
    Emission(After(ops[..k], debounce), ops[k], debounce)
  }

  ghost predicate SendsUpdate(ops: seq<Op>, debounce: int, k: nat, path: string)
    requires Runs(ops, debounce) && k < |ops|
  {
    Sent(ops, debounce, k) == Some(Change(path, false))
  }

  lemma SentNow(ops: seq<Op>, debounce: int, k: nat)
    requires Runs(ops, debounce) && k < |ops|
    requires Runs(ops[..k], debounce) && Enabled(After(ops[..k], debounce), ops[k], debounce)
    ensures Sent(ops, debounce, k) == Emission(After(ops[..k], debounce), ops[k], debounce)
  {
  }

  lemma SentInPrefix(ops: seq<Op>, debounce: int, k: nat, n: nat)
    requires Runs(ops, debounce) && k < n <= |ops|
    ensures Runs(ops[..n], debounce) && Sent(ops[..n], debounce, k) == Sent(ops, debounce, k)
  {
    Prefix(ops, debounce, n);
    assert ops[..n][..k] == ops[..k];
  }

  // ---------------------------------------------------------------- quiet interval

  /** A stored reading is the newest of its path, and a timer starts after its reading. */
  lemma {:induction false} NewestReading(ops: seq<Op>, debounce: int)
    requires Runs(ops, debounce)
    ensures var s := After(ops, debounce);
            && (forall i :: 0 <= i < |ops| && ops[i].Update? && ops[i].path in s.pending ==>
                  ops[i].seed <= s.pending[ops[i].path])
            && (forall i :: 0 <= i < |ops| && ops[i].Update? ==> ops[i].seed <= ops[i].at)
            && (forall t :: t in s.timers ==> t.seed <= t.started)
            && (forall t :: t in s.timers ==>
                  exists i :: 0 <= i < |ops| && ops[i] == Update(t.path, t.seed, t.started))
    decreases |ops|
  {
    if ops != [] {
      var init, op := ops[..|ops| - 1], ops[|ops| - 1];
      NewestReading(init, debounce);
      var s, s' := After(init, debounce), After(ops, debounce);
      forall i | 0 <= i < |ops| && ops[i].Update? && ops[i].path in s'.pending
        ensures ops[i].seed <= s'.pending[ops[i].path]
      {
        if i < |init| { assert init[i] == ops[i] && Follows(init[i], op); }
      }
      forall t | t in s'.timers
        ensures t.seed <= t.started && exists i :: 0 <= i < |ops| && ops[i] == Update(t.path, t.seed, t.started)
      {
        if op.Update? && t == Timer(op.path, op.seed, op.at, false) {
          assert ops[|ops| - 1] == Update(t.path, t.seed, t.started);
        } else {
          var u := Origin(s, op, debounce, t);
          var i :| 0 <= i < |init| && init[i] == Update(u.path, u.seed, u.started);
          assert ops[i] == init[i];
        }
      }
    }
  }

  /** A timer other than a newly started one was there before, perhaps unfired. */
  lemma Origin(s: State, op: Op, debounce: int, t: Timer) returns (u: Timer)
    requires Enabled(s, op, debounce) && t in Step(s, op, debounce).timers
    requires op.Update? ==> t != Timer(op.path, op.seed, op.at, false)
    ensures u in s.timers && u == t.(fired := u.fired)
  {
    u := t;
    if t !in s.timers { u := s.timers[op.timer]; }
  }

  /** Whatever has been stored on the path when an update is sent was read a full
      interval before; so a later reading belongs to an event stored afterwards. */
  lemma QuietBeforeUpdate(ops: seq<Op>, debounce: int, k: nat, path: string)
    requires Runs(ops, debounce) && k < |ops| && SendsUpdate(ops, debounce, k, path)
    ensures forall i :: 0 <= i < |ops| && ops[i].Update? && ops[i].path == path && ops[k].at < ops[i].seed + debounce ==> k < i
    ensures exists i :: 0 <= i < k && ops[i].Update? && ops[i].path == path && ops[i].at + debounce <= ops[k].at
  {
    Prefix(ops, debounce, k);
    var before := ops[..k];
    NewestReading(before, debounce);
    var t := After(before, debounce).timers[ops[k].timer];
    assert t.path == path;
    assert forall i :: 0 <= i < k ==> before[i] == ops[i];
    var i :| 0 <= i < |before| && before[i] == Update(t.path, t.seed, t.started);
    assert ops[i] == before[i];
  }

  /** Every event stores its reading within `bound` of taking it. */
  ghost predicate Prompt(ops: seq<Op>, bound: int) {
    forall i :: 0 <= i < |ops| && ops[i].Update? ==> ops[i].at < ops[i].seed + bound
  }

  /** No event of the path, wherever it stands in the run, is read in the interval
      before an update is sent, its last `slack` time units excepted. */
  ghost predicate Quiet(ops: seq<Op>, debounce: int, slack: nat)
    requires Runs(ops, debounce)
  {
    forall i, k, path :: 0 <= i < |ops| && 0 <= k < |ops| && SendsUpdate(ops, debounce, k, path) ==>
      ops[i].Update? && ops[i].path == path ==> Clear(ops[i].seed, ops[k].at, debounce, slack)
  }

  /** A reading is outside the quiet part of the interval that ends at `sent`. */
  predicate Clear(reading: int, sent: int, debounce: int, slack: nat) {
    reading + debounce <= sent || sent < reading + slack
  }

  lemma PromptIsQuiet(ops: seq<Op>, debounce: int, slack: nat)
    requires Runs(ops, debounce) && Prompt(ops, slack)
    ensures Quiet(ops, debounce, slack)
  {
    forall i, k, path | 0 <= i < |ops| && 0 <= k < |ops| && SendsUpdate(ops, debounce, k, path)
                        && ops[i].Update? && ops[i].path == path
      ensures Clear(ops[i].seed, ops[k].at, debounce, slack)
    {
      QuietBeforeUpdate(ops, debounce, k, path);
      if k < i { InOrder(ops, debounce, k, i); }
    }
  }

  lemma InOrder(ops: seq<Op>, debounce: int, i: nat, k: nat)
    requires Runs(ops, debounce) && i < k < |ops|
    ensures Follows(ops[i], ops[k])
  {
    Prefix(ops, debounce, k + 1);
    assert ops[..k + 1][..k][i] == ops[i] && ops[..k + 1][k] == ops[k];
  }

  /** An event read shortly before the timer fires and stored just after. */
  function Overtaken(path: string, debounce: int, slack: nat): seq<Op> {
    [Update(path, 0, 0), Fire(0, debounce), Update(path, debounce - slack, debounce)]
  }

  lemma OvertakenIsNotQuiet(path: string, debounce: int, slack: nat)
    requires slack < debounce
    ensures Runs(Overtaken(path, debounce, slack), debounce) && !Quiet(Overtaken(path, debounce, slack), debounce, slack)
    ensures Prompt(Overtaken(path, debounce, slack), slack + 1)
  {
    hide Runs, After, Sent;
    Idle(debounce);
    var ops := Overtaken(path, debounce, slack);
    assert ops[..1] == [] + [ops[0]];
    Append([], ops[0], debounce);
    assert ops[..2] == ops[..1] + [ops[1]];
    Append(ops[..1], ops[1], debounce);
    assert ops == ops[..2] + [ops[2]];
    Append(ops[..2], ops[2], debounce);
    SentNow(ops, debounce, 1);
    assert SendsUpdate(ops, debounce, 1, path) && ops[2].Update?;
    assert !Clear(ops[2].seed, ops[1].at, debounce, slack);
  }

  /** The interval before every update is quiet up to its last `slack` time units,
      for all runs, exactly when no event takes longer than that to store its
      reading -- or nothing of the interval is left.  With a slack of one, events
      must be stored at the instant they are read. */
  lemma QuietIff(debounce: int, bound: int, slack: nat)
    ensures (forall ops :: Runs(ops, debounce) && Prompt(ops, bound) ==> Quiet(ops, debounce, slack))
       <==> bound <= slack || debounce <= slack
  {
    if bound <= slack || debounce <= slack {
      forall ops | Runs(ops, debounce) && Prompt(ops, bound) ensures Quiet(ops, debounce, slack) {
        if bound <= slack { PromptIsQuiet(ops, debounce, slack); }
      }
    } else {
      OvertakenIsNotQuiet("", debounce, slack);
    }
  }

  // ---------------------------------------------------------------- removals

  function NoRemovals(ops: seq<Op>): seq<Op> {
    if ops == [] then []
    else NoRemovals(ops[..|ops| - 1]) + if ops[|ops| - 1].Remove? then [] else [ops[|ops| - 1]]
  }

  lemma {:induction false} NoRemovalsIn(ops: seq<Op>)
    ensures forall op :: op in NoRemovals(ops) ==> op in ops
  {
    if ops != [] {
      NoRemovalsIn(ops[..|ops| - 1]);
      assert ops == ops[..|ops| - 1] + [ops[|ops| - 1]];
    }
  }

  /** Removals neither restart an interval nor cancel a pending update: without
      them the run is a run to the same state. */
  lemma {:induction false} RemovalsDoNotCount(ops: seq<Op>, debounce: int)
    requires Runs(ops, debounce)
    ensures Runs(NoRemovals(ops), debounce) && After(NoRemovals(ops), debounce) == After(ops, debounce)
    decreases |ops|
  {
    if ops != [] {
      var init, op := ops[..|ops| - 1], ops[|ops| - 1];
      RemovalsDoNotCount(init, debounce);
      if op.Remove? {
        assert NoRemovals(ops) == NoRemovals(init);
      } else {
        NoRemovalsIn(init);
        forall i | 0 <= i < |NoRemovals(init)| ensures Follows(NoRemovals(init)[i], op) {
          assert NoRemovals(init)[i] in init;
        }
        Append(NoRemovals(init), op, debounce);
      }
    }
  }

  /** Everything a run sends, in order. */
  ghost function Log(ops: seq<Op>, debounce: int): seq<Change>
    requires Runs(ops, debounce)
    decreases |ops|
  {
    if ops == [] then []
    else
      var n := |ops| - 1;
      Log(ops[..n], debounce) + match Sent(ops, debounce, n) case None => [] case Some(change) => [change]
  }

  function RemovalsSent(log: seq<Change>): seq<string> {
    if log == [] then []
    else RemovalsSent(log[..|log| - 1]) + if log[|log| - 1].removed then [log[|log| - 1].path] else []
  }

  function RemovalEvents(ops: seq<Op>): seq<string> {
    if ops == [] then []
    else RemovalEvents(ops[..|ops| - 1]) + if ops[|ops| - 1].Remove? then [ops[|ops| - 1].path] else []
  }

  /** Every removal event is sent, each of them once and in their order, and nothing
      else is sent as a removal. */
  lemma {:induction false} EveryRemovalIsSent(ops: seq<Op>, debounce: int)
    requires Runs(ops, debounce)
    ensures RemovalsSent(Log(ops, debounce)) == RemovalEvents(ops)
    decreases |ops|
  {
    if ops != [] {
      var init := ops[..|ops| - 1];
      EveryRemovalIsSent(init, debounce);
      var log := Log(init, debounce);
      var sent := Sent(ops, debounce, |init|);
      assert sent.Some? ==> (log + [sent.value])[..|log|] == log;
      assert log + [] == log;
    }
  }

  // ---------------------------------------------------------------- spacing

  /** No earlier event of the path has the same reading. */
  predicate NewReading(ops: seq<Op>, i: nat)
    requires i < |ops| && ops[i].Update?
  {
    forall j :: 0 <= j < i && ops[j].Update? && ops[j].path == ops[i].path ==> ops[j].seed != ops[i].seed
  }

  ghost predicate DistinctReadings(ops: seq<Op>) {
    forall i :: 0 <= i < |ops| && ops[i].Update? ==> NewReading(ops, i)
  }

  /** Only an event that repeats a reading has to be stored within `bound`. */
  ghost predicate PromptOrNew(ops: seq<Op>, bound: int) {
    forall i :: 0 <= i < |ops| && ops[i].Update? ==> ops[i].at < ops[i].seed + bound || NewReading(ops, i)
  }

  /** Updates of one path are sent at least a debounce interval apart. */
  ghost predicate Spaced(ops: seq<Op>, debounce: int)
    requires Runs(ops, debounce)
  {
    forall i, k, path :: 0 <= i < k < |ops| && SendsUpdate(ops, debounce, i, path) && SendsUpdate(ops, debounce, k, path) ==>
      ops[i].at + debounce <= ops[k].at
  }

  /** The timer started no earlier than `sent`, or its reading was a full interval
      old then and is no longer the stored one. */
  predicate Spent(s: State, t: Timer, sent: int, debounce: int) {
    sent <= t.started || (t.seed + debounce <= sent && !Current(s, t))
  }

  lemma PromptOrNewInit(ops: seq<Op>, bound: int, n: nat)
    requires PromptOrNew(ops, bound) && n <= |ops|
    ensures PromptOrNew(ops[..n], bound)
  {
    forall i | 0 <= i < n && ops[i].Update? ensures ops[..n][i].at < ops[..n][i].seed + bound || NewReading(ops[..n], i) {
      assert ops[..n][i] == ops[i];
    }
  }

  /** A step keeps a timer spent unless an event takes its reading again. */
  lemma StaysSpent(s: State, op: Op, debounce: int, t: Timer, u: Timer, sent: int)
    requires Enabled(s, op, debounce) && Spent(s, u, sent, debounce) && u == t.(fired := u.fired)
    requires op.Update? && op.path == t.path && t.started < sent ==> op.seed != t.seed
    ensures Spent(Step(s, op, debounce), t, sent, debounce)
  {
  }

  /** In a run of such events a reading that was a full interval old is not taken
      again. */
  lemma ReadingIsNotRepeated(ops: seq<Op>, debounce: int, i: nat, j: nat, sent: int)
    requires PromptOrNew(ops, debounce) && i < j < |ops| && ops[i].Update? && ops[j].Update? && ops[i].path == ops[j].path
    requires ops[i].seed + debounce <= sent <= ops[j].at
    ensures ops[i].seed != ops[j].seed
  {
  }

  /** From the moment an update is sent on, no timer started before it can match
      again. */
  lemma {:induction false} SinceSent(ops: seq<Op>, debounce: int, i: nat, path: string)
    requires Runs(ops, debounce) && PromptOrNew(ops, debounce) && i < |ops|
    requires SendsUpdate(ops, debounce, i, path)
    ensures forall t :: t in After(ops, debounce).timers && t.path == path ==>
              Spent(After(ops, debounce), t, ops[i].at, debounce)
    decreases |ops|
  {
    var init, op := ops[..|ops| - 1], ops[|ops| - 1];
    var s, s' := After(init, debounce), After(ops, debounce);
    assert forall j :: 0 <= j < |init| ==> init[j] == ops[j];
    NewestReading(init, debounce);
    if i == |init| {
      QuietBeforeUpdate(ops, debounce, i, path);
      forall t | t in s'.timers && t.path == path ensures Spent(s', t, op.at, debounce) {
        var u := Origin(s, op, debounce, t);
        var j :| 0 <= j < |init| && init[j] == Update(u.path, u.seed, u.started);
        assert ops[j] == init[j];
      }
    } else {
      SentInPrefix(ops, debounce, i, |init|);
      PromptOrNewInit(ops, debounce, |init|);
      SinceSent(init, debounce, i, path);
      assert Follows(init[i], op);
      forall t | t in s'.timers && t.path == path ensures Spent(s', t, ops[i].at, debounce) {
        if !(op.Update? && t == Timer(op.path, op.seed, op.at, false)) {
          var u := Origin(s, op, debounce, t);
          var j :| 0 <= j < |init| && init[j] == Update(u.path, u.seed, u.started);
          assert ops[j] == init[j];
          if op.Update? && op.path == path && t.started < ops[i].at {
            ReadingIsNotRepeated(ops, debounce, j, |init|, ops[i].at);
          }
          StaysSpent(s, op, debounce, t, u, ops[i].at);
        }
      }
    }
  }

  lemma PromptOrNewIsSpaced(ops: seq<Op>, debounce: int)
    requires Runs(ops, debounce) && PromptOrNew(ops, debounce)
    ensures Spaced(ops, debounce)
  {
    forall i, k, path | 0 <= i < k < |ops| && SendsUpdate(ops, debounce, i, path) && SendsUpdate(ops, debounce, k, path)
      ensures ops[i].at + debounce <= ops[k].at
    {
      Prefix(ops, debounce, k);
      SentInPrefix(ops, debounce, i, k);
      PromptOrNewInit(ops, debounce, k);
      SinceSent(ops[..k], debounce, i, path);
      var t := After(ops[..k], debounce).timers[ops[k].timer];
      assert t in After(ops[..k], debounce).timers && t.path == path;
      assert Spent(After(ops[..k], debounce), t, ops[i].at, debounce);
    }
  }

  /** Two events with one reading start two timers; a third event takes the same
      reading but stores it only after the first timer has fired, and the second
      timer, finding its own reading again, fires at once. */
  function Stalled(path: string, debounce: int): seq<Op> {
    [Update(path, 0, 0), Update(path, 0, 0), Fire(0, debounce), Update(path, 0, debounce), Fire(1, debounce)]
  }

  lemma StalledIsNotSpaced(path: string, debounce: int)
    requires debounce > 0
    ensures Runs(Stalled(path, debounce), debounce) && !Spaced(Stalled(path, debounce), debounce)
    ensures Prompt(Stalled(path, debounce), debounce + 1)
  {
    hide Runs, After, Sent;
    Idle(debounce);
    var t, late := Timer(path, 0, 0, false), Timer(path, 0, debounce, false);
    var ops := Stalled(path, debounce);
    assert ops[..1] == [] + [ops[0]];
    Append([], ops[0], debounce);
    assert ops[..2] == ops[..1] + [ops[1]];
    Append(ops[..1], ops[1], debounce);
    assert After(ops[..2], debounce) == State(map[path := 0], [t, t]);
    assert ops[..3] == ops[..2] + [ops[2]];
    Append(ops[..2], ops[2], debounce);
    assert Without(map[path := 0], path) == map[];
    assert After(ops[..3], debounce) == State(map[], [t.(fired := true), t]);
    assert ops[..4] == ops[..3] + [ops[3]];
    Append(ops[..3], ops[3], debounce);
    assert After(ops[..4], debounce) == State(map[path := 0], [t.(fired := true), t, late]);
    assert ops == ops[..4] + [ops[4]];
    Append(ops[..4], ops[4], debounce);
    SentNow(ops, debounce, 2);
    SentNow(ops, debounce, 4);
    assert SendsUpdate(ops, debounce, 2, path) && SendsUpdate(ops, debounce, 4, path);
  }

  /** Updates of one path are a debounce interval apart in all runs of a class
      exactly when the class makes every event either take a new reading or store
      it within the interval: the stall of a repeated reading is what breaks it. */
  lemma SpacedIff(debounce: int, bound: int, distinct: bool)
    requires debounce > 0
    ensures (forall ops :: Runs(ops, debounce) && PromptOrNew(ops, bound) && (distinct ==> DistinctReadings(ops)) ==>
               Spaced(ops, debounce))
       <==> bound <= debounce || distinct
  {
    if bound <= debounce || distinct {
      forall ops | Runs(ops, debounce) && PromptOrNew(ops, bound) && (distinct ==> DistinctReadings(ops))
        ensures Spaced(ops, debounce)
      {
        assert PromptOrNew(ops, debounce);
        PromptOrNewIsSpaced(ops, debounce);
      }
    } else {
      StalledIsNotSpaced("", debounce);
    }
  }

  // ---------------------------------------------------------------- nothing is lost

  /** A stored reading always has a timer that has yet to fire. */
  lemma {:induction false} PendingHasTimer(ops: seq<Op>, debounce: int, path: string)
    requires Runs(ops, debounce) && path in After(ops, debounce).pending
    ensures exists t :: t in After(ops, debounce).timers && !t.fired && t.path == path && Current(After(ops, debounce), t)
    decreases |ops|
  {
    var init, op := ops[..|ops| - 1], ops[|ops| - 1];
    var s, s' := After(init, debounce), After(ops, debounce);
    if op.Update? && op.path == path {
      assert s'.timers[|s.timers|] == Timer(path, op.seed, op.at, false);
    } else {
      PendingHasTimer(init, debounce, path);
      var k :| 0 <= k < |s.timers| && !s.timers[k].fired && s.timers[k].path == path && Current(s, s.timers[k]);
      assert s'.timers[k] == s.timers[k];
    }
  }

  /** An event is pending until an update of its path is sent. */
  lemma {:induction false} SentOrPending(ops: seq<Op>, debounce: int, i: nat)
    requires Runs(ops, debounce) && i < |ops| && ops[i].Update?
    ensures ops[i].path in After(ops, debounce).pending
            || exists k :: i < k < |ops| && SendsUpdate(ops, debounce, k, ops[i].path)
    decreases |ops|
  {
    var init, op := ops[..|ops| - 1], ops[|ops| - 1];
    if i < |init| {
      SentOrPending(init, debounce, i);
      var path := ops[i].path;
      if path in After(init, debounce).pending {
        if path !in After(ops, debounce).pending { assert SendsUpdate(ops, debounce, |init|, path); }
      } else {
        var k :| i < k < |init| && SendsUpdate(init, debounce, k, path);
        SentInPrefix(ops, debounce, k, |init|);
        assert SendsUpdate(ops, debounce, k, path);
      }
    }
  }

  /** Once every timer has fired, each update event has an update sent after it
      -- even when the file was removed in between. */
  lemma EveryUpdateIsSent(ops: seq<Op>, debounce: int, i: nat)
    requires Runs(ops, debounce) && i < |ops| && ops[i].Update?
    requires forall t :: t in After(ops, debounce).timers ==> t.fired
    ensures exists k :: i < k < |ops| && SendsUpdate(ops, debounce, k, ops[i].path)
  {
    SentOrPending(ops, debounce, i);
    if ops[i].path in After(ops, debounce).pending { PendingHasTimer(ops, debounce, ops[i].path); }
  }

  /** Between two updates sent for one path there is an event on it: one burst is
      sent once. */
  lemma OneUpdatePerBurst(ops: seq<Op>, debounce: int, i: nat, k: nat, path: string)
    requires Runs(ops, debounce) && i < k < |ops|
    requires SendsUpdate(ops, debounce, i, path) && SendsUpdate(ops, debounce, k, path)
    ensures exists j :: i < j < k && ops[j].Update? && ops[j].path == path
  {
    Prefix(ops, debounce, k);
    SentInPrefix(ops, debounce, i, k);
    EventSince(ops[..k], debounce, i, path);
    var j :| i < j < k && ops[..k][j].Update? && ops[..k][j].path == path;
    assert ops[j] == ops[..k][j];
  }

  lemma {:induction false} EventSince(ops: seq<Op>, debounce: int, i: nat, path: string)
    requires Runs(ops, debounce) && i < |ops| && SendsUpdate(ops, debounce, i, path)
    requires path in After(ops, debounce).pending
    ensures exists j :: i < j < |ops| && ops[j].Update? && ops[j].path == path
    decreases |ops|
  {
    var init, op := ops[..|ops| - 1], ops[|ops| - 1];
    if op.Update? && op.path == path {
      assert i < |init|;
    } else {
      SentInPrefix(ops, debounce, i, |ops|);
      if i < |init| {
        SentInPrefix(ops, debounce, i, |init|);
        EventSince(init, debounce, i, path);
        var j :| i < j < |init| && init[j].Update? && init[j].path == path;
        assert ops[j] == init[j];
      }
    }
  }

  // ---------------------------------------------------------------- the object

  /** The watcher's event handler and the locked section of its timer goroutines.
      `timers` records the goroutines that have been started. */
  class Watcher {
    const debounce: int
    var pending: map<string, int>
    ghost var timers: seq<Timer>

    ghost function Model(): State
      reads this
    {
      State(pending, timers)
    }

    constructor (debounce: int)
      ensures Model() == State(map[], []) && this.debounce == debounce
    {
      this.debounce := debounce;
      pending, timers := map[], [];
    }

    /** A removal or rename is sent at once; anything else waits on a timer. */
    method Handle(path: string, removal: bool, seed: int, ghost at: int) returns (sent: Option<Change>)
      modifies this
      ensures var op := if removal then Remove(path, at) else Update(path, seed, at);
              Model() == Step(old(Model()), op, debounce) && sent == Emission(old(Model()), op, debounce)
      ensures sent == if removal then Some(Change(path, true)) else None
      ensures pending == if removal then old(pending) else old(pending)[path := seed]
    {
      if removal { return Some(Change(path, true)); }
      pending := pending[path := seed];
      timers := timers + [Timer(path, seed, at, false)];
      sent := None;
    }

    /** Timer goroutine `k` after its wait. */
    method ScheduleEmit(path: string, seed: int, ghost k: nat, ghost at: int) returns (sent: Option<Change>)
      requires Enabled(Model(), Fire(k, at), debounce) && timers[k].path == path && timers[k].seed == seed
      modifies this
      ensures Model() == Step(old(Model()), Fire(k, at), debounce)
      ensures sent == Emission(old(Model()), Fire(k, at), debounce)
    {
      timers := timers[k := timers[k].(fired := true)];
      if path !in pending || pending[path] != seed { return None; }
      pending := Without(pending, path);
      sent := Some(Change(path, false));
    }
  }
}
