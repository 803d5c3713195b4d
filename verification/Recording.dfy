/** Concurrent records of internal/bandwidth/tracker.go.  A record reads the clock,
    adds its bytes to a bucket and checks the quota afterwards, and records of other
    connections, the cleanup loop and manual suspension may run in between.  The
    quota stays as it is, and nothing lifts a suspension.

    A check loads the flag, sums the buckets and sets the flag.  The load and the sum
    are one step: a flag set in between stays set, and bytes added during the sum
    belong to records still under way.  A check of the cleanup loop that sets the flag
    later is a `Suspend`. */
module Recording {
  import opened Common
  import opened Calendar
  import B = Bandwidth

  /** `Begun` has read the clock, `Added` is in its bucket, and `Over` has found a
      limit reached. */
  datatype Stage = Begun | Added | Over

  datatype Record = Record(n: int, outgoing: bool, at: int, stage: Stage)

  datatype State = State(buckets: map<int, B.Pair>, suspended: bool, records: map<nat, Record>, clock: int)

  datatype Step =
    | Begin(id: nat, n: int, outgoing: bool, at: int)
    | Add(id: nat)
    | Look(id: nat, at: int)
    | Trip(id: nat)
    | Check(at: int)
    | Prune(at: int)
    | Suspend

  const INIT := State(map[], false, map[], 0)

  predicate Readable(s: State, at: int, offset: int) {
    Sane(at, offset) && s.clock <= at
  }

  predicate Stands(s: State, id: nat, stage: Stage) {
    id in s.records && s.records[id].stage == stage
  }

  /** At most `room` records are under way. */
  predicate Enabled(s: State, e: Step, offset: int, room: nat) {
    match e
    case Begin(id, n, _, at) => id !in s.records && |s.records| < room && n >= 0 && Readable(s, at, offset)
    case Add(id) => Stands(s, id, Begun)
    case Look(id, at) => Stands(s, id, Added) && Readable(s, at, offset)
    case Trip(id) => Stands(s, id, Over)
    case Check(at) => Readable(s, at, offset)
    case Prune(at) => Readable(s, at, offset)
    case Suspend => true
  }

  ghost predicate Reached(q: B.Quota, buckets: map<int, B.Pair>, at: int, offset: int)
    requires Sane(at, offset)
  {
    exists kind :: B.Exceeded(B.State(buckets, 0, 0, false, q), kind, at, offset)
  }

  ghost function Apply(s: State, e: Step, q: B.Quota, offset: int, room: nat): State
    requires Enabled(s, e, offset, room)
  {
    match e
    case Begin(id, n, outgoing, at) => s.(records := s.records[id := Record(n, outgoing, at, Begun)], clock := at)
    case Add(id) =>
      var r := s.records[id];
      s.(buckets := B.Recorded(s.buckets, HourOf(r.at), r.n, r.outgoing), records := s.records[id := r.(stage := Added)])
    case Look(id, at) =>
      s.(clock := at,
         records := if !s.suspended && Reached(q, s.buckets, at, offset) then s.records[id := s.records[id].(stage := Over)]
                    else Without(s.records, id))
    case Trip(id) => s.(suspended := true, records := Without(s.records, id))
    case Check(at) => s.(clock := at, suspended := s.suspended || Reached(q, s.buckets, at, offset))
    case Prune(at) => s.(clock := at, buckets := B.Pruned(s.buckets, at))
    case Suspend => s.(suspended := true)
  }

  ghost predicate Runs(q: B.Quota, offset: int, room: nat, run: seq<Step>)
    decreases |run|, 0
  {
    run == [] || (Runs(q, offset, room, run[..|run| - 1]) &&
                  Enabled(After(q, offset, room, run[..|run| - 1]), run[|run| - 1], offset, room))
  }

  ghost function After(q: B.Quota, offset: int, room: nat, run: seq<Step>): State
    requires Runs(q, offset, room, run)
    decreases |run|, 1
  {
    if run == [] then INIT
    else Apply(After(q, offset, room, run[..|run| - 1]), run[|run| - 1], q, offset, room)
  }

  /** A record that nothing interferes with is the tracker's `Record`. */
  lemma AloneIsRecord(s: State, id: nat, n: int, outgoing: bool, at: int, check: int, q: B.Quota, offset: int, room: nat)
    requires Enabled(s, Begin(id, n, outgoing, at), offset, room) && Sane(check, offset) && at <= check
    ensures var s1 := Apply(s, Begin(id, n, outgoing, at), q, offset, room);
            var s2 := Apply(s1, Add(id), q, offset, room);
            var s3 := Apply(s2, Look(id, check), q, offset, room);
            var s4 := if Stands(s3, id, Over) then Apply(s3, Trip(id), q, offset, room) else s3;
            var t := B.Apply(B.State(s.buckets, 0, 0, s.suspended, q), B.Record(n, outgoing, at, check), offset);
            s4 == s.(buckets := t.buckets, suspended := t.suspended, clock := check)
  {
    hide B.Used, B.Recorded, Floor;
    var b := B.Recorded(s.buckets, HourOf(at), n, outgoing);
    var t := B.State(b, if outgoing then 0 else n, if outgoing then n else 0, s.suspended, q);
    assert forall kind :: B.Exceeded(t, kind, check, offset) <==> B.Exceeded(B.State(b, 0, 0, false, q), kind, check, offset);
    assert Without(s.records[id := Record(n, outgoing, at, Added)], id) == s.records;
    assert Without(s.records[id := Record(n, outgoing, at, Over)], id) == s.records;
  }

  // ---------------------------------------------------------------- bytes of a window

  /** Bytes added for readings at or after `from`. */
  ghost function Logged(q: B.Quota, offset: int, room: nat, run: seq<Step>, from: int): int
    requires Runs(q, offset, room, run)
  {
    if run == [] then 0
    else
      var s, e := After(q, offset, room, run[..|run| - 1]), run[|run| - 1];
      Logged(q, offset, room, run[..|run| - 1], from)
      + if e.Add? && s.records[e.id].at >= from then s.records[e.id].n else 0
  }

  predicate InWindow(at: int, kind: Window, begin: int, offset: int) {
    Sane(at, offset) && Calendar.Begin(kind, at, offset) == begin
  }

  /** Bytes added while not suspended inside the window that begins at `begin`. */
  ghost function Served(q: B.Quota, offset: int, room: nat, run: seq<Step>, kind: Window, begin: int): int
    requires Runs(q, offset, room, run)
  {
    if run == [] then 0
    else
      var s, e := After(q, offset, room, run[..|run| - 1]), run[|run| - 1];
      Served(q, offset, room, run[..|run| - 1], kind, begin)
      + if e.Add? && !s.suspended && InWindow(s.records[e.id].at, kind, begin, offset) then s.records[e.id].n else 0
  }

  function Weight(r: Record, kind: Window, begin: int, offset: int): int {
    if !r.stage.Begun? && InWindow(r.at, kind, begin, offset) then r.n else 0
  }

  /** Bytes added to the window by the records still under way. */
  ghost function Pending(records: map<nat, Record>, kind: Window, begin: int, offset: int): int
    decreases |records|
  {
    if records == map[] then 0
    else
      var id := Any(records.Keys);
      assert |Without(records, id).Keys| < |records.Keys|;
      Weight(records[id], kind, begin, offset) + Pending(Without(records, id), kind, begin, offset)
  }

  lemma {:induction false} PendingTakes(records: map<nat, Record>, id: nat, kind: Window, begin: int, offset: int)
    requires id in records
    ensures Pending(records, kind, begin, offset)
         == Weight(records[id], kind, begin, offset) + Pending(Without(records, id), kind, begin, offset)
    decreases |records|
  {
    hide Weight;
    var other := Any(records.Keys);
    if other != id {
      assert |Without(records, id).Keys| < |records.Keys| && |Without(records, other).Keys| < |records.Keys|;
      PendingTakes(Without(records, other), id, kind, begin, offset);
      PendingTakes(Without(records, id), other, kind, begin, offset);
      assert Without(Without(records, other), id) == Without(Without(records, id), other);
    }
  }

  lemma PendingSets(records: map<nat, Record>, id: nat, r: Record, kind: Window, begin: int, offset: int)
    ensures Pending(records[id := r], kind, begin, offset)
         == Pending(Without(records, id), kind, begin, offset) + Weight(r, kind, begin, offset)
  {
    PendingTakes(records[id := r], id, kind, begin, offset);
    assert Without(records[id := r], id) == Without(records, id);
  }

  lemma {:induction false} PendingNonNegative(records: map<nat, Record>, kind: Window, begin: int, offset: int)
    requires forall id :: id in records ==> records[id].n >= 0
    ensures Pending(records, kind, begin, offset) >= 0
    decreases |records|
  {
    if records != map[] {
      var id := Any(records.Keys);
      assert |Without(records, id).Keys| < |records.Keys|;
      PendingNonNegative(Without(records, id), kind, begin, offset);
    }
  }

  // ---------------------------------------------------------------- the buckets hold the log

  ghost predicate RecordsOk(s: State, offset: int) {
    forall id :: id in s.records ==> s.records[id].n >= 0 && Sane(s.records[id].at, offset) && s.records[id].at <= s.clock
  }

  lemma StepOk(s: State, e: Step, q: B.Quota, offset: int, room: nat)
    requires Enabled(s, e, offset, room) && RecordsOk(s, offset)
    ensures RecordsOk(Apply(s, e, q, offset, room), offset) && s.clock <= Apply(s, e, q, offset, room).clock
    ensures e.Prune? ==> e.at == Apply(s, e, q, offset, room).clock
  {
    hide Reached, B.Recorded, B.Pruned;
  }

  lemma {:induction false} RunOk(q: B.Quota, offset: int, room: nat, run: seq<Step>)
    requires Runs(q, offset, room, run)
    ensures RecordsOk(After(q, offset, room, run), offset)
    ensures forall i :: 0 <= i < |run| && run[i].Prune? ==> run[i].at <= After(q, offset, room, run).clock
    decreases |run|
  {
    hide RecordsOk, Apply, Enabled;
    if run == [] {
      assert RecordsOk(INIT, offset) by { NoRecords(offset); }
    } else {
      RunOk(q, offset, room, run[..|run| - 1]);
      StepOk(After(q, offset, room, run[..|run| - 1]), run[|run| - 1], q, offset, room);
    }
  }

  lemma NoRecords(offset: int)
    ensures RecordsOk(INIT, offset)
  {
  }

  lemma {:induction false} UsedIsLogged(q: B.Quota, offset: int, room: nat, run: seq<Step>, from: int)
    requires Runs(q, offset, room, run) && from % HOUR == 0
    requires forall i :: 0 <= i < |run| && run[i].Prune? ==> from >= Cutoff(run[i].at)
    ensures B.Used(After(q, offset, room, run).buckets, from) == Logged(q, offset, room, run, from)
    decreases |run|
  {
    hide B.Used, B.Recorded, B.Pruned, Cutoff, Reached;
    if run == [] {
      B.NothingUsed(from);
    } else {
      var init, e := run[..|run| - 1], run[|run| - 1];
      UsedIsLogged(q, offset, room, init, from);
      var s := After(q, offset, room, init);
      match e
      case Add(id) =>
        B.UsedRecorded(s.buckets, HourOf(s.records[id].at), s.records[id].n, s.records[id].outgoing, from);
        HourOfIff(s.records[id].at, from);
      case Prune(at) => B.UsedPruned(s.buckets, at, from);
      case _ =>
    }
  }

  lemma {:induction false} ServedIsLogged(q: B.Quota, offset: int, room: nat, run: seq<Step>, kind: Window, begin: int, from: int)
    requires Runs(q, offset, room, run) && (from <= begin || from <= 0)
    ensures Served(q, offset, room, run, kind, begin) <= Logged(q, offset, room, run, from)
    decreases |run|
  {
    hide Reached, B.Recorded, B.Pruned, Calendar.Begin;
    if run != [] {
      var init, e := run[..|run| - 1], run[|run| - 1];
      ServedIsLogged(q, offset, room, init, kind, begin, from);
      RunOk(q, offset, room, init);
      if e.Add? { BeginWithinMonth(kind, After(q, offset, room, init).records[e.id].at, offset); }
    }
  }

  // ---------------------------------------------------------------- the limit

  /** A limit is in force, and windows do not reach behind the pruning. */
  predicate Limited(q: B.Quota, kind: Window, offset: int) {
    q.Limit(kind) > 0 && (MidnightPastHour(offset) <= 1 || !kind.Monthly?)
  }

  /** A check that finds no limit reached has seen all that was served in its window. */
  lemma UnreachedIsUnder(q: B.Quota, offset: int, room: nat, run: seq<Step>, kind: Window, at: int)
    requires Runs(q, offset, room, run) && Limited(q, kind, offset)
    requires Readable(After(q, offset, room, run), at, offset) && !Reached(q, After(q, offset, room, run).buckets, at, offset)
    ensures Served(q, offset, room, run, kind, Calendar.Begin(kind, at, offset)) < q.Limit(kind)
  {
    var s := After(q, offset, room, run);
    assert !B.Exceeded(B.State(s.buckets, 0, 0, false, q), kind, at, offset);
    RunOk(q, offset, room, run);
    FloorIsHour(kind, at, offset);
    FloorAfterCutoff(kind, at, offset);
    FloorBeforeBegin(kind, at, offset);
    hide After, Runs, Floor;
    UsedIsLogged(q, offset, room, run, Floor(kind, at, offset));
    ServedIsLogged(q, offset, room, run, kind, Calendar.Begin(kind, at, offset), Floor(kind, at, offset));
  }

  /** Bytes of the window whose records are done. */
  ghost function Done(q: B.Quota, offset: int, room: nat, run: seq<Step>, kind: Window, begin: int): int
    requires Runs(q, offset, room, run)
  {
    Served(q, offset, room, run, kind, begin) - Pending(After(q, offset, room, run).records, kind, begin, offset)
  }

  /** What a step adds to the window. */
  function Gain(s: State, e: Step, kind: Window, begin: int, offset: int): int {
    if e.Add? && e.id in s.records && InWindow(s.records[e.id].at, kind, begin, offset) then s.records[e.id].n else 0
  }

  lemma PendingStep(s: State, e: Step, q: B.Quota, offset: int, room: nat, kind: Window, begin: int)
    requires Enabled(s, e, offset, room) && !Apply(s, e, q, offset, room).suspended
    ensures !s.suspended
    ensures !(e.Look? && InWindow(s.records[e.id].at, kind, begin, offset) && !Reached(q, s.buckets, e.at, offset)) ==>
              Pending(Apply(s, e, q, offset, room).records, kind, begin, offset)
              == Pending(s.records, kind, begin, offset) + Gain(s, e, kind, begin, offset)
  {
    hide Reached, B.Recorded, B.Pruned, InWindow, Pending;
    var records := Apply(s, e, q, offset, room).records;
    match e
    case Begin(id, n, outgoing, at) =>
      PendingSets(s.records, id, Record(n, outgoing, at, Begun), kind, begin, offset);
      assert Without(s.records, id) == s.records;
    case Add(id) =>
      PendingSets(s.records, id, records[id], kind, begin, offset);
      PendingTakes(s.records, id, kind, begin, offset);
    case Look(id, at) =>
      PendingTakes(s.records, id, kind, begin, offset);
      if Reached(q, s.buckets, at, offset) { PendingSets(s.records, id, records[id], kind, begin, offset); }
    case _ =>
  }

  /** A step of an unsuspended tracker changes what is done in a window only when a
      record of that window finds no limit reached. */
  lemma DoneStep(q: B.Quota, offset: int, room: nat, run: seq<Step>, kind: Window, begin: int)
    requires Runs(q, offset, room, run) && run != [] && !After(q, offset, room, run).suspended
    ensures var init, e := run[..|run| - 1], run[|run| - 1];
            var s := After(q, offset, room, init);
            !s.suspended
            && (!(e.Look? && InWindow(s.records[e.id].at, kind, begin, offset) && !Reached(q, s.buckets, e.at, offset)) ==>
                  Done(q, offset, room, run, kind, begin) == Done(q, offset, room, init, kind, begin))
  {
    var init, e := run[..|run| - 1], run[|run| - 1];
    var s := After(q, offset, room, init);
    hide Reached, Pending, Apply, InWindow;
    PendingStep(s, e, q, offset, room, kind, begin);
  }

  lemma {:induction false} DoneIsUnder(q: B.Quota, offset: int, room: nat, run: seq<Step>, kind: Window, now: int)
    requires Runs(q, offset, room, run) && Limited(q, kind, offset)
    requires Readable(After(q, offset, room, run), now, offset) && !After(q, offset, room, run).suspended
    ensures Done(q, offset, room, run, kind, Calendar.Begin(kind, now, offset)) < q.Limit(kind)
    decreases |run|
  {
    var begin := Calendar.Begin(kind, now, offset);
    hide Reached, Calendar.Begin, B.Recorded, B.Pruned, Pending, Served;
    if run == [] {
      NothingDone(q, offset, room, kind, begin);
    } else {
      var init, e := run[..|run| - 1], run[|run| - 1];
      var s := After(q, offset, room, init);
      RunOk(q, offset, room, init);
      DoneStep(q, offset, room, run, kind, begin);
      DoneIsUnder(q, offset, room, init, kind, now);
      if e.Look? && InWindow(s.records[e.id].at, kind, begin, offset) && !Reached(q, s.buckets, e.at, offset) {
        BeginMonotone(kind, s.records[e.id].at, e.at, offset);
        BeginMonotone(kind, e.at, now, offset);
        UnreachedIsUnder(q, offset, room, init, kind, e.at);
        RunOk(q, offset, room, run);
        PendingNonNegative(After(q, offset, room, run).records, kind, begin, offset);
        SameServed(q, offset, room, run, kind, begin);
      }
    }
  }

  lemma NothingDone(q: B.Quota, offset: int, room: nat, kind: Window, begin: int)
    ensures Runs(q, offset, room, []) && Done(q, offset, room, [], kind, begin) == 0
  {
  }

  lemma SameServed(q: B.Quota, offset: int, room: nat, run: seq<Step>, kind: Window, begin: int)
    requires Runs(q, offset, room, run) && run != [] && !run[|run| - 1].Add?
    ensures Served(q, offset, room, run, kind, begin) == Served(q, offset, room, run[..|run| - 1], kind, begin)
  {
  }

  /** In every interleaving an unsuspended tracker has served, in the calendar window
      still running, less than the limit plus the bytes of the records under way. */
  lemma UnderLimit(q: B.Quota, offset: int, room: nat, run: seq<Step>, kind: Window, now: int)
    requires Runs(q, offset, room, run) && Limited(q, kind, offset)
    requires Readable(After(q, offset, room, run), now, offset) && !After(q, offset, room, run).suspended
    ensures var begin := Calendar.Begin(kind, now, offset);
            Served(q, offset, room, run, kind, begin)
            < q.Limit(kind) + Pending(After(q, offset, room, run).records, kind, begin, offset)
  {
    DoneIsUnder(q, offset, room, run, kind, now);
  }

  // ---------------------------------------------------------------- what suspends

  /** A window with a limit has as many added bytes since its hour-floored start. */
  ghost predicate LimitReached(q: B.Quota, offset: int, room: nat, run: seq<Step>, at: int)
    requires Runs(q, offset, room, run) && Sane(at, offset)
  {
    exists kind :: q.Limit(kind) > 0 && Logged(q, offset, room, run, Floor(kind, at, offset)) >= q.Limit(kind)
  }

  predicate ZoneFits(q: B.Quota, offset: int) {
    MidnightPastHour(offset) <= 1 || q.monthly <= 0
  }

  lemma ReachedIsLogged(q: B.Quota, offset: int, room: nat, run: seq<Step>, at: int)
    requires Runs(q, offset, room, run) && ZoneFits(q, offset) && Readable(After(q, offset, room, run), at, offset)
    ensures Reached(q, After(q, offset, room, run).buckets, at, offset) <==> LimitReached(q, offset, room, run, at)
  {
    RunOk(q, offset, room, run);
    var s := After(q, offset, room, run);
    hide After, Runs, Logged;
    forall kind: Window | q.Limit(kind) > 0
      ensures B.Used(s.buckets, Floor(kind, at, offset)) == Logged(q, offset, room, run, Floor(kind, at, offset))
    {
      FloorIsHour(kind, at, offset);
      FloorAfterCutoff(kind, at, offset);
      UsedIsLogged(q, offset, room, run, Floor(kind, at, offset));
    }
    hide Floor, B.Used;
    if Reached(q, s.buckets, at, offset) {
      var kind :| B.Exceeded(B.State(s.buckets, 0, 0, false, q), kind, at, offset);
      assert q.Limit(kind) > 0;
    }
    if LimitReached(q, offset, room, run, at) {
      var kind :| q.Limit(kind) > 0 && Logged(q, offset, room, run, Floor(kind, at, offset)) >= q.Limit(kind);
      assert B.Exceeded(B.State(s.buckets, 0, 0, false, q), kind, at, offset);
    }
  }

  /** The step suspends by hand, or looks with a limit reached. */
  ghost predicate Cause(q: B.Quota, offset: int, room: nat, run: seq<Step>, k: nat)
    requires k < |run|
  {
    run[k].Suspend?
    || ((run[k].Look? || run[k].Check?) && Runs(q, offset, room, run[..k])
        && Sane(run[k].at, offset) && LimitReached(q, offset, room, run[..k], run[k].at))
  }

  /** Suspended, or about to be by a record that has found a limit reached. */
  ghost predicate Tripped(s: State) {
    s.suspended || exists id: nat :: Stands(s, id, Over)
  }

  lemma TrippedStep(s: State, e: Step, q: B.Quota, offset: int, room: nat)
    requires Enabled(s, e, offset, room)
    ensures Tripped(Apply(s, e, q, offset, room))
       <==> Tripped(s) || e.Suspend? || ((e.Look? || e.Check?) && Reached(q, s.buckets, e.at, offset))
  {
    hide Reached, B.Recorded, B.Pruned;
    var s' := Apply(s, e, q, offset, room);
    if Tripped(s) && !s.suspended {
      var id :| Stands(s, id, Over);
      assert s'.suspended || Stands(s', id, Over);
    }
    if e.Look? && !s.suspended && Reached(q, s.buckets, e.at, offset) { assert Stands(s', e.id, Over); }
    if Tripped(s') && !s'.suspended {
      var id :| Stands(s', id, Over);
      assert Stands(s, id, Over) || (e.Look? && Reached(q, s.buckets, e.at, offset));
    }
  }

  /** In every interleaving the tracker is suspended, or a record that has found a
      limit reached is about to suspend it, if and only if it was suspended by hand or
      some check looked when as many bytes had been added in a window as its positive
      limit allows. */
  lemma {:induction false} TrippedIff(q: B.Quota, offset: int, room: nat, run: seq<Step>)
    requires Runs(q, offset, room, run) && ZoneFits(q, offset)
    ensures Tripped(After(q, offset, room, run)) <==> exists k: nat :: k < |run| && Cause(q, offset, room, run, k)
    decreases |run|
  {
    hide Tripped, Reached, LimitReached, Apply;
    if run == [] {
      NothingTripped();
    } else {
      var n := |run| - 1;
      var init, e := run[..n], run[n];
      var s := After(q, offset, room, init);
      TrippedIff(q, offset, room, init);
      TrippedStep(s, e, q, offset, room);
      if e.Look? || e.Check? { ReachedIsLogged(q, offset, room, init, e.at); }
      assert Cause(q, offset, room, run, n) <==> e.Suspend? || ((e.Look? || e.Check?) && Reached(q, s.buckets, e.at, offset));
      forall k: nat | k < n ensures Cause(q, offset, room, run, k) == Cause(q, offset, room, init, k) {
        assert init[..k] == run[..k];
      }
      if exists k: nat :: k < |init| && Cause(q, offset, room, init, k) {
        var k: nat :| k < |init| && Cause(q, offset, room, init, k);
        assert Cause(q, offset, room, run, k);
      }
    }
  }

  lemma NothingTripped()
    ensures !Tripped(INIT)
  {
  }

  // ---------------------------------------------------------------- runs that miss the limit

  lemma Idle(q: B.Quota, offset: int, room: nat)
    ensures Runs(q, offset, room, []) && After(q, offset, room, []) == INIT
    ensures forall kind, begin :: Served(q, offset, room, [], kind, begin) == 0
  {
  }

  lemma Append(q: B.Quota, offset: int, room: nat, run: seq<Step>, e: Step)
    requires Runs(q, offset, room, run) && Enabled(After(q, offset, room, run), e, offset, room)
    ensures Runs(q, offset, room, run + [e]) && (run + [e])[..|run|] == run
    ensures After(q, offset, room, run + [e]) == Apply(After(q, offset, room, run), e, q, offset, room)
    ensures forall kind, begin ::
              Served(q, offset, room, run + [e], kind, begin)
              == Served(q, offset, room, run, kind, begin)
                 + if After(q, offset, room, run).suspended then 0 else Gain(After(q, offset, room, run), e, kind, begin, offset)
  {
    hide Apply, InWindow;
    assert (run + [e])[..|run|] == run;
  }

  /** A record that comes and goes and finds no limit reached. */
  lemma Pass(q: B.Quota, offset: int, room: nat, run: seq<Step>, s: State, n: nat, at: int) returns (run': seq<Step>)
    requires Runs(q, offset, room, run) && After(q, offset, room, run) == s && room >= 1
    requires s.records == map[] && !s.suspended && Readable(s, at, offset)
    requires !Reached(q, B.Recorded(s.buckets, HourOf(at), n, false), at, offset)
    ensures Runs(q, offset, room, run')
    ensures After(q, offset, room, run') == s.(buckets := B.Recorded(s.buckets, HourOf(at), n, false), clock := at)
    ensures forall kind, begin :: Served(q, offset, room, run', kind, begin)
              == Served(q, offset, room, run, kind, begin) + if InWindow(at, kind, begin, offset) then n else 0
  {
    hide Runs, After, Served, Reached, InWindow, B.Recorded;
    Append(q, offset, room, run, Begin(0, n, false, at));
    var run1 := run + [Begin(0, n, false, at)];
    Append(q, offset, room, run1, Add(0));
    var run2 := run1 + [Add(0)];
    assert map[0 := Record(n, false, at, Begun)][0 := Record(n, false, at, Added)] == map[0 := Record(n, false, at, Added)];
    Append(q, offset, room, run2, Look(0, at));
    run' := run2 + [Look(0, at)];
    assert Without(map[0 := Record(n, false, at, Added)], 0) == map[];
  }

  /** A monthly limit of two and a bucket pruned within its month: both bytes are
      served, and nothing is under way. */
  lemma PrunedMonth(offset: int, room: nat) returns (run: seq<Step>)
    requires -DAY < offset < DAY && MidnightPastHour(offset) > 1 && room >= 1
    ensures var q, begin, now := B.Quota(0, 0, 0, 2), 59 * DAY - offset, 90 * DAY - offset - 1;
            Runs(q, offset, room, run) && Readable(After(q, offset, room, run), now, offset)
            && After(q, offset, room, run).records == map[] && !After(q, offset, room, run).suspended
            && Calendar.Begin(Monthly, now, offset) == begin && Served(q, offset, room, run, Monthly, begin) == 2
  {
    hide Runs, After, Served, Reached, MonthStart, MonthOf;
    var q, first, last := B.Quota(0, 0, 0, 2), 59 * DAY - offset, 90 * DAY - offset - 1;
    var one, other := map[HourOf(first) := B.Pair(1, 0)], map[HourOf(last) := B.Pair(1, 0)];
    B.MarchBegins(offset);
    MidnightFloor(59, offset);
    Idle(q, offset, room);
    OneByte(HourOf(first), first, offset);
    OneByte(HourOf(last), last, offset);
    assert B.Recorded(map[], HourOf(first), 1, false) == one && B.Recorded(map[], HourOf(last), 1, false) == other;
    var run1 := Pass(q, offset, room, [], INIT, 1, first);
    var s := State(one, false, map[], first);
    Append(q, offset, room, run1, Prune(last));
    assert B.Pruned(one, last) == map[];
    run := Pass(q, offset, room, run1 + [Prune(last)], State(map[], false, map[], last), 1, last);
  }

  lemma OneByte(hour: int, at: int, offset: int)
    requires Sane(at, offset)
    ensures !Reached(B.Quota(0, 0, 0, 2), map[hour := B.Pair(1, 0)], at, offset)
  {
    B.OneByteFits(hour, at, offset, B.State(map[hour := B.Pair(1, 0)], 0, 0, false, B.Quota(0, 0, 0, 2)));
  }

  // ---------------------------------------------------------------- under the limit

  ghost predicate Under(q: B.Quota, offset: int, room: nat, run: seq<Step>, kind: Window, now: int)
    requires Runs(q, offset, room, run) && Sane(now, offset)
  {
    var begin := Calendar.Begin(kind, now, offset);
    Served(q, offset, room, run, kind, begin)
    < q.Limit(kind) + Pending(After(q, offset, room, run).records, kind, begin, offset)
  }

  /** The tracker still serves, with a limit in force. */
  ghost predicate Open(q: B.Quota, offset: int, room: nat, run: seq<Step>, kind: Window, now: int) {
    Runs(q, offset, room, run) && q.Limit(kind) > 0
    && Readable(After(q, offset, room, run), now, offset) && !After(q, offset, room, run).suspended
  }

  lemma NothingPending(kind: Window, begin: int, offset: int)
    ensures Pending(map[], kind, begin, offset) == 0
  {
  }

  /** `UnderLimit` holds for all runs, times and windows exactly in the zones in which
      pruning is invisible, however many records are under way. */
  lemma UnderLimitIff(offset: int, room: nat)
    requires -DAY < offset < DAY && room >= 1
    ensures (forall q, run, kind, now :: Open(q, offset, room, run, kind, now) ==> Under(q, offset, room, run, kind, now))
       <==> MidnightPastHour(offset) <= 1
  {
    hide Runs, After, Calendar.Begin, Served, Pending;
    if MidnightPastHour(offset) <= 1 {
      forall q, run, kind, now | Open(q, offset, room, run, kind, now) ensures Under(q, offset, room, run, kind, now) {
        UnderLimit(q, offset, room, run, kind, now);
      }
    } else {
      var run := PrunedMonth(offset, room);
      var q, now := B.Quota(0, 0, 0, 2), 90 * DAY - offset - 1;
      NothingPending(Monthly, 59 * DAY - offset, offset);
      assert Open(q, offset, room, run, Monthly, now) && !Under(q, offset, room, run, Monthly, now);
    }
  }

  // ---------------------------------------------------------------- overshoot

  /** The run ends with an addition of an unsuspended tracker, with a limit in force. */
  ghost predicate Serving(q: B.Quota, offset: int, room: nat, run: seq<Step>, kind: Window) {
    && Runs(q, offset, room, run) && q.Limit(kind) > 0
    && run != [] && run[|run| - 1].Add?
    && Runs(q, offset, room, run[..|run| - 1]) && !After(q, offset, room, run[..|run| - 1]).suspended
  }

  /** The record that was added last. */
  ghost function Last(q: B.Quota, offset: int, room: nat, run: seq<Step>): Record
    requires Runs(q, offset, room, run) && run != [] && run[|run| - 1].Add?
  {
    After(q, offset, room, run[..|run| - 1]).records[run[|run| - 1].id]
  }

  /** What was served in the window of the last record is less than the limit plus
      that record. */
  ghost predicate Bounded(q: B.Quota, offset: int, room: nat, run: seq<Step>, kind: Window)
    requires Serving(q, offset, room, run, kind)
  {
    var r := Last(q, offset, room, run);
    Sane(r.at, offset) && Served(q, offset, room, run, kind, Calendar.Begin(kind, r.at, offset)) < q.Limit(kind) + r.n
  }

  /** With one record under way at a time, the window it began in stays below the
      limit until it is added. */
  lemma {:induction false} BegunIsUnder(q: B.Quota, offset: int, run: seq<Step>, kind: Window, id: nat)
    requires Runs(q, offset, 1, run) && Limited(q, kind, offset)
    requires !After(q, offset, 1, run).suspended && Stands(After(q, offset, 1, run), id, Begun)
    ensures Sane(After(q, offset, 1, run).records[id].at, offset)
    ensures Served(q, offset, 1, run, kind, Calendar.Begin(kind, After(q, offset, 1, run).records[id].at, offset)) < q.Limit(kind)
    decreases |run|
  {
    hide Reached, Calendar.Begin, B.Recorded, B.Pruned, Served, Pending;
    var init, e := run[..|run| - 1], run[|run| - 1];
    var s := After(q, offset, 1, init);
    RunOk(q, offset, 1, run);
    OneRecord(q, offset, run, id);
    if e.Begin? {
      UnderLimit(q, offset, 1, init, kind, e.at);
      NoPending(kind, Calendar.Begin(kind, e.at, offset), offset);
    } else {
      BegunIsUnder(q, offset, init, kind, id);
    }
    SameServed(q, offset, 1, run, kind, Calendar.Begin(kind, After(q, offset, 1, run).records[id].at, offset));
  }

  lemma NoPending(kind: Window, begin: int, offset: int)
    ensures Pending(map[], kind, begin, offset) == 0
  {
  }

  /** A record that stands begun either has just begun, alone, or stood so before. */
  lemma OneRecord(q: B.Quota, offset: int, run: seq<Step>, id: nat)
    requires Runs(q, offset, 1, run) && Stands(After(q, offset, 1, run), id, Begun)
    ensures run != [] && Runs(q, offset, 1, run[..|run| - 1])
    ensures var s, e := After(q, offset, 1, run[..|run| - 1]), run[|run| - 1];
            !e.Add? && (if e.Begin? then s.records == map[] && After(q, offset, 1, run).records[id].at == e.at
                        else Stands(s, id, Begun) && s.records[id] == After(q, offset, 1, run).records[id])
            && (After(q, offset, 1, run).suspended || !s.suspended)
  {
    hide Reached, B.Recorded, B.Pruned;
    AtMostOne(q, offset, run);
    AtMostOne(q, offset, run[..|run| - 1]);
    var s, s', e := After(q, offset, 1, run[..|run| - 1]), After(q, offset, 1, run), run[|run| - 1];
    if e.Begin? {
      assert |s.records| == 0;
    } else if e.Add? {
      TwoKeys(s.records.Keys, e.id, id);
    }
  }

  lemma TwoKeys(keys: set<nat>, a: nat, b: nat)
    requires |keys| <= 1 && a in keys && b in keys
    ensures a == b
  {
    assert |keys - {a}| == |keys| - 1;
    assert keys - {a} == {};
  }

  lemma {:induction false} AtMostOne(q: B.Quota, offset: int, run: seq<Step>)
    requires Runs(q, offset, 1, run)
    ensures |After(q, offset, 1, run).records.Keys| <= 1
    decreases |run|
  {
    hide Reached, B.Recorded, B.Pruned;
    if run != [] {
      AtMostOne(q, offset, run[..|run| - 1]);
      var s, s', e := After(q, offset, 1, run[..|run| - 1]), After(q, offset, 1, run), run[|run| - 1];
      if e.Begin? {
        assert |s.records| == |s.records.Keys|;
        assert s'.records.Keys == s.records.Keys + {e.id};
      } else {
        assert s'.records.Keys == s.records.Keys || s'.records.Keys == s.records.Keys - {e.id};
      }
    }
  }

  lemma SoleRecordIsBounded(q: B.Quota, offset: int, run: seq<Step>, kind: Window)
    requires Serving(q, offset, 1, run, kind) && Limited(q, kind, offset)
    ensures Bounded(q, offset, 1, run, kind)
  {
    var init, id := run[..|run| - 1], run[|run| - 1].id;
    hide Reached, Calendar.Begin, Apply;
    BegunIsUnder(q, offset, init, kind, id);
  }

  /** Two records of one byte, both added before either is checked. */
  function Overlapping(): seq<Step> {
    [Begin(0, 1, false, DAY), Begin(1, 1, false, DAY), Add(0), Add(1)]
  }

  lemma OverlappingIsNotBounded(offset: int, room: nat)
    requires -DAY < offset < DAY && room >= 2
    ensures var q := B.Quota(1, 0, 0, 0);
            Serving(q, offset, room, Overlapping(), Hourly) && !Bounded(q, offset, room, Overlapping(), Hourly)
  {
    hide Runs, After, Served, B.Recorded, Reached;
    var q, run := B.Quota(1, 0, 0, 0), Overlapping();
    Idle(q, offset, room);
    assert run[..1] == [] + [run[0]] && run[..2] == run[..1] + [run[1]];
    assert run[..3] == run[..2] + [run[2]] && run == run[..3] + [run[3]];
    Append(q, offset, room, [], run[0]);
    Append(q, offset, room, run[..1], run[1]);
    Append(q, offset, room, run[..2], run[2]);
    Append(q, offset, room, run[..3], run[3]);
  }

  lemma PrunedMonthIsNotBounded(offset: int, room: nat) returns (run: seq<Step>)
    requires -DAY < offset < DAY && MidnightPastHour(offset) > 1 && room >= 1
    ensures var q := B.Quota(0, 0, 0, 2);
            Serving(q, offset, room, run, Monthly) && !Bounded(q, offset, room, run, Monthly)
  {
    hide Runs, After, Served, B.Recorded, Reached, Calendar.Begin;
    var q, now := B.Quota(0, 0, 0, 2), 90 * DAY - offset - 1;
    var run0 := PrunedMonth(offset, room);
    Append(q, offset, room, run0, Begin(0, 0, false, now));
    var run1 := run0 + [Begin(0, 0, false, now)];
    Append(q, offset, room, run1, Add(0));
    run := run1 + [Add(0)];
  }

  /** What is served in one calendar window stays below its limit plus the last
      record, for all runs and windows with at most `room` records under way, exactly
      when records never overlap and the zone is one in which pruning is invisible. */
  lemma OvershootIff(offset: int, room: nat)
    requires -DAY < offset < DAY && room >= 1
    ensures (forall q, run, kind :: Serving(q, offset, room, run, kind) ==> Bounded(q, offset, room, run, kind))
       <==> MidnightPastHour(offset) <= 1 && room <= 1
  {
    if room > 1 {
      OverlappingIsNotBounded(offset, room);
    } else if MidnightPastHour(offset) > 1 {
      var run := PrunedMonthIsNotBounded(offset, room);
    } else {
      forall q, run, kind | Serving(q, offset, room, run, kind) ensures Bounded(q, offset, room, run, kind) {
        SoleRecordIsBounded(q, offset, run, kind);
      }
    }
  }
}
