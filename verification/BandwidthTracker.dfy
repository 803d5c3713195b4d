/** The `Tracker` object of internal/bandwidth/tracker.go, each method proved
    against the state machine of `Bandwidth`.  A method that reads the clock
    takes the reading as a parameter. */
module BandwidthTracker {
  import opened Common
  import opened Calendar
  import B = Bandwidth

  class Tracker {
    const offset: int
    var quota: B.Quota
    var buckets: map<int, B.Pair>
    var inbound: int
    var outbound: int
    var suspended: bool

    ghost function Model(): B.State
      reads this
    {
      B.State(buckets, inbound, outbound, suspended, quota)
    }

    constructor (quota: B.Quota, offset: int)
      ensures Model() == B.Fresh(quota) && this.offset == offset
    {
      this.quota, this.offset := quota, offset;
      buckets, inbound, outbound, suspended := map[], 0, 0, false;
    }

    method RecordIn(n: int, at: int, check: int)
      requires Sane(at, offset) && Sane(check, offset)
      modifies this
      ensures Model() == B.Apply(old(Model()), B.Record(n, false, at, check), offset)
      ensures var hour := HourOf(at);
              var had := if hour in old(buckets) then old(buckets)[hour] else B.Pair(0, 0);
              buckets == old(buckets)[hour := B.Pair(had.inbound + n, had.outbound)]
    {
      hide B.Exceeded;
      inbound := inbound + n;
      var hour := HourOf(at);
      if hour !in buckets { buckets := buckets[hour := B.Pair(0, 0)]; }
      buckets := buckets[hour := buckets[hour].(inbound := buckets[hour].inbound + n)];
      assert buckets == B.Recorded(old(buckets), hour, n, false);
      MaybeCheckQuota(check);
    }

    method RecordOut(n: int, at: int, check: int)
      requires Sane(at, offset) && Sane(check, offset)
      modifies this
      ensures Model() == B.Apply(old(Model()), B.Record(n, true, at, check), offset)
      ensures var hour := HourOf(at);
              var had := if hour in old(buckets) then old(buckets)[hour] else B.Pair(0, 0);
              buckets == old(buckets)[hour := B.Pair(had.inbound, had.outbound + n)]
    {
      hide B.Exceeded;
      outbound := outbound + n;
      var hour := HourOf(at);
      if hour !in buckets { buckets := buckets[hour := B.Pair(0, 0)]; }
      buckets := buckets[hour := buckets[hour].(outbound := buckets[hour].outbound + n)];
      assert buckets == B.Recorded(old(buckets), hour, n, true);
      MaybeCheckQuota(check);
    }

    /** Skips the scan once suspended. */
    method MaybeCheckQuota(now: int)
      requires Sane(now, offset)
      modifies this`suspended
      ensures Model() == if old(suspended) then old(Model()) else B.Checked(old(Model()), now, offset)
    {
      if suspended { return; }
      var _ := CheckQuota(now);
    }

    /** Names the shortest window whose limit is reached, and suspends exactly
        when there is one. */
    method CheckQuota(now: int) returns (window: Option<Window>)
      requires Sane(now, offset)
      modifies this`suspended
      ensures Model() == B.Checked(old(Model()), now, offset)
      ensures suspended == (old(suspended) || window.Some?)
      ensures window.Some? <==>
              exists kind :: quota.Limit(kind) > 0 && B.Used(buckets, Floor(kind, now, offset)) >= quota.Limit(kind)
      ensures window.Some? ==> B.Exceeded(old(Model()), window.value, now, offset)
      ensures window in {Some(Daily), Some(Weekly), Some(Monthly)} ==> !B.Exceeded(old(Model()), Hourly, now, offset)
      ensures window in {Some(Weekly), Some(Monthly)} ==> !B.Exceeded(old(Model()), Daily, now, offset)
      ensures window == Some(Monthly) ==> !B.Exceeded(old(Model()), Weekly, now, offset)
    {
      hide B.Used, Floor;
      if quota.IsZero() { return None; }
      var hourly, daily, weekly, monthly := Snapshot(now);
      assert forall kind :: B.Exceeded(Model(), kind, now, offset) ==> kind in {Hourly, Daily, Weekly, Monthly};
      if quota.hourly > 0 && hourly >= quota.hourly {
        window := Some(Hourly);
      } else if quota.daily > 0 && daily >= quota.daily {
        window := Some(Daily);
      } else if quota.weekly > 0 && weekly >= quota.weekly {
        window := Some(Weekly);
      } else if quota.monthly > 0 && monthly >= quota.monthly {
        window := Some(Monthly);
      } else {
        window := None;
      }
      if window.Some? {
        assert B.Exceeded(old(Model()), window.value, now, offset);
        suspended := true;
      }
    }

    /** One pass over the buckets, in any order, accumulates all four figures. */
    method Snapshot(now: int) returns (hourly: int, daily: int, weekly: int, monthly: int)
      requires Sane(now, offset)
      ensures hourly == B.Used(buckets, Floor(Hourly, now, offset))
      ensures daily == B.Used(buckets, Floor(Daily, now, offset))
      ensures weekly == B.Used(buckets, Floor(Weekly, now, offset))
      ensures monthly == B.Used(buckets, Floor(Monthly, now, offset))
    {
      hourly, daily, weekly, monthly := 0, 0, 0, 0;
      var hourStart := HourOf(now);
      var dayStart := Begin(Daily, now, offset);
      var weekStart := Begin(Weekly, now, offset);
      var monthStart := Begin(Monthly, now, offset);
      var dayFloor, weekFloor, monthFloor := TruncHour(dayStart), TruncHour(weekStart), TruncHour(monthStart);
      hide Begin, TruncHour, HourOf, Passed, B.Used, B.Pair.Total;
      NothingPassed(buckets, hourStart);
      NothingPassed(buckets, dayFloor);
      NothingPassed(buckets, weekFloor);
      NothingPassed(buckets, monthFloor);
      var todo := buckets.Keys;
      while todo != {}
        invariant todo <= buckets.Keys
        invariant hourly == Passed(buckets, hourStart, todo)
        invariant daily == Passed(buckets, dayFloor, todo)
        invariant weekly == Passed(buckets, weekFloor, todo)
        invariant monthly == Passed(buckets, monthFloor, todo)
        decreases |todo|
      {
        var hour := Choose(todo);
        PassOne(buckets, hourStart, todo, hour);
        PassOne(buckets, dayFloor, todo, hour);
        PassOne(buckets, weekFloor, todo, hour);
        PassOne(buckets, monthFloor, todo, hour);
        var total := buckets[hour].inbound + buckets[hour].outbound;
        if hour >= hourStart { hourly := hourly + total; }
        if hour >= dayFloor { daily := daily + total; }
        if hour >= weekFloor { weekly := weekly + total; }
        if hour >= monthFloor { monthly := monthly + total; }
        todo := todo - {hour};
      }
      AllPassed(buckets, hourStart);
      AllPassed(buckets, dayFloor);
      AllPassed(buckets, weekFloor);
      AllPassed(buckets, monthFloor);
    }

    method PruneOldBuckets(now: int)
      requires Sane(now, offset)
      modifies this`buckets
      ensures Model() == B.Apply(old(Model()), B.Prune(now), offset)
      ensures buckets == map h | h in old(buckets) && h >= now - 31 * 24 * 3600 :: old(buckets)[h]
    {
      var cutoff := Cutoff(now);
      var todo := buckets.Keys;
      while todo != {}
        invariant todo <= buckets.Keys <= old(buckets).Keys
        invariant forall h :: h in buckets ==> buckets[h] == old(buckets)[h]
        invariant forall h :: h in old(buckets) ==> (h in buckets <==> h in todo || h >= cutoff)
        decreases |todo|
      {
        var hour := Choose(todo);
        if hour < cutoff { buckets := Without(buckets, hour); }
        todo := todo - {hour};
      }
      assert buckets.Keys == B.Pruned(old(buckets), now).Keys;
      assert buckets == B.Pruned(old(buckets), now);
    }

    method Reset()
      modifies this
      ensures Model() == B.Apply(old(Model()), B.Reset, offset)
    {
      buckets := map[];
      inbound, outbound, suspended := 0, 0, false;
    }

    method Suspend()
      modifies this`suspended
      ensures Model() == B.Apply(old(Model()), B.Suspend, offset)
    {
      suspended := true;
    }

    method Resume()
      modifies this`suspended
      ensures Model() == B.Apply(old(Model()), B.Resume, offset)
    {
      suspended := false;
    }

    method SetQuota(q: B.Quota)
      modifies this`quota
      ensures Model() == B.Apply(old(Model()), B.SetQuota(q), offset)
    {
      quota := q;
    }
  }

  /** Total of the counted buckets outside `todo`. */
  ghost function Passed(b: map<int, B.Pair>, from: int, todo: set<int>): int {
    B.SumOver(b, B.HoursFrom(b, from) - todo)
  }

  lemma NothingPassed(b: map<int, B.Pair>, from: int)
    ensures Passed(b, from, b.Keys) == 0
  {
    assert B.HoursFrom(b, from) - b.Keys == {};
  }

  lemma AllPassed(b: map<int, B.Pair>, from: int)
    ensures Passed(b, from, {}) == B.Used(b, from)
  {
    assert B.HoursFrom(b, from) - {} == B.HoursFrom(b, from);
  }

  lemma PassOne(b: map<int, B.Pair>, from: int, todo: set<int>, hour: int)
    requires hour in todo && todo <= b.Keys
    ensures Passed(b, from, todo - {hour}) == Passed(b, from, todo) + if hour >= from then b[hour].Total() else 0
  {
    var done, next := B.HoursFrom(b, from) - todo, B.HoursFrom(b, from) - (todo - {hour});
    if hour >= from {
      assert next - {hour} == done;
      B.SumOverTakes(b, next, hour);
    } else {
      assert next == done;
    }
  }
}
