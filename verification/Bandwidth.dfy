/** The bandwidth tracker of internal/bandwidth/tracker.go: hourly buckets that
    refine a log of bytes, pruning, and quota suspension.  The zone has a fixed
    offset; instants are Unix seconds. */
module Bandwidth {
  import opened Common
  import opened Calendar

  datatype Pair = Pair(inbound: int, outbound: int) {
    function Total(): int { inbound + outbound }
  }

  /** A limit of zero or below switches a window off. */
  datatype Quota = Quota(hourly: int, daily: int, weekly: int, monthly: int) {
    predicate IsZero() { hourly == 0 && daily == 0 && weekly == 0 && monthly == 0 }

    function Limit(kind: Window): int {
      match kind
      case Hourly => hourly
      case Daily => daily
      case Weekly => weekly
      case Monthly => monthly
    }
  }

  // ---------------------------------------------------------------- sums over buckets

  /** Total of the buckets in `hours`, in any order. */
  ghost function SumOver(b: map<int, Pair>, hours: set<int>): int
    requires hours <= b.Keys
    decreases |hours|
  {
    if hours == {} then 0
    else
      var h := Any(hours);
      b[h].Total() + SumOver(b, hours - {h})
  }

  lemma {:induction false} SumOverTakes(b: map<int, Pair>, hours: set<int>, h: int)
    requires hours <= b.Keys && h in hours
    ensures SumOver(b, hours) == b[h].Total() + SumOver(b, hours - {h})
    decreases |hours|
  {
    var g := Any(hours);
    if g != h {
      SumOverTakes(b, hours - {g}, h);
      SumOverTakes(b, hours - {h}, g);
      assert hours - {g} - {h} == hours - {h} - {g};
    }
  }

  lemma {:induction false} SumOverSame(b: map<int, Pair>, c: map<int, Pair>, hours: set<int>)
    requires hours <= b.Keys && hours <= c.Keys && forall h :: h in hours ==> b[h] == c[h]
    ensures SumOver(b, hours) == SumOver(c, hours)
    decreases |hours|
  {
    if hours != {} {
      var h := Any(hours);
      SumOverTakes(b, hours, h);
      SumOverTakes(c, hours, h);
      SumOverSame(b, c, hours - {h});
    }
  }

  lemma {:induction false} SumOverMonotone(b: map<int, Pair>, small: set<int>, large: set<int>)
    requires small <= large <= b.Keys && forall h :: h in b ==> b[h].Total() >= 0
    ensures SumOver(b, small) <= SumOver(b, large)
    decreases |large|
  {
    if small != large {
      assert large == small + (large - small);
      var h := Any(large - small);
      SumOverTakes(b, large, h);
      SumOverMonotone(b, small, large - {h});
    }
  }

  function HoursFrom(b: map<int, Pair>, from: int): (s: set<int>)
    ensures s <= b.Keys
  {
    set h | h in b && h >= from
  }

  /** What a window beginning at `from` has used. */
  ghost function Used(b: map<int, Pair>, from: int): int {
    SumOver(b, HoursFrom(b, from))
  }

  // ---------------------------------------------------------------- state and operations

  datatype State = State(buckets: map<int, Pair>, inbound: int, outbound: int, suspended: bool, quota: Quota)

  function Fresh(quota: Quota): State {
    State(map[], 0, 0, false, quota)
  }

  function Recorded(b: map<int, Pair>, hour: int, n: int, outgoing: bool): map<int, Pair> {
    var p := if hour in b then b[hour] else Pair(0, 0);
    b[hour := if outgoing then p.(outbound := p.outbound + n) else p.(inbound := p.inbound + n)]
  }

  ghost predicate Exceeded(s: State, kind: Window, now: int, offset: int)
    requires Sane(now, offset)
  {
    s.quota.Limit(kind) > 0 && Used(s.buckets, Floor(kind, now, offset)) >= s.quota.Limit(kind)
  }

  /** `CheckQuota` only ever sets the flag. */
  ghost function Checked(s: State, now: int, offset: int): State
    requires Sane(now, offset)
  {
    s.(suspended := s.suspended || exists kind :: Exceeded(s, kind, now, offset))
  }

  function Pruned(b: map<int, Pair>, now: int): map<int, Pair> {
    map h | h in b && h >= Cutoff(now) :: b[h]
  }

  /** `Record` reads the clock for the bucket (`at`) and again for the check. */
  datatype Op =
    | Record(n: int, outgoing: bool, at: int, check: int)
    | Check(at: int)
    | Prune(at: int)
    | Suspend
    | Resume
    | SetQuota(quota: Quota)
    | Reset

  predicate Timed(op: Op) {
    op.Record? || op.Check? || op.Prune?
  }

  function Start(op: Op): int
    requires Timed(op)
  {
    op.at
  }

  function End(op: Op): int
    requires Timed(op)
  {
    if op.Record? then op.check else op.at
  }

  ghost function Apply(s: State, op: Op, offset: int): State
    requires Timed(op) ==> Sane(Start(op), offset) && Sane(End(op), offset)
  {
    match op
    case Record(n, outgoing, at, check) =>
      var r := s.(buckets := Recorded(s.buckets, HourOf(at), n, outgoing),
                  inbound := if outgoing then s.inbound else s.inbound + n,
                  outbound := if outgoing then s.outbound + n else s.outbound);
      if s.suspended then r else Checked(r, check, offset)
    case Check(at) => Checked(s, at, offset)
    case Prune(at) => s.(buckets := Pruned(s.buckets, at))
    case Suspend => s.(suspended := true)
    case Resume => s.(suspended := false)
    case SetQuota(q) => s.(quota := q)
    case Reset => State(map[], 0, 0, false, s.quota)
  }

  /** Readings are sane and the clock does not run backwards. */
  ghost predicate Run(ops: seq<Op>, offset: int) {
    && (forall i :: 0 <= i < |ops| && Timed(ops[i]) ==>
          Sane(Start(ops[i]), offset) && Sane(End(ops[i]), offset) && Start(ops[i]) <= End(ops[i]))
    && (forall i, j :: 0 <= i < j < |ops| && Timed(ops[i]) && Timed(ops[j]) ==> End(ops[i]) <= Start(ops[j]))
    && (forall i :: 0 <= i < |ops| && ops[i].Record? ==> ops[i].n >= 0)
  }

  ghost function After(q: Quota, ops: seq<Op>, offset: int): State
    requires Run(ops, offset)
  {
    if ops == [] then Fresh(q) else Apply(After(q, ops[..|ops| - 1], offset), ops[|ops| - 1], offset)
  }

  // ---------------------------------------------------------------- the log

  /** Bytes recorded at or after `from` since the last `Reset`. */
  function Logged(ops: seq<Op>, from: int): int {
    if ops == [] then 0
    else
      var op := ops[|ops| - 1];
      if op.Reset? then 0
      else Logged(ops[..|ops| - 1], from) + if op.Record? && op.at >= from then op.n else 0
  }

  lemma UsedRecorded(b: map<int, Pair>, hour: int, n: int, outgoing: bool, from: int)
    ensures Used(Recorded(b, hour, n, outgoing), from) == Used(b, from) + if hour >= from then n else 0
  {
    var b' := Recorded(b, hour, n, outgoing);
    var before, after := HoursFrom(b, from), HoursFrom(b', from);
    if hour < from {
      assert after == before;
      SumOverSame(b, b', before);
    } else {
      SumOverTakes(b', after, hour);
      assert after - {hour} == before - {hour};
      SumOverSame(b, b', before - {hour});
      if hour in b {
        SumOverTakes(b, before, hour);
      } else {
        assert before - {hour} == before;
      }
    }
  }

  lemma UsedPruned(b: map<int, Pair>, now: int, from: int)
    requires from >= Cutoff(now)
    ensures Used(Pruned(b, now), from) == Used(b, from)
  {
    assert HoursFrom(Pruned(b, now), from) == HoursFrom(b, from);
    SumOverSame(b, Pruned(b, now), HoursFrom(b, from));
  }

  /** From every hour that pruning has not reached, the buckets hold the logged bytes. */
  lemma {:induction false} UsedIsLogged(q: Quota, ops: seq<Op>, offset: int, from: int)
    requires Run(ops, offset) && from % HOUR == 0
    requires forall i :: 0 <= i < |ops| && ops[i].Prune? ==> from >= Cutoff(ops[i].at)
    ensures Used(After(q, ops, offset).buckets, from) == Logged(ops, from)
    decreases |ops|
  {
    hide Used, Recorded, Pruned, Cutoff, Checked;
    if ops == [] {
      NothingUsed(from);
    } else {
      var init, op := ops[..|ops| - 1], ops[|ops| - 1];
      UsedIsLogged(q, init, offset, from);
      match op
      case Record(n, outgoing, at, check) =>
        UsedRecorded(After(q, init, offset).buckets, HourOf(at), n, outgoing, from);
        HourOfIff(at, from);
        ApplyBuckets(After(q, init, offset), op, offset);
      case Prune(at) => UsedPruned(After(q, init, offset).buckets, at, from);
      case Reset => NothingUsed(from);
      case _ => ApplyBuckets(After(q, init, offset), op, offset);
    }
  }

  lemma ApplyBuckets(s: State, op: Op, offset: int)
    requires Timed(op) ==> Sane(Start(op), offset) && Sane(End(op), offset)
    ensures op.Record? ==> Apply(s, op, offset).buckets == Recorded(s.buckets, HourOf(op.at), op.n, op.outgoing)
    ensures !op.Record? && !op.Prune? && !op.Reset? ==> Apply(s, op, offset).buckets == s.buckets
  {
    hide Used;
  }

  lemma NothingUsed(from: int)
    ensures Used(map[], from) == 0
  {
    assert HoursFrom(map[], from) == {};
  }

  /** After any run each figure is exactly the bytes logged at or after the
      hour-floored window start, whatever has been pruned.  For the monthly
      figure this needs a zone whose midnight is at most a second past the hour. */
  lemma {:induction false} FiguresRefineLog(q: Quota, ops: seq<Op>, offset: int, kind: Window, now: int)
    requires Run(ops, offset) && Sane(now, offset)
    requires forall i :: 0 <= i < |ops| && Timed(ops[i]) ==> End(ops[i]) <= now
    requires MidnightPastHour(offset) <= 1 || !kind.Monthly?
    ensures var from := Floor(kind, now, offset);
            Used(After(q, ops, offset).buckets, from) == Logged(ops, from)
  {
    FloorIsHour(kind, now, offset);
    FloorAfterCutoff(kind, now, offset);
    hide Floor;
    UsedIsLogged(q, ops, offset, Floor(kind, now, offset));
  }

  /** hourly <= daily <= weekly and monthly. */
  lemma {:induction false} FiguresNested(b: map<int, Pair>, now: int, offset: int)
    requires Sane(now, offset) && forall h :: h in b ==> b[h].Total() >= 0
    ensures Used(b, Floor(Hourly, now, offset)) <= Used(b, Floor(Daily, now, offset))
    ensures Used(b, Floor(Daily, now, offset)) <= Used(b, Floor(Weekly, now, offset))
    ensures Used(b, Floor(Daily, now, offset)) <= Used(b, Floor(Monthly, now, offset))
  {
    FloorsNested(now, offset);
    hide Floor;
    UsedMonotone(b, Floor(Daily, now, offset), Floor(Hourly, now, offset));
    UsedMonotone(b, Floor(Weekly, now, offset), Floor(Daily, now, offset));
    UsedMonotone(b, Floor(Monthly, now, offset), Floor(Daily, now, offset));
  }

  lemma UsedMonotone(b: map<int, Pair>, from: int, later: int)
    requires from <= later && forall h :: h in b ==> b[h].Total() >= 0
    ensures Used(b, later) <= Used(b, from)
  {
    SumOverMonotone(b, HoursFrom(b, later), HoursFrom(b, from));
  }

  /** Buckets never hold a negative total. */
  lemma {:induction false} BucketsNonNegative(q: Quota, ops: seq<Op>, offset: int)
    requires Run(ops, offset)
    ensures forall h :: h in After(q, ops, offset).buckets ==> After(q, ops, offset).buckets[h].Total() >= 0
    decreases |ops|
  {
    hide Used;
    if ops != [] {
      BucketsNonNegative(q, ops[..|ops| - 1], offset);
    }
  }

  // ---------------------------------------------------------------- pruning

  /** Pruning at `p` changes no figure at `p` or later. */
  ghost predicate PruneInvisible(b: map<int, Pair>, p: int, now: int, offset: int)
    requires Sane(now, offset)
  {
    forall kind :: Used(Pruned(b, p), Floor(kind, now, offset)) == Used(b, Floor(kind, now, offset))
  }

  lemma PruningKeepsFigures(b: map<int, Pair>, p: int, now: int, offset: int)
    requires Sane(now, offset) && p <= now && MidnightPastHour(offset) <= 1
    ensures PruneInvisible(b, p, now, offset)
  {
    forall kind: Window ensures Used(Pruned(b, p), Floor(kind, now, offset)) == Used(b, Floor(kind, now, offset)) {
      FloorAfterCutoff(kind, now, offset);
      UsedPruned(b, p, Floor(kind, now, offset));
    }
  }

  /** Pruning at 31 days is invisible to every present and future figure, for all
      trackers and all times, exactly in the zones whose midnight is at most one
      second past the hour -- so in every whole-hour zone, and in no half-hour one. */
  lemma PruneInvisibleIff(offset: int)
    requires -DAY < offset < DAY
    ensures (forall b, p, now :: Sane(now, offset) && p <= now ==> PruneInvisible(b, p, now, offset))
       <==> MidnightPastHour(offset) <= 1
  {
    if MidnightPastHour(offset) <= 1 {
      forall b, p, now | Sane(now, offset) && p <= now ensures PruneInvisible(b, p, now, offset) {
        PruningKeepsFigures(b, p, now, offset);
      }
    } else {
      var b, now := PruneVisible(offset);
      assert Sane(now, offset) && !PruneInvisible(b, now, now, offset);
    }
  }

  /** The last second of March 1970: the bucket that began shortly before local
      midnight on 1 March counts towards March but is older than 31 days. */
  lemma PruneVisible(offset: int) returns (b: map<int, Pair>, now: int)
    requires -DAY < offset < DAY && MidnightPastHour(offset) > 1
    ensures Sane(now, offset) && !PruneInvisible(b, now, now, offset)
  {
    now := 90 * DAY - offset - 1;
    var hour := 59 * DAY - offset - MidnightPastHour(offset);
    b := map[hour := Pair(1, 0)];
    assert LocalDay(now, offset) == 89;
    MarchDays();
    MidnightFloor(59, offset);
    assert Floor(Monthly, now, offset) == hour;
    assert HoursFrom(b, hour) == {hour};
    SumOverTakes(b, {hour}, hour);
    assert Pruned(b, now) == map[];
    NothingUsed(hour);
  }

  lemma MarchDays()
    ensures MonthStart(MonthOf(89)) == 59
  {
    assert MonthStart(1) == 31;
    assert MonthStart(2) == 59;
    assert MonthStart(3) == 90;
    assert MonthFrom(89, 1) == 2;
  }

  // ---------------------------------------------------------------- quota

  /** The quota that the last `SetQuota` put in force. */
  function InForce(q: Quota, ops: seq<Op>): Quota {
    if ops == [] then q
    else if ops[|ops| - 1].SetQuota? then ops[|ops| - 1].quota
    else InForce(q, ops[..|ops| - 1])
  }

  lemma {:induction false} QuotaIsInForce(q: Quota, ops: seq<Op>, offset: int)
    requires Run(ops, offset)
    ensures After(q, ops, offset).quota == InForce(q, ops)
    decreases |ops|
  {
    hide Used;
    if ops != [] { QuotaIsInForce(q, ops[..|ops| - 1], offset); }
  }

  /** A window with a limit has as many logged bytes since its hour-floored start. */
  ghost predicate LimitReached(q: Quota, ops: seq<Op>, now: int, offset: int)
    requires Sane(now, offset)
  {
    exists kind :: InForce(q, ops).Limit(kind) > 0 && Logged(ops, Floor(kind, now, offset)) >= InForce(q, ops).Limit(kind)
  }

  /** What suspends: a manual suspension, or a check with a limit reached. */
  ghost predicate Cause(q: Quota, ops: seq<Op>, offset: int, k: nat)
    requires Run(ops, offset) && k < |ops|
  {
    ops[k].Suspend? || ((ops[k].Record? || ops[k].Check?) && LimitReached(q, ops[..k + 1], End(ops[k]), offset))
  }

  predicate Lifts(op: Op) {
    op.Resume? || op.Reset?
  }

  /** No monthly limit is in force at any time where a month reaches behind the
      pruning. */
  predicate ZoneFits(q: Quota, ops: seq<Op>, offset: int) {
    MidnightPastHour(offset) <= 1
    || (q.monthly <= 0 && forall i :: 0 <= i < |ops| && ops[i].SetQuota? ==> ops[i].quota.monthly <= 0)
  }

  lemma {:induction false} NoMonthlyLimit(q: Quota, ops: seq<Op>, offset: int)
    requires ZoneFits(q, ops, offset)
    ensures MidnightPastHour(offset) <= 1 || InForce(q, ops).Limit(Monthly) <= 0
  {
    if ops != [] { NoMonthlyLimit(q, ops[..|ops| - 1], offset); }
  }

  /** A check at the end of a run compares the limits with the log. */
  lemma ExceededIsReached(q: Quota, ops: seq<Op>, offset: int, now: int)
    requires Run(ops, offset) && Sane(now, offset) && ZoneFits(q, ops, offset)
    requires forall i :: 0 <= i < |ops| && Timed(ops[i]) ==> End(ops[i]) <= now
    ensures (exists kind :: Exceeded(After(q, ops, offset), kind, now, offset)) <==> LimitReached(q, ops, now, offset)
  {
    QuotaIsInForce(q, ops, offset);
    NoMonthlyLimit(q, ops, offset);
    hide InForce, Logged, Floor, After;
    forall kind: Window | InForce(q, ops).Limit(kind) > 0
      ensures Used(After(q, ops, offset).buckets, Floor(kind, now, offset)) == Logged(ops, Floor(kind, now, offset))
    {
      FiguresRefineLog(q, ops, offset, kind, now);
    }
    if exists kind :: Exceeded(After(q, ops, offset), kind, now, offset) {
      var kind :| Exceeded(After(q, ops, offset), kind, now, offset);
      assert InForce(q, ops).Limit(kind) > 0;
    }
    if LimitReached(q, ops, now, offset) {
      var kind :| InForce(q, ops).Limit(kind) > 0 && Logged(ops, Floor(kind, now, offset)) >= InForce(q, ops).Limit(kind);
      assert Exceeded(After(q, ops, offset), kind, now, offset);
    }
  }

  /** The tests of a check see only buckets and quota. */
  lemma ExceededSame(s: State, t: State, now: int, offset: int)
    requires Sane(now, offset) && s.buckets == t.buckets && s.quota == t.quota
    ensures (exists kind :: Exceeded(s, kind, now, offset)) <==> (exists kind :: Exceeded(t, kind, now, offset))
  {
    assert forall kind :: Exceeded(s, kind, now, offset) <==> Exceeded(t, kind, now, offset);
  }

  lemma SuspendedStep(q: Quota, ops: seq<Op>, offset: int)
    requires Run(ops, offset) && ops != [] && ZoneFits(q, ops, offset)
    ensures var s := After(q, ops[..|ops| - 1], offset);
            After(q, ops, offset).suspended
            <==> !Lifts(ops[|ops| - 1]) && (s.suspended || Cause(q, ops, offset, |ops| - 1))
  {
    var s, op := After(q, ops[..|ops| - 1], offset), ops[|ops| - 1];
    var s' := After(q, ops, offset);
    assert ops[..|ops|] == ops;
    hide Used, Floor, LimitReached, Recorded, Pruned, Exceeded;
    match op
    case Record(n, outgoing, at, check) =>
      ExceededIsReached(q, ops, offset, check);
      var r := s.(buckets := Recorded(s.buckets, HourOf(at), n, outgoing),
                  inbound := if outgoing then s.inbound else s.inbound + n,
                  outbound := if outgoing then s.outbound + n else s.outbound);
      ExceededSame(r, s', check, offset);
    case Check(at) =>
      ExceededIsReached(q, ops, offset, at);
      ExceededSame(s, s', at, offset);
    case _ =>
  }

  /** A cause after which nothing lifts. */
  ghost predicate Standing(q: Quota, ops: seq<Op>, offset: int, k: nat)
    requires Run(ops, offset)
  {
    k < |ops| && Cause(q, ops, offset, k) && forall j :: k < j < |ops| ==> !Lifts(ops[j])
  }

  /** For every run: the tracker is suspended if and only if it was suspended by hand,
      or a check found as many bytes logged in a window as a positive limit in force
      allows, and neither `Resume` nor `Reset` came after. */
  lemma {:induction false} SuspendedIff(q: Quota, ops: seq<Op>, offset: int)
    requires Run(ops, offset) && ZoneFits(q, ops, offset)
    ensures After(q, ops, offset).suspended <==> exists k: nat :: Standing(q, ops, offset, k)
    decreases |ops|
  {
    hide Apply, LimitReached;
    if ops != [] {
      var n := |ops| - 1;
      var init := ops[..n];
      SuspendedIff(q, init, offset);
      SuspendedStep(q, ops, offset);
      forall k: nat | k < n ensures Cause(q, ops, offset, k) == Cause(q, init, offset, k) {
        assert init[..k + 1] == ops[..k + 1];
      }
      if exists k: nat :: Standing(q, init, offset, k) && !Lifts(ops[n]) {
        var k: nat :| Standing(q, init, offset, k) && !Lifts(ops[n]);
        assert Standing(q, ops, offset, k);
      }
      if Cause(q, ops, offset, n) { assert Standing(q, ops, offset, n); }
      if exists k: nat :: Standing(q, ops, offset, k) {
        var k: nat :| Standing(q, ops, offset, k);
        if k < n { assert Standing(q, init, offset, k); }
      }
    }
  }

  // ---------------------------------------------------------------- totals

  /** Bytes recorded in one direction since the last `Reset`. */
  function Bytes(ops: seq<Op>, outgoing: bool): int {
    if ops == [] then 0
    else
      var op := ops[|ops| - 1];
      if op.Reset? then 0
      else Bytes(ops[..|ops| - 1], outgoing) + if op.Record? && op.outgoing == outgoing then op.n else 0
  }

  /** The two counters hold exactly the bytes of their direction; pruning and checks
      leave them alone. */
  lemma {:induction false} CountersAreBytes(q: Quota, ops: seq<Op>, offset: int)
    requires Run(ops, offset)
    ensures After(q, ops, offset).inbound == Bytes(ops, false) && After(q, ops, offset).outbound == Bytes(ops, true)
    decreases |ops|
  {
    hide Used;
    if ops != [] { CountersAreBytes(q, ops[..|ops| - 1], offset); }
  }

  // ---------------------------------------------------------------- persistence

  /** No operation that could lift a suspension or change a limit. */
  ghost predicate Enforced(ops: seq<Op>) {
    forall i :: 0 <= i < |ops| ==> !ops[i].Resume? && !ops[i].Reset? && !ops[i].SetQuota?
  }

  lemma SuspensionStays(q: Quota, ops: seq<Op>, offset: int)
    requires Run(ops, offset) && Enforced(ops) && ops != []
    ensures Run(ops[..|ops| - 1], offset)
    ensures After(q, ops[..|ops| - 1], offset).suspended ==> After(q, ops, offset).suspended
  {
    hide Used;
  }

  /** Once set the suspension persists, in particular when windows roll over. */
  lemma {:induction false} SuspensionPersists(q: Quota, ops: seq<Op>, offset: int, k: nat)
    requires Run(ops, offset) && Enforced(ops) && k <= |ops|
    requires Run(ops[..k], offset) && After(q, ops[..k], offset).suspended
    ensures After(q, ops, offset).suspended
    decreases |ops|
  {
    hide Used;
    if k < |ops| {
      assert ops[..|ops| - 1][..k] == ops[..k];
      SuspensionPersists(q, ops[..|ops| - 1], offset, k);
      SuspensionStays(q, ops, offset);
    } else {
      assert ops[..k] == ops;
    }
  }

  /** A quota tripped in one hour still suspends in the next, in which nothing
      has been used: no roll-over lifts it. */
  lemma SuspensionOutlivesWindow(limit: int, offset: int)
    requires limit > 0 && 0 <= offset < DAY
    ensures var q := Quota(limit, 0, 0, 0);
            var ops := [Record(limit, false, 0, 0), Check(HOUR)];
            Run(ops, offset) && After(q, ops, offset).suspended
            && Used(After(q, ops, offset).buckets, Floor(Hourly, HOUR, offset)) == 0
  {
    var q := Quota(limit, 0, 0, 0);
    var first, ops := [Record(limit, false, 0, 0)], [Record(limit, false, 0, 0), Check(HOUR)];
    assert ops[..1] == first && first[..0] == [];
    assert Run([], offset) && After(q, [], offset) == Fresh(q);
    UsedIsLogged(q, first, offset, 0);
    assert Logged(first, 0) == limit;
    assert Exceeded(Apply(Fresh(q), first[0], offset).(suspended := false), Hourly, 0, offset);
    SuspensionPersists(q, ops, offset, 1);
    UsedIsLogged(q, ops, offset, HOUR);
    assert Logged(first, HOUR) == 0;
  }

  lemma Append(q: Quota, ops: seq<Op>, op: Op, offset: int)
    requires Run(ops, offset)
    requires Timed(op) ==> Sane(Start(op), offset) && Sane(End(op), offset) && Start(op) <= End(op)
    requires Timed(op) ==> forall i :: 0 <= i < |ops| && Timed(ops[i]) ==> End(ops[i]) <= Start(op)
    requires op.Record? ==> op.n >= 0
    ensures Run(ops + [op], offset) && (ops + [op])[..|ops|] == ops
    ensures After(q, ops + [op], offset) == Apply(After(q, ops, offset), op, offset)
  {
    hide Apply, FirstDay;
    assert (ops + [op])[..|ops|] == ops;
  }

  /** A bucket map with one hour of one byte trips no monthly limit of two. */
  lemma OneByteFits(hour: int, now: int, offset: int, s: State)
    requires Sane(now, offset) && s.buckets == map[hour := Pair(1, 0)] && s.quota == Quota(0, 0, 0, 2)
    ensures Checked(s, now, offset) == s
  {
    hide Floor;
    var from := Floor(Monthly, now, offset);
    if hour >= from {
      assert HoursFrom(s.buckets, from) == {hour};
      SumOverTakes(s.buckets, {hour}, hour);
    } else {
      assert HoursFrom(s.buckets, from) == {};
    }
    assert !Exceeded(s, Monthly, now, offset);
  }

  /** A byte at local midnight on 1 March 1970, and its bucket pruned in the last
      second of the month. */
  function PrunedMonth(offset: int): seq<Op> {
    var first, last := 59 * DAY - offset, 90 * DAY - offset - 1;
    [Record(1, false, first, first), Prune(last)]
  }

  lemma PrunedMonthForgets(offset: int)
    requires -DAY < offset < DAY && MidnightPastHour(offset) > 1
    ensures var q, ops := Quota(0, 0, 0, 2), PrunedMonth(offset);
            Run(ops, offset) && After(q, ops, offset) == Fresh(q).(inbound := 1)
  {
    hide After, Run, Checked, Floor, MonthStart, MonthOf;
    var q, ops := Quota(0, 0, 0, 2), PrunedMonth(offset);
    var first := ops[0].at;
    var one := map[HourOf(first) := Pair(1, 0)];
    MidnightFloor(59, offset);
    MarchBegins(offset);
    Nothing(q, offset);
    assert ops[..1] == [] + [ops[0]] && ops == ops[..1] + [ops[1]];
    Append(q, [], ops[0], offset);
    assert Recorded(map[], HourOf(first), 1, false) == one;
    OneByteFits(HourOf(first), first, offset, Fresh(q).(buckets := one, inbound := 1));
    Append(q, ops[..1], ops[1], offset);
    assert Pruned(one, ops[1].at) == map[];
  }

  lemma Nothing(q: Quota, offset: int)
    ensures Run([], offset) && After(q, [], offset) == Fresh(q)
  {
  }

  lemma MarchBegins(offset: int)
    requires -DAY < offset < DAY
    ensures var first, last := 59 * DAY - offset, 90 * DAY - offset - 1;
            Sane(first, offset) && Sane(last, offset)
            && Begin(Monthly, first, offset) == first && Begin(Monthly, last, offset) == first
  {
    assert LocalDay(59 * DAY - offset, offset) == 59;
    assert LocalDay(90 * DAY - offset - 1, offset) == 89;
    MarchDays();
    MonthOfMonotone(59, 89);
    assert MonthStart(2) == 59 by { assert MonthStart(1) == 31; }
    assert MonthFrom(59, 2) == 2;
    assert MonthFrom(59, 1) == 2 by { assert MonthStart(1) == 31; }
  }

  /** A run and a later reading of the clock. */
  ghost predicate Present(ops: seq<Op>, now: int, offset: int) {
    Run(ops, offset) && Sane(now, offset) && forall i :: 0 <= i < |ops| && Timed(ops[i]) ==> End(ops[i]) <= now
  }

  /** Every figure after every run is the logged bytes exactly in the zones in which
      pruning is invisible. */
  lemma FiguresRefineLogIff(offset: int)
    requires -DAY < offset < DAY
    ensures (forall q, ops, kind, now :: Present(ops, now, offset) ==>
               Used(After(q, ops, offset).buckets, Floor(kind, now, offset)) == Logged(ops, Floor(kind, now, offset)))
       <==> MidnightPastHour(offset) <= 1
  {
    if MidnightPastHour(offset) <= 1 {
      forall q, ops, kind, now | Present(ops, now, offset)
        ensures Used(After(q, ops, offset).buckets, Floor(kind, now, offset)) == Logged(ops, Floor(kind, now, offset))
      {
        FiguresRefineLog(q, ops, offset, kind, now);
      }
    } else {
      PrunedMonthMisses(offset);
    }
  }

  /** After the pruning the month's figure has lost the first byte. */
  lemma PrunedMonthMisses(offset: int)
    requires -DAY < offset < DAY && MidnightPastHour(offset) > 1
    ensures var q, ops, now := Quota(0, 0, 0, 2), PrunedMonth(offset), 90 * DAY - offset - 1;
            Present(ops, now, offset)
            && Used(After(q, ops, offset).buckets, Floor(Monthly, now, offset)) != Logged(ops, Floor(Monthly, now, offset))
  {
    hide After, MonthStart, MonthOf, Used;
    var ops, now := PrunedMonth(offset), 90 * DAY - offset - 1;
    PrunedMonthForgets(offset);
    MarchBegins(offset);
    MidnightFloor(59, offset);
    NothingUsed(Floor(Monthly, now, offset));
    HourOfBounds(ops[0].at);
    assert Floor(Monthly, now, offset) == HourOf(ops[0].at);
    assert |ops| == 2 && ops[0].Record? && ops[1].Prune? && ops[..1] == [ops[0]] && ops[..1][..0] == [];
    assert Logged(ops[..1], Floor(Monthly, now, offset)) == 1;
    assert Logged(ops, Floor(Monthly, now, offset)) == 1;
  }
}
