/** The per-IP limiters of internal/l7/engine.go: connection cycling, payload
    rate and the background pruning of both.

    The limiter maps are specified as maps of limiter values.  Each operation on
    them is one critical section of the owning mutex, with the clock readings it
    takes as arguments. */
module L7Limits {
  import opened Common
  import S = SlidingWindows
  import T = TokenBuckets

  const CYCLE_BUCKETS: nat := 10

  // ---------------------------------------------------------------- connection cycling

  /** The window a section works on: a new one when the address has none. */
  function WindowFor(ws: map<string, S.Window>, res: int, key: string, tNew: int): S.Window {
    if key in ws then ws[key] else S.Fresh(res, CYCLE_BUCKETS, tNew)
  }

  ghost predicate WindowsOk(ws: map<string, S.Window>, res: int, clock: int) {
    res > 0 && forall k :: k in ws ==>
      ws[k].Ok() && ws[k].res == res && |ws[k].ages| == CYCLE_BUCKETS && ws[k].lastTick <= clock
  }

  /** `Add(1)` at `tAdd`, then `Count()` at `tCount`. */
  function Cycled(ws: map<string, S.Window>, res: int, key: string, tNew: int, tAdd: int, tCount: int): S.Window
    requires res > 0 && tNew <= tAdd <= tCount
    requires key in ws ==> ws[key].Ok() && ws[key].lastTick <= tAdd
  {
    S.Advance(S.AddAt(WindowFor(ws, res, key, tNew), tAdd, 1), tCount)
  }

  /** One turn of the pruning loop: `Count()`, and deletion of a zero window. */
  function PrunedWindow(ws: map<string, S.Window>, key: string, now: int): map<string, S.Window>
    requires key in ws ==> ws[key].Ok() && ws[key].lastTick <= now
  {
    if key !in ws then ws
    else
      var w := S.Advance(ws[key], now);
      if S.Sum(w.ages) == 0 then Without(ws, key) else ws[key := w]
  }

  /** A pruning pass that has yet to visit the addresses in `todo`; `clock(k)` is
      the reading taken for address `k`. */
  ghost function PrunedWindows(ws: map<string, S.Window>, todo: set<string>, clock: string -> int): map<string, S.Window>
    requires forall k :: k in ws ==> ws[k].Ok() && ws[k].lastTick <= clock(k)
  {
    map k | k in ws && (k in todo || S.Sum(S.Advance(ws[k], clock(k)).ages) != 0)
      :: if k in todo then ws[k] else S.Advance(ws[k], clock(k))
  }

  /** The pass is one `PrunedWindow` turn per address, in any order. */
  lemma PruneWindowTurn(ws: map<string, S.Window>, todo: set<string>, clock: string -> int, key: string)
    requires forall k :: k in ws ==> ws[k].Ok() && ws[k].lastTick <= clock(k)
    requires key in ws && key in todo
    ensures key in PrunedWindows(ws, todo, clock) && PrunedWindows(ws, todo, clock)[key] == ws[key]
    ensures PrunedWindow(PrunedWindows(ws, todo, clock), key, clock(key)) == PrunedWindows(ws, todo - {key}, clock)
  {
    hide S.Advance, S.Sum;
  }

  datatype CycleOp =
    | Accept(key: string, tNew: int, tAdd: int, tCount: int)
    | PruneWindow(key: string, at: int)

  function CycleStart(op: CycleOp): int {
    if op.Accept? then op.tNew else op.at
  }

  function CycleEnd(op: CycleOp): int {
    if op.Accept? then op.tCount else op.at
  }

  /** Readings within a section and across sections do not run backwards. */
  ghost predicate CycleRun(ops: seq<CycleOp>, start: int) {
    && (forall i :: 0 <= i < |ops| ==> start <= CycleStart(ops[i]))
    && (forall i :: 0 <= i < |ops| && ops[i].Accept? ==> ops[i].tNew <= ops[i].tAdd <= ops[i].tCount)
    && (forall i, j :: 0 <= i < j < |ops| ==> CycleEnd(ops[i]) <= CycleStart(ops[j]))
  }

  function CycleClock(ops: seq<CycleOp>, start: int): int {
    if ops == [] then start else CycleEnd(ops[|ops| - 1])
  }

  ghost function WindowsAfter(res: int, start: int, ops: seq<CycleOp>): (ws: map<string, S.Window>)
    requires res > 0 && CycleRun(ops, start)
    ensures WindowsOk(ws, res, CycleClock(ops, start))
  {
    if ops == [] then map[]
    else
      var init, op := ops[..|ops| - 1], ops[|ops| - 1];
      var ws := WindowsAfter(res, start, init);
      assert init != [] ==> init[|init| - 1] == ops[|init| - 1];
      match op
      case Accept(key, tNew, tAdd, tCount) => ws[key := Cycled(ws, res, key, tNew, tAdd, tCount)]
      case PruneWindow(key, at) => PrunedWindow(ws, key, at)
  }

  /** The count that the `i`-th section reports. */
  ghost function CountAt(res: int, start: int, ops: seq<CycleOp>, i: nat): int
    requires res > 0 && CycleRun(ops, start) && i < |ops| && ops[i].Accept?
  {
    var op := ops[i];
    var ws := WindowsAfter(res, start, ops[..i]);
    assert i > 0 ==> CycleClock(ops[..i], start) == CycleEnd(ops[i - 1]);
    S.Sum(Cycled(ws, res, op.key, op.tNew, op.tAdd, op.tCount).ages)
  }

  /** Connections of `key` begun at or after `from`, whatever their outcome. */
  function Attempts(ops: seq<CycleOp>, key: string, from: int): nat {
    if ops == [] then 0
    else
      var op := ops[|ops| - 1];
      Attempts(ops[..|ops| - 1], key, from)
      + if op.Accept? && op.key == key && op.tAdd >= from then 1 else 0
  }

  /** Connections of `key` that passed the limit and whose section lies in [from, to]. */
  ghost function Passed(res: int, start: int, ops: seq<CycleOp>, key: string, limit: int, from: int, to: int): nat
    requires res > 0 && CycleRun(ops, start)
  {
    if ops == [] then 0
    else
      var n := |ops| - 1;
      var op := ops[n];
      Passed(res, start, ops[..n], key, limit, from, to)
      + if op.Accept? && op.key == key && from <= op.tAdd && op.tCount <= to && CountAt(res, start, ops, n) <= limit
        then 1 else 0
  }

  /** `log` holds every attempt of `key`.  It explains the live window; without a
      window every entry is older than nine resolutions. */
  ghost predicate Remembers(ws: map<string, S.Window>, res: int, key: string, log: seq<S.Entry>, clock: int) {
    && (forall i :: 0 <= i < |log| ==> log[i].amount == 1)
    && (key in ws ==> S.Explains(ws[key], log))
    && (key !in ws ==> forall i :: 0 <= i < |log| ==> log[i].at < clock - 9 * res)
  }

  /** Entries too old for any window stay explained by a fresh one. */
  lemma {:induction false} RetiredSum(log: seq<S.Entry>, j: int)
    requires forall i :: 0 <= i < |log| ==> log[i].age != j
    ensures S.AgeSum(log, j) == 0
  {
    if log != [] {
      assert forall i :: 0 <= i < |log[1..]| ==> log[1..][i] == log[i + 1];
      RetiredSum(log[1..], j);
    }
  }

  function Retired(log: seq<S.Entry>): (r: seq<S.Entry>)
    ensures |r| == |log|
    ensures forall i :: 0 <= i < |log| ==> r[i] == log[i].(age := CYCLE_BUCKETS)
  {
    seq(|log|, i requires 0 <= i < |log| => log[i].(age := CYCLE_BUCKETS))
  }

  lemma {:induction false} SinceRetired(log: seq<S.Entry>, from: int)
    ensures S.Since(Retired(log), from) == S.Since(log, from)
  {
    if log != [] {
      assert Retired(log)[1..] == Retired(log[1..]);
      SinceRetired(log[1..], from);
    }
  }

  /** Before a section the working window is explained by the whole history. */
  lemma WorkingWindowExplained(ws: map<string, S.Window>, res: int, key: string, log: seq<S.Entry>, clock: int, tNew: int)
    returns (log': seq<S.Entry>)
    requires WindowsOk(ws, res, clock) && Remembers(ws, res, key, log, clock) && clock <= tNew
    ensures S.Explains(WindowFor(ws, res, key, tNew), log')
    ensures forall i :: 0 <= i < |log'| ==> log'[i].amount == 1
    ensures forall from :: S.Since(log', from) == S.Since(log, from)
  {
    if key in ws {
      log' := log;
    } else {
      log' := Retired(log);
      var w := WindowFor(ws, res, key, tNew);
      forall j | 0 <= j < |w.ages| ensures w.ages[j] == S.AgeSum(log', j) {
        RetiredSum(log', j);
      }
      forall i | 0 <= i < |log'| ensures S.Timed(log'[i], w) {
      }
      forall from ensures S.Since(log', from) == S.Since(log, from) {
        SinceRetired(log, from);
      }
    }
  }

  /** The history after `Add(1)` at `tAdd` and `Count()` at `tCount`, and what
      the count is at least. */
  lemma CycleExplained(w: S.Window, log: seq<S.Entry>, tAdd: int, tCount: int) returns (log': seq<S.Entry>)
    requires S.Explains(w, log) && |w.ages| == CYCLE_BUCKETS && w.lastTick <= tAdd <= tCount
    requires forall i :: 0 <= i < |log| ==> log[i].amount == 1
    ensures forall i :: 0 <= i < |log'| ==> log'[i].amount == 1
    ensures S.Explains(S.Advance(S.AddAt(w, tAdd, 1), tCount), log')
    ensures forall from :: S.Since(log', from) == S.Since(log, from) + if tAdd >= from then 1 else 0
    ensures S.Since(log', tCount - 9 * w.res) <= S.Sum(S.Advance(S.AddAt(w, tAdd, 1), tCount).ages)
         <= S.Since(log', tCount - 19 * w.res + 10)
  {
    var a := S.AddAt(w, tAdd, 1);
    var added := S.Logged(w, log, tAdd, 1);
    S.ExplainsAdd(w, log, tAdd, 1);
    S.ExplainsAdvance(a, added, tCount);
    log' := S.Aged(added, S.Ticks(a, tCount));
    forall from ensures S.Since(log', from) == S.Since(log, from) + if tAdd >= from then 1 else 0 {
      S.SinceAged(added, S.Ticks(a, tCount), from);
      S.SinceAged(log, S.Ticks(w, tAdd), from);
      assert added[1..] == S.Aged(log, S.Ticks(w, tAdd));
    }
    S.AdvanceIsCurrent(a, tCount);
    S.ExplainedBounds(S.Advance(a, tCount), log', tCount, tCount - 9 * w.res, tCount - 19 * w.res + 10);
  }

  /** A zero count proves that every entry of the history is old. */
  lemma {:induction false} ZeroCountIsOld(log: seq<S.Entry>, lo: int)
    requires forall i :: 0 <= i < |log| ==> log[i].amount >= 0
    requires S.Since(log, lo) <= 0
    ensures S.Since(log, lo) == 0
    ensures forall i :: 0 <= i < |log| ==> log[i].amount > 0 ==> log[i].at < lo
  {
    if log != [] {
      var rest := log[1..];
      assert forall i :: 0 <= i < |rest| ==> rest[i] == log[i + 1];
      SinceNonNegative(rest, lo);
      ZeroCountIsOld(rest, lo);
      forall i | 0 <= i < |log| && log[i].amount > 0 ensures log[i].at < lo {
        if i > 0 { assert rest[i - 1] == log[i]; }
      }
    }
  }

  lemma {:induction false} SinceNonNegative(log: seq<S.Entry>, lo: int)
    requires forall i :: 0 <= i < |log| ==> log[i].amount >= 0
    ensures S.Since(log, lo) >= 0
  {
    if log != [] {
      assert forall i :: 0 <= i < |log[1..]| ==> log[1..][i] == log[i + 1];
      SinceNonNegative(log[1..], lo);
    }
  }

  lemma PruneRemembers(ws: map<string, S.Window>, res: int, key: string, log: seq<S.Entry>, clock: int, at: int)
    returns (log': seq<S.Entry>)
    requires WindowsOk(ws, res, clock) && Remembers(ws, res, key, log, clock) && clock <= at
    ensures Remembers(PrunedWindow(ws, key, at), res, key, log', at)
    ensures forall from :: S.Since(log', from) == S.Since(log, from)
    ensures S.Since(log, at - 19 * res + 10) <= 0 ==> key !in PrunedWindow(ws, key, at)
  {
    if key in ws {
      var w := ws[key];
      log' := S.Aged(log, S.Ticks(w, at));
      S.ExplainsAdvance(w, log, at);
      S.AdvanceIsCurrent(w, at);
      forall from ensures S.Since(log', from) == S.Since(log, from) {
        S.SinceAged(log, S.Ticks(w, at), from);
      }
      var a := S.Advance(w, at);
      S.ExplainedBounds(a, log', at, at - 9 * res, at - 19 * res + 10);
      SinceNonNegative(log', at - 9 * res);
      if S.Sum(a.ages) == 0 {
        ZeroCountIsOld(log', at - 9 * res);
      }
    } else {
      log' := log;
    }
  }

  /** The working window of the section `op` after the run `init`. */
  lemma StepRemembers(ws: map<string, S.Window>, res: int, key: string, log: seq<S.Entry>, clock: int, op: CycleOp)
    returns (log': seq<S.Entry>)
    requires WindowsOk(ws, res, clock) && Remembers(ws, res, key, log, clock) && clock <= CycleStart(op)
    requires op.Accept? && op.key == key && op.tNew <= op.tAdd <= op.tCount
    ensures var w := Cycled(ws, res, key, op.tNew, op.tAdd, op.tCount);
            && Remembers(ws[key := w], res, key, log', op.tCount)
            && S.Since(log', op.tCount - 9 * res) <= S.Sum(w.ages) <= S.Since(log', op.tCount - 19 * res + 10)
    ensures forall from :: S.Since(log', from) == S.Since(log, from) + if op.tAdd >= from then 1 else 0
  {
    var working := WorkingWindowExplained(ws, res, key, log, clock, op.tNew);
    log' := CycleExplained(WindowFor(ws, res, key, op.tNew), working, op.tAdd, op.tCount);
  }

  lemma {:induction false} RunRemembers(res: int, start: int, ops: seq<CycleOp>, key: string) returns (log: seq<S.Entry>)
    requires res > 0 && CycleRun(ops, start)
    ensures Remembers(WindowsAfter(res, start, ops), res, key, log, CycleClock(ops, start))
    ensures forall from :: S.Since(log, from) == Attempts(ops, key, from)
    decreases |ops|
  {
    if ops == [] {
      log := [];
    } else {
      var init, op := ops[..|ops| - 1], ops[|ops| - 1];
      var before := RunRemembers(res, start, init, key);
      var ws := WindowsAfter(res, start, init);
      assert init != [] ==> init[|init| - 1] == ops[|init| - 1];
      if op.key != key {
        log := before;
      } else if op.Accept? {
        log := StepRemembers(ws, res, key, before, CycleClock(init, start), op);
      } else {
        log := PruneRemembers(ws, res, key, before, CycleClock(init, start), op.at);
      }
    }
  }

  /** However windows were pruned and recreated before, a section counts at
      least every attempt of the last nine resolutions. */
  lemma CountCoversAttempts(res: int, start: int, ops: seq<CycleOp>)
    requires res > 0 && CycleRun(ops, start) && ops != [] && ops[|ops| - 1].Accept?
    ensures var op := ops[|ops| - 1];
            Attempts(ops, op.key, op.tCount - 9 * res) <= CountAt(res, start, ops, |ops| - 1)
  {
    var init, op := ops[..|ops| - 1], ops[|ops| - 1];
    var before := RunRemembers(res, start, init, op.key);
    assert init != [] ==> init[|init| - 1] == ops[|init| - 1];
    var log := StepRemembers(WindowsAfter(res, start, init), res, op.key, before, CycleClock(init, start), op);
    assert S.Since(before, op.tCount - 9 * res) == Attempts(init, op.key, op.tCount - 9 * res);
  }

  /** It counts none that is older than nineteen resolutions: an address whose attempts
      since then stay within the limit is accepted. */
  lemma CountIsConfined(res: int, start: int, ops: seq<CycleOp>)
    requires res > 0 && CycleRun(ops, start) && ops != [] && ops[|ops| - 1].Accept?
    ensures var op := ops[|ops| - 1];
            CountAt(res, start, ops, |ops| - 1) <= Attempts(ops, op.key, op.tCount - 19 * res + 10)
  {
    var init, op := ops[..|ops| - 1], ops[|ops| - 1];
    var before := RunRemembers(res, start, init, op.key);
    assert init != [] ==> init[|init| - 1] == ops[|init| - 1];
    var log := StepRemembers(WindowsAfter(res, start, init), res, op.key, before, CycleClock(init, start), op);
    assert S.Since(before, op.tCount - 19 * res + 10) == Attempts(init, op.key, op.tCount - 19 * res + 10);
  }

  /** The window of an address without attempts for nineteen resolutions is deleted. */
  lemma IdleWindowIsPruned(res: int, start: int, ops: seq<CycleOp>, key: string, at: int)
    requires res > 0 && CycleRun(ops + [PruneWindow(key, at)], start)
    requires forall i :: 0 <= i < |ops| && ops[i].Accept? && ops[i].key == key ==> ops[i].tAdd < at - 19 * res + 10
    ensures key !in WindowsAfter(res, start, ops + [PruneWindow(key, at)])
  {
    var all := ops + [PruneWindow(key, at)];
    assert all[..|ops|] == ops;
    assert forall i :: 0 <= i < |ops| ==> all[i] == ops[i];
    assert ops != [] ==> CycleEnd(all[|ops| - 1]) <= CycleStart(all[|ops|]);
    var before := RunRemembers(res, start, ops, key);
    NoAttempts(ops, key, at - 19 * res + 10);
    var log := PruneRemembers(WindowsAfter(res, start, ops), res, key, before, CycleClock(ops, start), at);
  }

  lemma {:induction false} NoAttempts(ops: seq<CycleOp>, key: string, from: int)
    requires forall i :: 0 <= i < |ops| && ops[i].Accept? && ops[i].key == key ==> ops[i].tAdd < from
    ensures Attempts(ops, key, from) == 0
  {
    if ops != [] { NoAttempts(ops[..|ops| - 1], key, from); }
  }

  lemma {:induction false} AttemptsMonotone(ops: seq<CycleOp>, key: string, from: int, later: int)
    requires from <= later
    ensures Attempts(ops, key, later) <= Attempts(ops, key, from)
  {
    if ops != [] { AttemptsMonotone(ops[..|ops| - 1], key, from, later); }
  }

  lemma {:induction false} PassedAreAttempts(res: int, start: int, ops: seq<CycleOp>, key: string, limit: int, from: int, to: int)
    requires res > 0 && CycleRun(ops, start)
    ensures Passed(res, start, ops, key, limit, from, to) <= Attempts(ops, key, from)
  {
    if ops != [] { PassedAreAttempts(res, start, ops[..|ops| - 1], key, limit, from, to); }
  }

  /** Over whole runs, with arbitrary pruning in between, no span of nine tenths
      of the window holds more than `limit` accepted connections of one address. */
  lemma {:induction false} CyclingLimit(res: int, start: int, ops: seq<CycleOp>, key: string, limit: nat, from: int, to: int)
    requires res > 0 && CycleRun(ops, start)
    requires to - from <= 9 * res
    ensures Passed(res, start, ops, key, limit, from, to) <= limit
    decreases |ops|
  {
    if ops != [] {
      var n := |ops| - 1;
      var op := ops[n];
      CyclingLimit(res, start, ops[..n], key, limit, from, to);
      if op.Accept? && op.key == key && from <= op.tAdd && op.tCount <= to && CountAt(res, start, ops, n) <= limit {
        CountCoversAttempts(res, start, ops);
        AttemptsMonotone(ops, key, op.tCount - 9 * res, from);
        PassedAreAttempts(res, start, ops, key, limit, from, to);
      }
    }
  }

  // ---------------------------------------------------------------- payload rate

  /** Burst capacity of a per-address bucket: a non-positive product falls back
      to twice the rate. */
  function BurstFor(rate: real, multiplier: real): real {
    if rate * multiplier <= 0.0 then rate * 2.0 else rate * multiplier
  }

  datatype Limit = Limit(rate: real, burst: real) {
    predicate Ok() { rate > 0.0 && burst > 0.0 }
  }

  function BucketFor(bs: map<string, T.Bucket>, lim: Limit, key: string, tNew: int): T.Bucket {
    if key in bs then bs[key] else T.Full(lim.rate, lim.burst, tNew)
  }

  function Metered(bs: map<string, T.Bucket>, lim: Limit, key: string, tNew: int, tAllow: int, n: real): map<string, T.Bucket> {
    bs[key := T.Take(BucketFor(bs, lim, key, tNew), tAllow, n)]
  }

  /** One turn of the pruning loop: `IsFull()`, and deletion of a full bucket. */
  function PrunedBucket(bs: map<string, T.Bucket>, key: string, now: int): map<string, T.Bucket> {
    if key !in bs then bs
    else if T.NearFull(bs[key], now) then Without(bs, key)
    else bs[key := T.Refill(bs[key], now)]
  }

  /** A pruning pass that has yet to visit the addresses in `todo`. */
  ghost function PrunedBuckets(bs: map<string, T.Bucket>, todo: set<string>, clock: string -> int): map<string, T.Bucket> {
    map k | k in bs && (k in todo || !T.NearFull(bs[k], clock(k)))
      :: if k in todo then bs[k] else T.Refill(bs[k], clock(k))
  }

  lemma PruneBucketTurn(bs: map<string, T.Bucket>, todo: set<string>, clock: string -> int, key: string)
    requires key in bs && key in todo
    ensures key in PrunedBuckets(bs, todo, clock) && PrunedBuckets(bs, todo, clock)[key] == bs[key]
    ensures PrunedBucket(PrunedBuckets(bs, todo, clock), key, clock(key)) == PrunedBuckets(bs, todo - {key}, clock)
  {
    hide T.Refill, T.NearFull;
  }

  datatype DataOp =
    | Data(key: string, tNew: int, tAllow: int, n: real)
    | PruneBucket(key: string, at: int)

  function DataStart(op: DataOp): int {
    if op.Data? then op.tNew else op.at
  }

  function DataEnd(op: DataOp): int {
    if op.Data? then op.tAllow else op.at
  }

  ghost predicate DataRun(ops: seq<DataOp>) {
    && (forall i :: 0 <= i < |ops| && ops[i].Data? ==> ops[i].tNew <= ops[i].tAllow && ops[i].n >= 0.0)
    && (forall i, j :: 0 <= i < j < |ops| ==> DataEnd(ops[i]) <= DataStart(ops[j]))
  }

  function BucketsAfter(lim: Limit, ops: seq<DataOp>): map<string, T.Bucket> {
    if ops == [] then map[]
    else
      var bs := BucketsAfter(lim, ops[..|ops| - 1]);
      match ops[|ops| - 1]
      case Data(key, tNew, tAllow, n) => Metered(bs, lim, key, tNew, tAllow, n)
      case PruneBucket(key, at) => PrunedBucket(bs, key, at)
  }

  predicate Admits(bs: map<string, T.Bucket>, lim: Limit, op: DataOp) {
    op.Data? && T.Refill(BucketFor(bs, lim, op.key, op.tNew), op.tAllow).tokens >= op.n
  }

  predicate Within(op: DataOp, key: string, from: int, to: int) {
    op.key == key && from <= DataEnd(op) <= to
  }

  /** Bytes of `key` admitted in [from, to]. */
  function AdmittedBytes(lim: Limit, ops: seq<DataOp>, key: string, from: int, to: int): real {
    if ops == [] then 0.0
    else
      var init, op := ops[..|ops| - 1], ops[|ops| - 1];
      AdmittedBytes(lim, init, key, from, to)
      + if Within(op, key, from, to) && Admits(BucketsAfter(lim, init), lim, op) then op.n else 0.0
  }

  /** How often the bucket of `key` was pruned in [from, to]. */
  function Prunings(lim: Limit, ops: seq<DataOp>, key: string, from: int, to: int): nat {
    if ops == [] then 0
    else
      var init, op := ops[..|ops| - 1], ops[|ops| - 1];
      var bs := BucketsAfter(lim, init);
      Prunings(lim, init, key, from, to)
      + if Within(op, key, from, to) && op.PruneBucket? && key in bs && T.NearFull(bs[key], op.at) then 1 else 0
  }

  /** Tokens `key` could draw at `now`; a missing bucket would be created full. */
  function Available(bs: map<string, T.Bucket>, lim: Limit, key: string, now: int): real {
    if key in bs then T.Refill(bs[key], now).tokens else lim.burst
  }

  ghost predicate BucketsOk(bs: map<string, T.Bucket>, lim: Limit, clock: int) {
    forall k :: k in bs ==> bs[k].Ok() && bs[k].rate == lim.rate && bs[k].burst == lim.burst && bs[k].last <= clock
  }

  lemma {:induction false} RunBucketsOk(lim: Limit, ops: seq<DataOp>, now: int)
    requires lim.Ok() && DataRun(ops) && forall i :: 0 <= i < |ops| ==> DataEnd(ops[i]) <= now
    ensures BucketsOk(BucketsAfter(lim, ops), lim, now)
    decreases |ops|
  {
    if ops != [] {
      hide T.Gain;
      RunBucketsOk(lim, ops[..|ops| - 1], now);
    }
  }

  /** The effect of one section on what its address can draw right after it. */
  lemma StepAvailable(bs: map<string, T.Bucket>, lim: Limit, op: DataOp)
    requires lim.Ok() && BucketsOk(bs, lim, DataStart(op))
    requires op.Data? ==> op.tNew <= op.tAllow && op.n >= 0.0
    ensures op.Data? ==>
              Available(Metered(bs, lim, op.key, op.tNew, op.tAllow, op.n), lim, op.key, op.tAllow)
              == Available(bs, lim, op.key, op.tAllow) - if Admits(bs, lim, op) then op.n else 0.0
    ensures op.PruneBucket? ==>
              Available(PrunedBucket(bs, op.key, op.at), lim, op.key, op.at)
              <= Available(bs, lim, op.key, op.at)
                 + if op.key in bs && T.NearFull(bs[op.key], op.at) then lim.burst / 100.0 else 0.0
  {
    T.GainNothing(lim.rate);
    if op.Data? {
      T.GainMonotone(lim.rate, op.tAllow - op.tNew);
    }
    hide T.Gain;
  }

  /** What `k` prunings add to the envelope: one percent of the burst each. */
  function Bonus(lim: Limit, k: nat): real {
    k as real * (lim.burst / 100.0)
  }

  lemma BonusStep(lim: Limit, k: nat)
    ensures Bonus(lim, k + 1) == Bonus(lim, k) + lim.burst / 100.0
    ensures Bonus(lim, 0) == 0.0
  {
  }

  lemma BonusIs(lim: Limit, k: nat)
    ensures Bonus(lim, k) == k as real * lim.burst / 100.0
  {
  }

  lemma AvailableLater(bs: map<string, T.Bucket>, lim: Limit, key: string, now: int, later: int)
    requires lim.Ok() && BucketsOk(bs, lim, now) && now <= later
    ensures Available(bs, lim, key, later) <= Available(bs, lim, key, now) + T.Gain(lim.rate, later - now)
  {
    T.GainMonotone(lim.rate, later - now);
    if key in bs {
      T.RefillTwice(bs[key], now, later);
    }
    hide T.Gain;
  }

  lemma {:induction false} NothingWithin(lim: Limit, ops: seq<DataOp>, key: string, from: int, to: int)
    requires forall i :: 0 <= i < |ops| ==> DataEnd(ops[i]) < from
    ensures AdmittedBytes(lim, ops, key, from, to) == 0.0 && Prunings(lim, ops, key, from, to) == 0
    decreases |ops|
  {
    if ops != [] { NothingWithin(lim, ops[..|ops| - 1], key, from, to); }
  }

  /** The pruning bonus that admitted bytes and remaining tokens leave unused. */
  function Slack(lim: Limit, ops: seq<DataOp>, key: string, from: int, to: int, now: int): real {
    Bonus(lim, Prunings(lim, ops, key, from, to)) - AdmittedBytes(lim, ops, key, from, to)
    - Available(BucketsAfter(lim, ops), lim, key, now)
  }

  /** No section consumes slack. */
  lemma StepPotential(lim: Limit, ops: seq<DataOp>, key: string, from: int, to: int)
    requires lim.Ok() && DataRun(ops) && ops != [] && from <= DataEnd(ops[|ops| - 1]) <= to
    ensures Slack(lim, ops[..|ops| - 1], key, from, to, DataEnd(ops[|ops| - 1]))
         <= Slack(lim, ops, key, from, to, DataEnd(ops[|ops| - 1]))
  {
    hide T.Gain, T.Refill;
    var init, op := ops[..|ops| - 1], ops[|ops| - 1];
    assert forall i :: 0 <= i < |init| ==> init[i] == ops[i];
    RunBucketsOk(lim, init, DataStart(op));
    StepAvailable(BucketsAfter(lim, init), lim, op);
    BonusStep(lim, Prunings(lim, init, key, from, to));
    hide Bonus;
  }

  /** Admitted bytes plus what is still available stay within the envelope, the
      envelope growing by one percent of the burst per pruning. */
  lemma {:induction false} PayloadPotential(lim: Limit, ops: seq<DataOp>, key: string, from: int, to: int, now: int)
    requires lim.Ok() && DataRun(ops) && from <= now <= to
    requires forall i :: 0 <= i < |ops| ==> DataEnd(ops[i]) <= now
    ensures AdmittedBytes(lim, ops, key, from, to) + Available(BucketsAfter(lim, ops), lim, key, now)
         <= lim.burst + T.Gain(lim.rate, now - from) + Bonus(lim, Prunings(lim, ops, key, from, to))
    decreases |ops|
  {
    if ops == [] || DataEnd(ops[|ops| - 1]) < from {
      AvailableWithinBurst(lim, ops, key, now);
      T.GainMonotone(lim.rate, now - from);
      BonusStep(lim, 0);
      forall i | 0 <= i < |ops| ensures DataEnd(ops[i]) < from {
        if i < |ops| - 1 { OpsInOrder(ops, i, |ops| - 1); }
      }
      hide T.Gain, Bonus, Available, BucketsAfter;
      NothingWithin(lim, ops, key, from, to);
    } else {
      var init, at := ops[..|ops| - 1], DataEnd(ops[|ops| - 1]);
      forall i | 0 <= i < |ops| ensures DataEnd(ops[i]) <= at {
        if i < |ops| - 1 { OpsInOrder(ops, i, |ops| - 1); }
      }
      assert forall i :: 0 <= i < |init| ==> init[i] == ops[i];
      hide T.Gain, Bonus, Available, BucketsAfter, AdmittedBytes, Prunings, BucketsOk;
      PayloadPotential(lim, init, key, from, to, at);
      StepPotential(lim, ops, key, from, to);
      RunBucketsOk(lim, ops, at);
      AvailableLater(BucketsAfter(lim, ops), lim, key, at, now);
      T.GainAdditive(lim.rate, at - from, now - at);
      assert (at - from) + (now - at) == now - from;
    }
  }

  lemma AvailableWithinBurst(lim: Limit, ops: seq<DataOp>, key: string, now: int)
    requires lim.Ok() && DataRun(ops) && forall i :: 0 <= i < |ops| ==> DataEnd(ops[i]) <= now
    ensures Available(BucketsAfter(lim, ops), lim, key, now) <= lim.burst
  {
    RunBucketsOk(lim, ops, now);
    hide T.Gain;
  }

  /** Bytes admitted for one address in [from, to] are at most
      burst + rate*(to-from) plus one percent of the burst per pruning in the span. */
  lemma PayloadLimit(lim: Limit, ops: seq<DataOp>, key: string, from: int, to: int)
    requires lim.Ok() && DataRun(ops) && from <= to
    ensures AdmittedBytes(lim, ops, key, from, to)
         <= lim.burst + lim.rate * ((to - from) as real / 1000000000.0)
            + Prunings(lim, ops, key, from, to) as real * lim.burst / 100.0
  {
    hide AdmittedBytes, Prunings, T.Gain, Bonus;
    PayloadBound(lim, ops, key, from, to);
    T.GainIs(lim.rate, to - from);
    BonusIs(lim, Prunings(lim, ops, key, from, to));
  }

  lemma {:induction false} PayloadBound(lim: Limit, ops: seq<DataOp>, key: string, from: int, to: int)
    requires lim.Ok() && DataRun(ops) && from <= to
    ensures AdmittedBytes(lim, ops, key, from, to)
         <= lim.burst + T.Gain(lim.rate, to - from) + Bonus(lim, Prunings(lim, ops, key, from, to))
    decreases |ops|
  {
    hide T.Gain, Available, AdmittedBytes, Prunings, BucketsAfter, Bonus;
    if ops == [] || DataEnd(ops[|ops| - 1]) <= to {
      forall i | 0 <= i < |ops| ensures DataEnd(ops[i]) <= to {
        if i < |ops| - 1 { OpsInOrder(ops, i, |ops| - 1); }
      }
      PayloadPotential(lim, ops, key, from, to, to);
      RunBucketsOk(lim, ops, to);
      AvailableNonNegative(lim, ops, key, to);
    } else {
      PayloadBound(lim, ops[..|ops| - 1], key, from, to);
      LastOutside(lim, ops, key, from, to);
    }
  }

  lemma OpsInOrder(ops: seq<DataOp>, i: nat, j: nat)
    requires DataRun(ops) && i < j < |ops|
    ensures DataEnd(ops[i]) <= DataEnd(ops[j])
  {
  }

  lemma LastOutside(lim: Limit, ops: seq<DataOp>, key: string, from: int, to: int)
    requires ops != [] && DataEnd(ops[|ops| - 1]) > to
    ensures var init := ops[..|ops| - 1];
            && AdmittedBytes(lim, ops, key, from, to) == AdmittedBytes(lim, init, key, from, to)
            && Prunings(lim, ops, key, from, to) == Prunings(lim, init, key, from, to)
  {
  }

  /** Admission never overdraws a bucket. */
  lemma {:induction false} AvailableNonNegative(lim: Limit, ops: seq<DataOp>, key: string, now: int)
    requires lim.Ok() && DataRun(ops) && forall i :: 0 <= i < |ops| ==> DataEnd(ops[i]) <= now
    ensures Available(BucketsAfter(lim, ops), lim, key, now) >= 0.0
  {
    TokensNonNegative(lim, ops);
    RunBucketsOk(lim, ops, now);
    var bs := BucketsAfter(lim, ops);
    if key in bs { T.GainMonotone(lim.rate, now - bs[key].last); }
    hide T.Gain;
  }

  lemma {:induction false} TokensNonNegative(lim: Limit, ops: seq<DataOp>)
    requires lim.Ok() && DataRun(ops)
    ensures forall k :: k in BucketsAfter(lim, ops) ==> BucketsAfter(lim, ops)[k].tokens >= 0.0
    decreases |ops|
  {
    if ops != [] {
      var init, op := ops[..|ops| - 1], ops[|ops| - 1];
      TokensNonNegative(lim, init);
      RunBucketsOk(lim, init, DataStart(op));
      var b := BucketFor(BucketsAfter(lim, init), lim, op.key, DataStart(op));
      T.GainMonotone(lim.rate, DataEnd(op) - b.last);
      hide T.Gain;
    }
  }

  /** An address that has sent nothing since `since` can draw at least what its bucket
      has gained by itself, however often it was probed. */
  lemma {:induction false} IdleAvailable(lim: Limit, ops: seq<DataOp>, key: string, since: int, now: int)
    requires lim.Ok() && DataRun(ops) && since <= now && forall i :: 0 <= i < |ops| ==> DataEnd(ops[i]) <= now
    requires forall i :: 0 <= i < |ops| && ops[i].Data? && ops[i].key == key ==> ops[i].tAllow <= since
    ensures Available(BucketsAfter(lim, ops), lim, key, now) >= T.Min(lim.burst, T.Gain(lim.rate, now - since))
    decreases |ops|
  {
    if ops != [] {
      var init, op := ops[..|ops| - 1], ops[|ops| - 1];
      IdleAvailable(lim, init, key, since, now);
      RunBucketsOk(lim, init, DataStart(op));
      TokensNonNegative(lim, ops);
      var bs := BucketsAfter(lim, init);
      if op.key == key {
        if op.Data? {
          T.GainAdditive(lim.rate, now - since, since - op.tAllow);
          assert (now - since) + (since - op.tAllow) == now - op.tAllow;
          T.GainMonotone(lim.rate, since - op.tAllow);
        } else if key in bs {
          T.RefillTwice(bs[key], op.at, now);
        }
      }
      hide T.Gain;
    }
  }

  /** In that many nanoseconds 99 percent of the burst flow in. */
  predicate Replenishes(lim: Limit, nanos: int) {
    lim.rate * (nanos as real / 1000000000.0) >= lim.burst * 0.99
  }

  lemma ReplenishesGain(lim: Limit, nanos: int)
    requires Replenishes(lim, nanos)
    ensures T.Gain(lim.rate, nanos) >= lim.burst * 0.99
  {
    T.GainIs(lim.rate, nanos);
    hide T.Gain;
  }

  lemma IdleIsNearFull(lim: Limit, ops: seq<DataOp>, key: string, since: int, now: int)
    requires lim.Ok() && DataRun(ops) && since <= now && forall i :: 0 <= i < |ops| ==> DataEnd(ops[i]) <= now
    requires forall i :: 0 <= i < |ops| && ops[i].Data? && ops[i].key == key ==> ops[i].tAllow <= since
    requires T.Gain(lim.rate, now - since) >= lim.burst * 0.99
    ensures key in BucketsAfter(lim, ops) ==> T.NearFull(BucketsAfter(lim, ops)[key], now)
  {
    hide T.Gain, T.Refill;
    IdleAvailable(lim, ops, key, since, now);
    RunBucketsOk(lim, ops, now);
  }

  lemma PruneLast(lim: Limit, ops: seq<DataOp>, key: string, at: int)
    requires DataRun(ops + [PruneBucket(key, at)])
    ensures DataRun(ops) && forall i :: 0 <= i < |ops| ==> DataEnd(ops[i]) <= at
    ensures BucketsAfter(lim, ops + [PruneBucket(key, at)]) == PrunedBucket(BucketsAfter(lim, ops), key, at)
  {
    var all := ops + [PruneBucket(key, at)];
    assert all[..|ops|] == ops && all[|ops|] == PruneBucket(key, at);
    hide PrunedBucket, Metered;
    assert forall i :: 0 <= i < |ops| ==> all[i] == ops[i];
  }

  /** A bucket left alone for as long as 99 percent of its burst takes to refill is
      deleted by the next pruning. */
  lemma IdleBucketIsPruned(lim: Limit, ops: seq<DataOp>, key: string, since: int, at: int)
    requires lim.Ok() && DataRun(ops + [PruneBucket(key, at)]) && since <= at
    requires forall i :: 0 <= i < |ops| && ops[i].Data? && ops[i].key == key ==> ops[i].tAllow <= since
    requires Replenishes(lim, at - since)
    ensures key !in BucketsAfter(lim, ops + [PruneBucket(key, at)])
  {
    hide DataRun, BucketsAfter, Replenishes, T.Gain, T.NearFull, T.Refill;
    PruneLast(lim, ops, key, at);
    ReplenishesGain(lim, at - since);
    IdleIsNearFull(lim, ops, key, since, at);
  }
}
