/** The ring-buffer rate counter of internal/l7/ratelimit.go.

    The ring is specified by a shift register: `ages[j]` is the bucket that has
    been rotated past `j` times, so `ages[0]` is the head.  Every clock reading
    is an explicit argument in nanoseconds. */
module SlidingWindows {
  import opened Common

  // ---------------------------------------------------------------- sums

  function Sum(s: seq<int>): int {
    if s == [] then 0 else Sum(s[..|s| - 1]) + s[|s| - 1]
  }

  lemma {:induction false} SumConcat(a: seq<int>, b: seq<int>)
    ensures Sum(a + b) == Sum(a) + Sum(b)
    decreases |b|
  {
    if b == [] {
      assert a + b == a;
    } else {
      var init := b[..|b| - 1];
      assert (a + b)[..|a + b| - 1] == a + init;
      SumConcat(a, init);
    }
  }

  function Reversed(s: seq<int>): (r: seq<int>)
    ensures |r| == |s|
    ensures forall i :: 0 <= i < |s| ==> r[i] == s[|s| - 1 - i]
  {
    seq(|s|, i requires 0 <= i < |s| => s[|s| - 1 - i])
  }

  lemma {:induction false} SumReversed(s: seq<int>)
    ensures Sum(Reversed(s)) == Sum(s)
    decreases |s|
  {
    if s != [] {
      var init, last := s[..|s| - 1], s[|s| - 1];
      assert Reversed(s) == [last] + Reversed(init);
      SumConcat([last], Reversed(init));
      SumReversed(init);
      assert Sum([last]) == last by { assert [last][..0] == []; }
    }
  }

  function Zeros(k: nat): (z: seq<int>)
    ensures |z| == k
    ensures forall i :: 0 <= i < k ==> z[i] == 0
  {
    seq(k, _ => 0)
  }

  // ---------------------------------------------------------------- quotients

  lemma TicksArith(d: int, res: int)
    requires res > 0 && d >= 0
    ensures (d / res) * res <= d < (d / res + 1) * res
  {
    assert d == res * (d / res) + d % res;
  }

  lemma QuotientIs(d: int, res: int, q: int)
    requires res > 0 && d >= 0 && q * res <= d < (q + 1) * res
    ensures d / res == q
  {
    TicksArith(d, res);
    MulMonotone(d / res + 1, q, res);
    MulMonotone(q + 1, d / res, res);
  }

  // ---------------------------------------------------------------- shift register

  datatype Window = Window(res: int, ages: seq<int>, lastTick: int) {
    predicate Ok() { res > 0 && |ages| > 0 }
  }

  /** A window without recorded events. */
  function Fresh(res: int, n: nat, now: int): Window {
    Window(res, Zeros(n), now)
  }

  /** Whole resolutions elapsed since the last tick, capped at the ring size. */
  function Ticks(w: Window, now: int): (k: nat)
    requires w.Ok() && w.lastTick <= now
    ensures k <= |w.ages|
  {
    var k := (now - w.lastTick) / w.res;
    if k > |w.ages| then |w.ages| else k
  }

  /** `k` zeros shifted in at the young end. */
  function Shifted(ages: seq<int>, k: nat): (s: seq<int>)
    requires k <= |ages|
    ensures |s| == |ages|
  {
    Zeros(k) + ages[..|ages| - k]
  }

  /** Shifts the register by the elapsed ticks; the remainder of the elapsed
      time is dropped because the tick clock restarts at `now`. */
  function Advance(w: Window, now: int): (a: Window)
    requires w.Ok() && w.lastTick <= now
    ensures a.Ok() && |a.ages| == |w.ages| && a.res == w.res && a.lastTick <= now
  {
    var k := Ticks(w, now);
    if k == 0 then w
    else Window(w.res, Shifted(w.ages, k), now)
  }

  function AddAt(w: Window, now: int, amount: int): (a: Window)
    requires w.Ok() && w.lastTick <= now
    ensures a.Ok() && |a.ages| == |w.ages| && a.res == w.res && a.lastTick <= now
  {
    var a := Advance(w, now);
    a.(ages := a.ages[0 := a.ages[0] + amount])
  }

  /** After an advance less than one resolution has passed since the last tick. */
  lemma AdvanceIsCurrent(w: Window, now: int)
    requires w.Ok() && w.lastTick <= now
    ensures now - Advance(w, now).lastTick < w.res
  {
    var d := now - w.lastTick;
    assert d == w.res * (d / w.res) + d % w.res;
  }

  // ---------------------------------------------------------------- the ring buffer

  /** The slot that has been rotated past `j` times. */
  function Slot(n: nat, head: nat, j: nat): (i: nat)
    requires head < n && j < n
    ensures i < n
  {
    if j <= head then head - j else head - j + n
  }

  /** The ring read as a shift register. */
  function View(b: seq<int>, head: nat): (ages: seq<int>)
    requires head < |b|
    ensures |ages| == |b|
    ensures forall j :: 0 <= j < |b| ==> ages[j] == b[Slot(|b|, head, j)]
  {
    seq(|b|, j requires 0 <= j < |b| => b[Slot(|b|, head, j)])
  }

  function Next(n: nat, head: nat): (i: nat)
    requires head < n
    ensures i < n
  {
    (head + 1) % n
  }

  lemma NextWraps(n: nat, head: nat)
    requires head < n
    ensures Next(n, head) == if head + 1 == n then 0 else head + 1
  {
  }

  /** Moving the head and clearing the slot under it shifts a zero in. */
  lemma RotateView(b: seq<int>, head: nat)
    requires head < |b|
    ensures var h := Next(|b|, head); View(b[h := 0], h) == Shifted(View(b, head), 1)
  {
    NextWraps(|b|, head);
    hide Next;
  }

  lemma AddView(b: seq<int>, head: nat, amount: int)
    requires head < |b|
    ensures View(b[head := b[head] + amount], head)
         == View(b, head)[0 := View(b, head)[0] + amount]
  {
  }

  lemma ViewHalves(b: seq<int>, head: nat)
    requires head < |b|
    ensures View(b, head) == Reversed(b[..head + 1]) + Reversed(b[head + 1..])
  {
    var lo, hi := b[..head + 1], b[head + 1..];
    forall j | 0 <= j < |b| ensures View(b, head)[j] == (Reversed(lo) + Reversed(hi))[j] {
      if j > head { assert Reversed(hi)[j - head - 1] == hi[|hi| - 1 - (j - head - 1)]; }
    }
  }

  /** Rotating and reversing the ring does not change its sum. */
  lemma RingSum(b: seq<int>, head: nat)
    requires head < |b|
    ensures Sum(View(b, head)) == Sum(b)
  {
    hide View, Reversed;
    var lo, hi := b[..head + 1], b[head + 1..];
    ViewHalves(b, head);
    SumConcat(Reversed(lo), Reversed(hi));
    SumReversed(lo);
    SumReversed(hi);
    assert b == lo + hi;
    SumConcat(lo, hi);
  }

  lemma ShiftOnce(ages: seq<int>, i: nat)
    requires i < |ages|
    ensures Shifted(Shifted(ages, i), 1) == Shifted(ages, i + 1)
  {
  }

  /** One turn of the loop in `advance`. */
  lemma RotateOnce(b: seq<int>, head: nat, ages: seq<int>, i: nat)
    requires head < |b| == |ages| && i < |ages|
    requires View(b, head) == Shifted(ages, i)
    ensures var h := Next(|b|, head);
            View(b[h := 0], h) == Shifted(ages, i + 1)
  {
    hide View, Shifted, Next;
    RotateView(b, head);
    ShiftOnce(ages, i);
  }

  function BucketCount(numBuckets: int): (n: nat)
    ensures n >= 1
  {
    if numBuckets < 1 then 10 else numBuckets
  }

  /** Division of the source truncates toward zero. */
  function Quotient(a: int, n: nat): int
    requires n > 0
  {
    if a >= 0 then a / n else -(-a / n)
  }

  /** The buckets together are no longer than the window, and less than a nanosecond
      each shorter. */
  lemma QuotientFits(a: nat, n: nat)
    requires n > 0
    ensures Quotient(a, n) * n <= a < (Quotient(a, n) + 1) * n
  {
    TicksArith(a, n);
    MulDistributes(n, a / n, 1);
  }

  lemma QuotientPositive(a: int, n: nat)
    requires n > 0
    ensures Quotient(a, n) > 0 <==> a >= n
  {
    Magnitude(if a >= 0 then a else -a, n);
  }

  lemma Magnitude(d: nat, n: nat)
    requires n > 0
    ensures d / n >= 0 && (d / n > 0 <==> d >= n)
  {
    TicksArith(d, n);
    MulMonotone(1, d / n, n);
    MulMonotone(d / n + 1, 1, n);
    MulMonotone(d / n + 1, 0, n);
  }

  class SlidingWindow {
    const resolution: int
    const buckets: array<int>
    var head: nat
    var lastTick: int

    ghost predicate Valid()
      reads this
    {
      resolution > 0 && head < buckets.Length
    }

    ghost function Model(): (w: Window)
      requires Valid()
      reads this, buckets
      ensures w.Ok()
    {
      Window(resolution, View(buckets[..], head), lastTick)
    }

    /** Non-positive bucket counts fall back to ten buckets.  A window too short for
        its buckets gives a ring with a resolution of zero or below, which no call
        can use. */
    constructor (window: int, numBuckets: int, now: int)
      ensures fresh(buckets) && buckets.Length == BucketCount(numBuckets)
      ensures buckets.Length == if numBuckets < 1 then 10 else numBuckets
      ensures resolution == Quotient(window, BucketCount(numBuckets))
      ensures Valid() <==> window >= BucketCount(numBuckets)
      ensures Valid() ==> Model() == Fresh(resolution, buckets.Length, now)
    {
      var n := if numBuckets < 1 then 10 else numBuckets;
      QuotientPositive(window, n);
      resolution := Quotient(window, n);
      buckets := new int[n](_ => 0);
      head := 0;
      lastTick := now;
    }

    method Add(now: int, amount: int)
      requires Valid() && lastTick <= now
      modifies this, buckets
      ensures Valid() && Model() == AddAt(old(Model()), now, amount)
    {
      advance(now);
      AddView(buckets[..], head, amount);
      ghost var b := buckets[..];
      buckets[head] := buckets[head] + amount;
      assert buckets[..] == b[head := b[head] + amount];
    }

    method Count(now: int) returns (total: int)
      requires Valid() && lastTick <= now
      modifies this, buckets
      ensures Valid() && Model() == Advance(old(Model()), now)
      ensures total == Sum(Model().ages)
    {
      advance(now);
      total := 0;
      for i := 0 to buckets.Length
        invariant total == Sum(buckets[..i])
      {
        assert buckets[..i + 1][..i] == buckets[..i];
        total := total + buckets[i];
      }
      assert buckets[..buckets.Length] == buckets[..];
      RingSum(buckets[..], head);
    }

    method advance(now: int)
      requires Valid() && lastTick <= now
      modifies this, buckets
      ensures Valid() && Model() == Advance(old(Model()), now)
    {
      ghost var ages := Model().ages;
      assert Shifted(ages, 0) == ages;
      hide View, Shifted;
      var ticks := (now - lastTick) / resolution;
      if ticks > buckets.Length {
        ticks := buckets.Length;
      }
      assert ticks == Ticks(Model(), now);
      rotate(ticks);
      if ticks > 0 {
        lastTick := now;
      }
    }

    /** The loop of `advance`: clears `ticks` slots ahead of the head. */
    method rotate(ticks: nat)
      requires Valid() && ticks <= buckets.Length
      modifies `head, buckets
      ensures Valid()
      ensures View(buckets[..], head) == Shifted(old(View(buckets[..], head)), ticks)
    {
      var n := buckets.Length;
      ghost var ages := View(buckets[..], head);
      assert Shifted(ages, 0) == ages;
      hide View, Shifted, Next;
      for i := 0 to ticks
        invariant Valid()
        invariant View(buckets[..], head) == Shifted(ages, i)
      {
        ghost var b := buckets[..];
        RotateOnce(b, head, ages, i);
        head := Next(n, head);
        buckets[head] := 0;
        assert buckets[..] == b[head := 0];
      }
    }
  }

  // ---------------------------------------------------------------- event log

  /** A logged `Add`; `age` counts the rotations its bucket went through since. */
  datatype Entry = Entry(at: int, amount: int, age: nat)

  function Aged(log: seq<Entry>, k: nat): (r: seq<Entry>)
    ensures |r| == |log|
    ensures forall i :: 0 <= i < |log| ==> r[i] == log[i].(age := log[i].age + k)
  {
    seq(|log|, i requires 0 <= i < |log| => log[i].(age := log[i].age + k))
  }

  function AgeSum(log: seq<Entry>, j: int): int {
    if log == [] then 0
    else AgeSum(log[1..], j) + if log[0].age == j then log[0].amount else 0
  }

  /** Total of the entries that are younger than `n` rotations. */
  function KeptSum(log: seq<Entry>, n: int): int {
    if log == [] then 0
    else KeptSum(log[1..], n) + if log[0].age < n then log[0].amount else 0
  }

  /** Total of the entries logged at or after `from`. */
  function Since(log: seq<Entry>, from: int): int {
    if log == [] then 0
    else Since(log[1..], from) + if log[0].at >= from then log[0].amount else 0
  }

  /** An entry of age `j` was added more than `j-1` and less than `2j` resolutions
      before the last tick: one rotation takes at least one resolution and, because
      of the dropped remainder, up to two less a nanosecond. */
  ghost predicate Timed(e: Entry, w: Window) {
    && e.amount >= 0
    && (e.age - 1) * w.res < w.lastTick - e.at
    && (e.age < |w.ages| ==> w.lastTick - e.at <= e.age * (2 * w.res - 1))
  }

  ghost predicate Explains(w: Window, log: seq<Entry>) {
    && w.Ok()
    && (forall j :: 0 <= j < |w.ages| ==> w.ages[j] == AgeSum(log, j))
    && (forall i :: 0 <= i < |log| ==> Timed(log[i], w))
  }

  lemma {:induction false} AgeSumAged(log: seq<Entry>, k: nat, j: int)
    ensures AgeSum(Aged(log, k), j) == AgeSum(log, j - k)
  {
    if log != [] {
      assert Aged(log, k)[1..] == Aged(log[1..], k);
      AgeSumAged(log[1..], k, j);
    }
  }

  lemma {:induction false} AgeSumNegative(log: seq<Entry>, j: int)
    requires j < 0
    ensures AgeSum(log, j) == 0
  {
    if log != [] {
      AgeSumNegative(log[1..], j);
    }
  }

  lemma {:induction false} SinceAged(log: seq<Entry>, k: nat, from: int)
    ensures Since(Aged(log, k), from) == Since(log, from)
  {
    if log != [] {
      assert Aged(log, k)[1..] == Aged(log[1..], k);
      SinceAged(log[1..], k, from);
    }
  }

  /** The arithmetic of aging: `k` ticks took between `k` and `k+1` resolutions. */
  lemma AgingArith(res: int, age: nat, k: nat, gap: int, d: int)
    requires res > 0 && k > 0 && k * res <= d
    ensures (age - 1) * res < gap ==> (age + k - 1) * res < gap + d
    ensures gap <= age * (2 * res - 1) && d < (k + 1) * res ==> gap + d <= (age + k) * (2 * res - 1)
  {
    MulDistributes(res, age - 1, k);
    MulDistributes(2 * res - 1, age, k);
    MulDistributes(res, k, 1);
    TicksArithUpper(res, k);
  }

  /** k+1 resolutions are at most k times two resolutions less a nanosecond, and one. */
  lemma TicksArithUpper(res: int, k: nat)
    requires res > 0 && k > 0
    ensures k * res + res - 1 <= k * (2 * res - 1)
  {
    MulDistributes(k, res, res - 1);
    MulMonotone(1, k, res - 1);
  }

  lemma TimedAdvance(e: Entry, w: Window, now: int, k: nat)
    requires w.Ok() && w.lastTick <= now && k == Ticks(w, now) > 0 && Timed(e, w)
    ensures Timed(e.(age := e.age + k), Advance(w, now))
  {
    var d := now - w.lastTick;
    var q := d / w.res;
    TicksArith(d, w.res);
    assert k * w.res <= q * w.res;
    AgingArith(w.res, e.age, k, w.lastTick - e.at, d);
  }

  /** Advancing the register ages every logged entry by the ticks taken. */
  lemma ExplainsAdvance(w: Window, log: seq<Entry>, now: int)
    requires Explains(w, log) && w.lastTick <= now
    ensures Explains(Advance(w, now), Aged(log, Ticks(w, now)))
  {
    var k := Ticks(w, now);
    var a := Advance(w, now);
    var log' := Aged(log, k);
    if k == 0 {
      assert log' == log;
    } else {
      forall j | 0 <= j < |a.ages| ensures a.ages[j] == AgeSum(log', j) {
        AgeSumAged(log, k, j);
        if j < k { AgeSumNegative(log, j - k); }
      }
      forall i | 0 <= i < |log| ensures Timed(log'[i], a) {
        TimedAdvance(log[i], w, now, k);
      }
    }
  }

  /** The log after an `Add`. */
  function Logged(w: Window, log: seq<Entry>, now: int, amount: int): seq<Entry>
    requires w.Ok() && w.lastTick <= now
  {
    [Entry(now, amount, 0)] + Aged(log, Ticks(w, now))
  }

  lemma ExplainsAdd(w: Window, log: seq<Entry>, now: int, amount: int)
    requires Explains(w, log) && w.lastTick <= now && amount >= 0
    ensures Explains(AddAt(w, now, amount), Logged(w, log, now, amount))
  {
    ExplainsAdvance(w, log, now);
    AdvanceIsCurrent(w, now);
    var a := AddAt(w, now, amount);
    var rest := Aged(log, Ticks(w, now));
    var log' := Logged(w, log, now, amount);
    assert log'[1..] == rest;
    assert Timed(log'[0], a);
    forall i | 0 <= i < |log'| ensures Timed(log'[i], a) {
      if i > 0 { assert log'[i] == rest[i - 1]; }
    }
  }

  lemma {:induction false} KeptStep(log: seq<Entry>, n: nat)
    ensures KeptSum(log, n + 1) == KeptSum(log, n) + AgeSum(log, n)
  {
    if log != [] { KeptStep(log[1..], n); }
  }

  lemma {:induction false} KeptZero(log: seq<Entry>)
    ensures KeptSum(log, 0) == 0
  {
    if log != [] { KeptZero(log[1..]); }
  }

  lemma {:induction false} SumIsKept(ages: seq<int>, log: seq<Entry>)
    requires forall j :: 0 <= j < |ages| ==> ages[j] == AgeSum(log, j)
    ensures Sum(ages) == KeptSum(log, |ages|)
    decreases |ages|
  {
    if ages == [] {
      KeptZero(log);
    } else {
      SumIsKept(ages[..|ages| - 1], log);
      KeptStep(log, |ages| - 1);
    }
  }

  lemma {:induction false} KeptBounds(log: seq<Entry>, n: nat, lo: int, hi: int)
    requires forall i :: 0 <= i < |log| ==> log[i].amount >= 0
    requires forall i :: 0 <= i < |log| ==> (log[i].age >= n ==> log[i].at < lo)
    requires forall i :: 0 <= i < |log| ==> (log[i].age < n ==> hi <= log[i].at)
    ensures Since(log, lo) <= KeptSum(log, n) <= Since(log, hi)
  {
    if log != [] {
      var rest := log[1..];
      assert forall i :: 0 <= i < |rest| ==> rest[i] == log[i + 1];
      KeptBounds(rest, n, lo, hi);
    }
  }

  /** n-1 rotations of almost two resolutions each, and an unfinished one. */
  lemma OldestKept(n: int, res: int)
    ensures (n - 1) * (2 * res - 1) + res - 1 == (2 * n - 1) * res - n
  {
  }

  lemma EntryBounds(e: Entry, w: Window, now: int)
    requires w.Ok() && Timed(e, w) && w.lastTick <= now < w.lastTick + w.res
    ensures e.age >= |w.ages| ==> e.at < now - (|w.ages| - 1) * w.res
    ensures e.age < |w.ages| ==> now - (2 * |w.ages| - 1) * w.res + |w.ages| <= e.at
  {
    var n, res := |w.ages|, w.res;
    MulMonotone(n - 1, e.age - 1, res);
    MulMonotone(e.age, n - 1, 2 * res - 1);
    OldestKept(n, res);
  }

  /** The bounds that any explained and current register gives. */
  lemma ExplainedBounds(w: Window, log: seq<Entry>, now: int, lo: int, hi: int)
    requires Explains(w, log) && w.lastTick <= now < w.lastTick + w.res
    requires lo == now - (|w.ages| - 1) * w.res
    requires hi == now - (2 * |w.ages| - 1) * w.res + |w.ages|
    ensures Since(log, lo) <= Sum(w.ages) <= Since(log, hi)
  {
    var n := |w.ages|;
    SumIsKept(w.ages, log);
    forall i | 0 <= i < |log|
      ensures log[i].amount >= 0
      ensures log[i].age >= n ==> log[i].at < lo
      ensures log[i].age < n ==> hi <= log[i].at
    {
      assert Timed(log[i], w);
      EntryBounds(log[i], w, now);
    }
    hide Timed;
    KeptBounds(log, n, lo, hi);
  }

  // ---------------------------------------------------------------- runs

  datatype Op = Add(at: int, amount: int) | Count(at: int)

  /** The clock does not run backwards and amounts are not negative. */
  ghost predicate Run(ops: seq<Op>, start: int) {
    && (forall i :: 0 <= i < |ops| ==> start <= ops[i].at && (ops[i].Add? ==> ops[i].amount >= 0))
    && (forall i, j :: 0 <= i < j < |ops| ==> ops[i].at <= ops[j].at)
  }

  function Apply(w: Window, op: Op): (w': Window)
    requires w.Ok() && w.lastTick <= op.at
    ensures w'.Ok() && |w'.ages| == |w.ages| && w'.res == w.res && w'.lastTick <= op.at
  {
    match op
    case Add(at, amount) => AddAt(w, at, amount)
    case Count(at) => Advance(w, at)
  }

  ghost function After(res: int, n: nat, start: int, ops: seq<Op>): (w: Window)
    requires res > 0 && n > 0 && Run(ops, start)
    ensures w.Ok() && |w.ages| == n && w.res == res
    ensures w.lastTick <= if ops == [] then start else ops[|ops| - 1].at
  {
    if ops == [] then Fresh(res, n, start)
    else Apply(After(res, n, start, ops[..|ops| - 1]), ops[|ops| - 1])
  }

  /** Total amount added at or after `from`. */
  function Added(ops: seq<Op>, from: int): int {
    if ops == [] then 0
    else
      var op := ops[|ops| - 1];
      Added(ops[..|ops| - 1], from) + if op.Add? && op.at >= from then op.amount else 0
  }

  lemma {:induction false} RunIsExplained(res: int, n: nat, start: int, ops: seq<Op>) returns (log: seq<Entry>)
    requires res > 0 && n > 0 && Run(ops, start)
    ensures Explains(After(res, n, start, ops), log)
    ensures forall from :: Since(log, from) == Added(ops, from)
    decreases |ops|
  {
    if ops == [] {
      log := [];
    } else {
      var init, op := ops[..|ops| - 1], ops[|ops| - 1];
      var before := RunIsExplained(res, n, start, init);
      var w := After(res, n, start, init);
      var k := Ticks(w, op.at);
      forall from ensures Since(Aged(before, k), from) == Since(before, from) {
        SinceAged(before, k, from);
      }
      match op {
        case Add(at, amount) =>
          ExplainsAdd(w, before, at, amount);
          log := Logged(w, before, at, amount);
          assert log[1..] == Aged(before, k);
        case Count(at) =>
          ExplainsAdvance(w, before, at);
          log := Aged(before, k);
      }
    }
  }

  /** A run and a later reading of the clock. */
  ghost predicate Reading(ops: seq<Op>, start: int, now: int) {
    Run(ops, start) && start <= now && forall i :: 0 <= i < |ops| ==> ops[i].at <= now
  }

  /** What a `Count` at `now` reports. */
  ghost function Counted(res: int, n: nat, start: int, ops: seq<Op>, now: int): int
    requires res > 0 && n > 0 && Reading(ops, start, now)
  {
    Sum(Advance(After(res, n, start, ops), now).ages)
  }

  /** For every run, a `Count` at `now` reports at least everything added in the
      last n-1 resolutions, and nothing older than 2n-1 resolutions less n. */
  lemma Sandwich(res: int, n: nat, start: int, ops: seq<Op>, now: int)
    requires res > 0 && n > 0 && Reading(ops, start, now)
    ensures var total := Counted(res, n, start, ops, now);
            Added(ops, now - (n - 1) * res) <= total <= Added(ops, now - ((2 * n - 1) * res - n))
  {
    var log := RunIsExplained(res, n, start, ops);
    var w := After(res, n, start, ops);
    var lo, hi := now - (n - 1) * res, now - ((2 * n - 1) * res - n);
    hide After, Added;
    ExplainsAdvance(w, log, now);
    AdvanceIsCurrent(w, now);
    ExplainedBounds(Advance(w, now), Aged(log, Ticks(w, now)), now, lo, hi);
    SinceAged(log, Ticks(w, now), lo);
    SinceAged(log, Ticks(w, now), hi);
  }

  // ---------------------------------------------------------------- both bounds are exact

  lemma {:induction false} AddedMonotone(ops: seq<Op>, start: int, from: int, later: int)
    requires Run(ops, start) && from <= later
    ensures 0 <= Added(ops, later) <= Added(ops, from)
    decreases |ops|
  {
    if ops != [] { AddedMonotone(ops[..|ops| - 1], start, from, later); }
  }

  lemma {:induction false} SumZeros(k: nat)
    ensures Sum(Zeros(k)) == 0
  {
    if k > 0 {
      SumZeros(k - 1);
      assert Zeros(k)[..k - 1] == Zeros(k - 1);
    }
  }

  /** An event just before the first tick is lost n ticks later, although it is only
      n-1 resolutions and a nanosecond old. */
  lemma LosesEarly(res: int, n: nat, span: int)
    requires res > 0 && n > 0 && span > (n - 1) * res
    ensures var ops := [Add(res - 1, 1)];
            Reading(ops, 0, n * res) && Counted(res, n, 0, ops, n * res) == 0 && Added(ops, n * res - span) == 1
  {
    var ops, now := [Add(res - 1, 1)], n * res;
    MulMonotone(1, n, res);
    assert now == (n - 1) * res + res;
    assert Run(ops, 0) && ops[..|ops| - 1] == [];
    assert Added([], now - span) == 0;
    assert After(res, n, 0, []) == Fresh(res, n, 0);
    QuotientIs(res - 1, res, 0);
    var w := AddAt(Fresh(res, n, 0), res - 1, 1);
    assert After(res, n, 0, ops) == w && w.lastTick == 0;
    QuotientIs(now, res, n);
    assert Ticks(w, now) == n;
    assert w.ages[..0] == [];
    assert Advance(w, now).ages == Zeros(n);
    SumZeros(n);
  }

  /** The `k`-th instant of a clock that beats as slowly as a single tick allows. */
  function Beat(res: int, k: int): int {
    k * (2 * res - 1)
  }

  lemma NextBeat(res: int, k: int)
    ensures Beat(res, k) == Beat(res, k - 1) + 2 * res - 1 && Beat(res, 0) == 0
  {
    MulDistributes(2 * res - 1, k - 1, 1);
  }

  /** One event, and then `k` counts as far apart as a single tick allows. */
  function Lagging(res: int, k: nat): (ops: seq<Op>)
    ensures |ops| == k + 1
  {
    if k == 0 then [Add(0, 1)] else Lagging(res, k - 1) + [Count(Beat(res, k))]
  }

  lemma {:induction false} LaggingRun(res: int, k: nat)
    requires res > 0
    ensures Reading(Lagging(res, k), 0, Beat(res, k)) && Lagging(res, k)[k].at == Beat(res, k)
    ensures forall from :: from > 0 ==> Added(Lagging(res, k), from) == 0
  {
    hide Beat;
    NextBeat(res, k);
    var ops := Lagging(res, k);
    if k == 0 {
      assert ops[..0] == [];
    } else {
      LaggingRun(res, k - 1);
      assert ops[..k] == Lagging(res, k - 1);
    }
  }

  /** Each of those counts takes one tick and drops all but a nanosecond of another
      resolution. */
  lemma {:induction false} LaggingAges(res: int, n: nat, k: nat)
    requires res > 0 && k < n && Run(Lagging(res, k), 0)
    ensures After(res, n, 0, Lagging(res, k)) == Window(res, Zeros(k) + [1] + Zeros(n - 1 - k), Beat(res, k))
  {
    hide Beat;
    NextBeat(res, k);
    var ops := Lagging(res, k);
    if k == 0 {
      assert ops[..0] == [];
      assert Zeros(n)[0 := 1] == Zeros(0) + [1] + Zeros(n - 1);
    } else {
      LaggingRun(res, k - 1);
      LaggingAges(res, n, k - 1);
      assert ops[..k] == Lagging(res, k - 1);
      hide Advance, Run;
      LaggingStep(res, n, k);
    }
  }

  lemma OneTick(res: int)
    requires res > 0
    ensures (2 * res - 1) / res == 1 && (res - 1) / res == 0
  {
    QuotientIs(2 * res - 1, res, 1);
    QuotientIs(res - 1, res, 0);
  }

  lemma LaggingStep(res: int, n: nat, k: nat)
    requires res > 0 && 0 < k < n
    ensures var w := Window(res, Zeros(k - 1) + [1] + Zeros(n - k), Beat(res, k - 1));
            w.lastTick <= Beat(res, k)
            && Advance(w, Beat(res, k)) == Window(res, Zeros(k) + [1] + Zeros(n - 1 - k), Beat(res, k))
  {
    hide Beat;
    var w := Window(res, Zeros(k - 1) + [1] + Zeros(n - k), Beat(res, k - 1));
    var now := Beat(res, k);
    NextBeat(res, k);
    OneTick(res);
    assert Ticks(w, now) == 1;
    assert Shifted(w.ages, 1) == Zeros(k) + [1] + Zeros(n - 1 - k);
  }

  /** The event is still counted when it is 2n-1 resolutions less n nanoseconds old. */
  lemma KeepsLate(res: int, n: nat, span: int)
    requires res > 0 && n > 0 && span < (2 * n - 1) * res - n
    ensures var ops, now := Lagging(res, n - 1), (2 * n - 1) * res - n;
            Reading(ops, 0, now) && Counted(res, n, 0, ops, now) == 1 && Added(ops, now - span) == 0
  {
    OldestKept(n, res);
    KeepsUntil(res, n, (2 * n - 1) * res - n, span);
  }

  lemma KeepsUntil(res: int, n: nat, now: int, span: int)
    requires res > 0 && n > 0 && now == Beat(res, n - 1) + res - 1 && span < now
    ensures var ops := Lagging(res, n - 1);
            Reading(ops, 0, now) && Counted(res, n, 0, ops, now) == 1 && Added(ops, now - span) == 0
  {
    hide Beat, After, Added, Lagging, Advance, Zeros, Sum;
    LaggingRun(res, n - 1);
    LaggingAges(res, n, n - 1);
    var w := After(res, n, 0, Lagging(res, n - 1));
    WithinOneTick(w, now);
    SumOne(n - 1);
  }

  lemma SumOne(k: nat)
    ensures Sum(Zeros(k) + [1] + Zeros(0)) == 1
  {
    var s := Zeros(k) + [1] + Zeros(0);
    SumZeros(k);
    assert s[..k] == Zeros(k);
  }

  lemma WithinOneTick(w: Window, now: int)
    requires w.Ok() && w.lastTick <= now < w.lastTick + w.res
    ensures Advance(w, now) == w
  {
    QuotientIs(now - w.lastTick, w.res, 0);
  }

  /** `Count` covers a span in all runs exactly up to n-1 resolutions. */
  lemma CoversIff(res: int, n: nat, span: int)
    requires res > 0 && n > 0
    ensures (forall start, ops, now :: Reading(ops, start, now) ==> Added(ops, now - span) <= Counted(res, n, start, ops, now))
       <==> span <= (n - 1) * res
  {
    if span <= (n - 1) * res {
      forall start, ops, now | Reading(ops, start, now)
        ensures Added(ops, now - span) <= Counted(res, n, start, ops, now)
      {
        Sandwich(res, n, start, ops, now);
        AddedMonotone(ops, start, now - (n - 1) * res, now - span);
      }
    } else {
      LosesEarly(res, n, span);
    }
  }

  /** `Count` reports nothing outside a span in any run exactly from 2n-1
      resolutions less n nanoseconds on. */
  lemma ConfinedIff(res: int, n: nat, span: int)
    requires res > 0 && n > 0
    ensures (forall start, ops, now :: Reading(ops, start, now) ==> Counted(res, n, start, ops, now) <= Added(ops, now - span))
       <==> span >= (2 * n - 1) * res - n
  {
    if span >= (2 * n - 1) * res - n {
      forall start, ops, now | Reading(ops, start, now)
        ensures Counted(res, n, start, ops, now) <= Added(ops, now - span)
      {
        Sandwich(res, n, start, ops, now);
        AddedMonotone(ops, start, now - span, now - ((2 * n - 1) * res - n));
      }
    } else {
      KeepsLate(res, n, span);
    }
  }

  /** `Count` is the number of events of a span, in all runs, only when a resolution
      is a single nanosecond and the span is n-1 of them back: for every other
      ring there is no span that it counts. */
  lemma CountExactIff(res: int, n: nat, span: int)
    requires res > 0 && n > 0
    ensures (forall start, ops, now :: Reading(ops, start, now) ==> Counted(res, n, start, ops, now) == Added(ops, now - span))
       <==> res == 1 && span == n - 1
  {
    hide Counted, Reading, Added;
    CoversIff(res, n, span);
    ConfinedIff(res, n, span);
    SpansMeet(res, n, span);
  }

  lemma SpansMeet(res: int, n: nat, span: int)
    requires res > 0 && n > 0
    ensures (2 * n - 1) * res - n <= span <= (n - 1) * res <==> res == 1 && span == n - 1
  {
    assert (2 * n - 1) * res - n == (n - 1) * res + n * (res - 1);
    if res > 1 { assert n * (res - 1) > 0; }
  }
}
