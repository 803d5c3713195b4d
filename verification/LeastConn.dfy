/** Concurrent least-connection picks of internal/lb/balancer.go.  Picks share only a
    read lock: a scan loads the counters one by one while others increment them, and
    the increment of its choice is a later step. */
module LeastConn {
  import opened Common
  import P = Picking

  /** A pick under way: the next counter to load, and the best one so far with the
      value it was loaded with. */
  datatype Scan = Scan(next: nat, best: Option<nat>, value: int)

  /** Health is fixed, and nothing is released. */
  datatype State = State(h: seq<bool>, active: seq<int>, scans: map<nat, Scan>)

  datatype Step = Begin(id: nat) | Load(id: nat) | Finish(id: nat)

  /** At most `m` picks are under way. */
  predicate Enabled(s: State, e: Step, m: nat) {
    match e
    case Begin(id) => id !in s.scans && |s.scans| < m
    case Load(id) => id in s.scans && s.scans[id].next < |s.h| == |s.active|
    case Finish(id) => id in s.scans && s.scans[id].next == |s.h| == |s.active| && (s.scans[id].best.Some? ==> s.scans[id].best.value < |s.h|)
  }

  function Loaded(s: State, c: Scan): Scan
    requires c.next < |s.h| == |s.active|
  {
    if s.h[c.next] && (c.best.None? || s.active[c.next] < c.value) then Scan(c.next + 1, Some(c.next), s.active[c.next])
    else c.(next := c.next + 1)
  }

  /** A scan that nothing interferes with. */
  function Undisturbed(s: State, k: nat): (c: Scan)
    requires k <= |s.h| == |s.active|
    ensures c.next == k
  {
    if k == 0 then Scan(0, None, -1) else Loaded(s, Undisturbed(s, k - 1))
  }

  /** It ends with the least target. */
  lemma {:induction false} UndisturbedIsLeast(s: State, k: nat)
    requires k <= |s.h| == |s.active|
    ensures var c := Undisturbed(s, k);
            c.best == P.Least(s.h, s.active, k) && (c.best.Some? ==> c.value == s.active[c.best.value])
  {
    if k > 0 { UndisturbedIsLeast(s, k - 1); }
  }

  function Apply(s: State, e: Step, m: nat): State
    requires Enabled(s, e, m)
  {
    match e
    case Begin(id) => s.(scans := s.scans[id := Scan(0, None, -1)])
    case Load(id) => s.(scans := s.scans[id := Loaded(s, s.scans[id])])
    case Finish(id) =>
      var s' := s.(scans := Without(s.scans, id));
      match s.scans[id].best
      case None => s'
      case Some(i) => s'.(active := s.active[i := s.active[i] + 1])
  }

  ghost predicate Runs(start: State, m: nat, run: seq<Step>)
    decreases |run|, 0
  {
    run == [] || (Runs(start, m, run[..|run| - 1]) && Enabled(After(start, m, run[..|run| - 1]), run[|run| - 1], m))
  }

  ghost function After(start: State, m: nat, run: seq<Step>): State
    requires Runs(start, m, run)
    decreases |run|, 1
  {
    if run == [] then start else Apply(After(start, m, run[..|run| - 1]), run[|run| - 1], m)
  }

  lemma Idle(start: State, m: nat)
    ensures Runs(start, m, []) && After(start, m, []) == start
  {
  }

  lemma Append(start: State, m: nat, run: seq<Step>, e: Step)
    requires Runs(start, m, run) && Enabled(After(start, m, run), e, m)
    ensures Runs(start, m, run + [e]) && After(start, m, run + [e]) == Apply(After(start, m, run), e, m)
  {
    assert (run + [e])[..|run|] == run;
  }

  /** No pick is under way and all healthy targets have the same count. */
  ghost predicate Level(s: State) {
    && |s.h| == |s.active| && s.scans == map[]
    && forall i, j :: 0 <= i < |s.h| && 0 <= j < |s.h| && s.h[i] && s.h[j] ==> s.active[i] == s.active[j]
  }

  // ---------------------------------------------------------------- the invariant

  /** A scan's best is the least of what it has loaded, and counts only grow. */
  predicate ScanOk(s: State, c: Scan) {
    && c.next <= |s.h| == |s.active|
    && (c.best.Some? ==> c.best.value < |s.h| && s.h[c.best.value])
    && (forall j :: 0 <= j < c.next && s.h[j] ==> c.best.Some? && c.value <= s.active[j])
  }

  ghost predicate ScansOk(s: State, m: nat) {
    |s.scans| <= m && |s.h| == |s.active| && forall id :: id in s.scans ==> ScanOk(s, s.scans[id])
  }

  /** The picks that would still increment `k` for a value of at most `x`. */
  ghost function Bound(s: State, k: nat, x: int): set<nat> {
    set id | id in s.scans && s.scans[id].best == Some(k) && s.scans[id].value <= x
  }

  /** However far `k` is above some other count, the increments above `x` and those
      still to come for it were under way together. */
  ghost predicate Spread(s: State, m: nat)
    requires |s.h| == |s.active|
  {
    forall k, j, x :: 0 <= k < |s.h| && 0 <= j < |s.h| && s.h[k] && s.h[j] && s.active[j] <= x < s.active[k] ==>
      s.active[k] - x + |Bound(s, k, x)| <= m
  }

  lemma BoundWithin(s: State, k: nat, x: int)
    ensures |Bound(s, k, x)| <= |s.scans|
  {
    Subset(Bound(s, k, x), s.scans.Keys);
    assert |s.scans| == |s.scans.Keys|;
  }

  lemma {:induction false} Subset<T>(a: set<T>, b: set<T>)
    requires a <= b
    ensures |a| <= |b|
  {
    if a != {} {
      var x :| x in a;
      Subset(a - {x}, b - {x});
    }
  }

  lemma BeginKeeps(s: State, m: nat, id: nat)
    requires ScansOk(s, m) && Spread(s, m) && Enabled(s, Begin(id), m)
    ensures ScansOk(Apply(s, Begin(id), m), m) && Spread(Apply(s, Begin(id), m), m)
  {
    var s' := Apply(s, Begin(id), m);
    assert s'.scans.Keys == s.scans.Keys + {id};
    forall k: nat, x: int ensures Bound(s', k, x) == Bound(s, k, x) {
    }
  }

  /** A newly loaded best has the present count, so it is bound by no `x` below. */
  lemma LoadKeeps(s: State, m: nat, id: nat)
    requires ScansOk(s, m) && Spread(s, m) && Enabled(s, Load(id), m)
    ensures ScansOk(Apply(s, Load(id), m), m) && Spread(Apply(s, Load(id), m), m)
  {
    var s' := Apply(s, Load(id), m);
    assert s'.scans.Keys == s.scans.Keys;
    forall k: nat, x: int | k < |s.h| && x < s.active[k] ensures |Bound(s', k, x)| <= |Bound(s, k, x)| {
      assert Bound(s', k, x) <= Bound(s, k, x);
      Subset(Bound(s', k, x), Bound(s, k, x));
    }
  }

  lemma FinishKeeps(s: State, m: nat, id: nat)
    requires ScansOk(s, m) && Spread(s, m) && Enabled(s, Finish(id), m)
    ensures ScansOk(Apply(s, Finish(id), m), m) && Spread(Apply(s, Finish(id), m), m)
  {
    var s' := Apply(s, Finish(id), m);
    assert s'.scans.Keys == s.scans.Keys - {id};
    forall k: nat, x: int | k < |s.h| ensures Bound(s', k, x) == Bound(s, k, x) - {id} {
    }
    forall k: nat, j: nat, x: int
      | k < |s.h| && j < |s.h| && s.h[k] && s.h[j] && s'.active[j] <= x < s'.active[k]
      ensures s'.active[k] - x + |Bound(s', k, x)| <= m
    {
      FinishSpread(s, m, id, k, j, x);
    }
  }

  /** The finished scan was bound by every `x` that some count does not exceed: it
      trades its place for one increment. */
  lemma FinishSpread(s: State, m: nat, id: nat, k: nat, j: nat, x: int)
    requires ScansOk(s, m) && Spread(s, m) && Enabled(s, Finish(id), m)
    requires k < |s.h| && j < |s.h| && s.h[k] && s.h[j]
    requires var s' := Apply(s, Finish(id), m);
             s'.active[j] <= x < s'.active[k] && Bound(s', k, x) == Bound(s, k, x) - {id}
    ensures var s' := Apply(s, Finish(id), m); s'.active[k] - x + |Bound(s', k, x)| <= m
  {
    var s' := Apply(s, Finish(id), m);
    BoundWithin(s, k, x);
    Subset(Bound(s', k, x), Bound(s, k, x));
    assert ScanOk(s, s.scans[id]);
    if s.scans[id].best == Some(k) {
      assert s.scans[id].value <= s.active[j];
      assert id in Bound(s, k, x);
    }
  }

  lemma {:induction false} RunKeeps(start: State, m: nat, run: seq<Step>)
    requires Level(start) && Runs(start, m, run)
    ensures var s := After(start, m, run); s.h == start.h && ScansOk(s, m) && Spread(s, m)
    decreases |run|
  {
    hide Spread, ScansOk, ScanOk;
    if run == [] {
      LevelKeeps(start, m);
    } else {
      RunKeeps(start, m, run[..|run| - 1]);
      var s := After(start, m, run[..|run| - 1]);
      match run[|run| - 1]
      case Begin(id) => BeginKeeps(s, m, id);
      case Load(id) => LoadKeeps(s, m, id);
      case Finish(id) => FinishKeeps(s, m, id);
    }
  }

  lemma LevelKeeps(s: State, m: nat)
    requires Level(s)
    ensures ScansOk(s, m) && Spread(s, m)
  {
  }

  /** From equal counts, with at most `m` picks under way at any moment, the counts
      of healthy targets never differ by more than `m`. */
  lemma SpreadBound(start: State, m: nat, run: seq<Step>, i: nat, j: nat)
    requires Level(start) && Runs(start, m, run)
    requires i < |start.h| && j < |start.h| && start.h[i] && start.h[j]
    ensures var s := After(start, m, run); |s.active| == |start.h| && s.active[i] - s.active[j] <= m
  {
    RunKeeps(start, m, run);
    var s := After(start, m, run);
    hide After, Runs;
    if s.active[j] < s.active[i] { assert s.active[i] - s.active[j] + |Bound(s, i, s.active[j])| <= m; }
  }

  // ---------------------------------------------------------------- the bound is reached

  const PAIR := State([true, true], [0, 0], map[])

  /** Picks 0, ..., `k` - 1 have loaded both counters while they were zero. */
  function Chosen(k: nat): map<nat, Scan> {
    if k == 0 then map[] else Chosen(k - 1)[k - 1 := Scan(2, Some(0), 0)]
  }

  lemma {:induction false} ChosenKeys(k: nat)
    ensures |Chosen(k)| == k && forall id: nat :: id in Chosen(k) <==> id < k
    ensures forall id :: id in Chosen(k) ==> Chosen(k)[id] == Scan(2, Some(0), 0)
  {
    if k > 0 {
      ChosenKeys(k - 1);
      assert Chosen(k).Keys == Chosen(k - 1).Keys + {k - 1};
      assert |Chosen(k)| == |Chosen(k).Keys| && |Chosen(k - 1)| == |Chosen(k - 1).Keys|;
    }
  }

  lemma {:induction false} AllScan(m: nat, k: nat) returns (run: seq<Step>)
    requires k <= m
    ensures Runs(PAIR, m, run) && After(PAIR, m, run) == PAIR.(scans := Chosen(k))
  {
    hide Runs, After;
    if k == 0 {
      run := [];
      Idle(PAIR, m);
    } else {
      var before := AllScan(m, k - 1);
      ChosenKeys(k - 1);
      Append(PAIR, m, before, Begin(k - 1));
      Append(PAIR, m, before + [Begin(k - 1)], Load(k - 1));
      run := before + [Begin(k - 1)] + [Load(k - 1)] + [Load(k - 1)];
      Append(PAIR, m, before + [Begin(k - 1)] + [Load(k - 1)], Load(k - 1));
    }
  }

  lemma {:induction false} AllFinish(m: nat, k: nat) returns (run: seq<Step>)
    requires k <= m
    ensures Runs(PAIR, m, run) && After(PAIR, m, run) == State([true, true], [m - k, 0], Chosen(k))
    decreases m - k
  {
    hide Runs, After;
    if k == m {
      run := AllScan(m, m);
    } else {
      var before := AllFinish(m, k + 1);
      ChosenKeys(k + 1);
      ChosenKeys(k);
      Append(PAIR, m, before, Finish(k));
      run := before + [Finish(k)];
      assert Without(Chosen(k + 1), k) == Chosen(k);
    }
  }

  ghost predicate Apart(start: State, m: nat, run: seq<Step>, d: int)
    requires Runs(start, m, run)
  {
    var s := After(start, m, run);
    exists i, j :: 0 <= i < |s.active| && 0 <= j < |s.active| && i < |s.h| && j < |s.h| && s.h[i] && s.h[j]
      && s.active[i] - s.active[j] > d
  }

  /** The counts stay within `d` of each other, in all runs with at most `m` picks
      under way, exactly when `m` is at most `d`. */
  lemma SpreadIff(m: nat, d: nat)
    ensures (forall start, run :: Level(start) && Runs(start, m, run) ==> !Apart(start, m, run, d)) <==> m <= d
  {
    if m <= d {
      forall start, run | Level(start) && Runs(start, m, run) ensures !Apart(start, m, run, d) {
        RunKeeps(start, m, run);
        var s := After(start, m, run);
        forall i: nat, j: nat | i < |s.active| && j < |s.active| && i < |s.h| && j < |s.h| && s.h[i] && s.h[j]
          ensures s.active[i] - s.active[j] <= d
        {
          SpreadBound(start, m, run, i, j);
        }
      }
    } else {
      var run := AllFinish(m, 0);
      var s := After(PAIR, m, run);
      assert s.active[0] - s.active[1] > d;
      assert Level(PAIR) && Apart(PAIR, m, run, d);
    }
  }
}
