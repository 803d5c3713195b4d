/** The selection algorithms of internal/lb/balancer.go as functions of the
    health flags, weights and active counts, with the laws of each. */
module Picking {
  import opened Common

  // ---------------------------------------------------------------- cyclic scan

  /** `d` places after `s` in a ring of `n`. */
  function At(n: nat, s: nat, d: nat): (i: nat)
    requires s < n && d <= n
    ensures i < n
  {
    if s + d < n then s + d else s + d - n
  }

  lemma AtIsMod(n: nat, s: nat, d: nat)
    requires s < n && d < n
    ensures At(n, s, d) == (s + d) % n
  {
    if s + d < n {
      assert (s + d) % n == s + d;
    } else {
      assert s + d == n * 1 + (s + d - n);
      assert (s + d) % n == s + d - n;
    }
  }

  /** How far ahead of `s` the place `i` lies. */
  function Distance(n: nat, s: nat, i: nat): (d: nat)
    requires s < n && i < n
    ensures d < n && At(n, s, d) == i
  {
    if s <= i then i - s else i - s + n
  }

  /** Walks the ring from `s`, having skipped `d` places, to a healthy target. */
  function ScanFrom(h: seq<bool>, s: nat, d: nat): (r: Option<nat>)
    requires s < |h| && d <= |h|
    ensures r.Some? ==> r.value < |h|
    decreases |h| - d
  {
    if d == |h| then None
    else if h[At(|h|, s, d)] then Some(At(|h|, s, d))
    else ScanFrom(h, s, d + 1)
  }

  function FirstFrom(h: seq<bool>, s: nat): (r: Option<nat>)
    requires s < |h|
    ensures r.Some? ==> r.value < |h|
  {
    ScanFrom(h, s, 0)
  }

  lemma {:induction false} ScanSkips(h: seq<bool>, s: nat, d: nat, e: nat)
    requires s < |h| && d <= e <= |h|
    requires forall k :: d <= k < e ==> !h[At(|h|, s, k)]
    ensures ScanFrom(h, s, d) == ScanFrom(h, s, e)
    decreases e - d
  {
    if d < e { ScanSkips(h, s, d + 1, e); }
  }

  lemma {:induction false} ScanLandsAhead(h: seq<bool>, s: nat, d: nat)
    requires s < |h| && d <= |h|
    ensures ScanFrom(h, s, d) == None ==> forall k :: d <= k < |h| ==> !h[At(|h|, s, k)]
    ensures ScanFrom(h, s, d).Some? ==>
              var i := ScanFrom(h, s, d).value;
              h[i] && d <= Distance(|h|, s, i) && forall k :: d <= k < Distance(|h|, s, i) ==> !h[At(|h|, s, k)]
    decreases |h| - d
  {
    if d < |h| && !h[At(|h|, s, d)] { ScanLandsAhead(h, s, d + 1); }
  }

  /** The scan lands on `i` exactly when `i` is healthy and everything from the
      start up to it is not; it fails exactly when nothing is healthy. */
  lemma FirstFromExact(h: seq<bool>, s: nat, i: nat)
    requires s < |h| && i < |h|
    ensures FirstFrom(h, s) == Some(i) <==>
              h[i] && forall k :: 0 <= k < Distance(|h|, s, i) ==> !h[At(|h|, s, k)]
    ensures FirstFrom(h, s) == None <==> forall j :: 0 <= j < |h| ==> !h[j]
  {
    ScanLandsAhead(h, s, 0);
    if h[i] && forall k :: 0 <= k < Distance(|h|, s, i) ==> !h[At(|h|, s, k)] {
      ScanSkips(h, s, 0, Distance(|h|, s, i));
    }
    if FirstFrom(h, s) == None {
      forall j | 0 <= j < |h| ensures !h[j] {
        assert At(|h|, s, Distance(|h|, s, j)) == j;
      }
    }
  }

  // ---------------------------------------------------------------- round robin

  /** `d` places before `i`. */
  function Back(n: nat, i: nat, d: nat): (j: nat)
    requires i < n && d <= n
    ensures j < n
  {
    if d <= i then i - d else i - d + n
  }

  /** Length of the run of unhealthy targets cyclically just before `i`. */
  function RunBefore(h: seq<bool>, i: nat, k: nat): (r: nat)
    requires i < |h| && k < |h|
    ensures k <= r < |h|
    decreases |h| - k
  {
    if k + 1 < |h| && !h[Back(|h|, i, k + 1)] then RunBefore(h, i, k + 1) else k
  }

  lemma {:induction false} RunBeforeExact(h: seq<bool>, i: nat, k: nat)
    requires i < |h| && k < |h|
    ensures var r := RunBefore(h, i, k);
            && (forall d :: k < d <= r ==> !h[Back(|h|, i, d)])
            && (r + 1 < |h| ==> h[Back(|h|, i, r + 1)])
    decreases |h| - k
  {
    if k + 1 < |h| && !h[Back(|h|, i, k + 1)] { RunBeforeExact(h, i, k + 1); }
  }

  /** A scan from `s` lands on a healthy `i` exactly when it starts within the
      unhealthy run before `i`, or on `i` itself. */
  lemma LandsIff(h: seq<bool>, s: nat, i: nat)
    requires s < |h| && i < |h| && h[i]
    ensures FirstFrom(h, s) == Some(i) <==> Distance(|h|, s, i) <= RunBefore(h, i, 0)
  {
    var n, d, r := |h|, Distance(|h|, s, i), RunBefore(h, i, 0);
    FirstFromExact(h, s, i);
    RunBeforeExact(h, i, 0);
    if d <= r {
      forall k | 0 <= k < d ensures !h[At(n, s, k)] {
        assert At(n, s, k) == Back(n, i, d - k);
      }
    } else {
      assert At(n, s, d - (r + 1)) == Back(n, i, r + 1);
    }
  }

  /** The integers from `lo` up to, but not including, `hi`. */
  function Interval(lo: int, hi: int): (s: set<int>)
    ensures forall k :: k in s <==> lo <= k < hi
    ensures |s| == if lo <= hi then hi - lo else 0
    decreases hi - lo
  {
    if lo >= hi then {} else Interval(lo, hi - 1) + {hi - 1}
  }

  /** Where the `k`-th pick after `cursor` starts scanning. */
  function StartAt(cursor: nat, k: nat, n: nat): (s: nat)
    requires n > 0
    ensures s < n
  {
    (cursor + k) % n
  }

  /** The picks among `n` consecutive cursor values that land on `i`. */
  ghost function Landings(h: seq<bool>, cursor: nat, i: nat): set<int>
    requires |h| > 0
  {
    set k | k in Interval(0, |h|) && FirstFrom(h, StartAt(cursor, k, |h|)) == Some(i)
  }

  lemma MulAtLeast(n: nat, x: int)
    requires x >= 1
    ensures n * x >= n
  {
  }

  lemma QuotientUnique(n: nat, q: int, r: nat, q': int, r': nat)
    requires r < n && r' < n && n * q + r == n * q' + r'
    ensures r == r'
  {
    MulDistributes(n, q', q - q');
    MulDistributes(n, q, q' - q);
    if q > q' {
      MulAtLeast(n, q - q');
    } else if q < q' {
      MulAtLeast(n, q' - q);
    }
  }

  lemma ShiftMod(n: nat, cursor: nat, k: nat)
    requires k < n
    ensures StartAt(cursor, k, n) == At(n, cursor % n, k)
  {
    var q, c, a := cursor / n, cursor % n, cursor + k;
    assert cursor == n * q + c;
    assert a == n * (a / n) + a % n;
    assert n * (q + 1) == n * q + n;
    QuotientUnique(n, if c + k < n then q else q + 1, At(n, c, k), a / n, a % n);
  }

  /** Over any `n` consecutive picks with fixed health, a healthy target is chosen
      once for itself and once for every unhealthy target just before it; an
      unhealthy one never. */
  lemma {:induction false} RoundRobinShare(h: seq<bool>, cursor: nat, i: nat)
    requires i < |h|
    ensures |Landings(h, cursor, i)| == if h[i] then 1 + RunBefore(h, i, 0) else 0
  {
    var n, c := |h|, cursor % |h|;
    forall k | k in Interval(0, n)
      ensures FirstFrom(h, StartAt(cursor, k, n)) == Some(i) <==>
                h[i] && Distance(n, At(n, c, k), i) <= RunBefore(h, i, 0)
    {
      ShiftMod(n, cursor, k);
      if h[i] { LandsIff(h, At(n, c, k), i); } else { FirstFromExact(h, At(n, c, k), i); }
    }
    hide FirstFrom, RunBefore, StartAt;
    if h[i] {
      OffsetsWithin(n, c, i, RunBefore(h, i, 0));
      assert Landings(h, cursor, i) == OffsetsUpTo(n, c, i, RunBefore(h, i, 0));
    } else {
      assert Landings(h, cursor, i) == {};
    }
  }

  /** The offsets from `c` at which `i` lies at most `r` places ahead. */
  ghost function OffsetsUpTo(n: nat, c: nat, i: nat, r: nat): set<int>
    requires c < n && i < n
  {
    set k | k in Interval(0, n) && Distance(n, At(n, c, k), i) <= r
  }

  /** They are the `r+1` offsets ending in the one that starts on `i`, wrapped around. */
  lemma OffsetsWithin(n: nat, c: nat, i: nat, r: nat)
    requires c < n && i < n && r < n
    ensures |OffsetsUpTo(n, c, i, r)| == r + 1
  {
    hide Interval;
    var d := Distance(n, c, i);
    if r <= d {
      assert OffsetsUpTo(n, c, i, r) == Interval(d - r, d + 1);
    } else {
      var low, high := Interval(0, d + 1), Interval(n - (r - d), n);
      assert OffsetsUpTo(n, c, i, r) == low + high;
      assert low !! high;
    }
  }

  /** With every target healthy each is chosen exactly once. */
  lemma RoundRobinEven(h: seq<bool>, cursor: nat, i: nat)
    requires i < |h| && forall j :: 0 <= j < |h| ==> h[j]
    ensures |Landings(h, cursor, i)| == 1
  {
    RoundRobinShare(h, cursor, i);
  }

  /** All healthy targets get the same share. */
  ghost predicate EqualShares(h: seq<bool>, cursor: nat) {
    forall i, j :: 0 <= i < |h| && 0 <= j < |h| && h[i] && h[j] ==> |Landings(h, cursor, i)| == |Landings(h, cursor, j)|
  }

  ghost predicate EqualRuns(h: seq<bool>) {
    forall i, j :: 0 <= i < |h| && 0 <= j < |h| && h[i] && h[j] ==> RunBefore(h, i, 0) == RunBefore(h, j, 0)
  }

  /** Shares are equal exactly when the unhealthy runs before the healthy targets are
      equally long, wherever the cursor stands. */
  lemma EqualSharesIff(h: seq<bool>, cursor: nat)
    requires |h| > 0
    ensures EqualShares(h, cursor) <==> EqualRuns(h)
  {
    forall i: nat | i < |h| && h[i] ensures |Landings(h, cursor, i)| == 1 + RunBefore(h, i, 0) {
      RoundRobinShare(h, cursor, i);
    }
    hide RunBefore, Landings;
  }

  // ---------------------------------------------------------------- the cursor's width

  /** A 64-bit counter read as a signed integer. */
  function AsInt(cursor: nat): int
    requires cursor < 0x1_0000_0000_0000_0000
  {
    if cursor < 0x8000_0000_0000_0000 then cursor else cursor - 0x1_0000_0000_0000_0000
  }

  /** The remainder of the source keeps the sign of its operand. */
  function SignedRemainder(a: int, n: nat): int
    requires n > 0
  {
    if a >= 0 then a % n else -(-a % n)
  }

  /** The first index of a round-robin scan lies in the list, for a 64-bit cursor,
      exactly below 2^63 and at the cursors whose distance to 2^64 is a multiple of
      the list's length; at every other cursor the scan indexes out of range. */
  lemma StartIsIndexIff(cursor: nat, n: nat)
    requires n > 0 && cursor < 0x1_0000_0000_0000_0000
    ensures 0 <= SignedRemainder(AsInt(cursor), n) < n
       <==> cursor < 0x8000_0000_0000_0000 || (0x1_0000_0000_0000_0000 - cursor) % n == 0
  {
    var a := AsInt(cursor);
    if a < 0 { assert -a == 0x1_0000_0000_0000_0000 - cursor; }
  }

  // ---------------------------------------------------------------- ip hash

  /** Flipping the health of `j` moves exactly the sources that pick `j` while it
      is healthy; every other source keeps its target. */
  lemma MinimalDisruption(h: seq<bool>, j: nat, s: nat)
    requires j < |h| && s < |h|
    ensures FirstFrom(h, s) != FirstFrom(h[j := !h[j]], s)
       <==> FirstFrom(h[j := true], s) == Some(j)
  {
    var up, down := h[j := true], h[j := false];
    if h[j] {
      assert h == up && h[j := !h[j]] == down;
    } else {
      assert h == down && h[j := !h[j]] == up;
    }
    ScanLandsAhead(up, s, 0);
    ScanLandsAhead(down, s, 0);
    var p := FirstFrom(up, s);
    if p == Some(j) {
      assert FirstFrom(down, s) != Some(j);
    } else if p.Some? {
      FirstFromExact(down, s, p.value);
      assert down[p.value];
    } else {
      FirstFromExact(up, s, j);
      assert false;
    }
  }

  // ---------------------------------------------------------------- least connections

  /** First healthy target with the fewest active connections among the first `k`. */
  function Least(h: seq<bool>, active: seq<int>, k: nat): (r: Option<nat>)
    requires k <= |h| == |active|
    ensures r.Some? ==> r.value < k
  {
    if k == 0 then None
    else
      var best := Least(h, active, k - 1);
      if h[k - 1] && (best.None? || active[k - 1] < active[best.value]) then Some(k - 1) else best
  }

  ghost predicate IsLeast(h: seq<bool>, active: seq<int>, k: nat, i: nat)
    requires i < k <= |h| == |active|
  {
    && h[i]
    && (forall j :: 0 <= j < k && h[j] ==> active[i] <= active[j])
    && (forall j :: 0 <= j < i && h[j] ==> active[i] < active[j])
  }

  /** The choice is healthy, minimal and the first such; there is none only when
      every target is down. */
  lemma {:induction false} LeastExact(h: seq<bool>, active: seq<int>, k: nat)
    requires k <= |h| == |active|
    ensures Least(h, active, k) == None <==> forall j :: 0 <= j < k ==> !h[j]
    ensures forall i: nat :: i < k ==> (Least(h, active, k) == Some(i) <==> IsLeast(h, active, k, i))
  {
    if k > 0 { LeastExact(h, active, k - 1); }
  }

  // ---------------------------------------------------------------- weighted

  predicate Eligible(h: seq<bool>, w: seq<int>, i: nat)
    requires i < |h| == |w|
  {
    h[i] && w[i] > 0
  }

  /** Total weight of the eligible targets among the first `k`. */
  function Mass(h: seq<bool>, w: seq<int>, k: nat): (m: nat)
    requires k <= |h| == |w|
  {
    if k == 0 then 0
    else Mass(h, w, k - 1) + if Eligible(h, w, k - 1) then w[k - 1] else 0
  }

  /** The target on which the draw `r` falls. */
  ghost predicate Falls(h: seq<bool>, w: seq<int>, r: int, i: nat)
    requires |h| == |w|
  {
    i < |h| && Eligible(h, w, i) && Mass(h, w, i) <= r < Mass(h, w, i + 1)
  }

  lemma {:induction false} MassMonotone(h: seq<bool>, w: seq<int>, i: nat, k: nat)
    requires i <= k <= |h| == |w|
    ensures Mass(h, w, i) <= Mass(h, w, k)
    decreases k - i
  {
    if i < k { MassMonotone(h, w, i, k - 1); }
  }

  /** The target that the draw `r` selects among the first `k`. */
  function Drawn(h: seq<bool>, w: seq<int>, r: int, k: nat): (i: nat)
    requires k <= |h| == |w| && 0 <= r < Mass(h, w, k)
    ensures i < k && Falls(h, w, r, i)
  {
    if r < Mass(h, w, k - 1) then Drawn(h, w, r, k - 1) else k - 1
  }

  lemma FallsOnce(h: seq<bool>, w: seq<int>, r: int, i: nat, j: nat)
    requires |h| == |w| && Falls(h, w, r, i) && Falls(h, w, r, j)
    ensures i == j
  {
    if i < j { MassMonotone(h, w, i + 1, j); }
    if j < i { MassMonotone(h, w, j + 1, i); }
  }

  /** The draws that fall on `i`. */
  ghost function Draws(h: seq<bool>, w: seq<int>, i: nat): set<int>
    requires |h| == |w|
  {
    set r | r in Interval(0, Mass(h, w, |h|)) && Falls(h, w, r, i)
  }

  /** Each eligible target receives exactly `weight` of the `Mass` possible draws
      and every other target none. */
  lemma WeightedShare(h: seq<bool>, w: seq<int>, i: nat)
    requires i < |h| == |w|
    ensures |Draws(h, w, i)| == if Eligible(h, w, i) then w[i] else 0
  {
    hide Interval;
    MassMonotone(h, w, i + 1, |h|);
    if Eligible(h, w, i) {
      assert Draws(h, w, i) == Interval(Mass(h, w, i), Mass(h, w, i + 1));
    } else {
      assert Draws(h, w, i) == {};
    }
  }

  lemma {:induction false} MassPositive(h: seq<bool>, w: seq<int>, i: nat, k: nat)
    requires i < k <= |h| == |w| && Eligible(h, w, i)
    ensures Mass(h, w, k) > 0
  {
    MassMonotone(h, w, i + 1, k);
  }

  // ---------------------------------------------------------------- random

  /** The indices below `k` that satisfy `h`, in order. */
  function HealthyIdxs(h: seq<bool>, k: nat): (s: seq<nat>)
    requires k <= |h|
    ensures forall j :: 0 <= j < |s| ==> s[j] < k && h[s[j]]
  {
    if k == 0 then []
    else HealthyIdxs(h, k - 1) + if h[k - 1] then [k - 1] else []
  }

  /** A uniform draw over the healthy list reaches each healthy target by exactly
      one of its values. */
  lemma {:induction false} UniformShare(h: seq<bool>, k: nat, i: nat)
    requires i < k <= |h|
    ensures h[i] <==> i in HealthyIdxs(h, k)
    ensures forall a, b :: 0 <= a < b < |HealthyIdxs(h, k)| ==> HealthyIdxs(h, k)[a] < HealthyIdxs(h, k)[b]
  {
    if k - 1 > i {
      UniformShare(h, k - 1, i);
    } else {
      HealthyIdxsSorted(h, k - 1);
    }
  }

  lemma {:induction false} HealthyIdxsSorted(h: seq<bool>, k: nat)
    requires k <= |h|
    ensures forall a, b :: 0 <= a < b < |HealthyIdxs(h, k)| ==> HealthyIdxs(h, k)[a] < HealthyIdxs(h, k)[b]
  {
    if k > 0 { HealthyIdxsSorted(h, k - 1); }
  }
}
