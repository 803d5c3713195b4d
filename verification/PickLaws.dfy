/** What one pick of internal/lb/balancer.go returns, algorithm by algorithm, and what
    a run of picks and releases leaves in the counters -- stated on the results of
    picks alone. */
module PickLaws {
  import opened Common
  import opened Balancing
  import opened BalancerRuns
  import P = Picking

  /** No unexpired assignment of the source to a target that is up. */
  predicate Unassigned(lb: LB, op: Op)
    requires op.Pick?
  {
    lb.sticky.Some? && op.src.Some? && op.src.value in lb.sticky.value.table ==>
      var a := lb.sticky.value.table[op.src.value];
      a.expiry <= op.tGet || a.target >= |lb.ups| || !lb.ups[a.target].healthy
  }

  /** A pick returns the target of a live assignment, and nothing else decides it. */
  lemma AssignedResult(lb: LB, op: Op)
    requires lb.Ok() && op.Pick? && !Unassigned(lb, op)
    ensures Result(lb, op) == Some(lb.sticky.value.table[op.src.value].target)
  {
  }

  // ---------------------------------------------------------------- round robin and ip hash

  /** `i` is up and everything from `s` cyclically up to it is down. */
  ghost predicate FirstUp(ups: seq<Upstream>, s: nat, i: nat)
    requires s < |ups|
  {
    && i < |ups| && ups[i].healthy
    && (s <= i ==> forall j :: s <= j < i ==> !ups[j].healthy)
    && (i < s ==> (forall j :: s <= j < |ups| ==> !ups[j].healthy) && forall j :: 0 <= j < i ==> !ups[j].healthy)
  }

  lemma FirstFromIsFirstUp(ups: seq<Upstream>, s: nat, i: nat)
    requires s < |ups| && i < |ups|
    ensures P.FirstFrom(Healths(ups), s) == Some(i) <==> FirstUp(ups, s, i)
  {
    var h, n := Healths(ups), |ups|;
    P.FirstFromExact(h, s, i);
    if FirstUp(ups, s, i) {
      assert forall d :: 0 <= d < P.Distance(n, s, i) ==> !h[P.At(n, s, d)];
    }
    if P.FirstFrom(h, s) == Some(i) {
      forall j: nat | j < n && (if s <= i then s <= j < i else j >= s || j < i) ensures !ups[j].healthy {
        assert P.At(n, s, P.Distance(n, s, j)) == j;
      }
    }
  }

  /** An ip-hash pick scans from the source's hash; without a source it goes round
      robin, from the cursor, and moves it. */
  lemma IPHashResult(lb: LB, op: Op, i: nat)
    requires lb.Ok() && lb.alg.IPHash? && op.Pick? && Unassigned(lb, op) && i < |lb.ups|
    ensures Result(lb, op) == Some(i)
       <==> FirstUp(lb.ups, (if op.src.Some? then op.hash else lb.cursor) % |lb.ups|, i)
    ensures Step(lb, op).cursor == lb.cursor + if op.src.None? then 1 else 0
  {
    FirstFromIsFirstUp(lb.ups, (if op.src.Some? then op.hash else lb.cursor) % |lb.ups|, i);
  }

  lemma RoundRobinResult(lb: LB, op: Op, i: nat)
    requires lb.Ok() && lb.alg.RoundRobin? && op.Pick? && Unassigned(lb, op) && i < |lb.ups|
    ensures Result(lb, op) == Some(i) <==> FirstUp(lb.ups, lb.cursor % |lb.ups|, i)
    ensures Step(lb, op).cursor == lb.cursor + 1
  {
    FirstFromIsFirstUp(lb.ups, lb.cursor % |lb.ups|, i);
  }

  // ---------------------------------------------------------------- least connections

  /** Up, with no more connections than any target that is up, and fewer than any such
      target before it. */
  ghost predicate LeastLoaded(ups: seq<Upstream>, i: nat) {
    && i < |ups| && ups[i].healthy
    && (forall j :: 0 <= j < |ups| && ups[j].healthy ==> ups[i].active <= ups[j].active)
    && (forall j :: 0 <= j < i && ups[j].healthy ==> ups[i].active < ups[j].active)
  }

  /** A least-connection pick returns exactly the least loaded target. */
  lemma LeastConnResult(lb: LB, op: Op, i: nat)
    requires lb.Ok() && lb.alg.LeastConn? && op.Pick? && Unassigned(lb, op) && i < |lb.ups|
    ensures Result(lb, op) == Some(i) <==> LeastLoaded(lb.ups, i)
  {
    P.LeastExact(Healths(lb.ups), Actives(lb.ups), |lb.ups|);
    assert P.Least(Healths(lb.ups), Actives(lb.ups), |lb.ups|) == Some(i)
      <==> P.IsLeast(Healths(lb.ups), Actives(lb.ups), |lb.ups|, i);
  }

  // ---------------------------------------------------------------- weighted and random

  /** The weights that take part. */
  function TotalWeight(ups: seq<Upstream>): nat {
    if ups == [] then 0
    else
      var u := ups[|ups| - 1];
      TotalWeight(ups[..|ups| - 1]) + if u.healthy && u.weight > 0 then u.weight else 0
  }

  lemma {:induction false} MassIsTotal(ups: seq<Upstream>, k: nat)
    requires k <= |ups|
    ensures P.Mass(Healths(ups), Weights(ups), k) == TotalWeight(ups[..k])
  {
    if k > 0 {
      MassIsTotal(ups, k - 1);
      assert ups[..k][..k - 1] == ups[..k - 1];
    }
  }

  /** The draws below `n` for which the pick returns `i`. */
  ghost function Hits(lb: LB, op: Op, n: nat, i: nat): set<int>
    requires lb.Ok() && op.Pick?
  {
    set d | d in P.Interval(0, n) && Result(lb, op.(draw := d)) == Some(i)
  }

  /** Of the `TotalWeight` draws exactly `weight` pick a target that is up, and none
      one that is down or has no weight. */
  lemma WeightedResult(lb: LB, op: Op, i: nat)
    requires lb.Ok() && lb.alg.Weighted? && op.Pick? && Unassigned(lb, op) && i < |lb.ups|
    ensures |Hits(lb, op, TotalWeight(lb.ups), i)|
         == if lb.ups[i].healthy && lb.ups[i].weight > 0 then lb.ups[i].weight else 0
  {
    var h, w, n := Healths(lb.ups), Weights(lb.ups), |lb.ups|;
    var total := TotalWeight(lb.ups);
    MassIsTotal(lb.ups, n);
    assert lb.ups[..n] == lb.ups;
    P.WeightedShare(h, w, i);
    forall d | d in P.Interval(0, total) ensures Result(lb, op.(draw := d)) == Some(i) <==> P.Falls(h, w, d, i) {
      Below(d, total);
      assert Result(lb, op.(draw := d)) == Some(P.Drawn(h, w, d, n));
      if P.Falls(h, w, d, i) { P.FallsOnce(h, w, d, i, P.Drawn(h, w, d, n)); }
    }
    assert Hits(lb, op, total, i) == P.Draws(h, w, i);
  }

  lemma Below(d: nat, n: nat)
    requires d < n
    ensures d % n == d
  {
  }

  function Up(ups: seq<Upstream>): nat {
    if ups == [] then 0 else Up(ups[..|ups| - 1]) + if ups[|ups| - 1].healthy then 1 else 0
  }

  lemma {:induction false} UpIsListed(ups: seq<Upstream>, k: nat)
    requires k <= |ups|
    ensures |P.HealthyIdxs(Healths(ups), k)| == Up(ups[..k])
  {
    if k > 0 {
      UpIsListed(ups, k - 1);
      assert ups[..k][..k - 1] == ups[..k - 1];
    }
  }

  lemma RandomDraw(lb: LB, op: Op, d: nat)
    requires lb.Ok() && lb.alg.Random? && op.Pick? && Unassigned(lb, op) && d < Up(lb.ups)
    ensures |P.HealthyIdxs(Healths(lb.ups), |lb.ups|)| == Up(lb.ups)
    ensures Result(lb, op.(draw := d)) == Some(P.HealthyIdxs(Healths(lb.ups), |lb.ups|)[d])
  {
    hide P.HealthyIdxs;
    UpIsListed(lb.ups, |lb.ups|);
    assert lb.ups[..|lb.ups|] == lb.ups;
    Below(d, Up(lb.ups));
  }

  /** Of as many draws as targets are up, exactly one picks each of those. */
  lemma RandomResult(lb: LB, op: Op, i: nat)
    requires lb.Ok() && lb.alg.Random? && op.Pick? && Unassigned(lb, op) && i < |lb.ups|
    ensures |Hits(lb, op, Up(lb.ups), i)| == if lb.ups[i].healthy then 1 else 0
  {
    hide P.HealthyIdxs, Result, Up;
    var k, idxs := Up(lb.ups), P.HealthyIdxs(Healths(lb.ups), |lb.ups|);
    UpIsListed(lb.ups, |lb.ups|);
    assert lb.ups[..|lb.ups|] == lb.ups;
    P.UniformShare(Healths(lb.ups), |lb.ups|, i);
    forall d | d in P.Interval(0, k) ensures Result(lb, op.(draw := d)) == Some(idxs[d]) {
      RandomDraw(lb, op, d);
    }
    if lb.ups[i].healthy {
      var d :| 0 <= d < |idxs| && idxs[d] == i;
      assert Hits(lb, op, k, i) == {d};
    } else {
      assert Hits(lb, op, k, i) == {};
    }
  }

  // ---------------------------------------------------------------- counters

  /** How many picks of the run returned `i`, and how many releases gave it back. */
  function PicksOf(lb: LB, ops: seq<Op>, i: nat): nat
    requires lb.Ok()
  {
    if ops == [] then 0
    else
      var init, op := ops[..|ops| - 1], ops[|ops| - 1];
      PicksOf(lb, init, i) + if op.Pick? && Result(After(lb, init), op) == Some(i) then 1 else 0
  }

  function ReleasesOf(ops: seq<Op>, i: nat): nat {
    if ops == [] then 0
    else ReleasesOf(ops[..|ops| - 1], i) + if ops[|ops| - 1] == Release(i) then 1 else 0
  }

  /** Releases of the run that came when nothing was left to give back. */
  function Surplus(lb: LB, ops: seq<Op>, i: nat): nat
    requires lb.Ok() && i < |lb.ups|
  {
    if ops == [] then 0
    else
      var init, op := ops[..|ops| - 1], ops[|ops| - 1];
      Surplus(lb, init, i) + if op == Release(i) && After(lb, init).ups[i].active <= 0 then 1 else 0
  }

  lemma {:induction false} MarkedCounts(ups: seq<Upstream>, ip: string, port: int, healthy: bool, from: nat, i: nat)
    requires from <= |ups| && i < |ups|
    ensures var u := MarkedFrom(ups, ip, port, healthy, from)[i]; u.active == ups[i].active && u.total == ups[i].total
    decreases |ups| - from
  {
    if from < |ups| && !(ups[from].ip == ip && ups[from].port == port) { MarkedCounts(ups, ip, port, healthy, from + 1, i); }
  }

  lemma CountStep(lb: LB, op: Op, i: nat)
    requires lb.Ok() && i < |lb.ups| && lb.ups[i].active >= 0
    ensures var u, u' := lb.ups[i], Step(lb, op).ups[i];
            var picked := op.Pick? && Result(lb, op) == Some(i);
            && u'.active == u.active + (if picked then 1 else 0) - (if op == Release(i) && u.active > 0 then 1 else 0)
            && u'.total == u.total + if picked then 1 else 0
  {
    hide Choice, Stuck, Assign;
    if op.SetHealth? { MarkedCounts(lb.ups, op.ip, op.port, op.healthy, 0, i); }
  }

  /** In every run a target's active count is what it was, one more for each pick that
      returned it and one less for each release of it that came above zero; its total
      is one more for each pick. */
  lemma {:induction false} CountsAreHandles(lb: LB, ops: seq<Op>, i: nat)
    requires lb.Ok() && i < |lb.ups| && lb.ups[i].active >= 0
    ensures var u := After(lb, ops).ups[i];
            && u.active == lb.ups[i].active + PicksOf(lb, ops, i) - (ReleasesOf(ops, i) - Surplus(lb, ops, i)) >= 0
            && u.total == lb.ups[i].total + PicksOf(lb, ops, i)
    decreases |ops|
  {
    hide Step, Result;
    if ops != [] {
      CountsAreHandles(lb, ops[..|ops| - 1], i);
      CountStep(After(lb, ops[..|ops| - 1]), ops[|ops| - 1], i);
    }
  }

  /** No part of the run releases more than was there. */
  ghost predicate Matched(lb: LB, ops: seq<Op>, i: nat)
    requires lb.Ok() && i < |lb.ups|
  {
    forall k :: 0 <= k <= |ops| ==> ReleasesOf(ops[..k], i) <= lb.ups[i].active + PicksOf(lb, ops[..k], i)
  }

  /** A release gives back what a pick took: without over-releases the count is the
      picks less the releases. */
  lemma {:induction false} MatchedCount(lb: LB, ops: seq<Op>, i: nat)
    requires lb.Ok() && i < |lb.ups| && lb.ups[i].active >= 0 && Matched(lb, ops, i)
    ensures Surplus(lb, ops, i) == 0
    ensures After(lb, ops).ups[i].active == lb.ups[i].active + PicksOf(lb, ops, i) - ReleasesOf(ops, i)
    decreases |ops|
  {
    hide Step, Result;
    CountsAreHandles(lb, ops, i);
    if ops != [] {
      var n := |ops| - 1;
      var init := ops[..n];
      forall k | 0 <= k <= n ensures ReleasesOf(init[..k], i) <= lb.ups[i].active + PicksOf(lb, init[..k], i) {
        assert init[..k] == ops[..k];
      }
      MatchedCount(lb, init, i);
      CountsAreHandles(lb, init, i);
      assert ops[..|ops|] == ops;
    }
  }

  // ---------------------------------------------------------------- sticky lifetime

  /** From the first pick of a source on, its first pick at or after the end of the
      configured lifetime is chosen anew, whatever hits it had. */
  lemma ReassignedAfterLifetime(lb: LB, first: Op, i: nat, ops: seq<Op>, next: Op)
    requires lb.Ok() && lb.sticky.Some?
    requires first.Pick? && first.src.Some? && Unassigned(lb, first) && Result(lb, first) == Some(i)
    requires next.Pick? && next.src == first.src && first.tPut + lb.sticky.value.ttl <= next.tGet
    requires forall k :: 0 <= k < |ops| && Timed(ops[k]) ==> Start(ops[k]) < first.tPut + lb.sticky.value.ttl
    requires i < |lb.ups| && forall k :: 0 <= k < |ops| && ops[k].Pick? && ops[k].src == first.src ==>
               After(Step(lb, first), ops[..k]).ups[i].healthy
    ensures Unassigned(After(Step(lb, first), ops), next)
  {
    var key, a := first.src.value, Assignment(i, first.tPut + lb.sticky.value.ttl);
    StickyAffinity(Step(lb, first), ops, key, a, Pick(Some(key), 0, 0, a.expiry - 1, a.expiry - 1));
  }

  // ---------------------------------------------------------------- names

  /** The configuration names of internal/lb/balancer.go. */
  lemma NamesAreConfigured(name: string)
    ensures Parsed(name) == Some(RoundRobin) <==> name == "round-robin"
    ensures Parsed(name) == Some(LeastConn) <==> name == "least-conn"
    ensures Parsed(name) == Some(IPHash) <==> name == "ip-hash"
    ensures Parsed(name) == Some(Weighted) <==> name == "weighted"
    ensures Parsed(name) == Some(Random) <==> name == "random"
    ensures Parsed(name).None? <==> name !in {"round-robin", "least-conn", "ip-hash", "weighted", "random"}
  {
  }
}
