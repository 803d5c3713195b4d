/** The load balancer of internal/lb/balancer.go: targets with mutable health and
    counters, the five algorithms as scanning loops, and the sticky table. */
module Balancing {
  import opened Common
  import P = Picking
  import R = Releases

  /** From here on the cursor converts to a negative `int`. */
  const CURSOR_LIMIT: nat := 0x8000_0000_0000_0000

  datatype Algorithm = RoundRobin | LeastConn | IPHash | Weighted | Random

  /** A target's fields at one moment. */
  datatype Upstream = Upstream(ip: string, port: int, weight: int, healthy: bool, active: int, total: int)

  datatype Assignment = Assignment(target: nat, expiry: int)

  datatype Sticky = Sticky(ttl: int, table: map<string, Assignment>)

  datatype LB = LB(alg: Algorithm, ups: seq<Upstream>, cursor: nat, sticky: Option<Sticky>) {
    predicate Ok() { |ups| > 0 }
  }

  function Healths(ups: seq<Upstream>): (h: seq<bool>)
    ensures |h| == |ups| && forall i :: 0 <= i < |ups| ==> h[i] == ups[i].healthy
  {
    seq(|ups|, i requires 0 <= i < |ups| => ups[i].healthy)
  }

  function Actives(ups: seq<Upstream>): (a: seq<int>)
    ensures |a| == |ups| && forall i :: 0 <= i < |ups| ==> a[i] == ups[i].active
  {
    seq(|ups|, i requires 0 <= i < |ups| => ups[i].active)
  }

  function Weights(ups: seq<Upstream>): (w: seq<int>)
    ensures |w| == |ups| && forall i :: 0 <= i < |ups| ==> w[i] == ups[i].weight
  {
    seq(|ups|, i requires 0 <= i < |ups| => ups[i].weight)
  }

  function Parsed(name: string): Option<Algorithm> {
    match name
    case "round-robin" => Some(RoundRobin)
    case "least-conn" => Some(LeastConn)
    case "ip-hash" => Some(IPHash)
    case "weighted" => Some(Weighted)
    case "random" => Some(Random)
    case _ => None
  }

  function MarkedIf(up: Upstream, marked: bool): Upstream {
    if marked then up.(healthy := true) else up
  }

  /** Lifetimes come in seconds; without one an assignment lasts an hour. */
  function NewSticky(sticky: bool, seconds: int): Option<Sticky> {
    if sticky then Some(Sticky((if seconds <= 0 then 3600 else seconds) * 1000000000, map[])) else None
  }

  // ---------------------------------------------------------------- one pick

  /** The result of the configured algorithm.  `hash` is the source's hash and
      `draw` the random generator's value; a draw in [0, k) is `draw % k`. */
  function Choice(lb: LB, src: Option<string>, hash: nat, draw: nat): (r: Option<nat>)
    requires lb.Ok()
    ensures r.Some? ==> r.value < |lb.ups|
  {
    var h, n := Healths(lb.ups), |lb.ups|;
    match lb.alg
    case RoundRobin => P.FirstFrom(h, lb.cursor % n)
    case LeastConn => P.Least(h, Actives(lb.ups), n)
    case IPHash => P.FirstFrom(h, if src.None? then lb.cursor % n else hash % n)
    case Weighted =>
      var w := Weights(lb.ups);
      var total := P.Mass(h, w, n);
      if total == 0 then None else Some(P.Drawn(h, w, draw % total, n))
    case Random =>
      var idxs := P.HealthyIdxs(h, n);
      if idxs == [] then None else Some(idxs[draw % |idxs|])
  }

  /** Every algorithm picks a healthy target.  It fails only when all are down,
      or for the weighted one when no healthy target has a positive weight. */
  lemma ChoiceIsHealthy(lb: LB, src: Option<string>, hash: nat, draw: nat)
    requires lb.Ok()
    ensures var r := Choice(lb, src, hash, draw);
            && (r.Some? ==> lb.ups[r.value].healthy)
            && (r.None? <==> forall i :: 0 <= i < |lb.ups| ==>
                  !lb.ups[i].healthy || (lb.alg.Weighted? && lb.ups[i].weight <= 0))
  {
    var h, w, n := Healths(lb.ups), Weights(lb.ups), |lb.ups|;
    match lb.alg
    case RoundRobin => P.FirstFromExact(h, lb.cursor % n, 0); P.ScanLandsAhead(h, lb.cursor % n, 0);
    case LeastConn => P.LeastExact(h, Actives(lb.ups), n);
    case IPHash =>
      var s := if src.None? then lb.cursor % n else hash % n;
      P.FirstFromExact(h, s, 0);
      P.ScanLandsAhead(h, s, 0);
    case Weighted =>
      if P.Mass(h, w, n) == 0 {
        forall i | 0 <= i < n ensures !lb.ups[i].healthy || lb.ups[i].weight <= 0 {
          if P.Eligible(h, w, i) { P.MassPositive(h, w, i, n); }
        }
      } else {
        assert P.Falls(h, w, draw % P.Mass(h, w, n), P.Drawn(h, w, draw % P.Mass(h, w, n), n));
      }
    case Random =>
      forall i | 0 <= i < n ensures h[i] <==> i in P.HealthyIdxs(h, n) { P.UniformShare(h, n, i); }
  }

  /** Whether the algorithm moves the round-robin cursor. */
  predicate MovesCursor(alg: Algorithm, src: Option<string>) {
    alg.RoundRobin? || (alg.IPHash? && src.None?)
  }

  /** A live sticky assignment of the source to a healthy target. */
  function Stuck(lb: LB, src: Option<string>, now: int): (r: Option<nat>)
    ensures r.Some? ==> r.value < |lb.ups| && lb.ups[r.value].healthy
  {
    if lb.sticky.None? || src.None? || src.value !in lb.sticky.value.table then None
    else
      var a := lb.sticky.value.table[src.value];
      if now < a.expiry && a.target < |lb.ups| && lb.ups[a.target].healthy then Some(a.target) else None
  }

  function Increment(ups: seq<Upstream>, i: nat): seq<Upstream>
    requires i < |ups|
  {
    ups[i := ups[i].(active := ups[i].active + 1, total := ups[i].total + 1)]
  }

  function Assign(sticky: Option<Sticky>, src: Option<string>, target: nat, now: int): Option<Sticky> {
    if sticky.None? || src.None? then sticky
    else
      var s := sticky.value;
      Some(s.(table := s.table[src.value := Assignment(target, now + s.ttl)]))
  }

  /** One `Pick`: `tGet` and `tPut` are its two clock readings. */
  function Picked(lb: LB, src: Option<string>, hash: nat, draw: nat, tGet: int, tPut: int): (r: (LB, Option<nat>))
    requires lb.Ok()
    ensures r.0.Ok() && |r.0.ups| == |lb.ups|
  {
    var stuck := Stuck(lb, src, tGet);
    if stuck.Some? then (lb.(ups := Increment(lb.ups, stuck.value)), stuck)
    else
      var r := Choice(lb, src, hash, draw);
      var lb' := lb.(cursor := if MovesCursor(lb.alg, src) then lb.cursor + 1 else lb.cursor);
      if r.None? then (lb', None)
      else (lb'.(ups := Increment(lb.ups, r.value), sticky := Assign(lb.sticky, src, r.value, tPut)), r)
  }

  function Released(ups: seq<Upstream>, i: nat): seq<Upstream>
    requires i < |ups|
  {
    ups[i := ups[i].(active := if ups[i].active > 0 then ups[i].active - 1 else 0)]
  }

  function MarkedFrom(ups: seq<Upstream>, ip: string, port: int, healthy: bool, i: nat): (r: seq<Upstream>)
    requires i <= |ups|
    ensures |r| == |ups|
    decreases |ups| - i
  {
    if i == |ups| then ups
    else if ups[i].ip == ip && ups[i].port == port then ups[i := ups[i].(healthy := healthy)]
    else MarkedFrom(ups, ip, port, healthy, i + 1)
  }

  function Marked(ups: seq<Upstream>, ip: string, port: int, healthy: bool): (r: seq<Upstream>)
    ensures |r| == |ups|
  {
    MarkedFrom(ups, ip, port, healthy, 0)
  }

  function Pruned(sticky: Option<Sticky>, now: int): Option<Sticky> {
    if sticky.None? then None
    else
      var s := sticky.value;
      Some(s.(table := map k | k in s.table && s.table[k].expiry > now :: s.table[k]))
  }

  /** The `j`-th eligible target starts where the mass of those before it ends. */
  ghost predicate WalkAt(h: seq<bool>, w: seq<int>, idxs: seq<nat>, k: nat, j: nat)
    requires k <= |h| == |w| && j < |idxs|
  {
    && idxs[j] < k && P.Eligible(h, w, idxs[j])
    && (j > 0 ==> idxs[j - 1] < k)
    && P.Mass(h, w, idxs[j]) == if j == 0 then 0 else P.Mass(h, w, idxs[j - 1] + 1)
  }

  /** `idxs` are the eligible targets below `k`. */
  ghost predicate Walk(h: seq<bool>, w: seq<int>, idxs: seq<nat>, k: nat)
    requires k <= |h| == |w|
  {
    && (forall j :: 0 <= j < |idxs| ==> WalkAt(h, w, idxs, k, j))
    && P.Mass(h, w, k) == MassBefore(h, w, idxs, |idxs|)
  }

  lemma WalkStep(h: seq<bool>, w: seq<int>, idxs: seq<nat>, k: nat)
    requires k < |h| == |w| && Walk(h, w, idxs, k)
    ensures Walk(h, w, if P.Eligible(h, w, k) then idxs + [k] else idxs, k + 1)
  {
    var k', idxs' := k + 1, if P.Eligible(h, w, k) then idxs + [k] else idxs;
    forall j | 0 <= j < |idxs'| ensures WalkAt(h, w, idxs', k', j) {
      if j < |idxs| {
        assert WalkAt(h, w, idxs, k, j);
      } else {
        assert |idxs| > 0 ==> WalkAt(h, w, idxs, k, |idxs| - 1);
      }
    }
    assert |idxs| > 0 ==> WalkAt(h, w, idxs, k, |idxs| - 1);
  }

  /** The mass in front of the `k`-th eligible target. */
  ghost function MassBefore(h: seq<bool>, w: seq<int>, idxs: seq<nat>, k: nat): nat
    requires k <= |idxs| && |h| == |w|
  {
    if k == 0 || idxs[k - 1] >= |h| then 0 else P.Mass(h, w, idxs[k - 1] + 1)
  }

  // ---------------------------------------------------------------- the objects

  class Target {
    const ip: string
    const port: int
    const weight: int
    var healthy: bool
    var activeConns: int
    var totalConns: int

    constructor (ip: string, port: int, weight: int, healthy: bool)
      ensures View() == Upstream(ip, port, weight, healthy, 0, 0)
    {
      this.ip, this.port, this.weight := ip, port, weight;
      this.healthy := healthy;
      activeConns, totalConns := 0, 0;
    }

    function View(): Upstream
      reads this
    {
      Upstream(ip, port, weight, healthy, activeConns, totalConns)
    }

    method HealthMark(healthy: bool) returns (was: bool)
      modifies `healthy
      ensures was == old(this.healthy) && this.healthy == healthy
    {
      was := this.healthy;
      this.healthy := healthy;
    }

    ghost predicate Counts(s: R.Counter)
      reads this
    {
      s.count == activeConns
    }

    method IncActive()
      modifies `activeConns, `totalConns
      ensures activeConns == old(activeConns) + 1 && totalConns == old(totalConns) + 1
      ensures forall s :: old(Counts(s)) ==> Counts(R.Apply(s, R.Increment))
    {
      activeConns := activeConns + 1;
      totalConns := totalConns + 1;
    }

    /** Without interference the count is decremented and clamped at zero. */
    method DecActive()
      modifies `activeConns
      ensures activeConns == if old(activeConns) > 0 then old(activeConns) - 1 else 0
    {
      ghost var s := R.Counter(activeConns, multiset{}, 0, 0);
      var v := decrement(s);
      if v < 0 {
        correct(v, R.Apply(s, R.Decrement));
      }
    }

    /** The first addition of `DecActive`; a result below zero is owed back. */
    method decrement(ghost s: R.Counter) returns (v: int)
      modifies `activeConns
      ensures v == activeConns == old(activeConns) - 1
      ensures old(Counts(s)) ==>
                Counts(R.Apply(s, R.Decrement)) && (v < 0 ==> R.Enabled(R.Apply(s, R.Decrement), R.Correct(-v)))
    {
      activeConns := activeConns - 1;
      v := activeConns;
    }

    /** The second addition. */
    method correct(v: int, ghost s: R.Counter)
      modifies `activeConns
      ensures activeConns == old(activeConns) - v
      ensures old(Counts(s)) ==> Counts(R.Apply(s, R.Correct(-v)))
    {
      activeConns := activeConns - v;
    }
  }

  datatype Error = NoTargets | UnknownAlgorithm | NoTarget(index: nat)

  datatype Creation = Created(balancer: Balancer) | Rejected(why: Error)

  class Balancer {
    const algorithm: Algorithm
    const targets: seq<Target>
    var rrCursor: nat
    var sticky: Option<Sticky>

    ghost predicate Valid()
      reads this
    {
      && |targets| > 0
      && (forall i, j :: 0 <= i < j < |targets| ==> targets[i] != targets[j])
    }

    ghost function Ups(): (ups: seq<Upstream>)
      reads targets
      ensures |ups| == |targets| && forall i :: 0 <= i < |targets| ==> ups[i] == targets[i].View()
    {
      seq(|targets|, i requires 0 <= i < |targets| reads targets => targets[i].View())
    }

    ghost function Model(): LB
      reads this, targets
    {
      LB(algorithm, Ups(), rrCursor, sticky)
    }

    /** Every target starts healthy, even one that was handed over unhealthy. */
    constructor (algorithm: Algorithm, targets: seq<Target>, sticky: bool, stickyTTL: int)
      requires |targets| > 0
      requires forall i, j :: 0 <= i < j < |targets| ==> targets[i] != targets[j]
      modifies targets
      ensures Valid() && this.targets == targets && this.algorithm == algorithm && rrCursor == 0
      ensures forall i :: 0 <= i < |targets| ==> Ups()[i] == old(targets[i].View()).(healthy := true)
      ensures this.sticky == if sticky then Some(Sticky((if stickyTTL <= 0 then 3600 else stickyTTL) * 1000000000, map[])) else None
    {
      this.algorithm := algorithm;
      this.targets := targets;
      rrCursor := 0;
      this.sticky := NewSticky(sticky, stickyTTL);
      new;
      for i := 0 to |targets|
        modifies targets
        invariant forall j :: i <= j < |targets| ==> targets[j].View() == old(targets[j].View())
        invariant forall j :: 0 <= j < i ==> targets[j].View() == old(targets[j].View()).(healthy := true)
      {
        if !targets[i].healthy {
          targets[i].healthy := true;
        }
      }
    }

    /** Checks the arguments before constructing.  Targets in front of a missing one
        have been marked healthy by then. */
    static method New(name: string, targets: seq<Target?>, sticky: bool, stickyTTL: int) returns (r: Creation)
      requires forall i, j :: 0 <= i < j < |targets| ==> targets[i] == null || targets[i] != targets[j]
      modifies set t: Target | t in targets
      ensures r.Rejected? <==> targets == [] || Parsed(name).None? || null in targets
      ensures targets == [] ==> r == Rejected(NoTargets)
      ensures targets != [] && Parsed(name).None? ==> r == Rejected(UnknownAlgorithm)
      ensures targets != [] && Parsed(name).Some? && null in targets ==>
                r.Rejected? && r.why.NoTarget? && r.why.index < |targets| && targets[r.why.index] == null && null !in targets[..r.why.index]
      ensures r.Created? ==>
                && r.balancer.Valid() && fresh(r.balancer) && r.balancer.targets == targets
                && r.balancer.algorithm == Parsed(name).value && r.balancer.rrCursor == 0
                && r.balancer.sticky == NewSticky(sticky, stickyTTL)
      ensures forall j :: 0 <= j < |targets| && targets[j] != null ==>
                targets[j].View() == MarkedIf(old(targets[j].View()), r.Created? || (r.why.NoTarget? && j < r.why.index))
    {
      if targets == [] { return Rejected(NoTargets); }
      var algorithm := Parsed(name);
      if algorithm.None? { return Rejected(UnknownAlgorithm); }
      var present: seq<Target> := [];
      for i := 0 to |targets|
        invariant present == targets[..i] && null !in targets[..i]
        invariant forall j :: 0 <= j < |targets| && targets[j] != null ==>
                    targets[j].View() == MarkedIf(old(targets[j].View()), j < i)
      {
        if targets[i] == null { return Rejected(NoTarget(i)); }
        var t: Target := targets[i];
        assert t in targets;
        if !t.healthy { t.healthy := true; }
        present := present + [t];
      }
      assert targets[..|targets|] == targets;
      assert forall t :: t in present ==> t in targets;
      var b := new Balancer(algorithm.value, present, sticky, stickyTTL);
      r := Created(b);
    }

    method pickRoundRobin() returns (r: Option<nat>)
      requires Valid() && rrCursor < CURSOR_LIMIT
      modifies `rrCursor
      ensures rrCursor == old(rrCursor) + 1
      ensures r == P.FirstFrom(Healths(Ups()), old(rrCursor) % |targets|)
    {
      rrCursor := rrCursor + 1;
      r := scan((rrCursor - 1) % |targets|);
    }

    /** The scanning loop of round robin and of ip hash. */
    method scan(start: nat) returns (r: Option<nat>)
      requires Valid() && start < |targets|
      ensures r == P.FirstFrom(Healths(Ups()), start)
    {
      var n := |targets|;
      for i := 0 to n
        invariant P.FirstFrom(Healths(Ups()), start) == P.ScanFrom(Healths(Ups()), start, i)
      {
        P.AtIsMod(n, start, i);
        var idx := (start + i) % n;
        if targets[idx].healthy {
          return Some(idx);
        }
      }
      return None;
    }

    method pickLeastConn() returns (r: Option<nat>)
      requires Valid()
      ensures r == P.Least(Healths(Ups()), Actives(Ups()), |targets|)
    {
      r := None;
      var bestConns := -1;
      for i := 0 to |targets|
        invariant r == P.Least(Healths(Ups()), Actives(Ups()), i)
        invariant r.Some? ==> bestConns == targets[r.value].activeConns
      {
        if targets[i].healthy {
          var c := targets[i].activeConns;
          if r.None? || c < bestConns {
            r := Some(i);
            bestConns := c;
          }
        }
      }
    }

    method pickIPHash(src: Option<string>, hash: nat) returns (r: Option<nat>)
      requires Valid() && (src.None? ==> rrCursor < CURSOR_LIMIT)
      modifies `rrCursor
      ensures rrCursor == old(rrCursor) + if src.None? then 1 else 0
      ensures r == P.FirstFrom(Healths(Ups()), if src.None? then old(rrCursor) % |targets| else hash % |targets|)
    {
      if src.None? {
        r := pickRoundRobin();
      } else {
        r := scan(hash % |targets|);
      }
    }

    /** The first loop of `pickWeighted`: the eligible targets and their weight. */
    method collectEligible() returns (idxs: seq<nat>, totalWeight: nat)
      requires Valid()
      ensures var h, w := Healths(Ups()), Weights(Ups());
              && totalWeight == P.Mass(h, w, |targets|) && Walk(h, w, idxs, |targets|)
              && (idxs == [] <==> totalWeight == 0)
    {
      ghost var h, w := Healths(Ups()), Weights(Ups());
      idxs := [];
      totalWeight := 0;
      for i := 0 to |targets|
        invariant totalWeight == P.Mass(h, w, i) && Walk(h, w, idxs, i)
        invariant idxs == [] <==> totalWeight == 0
      {
        hide Walk;
        WalkStep(h, w, idxs, i);
        if targets[i].healthy && targets[i].weight > 0 {
          idxs := idxs + [i];
          totalWeight := totalWeight + targets[i].weight;
        }
      }
    }

    /** The uniform fallback for a zero weight sum and the safety net after the
        cumulative walk are never reached. */
    method pickWeighted(draw: nat) returns (r: Option<nat>)
      requires Valid()
      ensures var h, w := Healths(Ups()), Weights(Ups());
              var total := P.Mass(h, w, |targets|);
              r == if total == 0 then None else Some(P.Drawn(h, w, draw % total, |targets|))
    {
      var healthyIdxs, totalWeight := collectEligible();
      if |healthyIdxs| == 0 {
        return None;
      }
      if totalWeight == 0 {
        assert false;
      }
      r := walk(healthyIdxs, totalWeight, draw % totalWeight);
    }

    /** The cumulative walk of `pickWeighted`. */
    method walk(healthyIdxs: seq<nat>, ghost totalWeight: nat, draw: nat) returns (r: Option<nat>)
      requires Valid() && draw < totalWeight
      requires var h, w := Healths(Ups()), Weights(Ups());
               totalWeight == P.Mass(h, w, |targets|) && Walk(h, w, healthyIdxs, |targets|)
      ensures r == Some(P.Drawn(Healths(Ups()), Weights(Ups()), draw, |targets|))
    {
      ghost var h, w := Healths(Ups()), Weights(Ups());
      var left: int := draw;
      for k := 0 to |healthyIdxs|
        invariant left == draw - MassBefore(h, w, healthyIdxs, k) >= 0
      {
        assert WalkAt(h, w, healthyIdxs, |targets|, k);
        left := left - targets[healthyIdxs[k]].weight;
        if left < 0 {
          assert P.Falls(h, w, draw, healthyIdxs[k]);
          P.FallsOnce(h, w, draw, healthyIdxs[k], P.Drawn(h, w, draw, |targets|));
          return Some(healthyIdxs[k]);
        }
      }
      assert false;
    }

    method pickRandom(draw: nat) returns (r: Option<nat>)
      requires Valid()
      ensures var idxs := P.HealthyIdxs(Healths(Ups()), |targets|);
              r == if idxs == [] then None else Some(idxs[draw % |idxs|])
    {
      var healthyIdxs: seq<nat> := [];
      for i := 0 to |targets|
        invariant healthyIdxs == P.HealthyIdxs(Healths(Ups()), i)
      {
        if targets[i].healthy {
          healthyIdxs := healthyIdxs + [i];
        }
      }
      if |healthyIdxs| == 0 {
        return None;
      }
      return Some(healthyIdxs[draw % |healthyIdxs|]);
    }

    method pickAlg(src: Option<string>, hash: nat, draw: nat) returns (r: Option<nat>)
      requires Valid() && (MovesCursor(algorithm, src) ==> rrCursor < CURSOR_LIMIT)
      modifies `rrCursor
      ensures r == Choice(old(Model()), src, hash, draw)
      ensures rrCursor == old(rrCursor) + if MovesCursor(algorithm, src) then 1 else 0
    {
      match algorithm
      case RoundRobin => r := pickRoundRobin();
      case LeastConn => r := pickLeastConn();
      case IPHash => r := pickIPHash(src, hash);
      case Weighted => r := pickWeighted(draw);
      case Random => r := pickRandom(draw);
    }

    method Pick(src: Option<string>, hash: nat, draw: nat, tGet: int, tPut: int) returns (r: Option<nat>)
      requires Valid() && tGet <= tPut
      requires MovesCursor(algorithm, src) && Stuck(Model(), src, tGet).None? ==> rrCursor < CURSOR_LIMIT
      modifies this, targets
      ensures Valid() && (Model(), r) == Picked(old(Model()), src, hash, draw, tGet, tPut)
    {
      hide Choice, Increment, Assign;
      var idx := get(src, tGet);
      if idx.Some? && idx.value < |targets| && targets[idx.value].healthy {
        increment(idx.value);
        return idx;
      }
      r := pickAlg(src, hash, draw);
      if r.None? {
        return;
      }
      increment(r.value);
      put(src, r.value, tPut);
    }

    /** The sticky lookup: a present and unexpired assignment. */
    method get(src: Option<string>, now: int) returns (idx: Option<nat>)
      ensures idx == if sticky.Some? && src.Some? && src.value in sticky.value.table
                        && now < sticky.value.table[src.value].expiry
                     then Some(sticky.value.table[src.value].target) else None
    {
      if sticky.None? || src.None? || src.value !in sticky.value.table {
        return None;
      }
      var e := sticky.value.table[src.value];
      if e.expiry <= now {
        return None;
      }
      return Some(e.target);
    }

    method put(src: Option<string>, idx: nat, now: int)
      modifies `sticky
      ensures sticky == Assign(old(sticky), src, idx, now)
    {
      if sticky.Some? && src.Some? {
        var s := sticky.value;
        sticky := Some(s.(table := s.table[src.value := Assignment(idx, now + s.ttl)]));
      }
    }

    method increment(i: nat)
      requires Valid() && i < |targets|
      modifies targets
      ensures Ups() == Increment(old(Ups()), i)
    {
      targets[i].IncActive();
    }

    method Release(i: nat)
      requires Valid() && i < |targets|
      modifies targets
      ensures Ups() == Released(old(Ups()), i)
      ensures Ups()[i].active == if old(Ups())[i].active > 0 then old(Ups())[i].active - 1 else 0
    {
      targets[i].DecActive();
    }

    /** Marks the first target with this address and port. */
    method SetHealth(ip: string, port: int, healthy: bool)
      requires Valid()
      modifies targets
      ensures Ups() == Marked(old(Ups()), ip, port, healthy)
    {
      for i := 0 to |targets|
        invariant unchanged(targets)
        invariant Marked(Ups(), ip, port, healthy) == MarkedFrom(Ups(), ip, port, healthy, i)
      {
        if targets[i].ip == ip && targets[i].port == port {
          var _ := targets[i].HealthMark(healthy);
          return;
        }
      }
    }

    method PruneStickyTable(now: int)
      modifies `sticky
      ensures sticky == Pruned(old(sticky), now)
      ensures sticky.Some? <==> old(sticky).Some?
      ensures sticky.Some? ==>
                var table := old(sticky).value.table;
                sticky.value.ttl == old(sticky).value.ttl
                && sticky.value.table == map k | k in table && now < table[k].expiry :: table[k]
    {
      if sticky.None? {
        return;
      }
      var s := sticky.value;
      var kept := map k | k in s.table && !(s.table[k].expiry <= now) :: s.table[k];
      sticky := Some(s.(table := kept));
      assert kept == Pruned(Some(s), now).value.table;
    }
  }
}
