/** Laws of the balancer over whole runs: sticky affinity, invisible pruning,
    round-robin shares, and the spread of concurrent least-connection picks. */
module BalancerRuns {
  import opened Common
  import opened Balancing
  import P = Picking

  datatype Op =
    | Pick(src: Option<string>, hash: nat, draw: nat, tGet: int, tPut: int)
    | Release(target: nat)
    | SetHealth(ip: string, port: int, healthy: bool)
    | Prune(at: int)

  function Step(lb: LB, op: Op): (lb': LB)
    requires lb.Ok()
    ensures lb'.Ok() && |lb'.ups| == |lb.ups|
  {
    match op
    case Pick(src, hash, draw, tGet, tPut) => Picked(lb, src, hash, draw, tGet, tPut).0
    case Release(i) => if i < |lb.ups| then lb.(ups := Released(lb.ups, i)) else lb
    case SetHealth(ip, port, healthy) => lb.(ups := Marked(lb.ups, ip, port, healthy))
    case Prune(at) => lb.(sticky := Pruned(lb.sticky, at))
  }

  function Result(lb: LB, op: Op): Option<nat>
    requires lb.Ok() && op.Pick?
  {
    Picked(lb, op.src, op.hash, op.draw, op.tGet, op.tPut).1
  }

  function After(lb: LB, ops: seq<Op>): (lb': LB)
    requires lb.Ok()
    ensures lb'.Ok() && |lb'.ups| == |lb.ups|
  {
    if ops == [] then lb else Step(After(lb, ops[..|ops| - 1]), ops[|ops| - 1])
  }

  /** The results of the picks of a run. */
  function Results(lb: LB, ops: seq<Op>): seq<Option<nat>>
    requires lb.Ok()
  {
    if ops == [] then []
    else
      var init, op := ops[..|ops| - 1], ops[|ops| - 1];
      Results(lb, init) + if op.Pick? then [Result(After(lb, init), op)] else []
  }

  predicate Timed(op: Op) {
    op.Pick? || op.Prune?
  }

  function Start(op: Op): int
    requires Timed(op)
  {
    if op.Pick? then op.tGet else op.at
  }

  function End(op: Op): int
    requires Timed(op)
  {
    if op.Pick? then op.tPut else op.at
  }

  /** The clock does not run backwards. */
  ghost predicate Ordered(ops: seq<Op>, clock: int) {
    && (forall i :: 0 <= i < |ops| && Timed(ops[i]) ==> clock <= Start(ops[i]) <= End(ops[i]))
    && (forall i, j :: 0 <= i < j < |ops| && Timed(ops[i]) && Timed(ops[j]) ==> End(ops[i]) <= Start(ops[j]))
  }

  // ---------------------------------------------------------------- sticky affinity

  predicate Holds(lb: LB, key: string, a: Assignment) {
    lb.sticky.Some? && key in lb.sticky.value.table && lb.sticky.value.table[key] == a
  }

  /** One step before expiry keeps an assignment, unless it is a pick by its own
      source that finds the target down. */
  lemma StepHolds(lb: LB, op: Op, key: string, a: Assignment)
    requires lb.Ok() && Holds(lb, key, a) && a.target < |lb.ups|
    requires Timed(op) ==> Start(op) < a.expiry
    requires op.Pick? && op.src == Some(key) ==> lb.ups[a.target].healthy
    ensures Holds(Step(lb, op), key, a)
    ensures op.Pick? && op.src == Some(key) ==> Result(lb, op) == Some(a.target)
  {
  }

  /** Until it expires an assignment answers every pick of its source, whatever
      other picks, releases, prunings and health changes happen in between, as
      long as its own picks find the target healthy. */
  lemma {:induction false} StickyAffinity(lb: LB, ops: seq<Op>, key: string, a: Assignment, next: Op)
    requires lb.Ok() && Holds(lb, key, a) && a.target < |lb.ups|
    requires next.Pick? && next.src == Some(key) && next.tGet < a.expiry
    requires forall i :: 0 <= i < |ops| && Timed(ops[i]) ==> Start(ops[i]) <= next.tGet
    requires forall i :: 0 <= i < |ops| && ops[i].Pick? && ops[i].src == Some(key) ==>
               After(lb, ops[..i]).ups[a.target].healthy
    ensures Holds(After(lb, ops), key, a)
    ensures After(lb, ops).ups[a.target].healthy ==> Result(After(lb, ops), next) == Some(a.target)
    decreases |ops|
  {
    if ops != [] {
      var init, op := ops[..|ops| - 1], ops[|ops| - 1];
      assert forall i :: 0 <= i < |init| ==> init[i] == ops[i] && init[..i] == ops[..i];
      StickyAffinity(lb, init, key, a, next);
      StepHolds(After(lb, init), op, key, a);
    }
    if After(lb, ops).ups[a.target].healthy {
      StepHolds(After(lb, ops), next, key, a);
    }
  }

  /** Once a pick has returned `i` for a source without a usable assignment, every
      later pick of that source before `tPut + ttl` returns `i` while it is up. */
  lemma {:induction false} AffinityFromFirstPick(lb: LB, first: Op, i: nat, ops: seq<Op>, next: Op)
    requires lb.Ok() && lb.sticky.Some?
    requires first.Pick? && first.src.Some? && Stuck(lb, first.src, first.tGet).None? && Result(lb, first) == Some(i)
    requires next.Pick? && next.src == first.src && next.tGet < first.tPut + lb.sticky.value.ttl
    requires forall k :: 0 <= k < |ops| && Timed(ops[k]) ==> Start(ops[k]) <= next.tGet
    requires i < |lb.ups| && forall k :: 0 <= k < |ops| && ops[k].Pick? && ops[k].src == first.src ==>
               After(Step(lb, first), ops[..k]).ups[i].healthy
    ensures After(Step(lb, first), ops).ups[i].healthy ==> Result(After(Step(lb, first), ops), next) == Some(i)
  {
    StickyAffinity(Step(lb, first), ops, first.src.value, Assignment(i, first.tPut + lb.sticky.value.ttl), next);
  }

  /** A hit leaves the sticky table alone, so it extends no lifetime. */
  lemma HitKeepsTable(lb: LB, op: Op)
    requires lb.Ok() && op.Pick? && Stuck(lb, op.src, op.tGet).Some?
    ensures Result(lb, op) == Stuck(lb, op.src, op.tGet) && Step(lb, op).sticky == lb.sticky
  {
  }

  /** However often a source was answered by its assignment, its first pick at or
      after the original expiry is chosen anew, for every balancer and algorithm. */
  lemma HitsDoNotRefresh(lb: LB, ops: seq<Op>, key: string, a: Assignment, next: Op)
    requires lb.Ok() && Holds(lb, key, a) && a.target < |lb.ups|
    requires next.Pick? && next.src == Some(key) && a.expiry <= next.tGet
    requires forall i :: 0 <= i < |ops| && Timed(ops[i]) ==> Start(ops[i]) < a.expiry
    requires forall i :: 0 <= i < |ops| && ops[i].Pick? && ops[i].src == Some(key) ==>
               After(lb, ops[..i]).ups[a.target].healthy
    ensures Result(After(lb, ops), next) == Choice(After(lb, ops), next.src, next.hash, next.draw)
  {
    StickyAffinity(lb, ops, key, a, Pick(Some(key), 0, 0, a.expiry - 1, a.expiry - 1));
  }

  // ---------------------------------------------------------------- pruning is invisible

  function NoPrunes(ops: seq<Op>): seq<Op> {
    if ops == [] then []
    else NoPrunes(ops[..|ops| - 1]) + if ops[|ops| - 1].Prune? then [] else [ops[|ops| - 1]]
  }

  function LiveEntry(s: Sticky, key: string, now: int): Option<Assignment> {
    if key in s.table && s.table[key].expiry > now then Some(s.table[key]) else None
  }

  /** Equal except for assignments that have expired by `now`. */
  ghost predicate SameLive(a: LB, b: LB, now: int) {
    && a.alg == b.alg && a.ups == b.ups && a.cursor == b.cursor
    && a.sticky.Some? == b.sticky.Some?
    && (a.sticky.Some? ==>
          && a.sticky.value.ttl == b.sticky.value.ttl
          && forall key :: LiveEntry(a.sticky.value, key, now) == LiveEntry(b.sticky.value, key, now))
  }

  lemma SameLiveLater(a: LB, b: LB, now: int, later: int)
    requires SameLive(a, b, now) && now <= later
    ensures SameLive(a, b, later)
  {
    if a.sticky.Some? {
      forall key ensures LiveEntry(a.sticky.value, key, later) == LiveEntry(b.sticky.value, key, later) {
        assert LiveEntry(a.sticky.value, key, now) == LiveEntry(b.sticky.value, key, now);
      }
    }
  }

  lemma SameLiveStep(a: LB, b: LB, op: Op, now: int)
    requires a.Ok() && b.Ok() && SameLive(a, b, now) && (Timed(op) ==> now == Start(op))
    ensures op.Pick? ==> Result(a, op) == Result(b, op)
    ensures SameLive(Step(a, op), if op.Prune? then b else Step(b, op), now)
  {
    if op.Pick? && a.sticky.Some? && op.src.Some? {
      var key := op.src.value;
      assert LiveEntry(a.sticky.value, key, now) == LiveEntry(b.sticky.value, key, now);
      assert Choice(a, op.src, op.hash, op.draw) == Choice(b, op.src, op.hash, op.draw);
      var a', b' := Step(a, op), Step(b, op);
      forall k ensures LiveEntry(a'.sticky.value, k, now) == LiveEntry(b'.sticky.value, k, now) {
        assert LiveEntry(a.sticky.value, k, now) == LiveEntry(b.sticky.value, k, now);
      }
    } else if op.Prune? && a.sticky.Some? {
      var a' := Step(a, op);
      forall k ensures LiveEntry(a'.sticky.value, k, now) == LiveEntry(b.sticky.value, k, now) {
        assert LiveEntry(a.sticky.value, k, now) == LiveEntry(b.sticky.value, k, now);
      }
    }
  }

  /** Time of the last clock reading of a run. */
  function Clock(ops: seq<Op>, clock: int): int {
    if ops == [] then clock
    else if Timed(ops[|ops| - 1]) then Start(ops[|ops| - 1])
    else Clock(ops[..|ops| - 1], clock)
  }

  lemma {:induction false} ClockBefore(ops: seq<Op>, clock: int, op: Op)
    requires Ordered(ops + [op], clock) && Timed(op)
    ensures Clock(ops, clock) <= Start(op)
    decreases |ops|
  {
    var all := ops + [op];
    assert all[|ops|] == op;
    if ops != [] {
      assert all[|ops| - 1] == ops[|ops| - 1];
      if !Timed(ops[|ops| - 1]) {
        var init := ops[..|ops| - 1];
        assert init + [ops[|ops| - 1]] + [op] == all;
        OrderedWithout(init, ops[|ops| - 1], op, clock);
        ClockBefore(init, clock, op);
      }
    }
  }

  lemma OrderedWithout(init: seq<Op>, mid: Op, op: Op, clock: int)
    requires Ordered(init + [mid] + [op], clock)
    ensures Ordered(init + [op], clock)
  {
    var long, short := init + [mid] + [op], init + [op];
    assert forall i :: 0 <= i < |init| ==> short[i] == long[i];
    assert short[|init|] == long[|init| + 1];
  }

  lemma {:induction false} PruneSimulation(lb: LB, ops: seq<Op>, clock: int)
    requires lb.Ok() && Ordered(ops, clock)
    ensures SameLive(After(lb, ops), After(lb, NoPrunes(ops)), Clock(ops, clock))
    ensures Results(lb, ops) == Results(lb, NoPrunes(ops))
    decreases |ops|
  {
    if ops != [] {
      var init, op := ops[..|ops| - 1], ops[|ops| - 1];
      var kept := NoPrunes(init);
      assert ops == init + [op];
      PruneSimulation(lb, init, clock);
      var a, b, before := After(lb, init), After(lb, kept), Clock(init, clock);
      var now := if Timed(op) then Start(op) else before;
      if Timed(op) { ClockBefore(init, clock, op); }
      SameLiveLater(a, b, before, now);
      SameLiveStep(a, b, op, now);
      if op.Prune? {
        assert NoPrunes(ops) == kept;
      } else {
        assert NoPrunes(ops) == kept + [op];
        assert (kept + [op])[..|kept|] == kept;
      }
    }
  }

  /** Removing every pruning from a run changes no result of any pick. */
  lemma PruningIsInvisible(lb: LB, ops: seq<Op>, clock: int)
    requires lb.Ok() && Ordered(ops, clock)
    ensures Results(lb, ops) == Results(lb, NoPrunes(ops))
  {
    PruneSimulation(lb, ops, clock);
  }

  // ---------------------------------------------------------------- round robin

  function Tally(rs: seq<Option<nat>>, r: Option<nat>): nat {
    if rs == [] then 0 else Tally(rs[..|rs| - 1], r) + if rs[|rs| - 1] == r then 1 else 0
  }

  lemma RoundRobinStep(lb: LB, op: Op)
    requires lb.Ok() && lb.alg.RoundRobin? && lb.sticky.None? && op.Pick?
    ensures var lb' := Step(lb, op);
            lb'.alg == lb.alg && lb'.sticky.None? && lb'.cursor == lb.cursor + 1 && Healths(lb'.ups) == Healths(lb.ups)
    ensures Result(lb, op) == P.FirstFrom(Healths(lb.ups), P.StartAt(lb.cursor, 0, |lb.ups|))
  {
    hide P.FirstFrom;
    assert Healths(Step(lb, op).ups) == Healths(lb.ups);
  }

  lemma StartMoves(cursor: nat, k: nat, n: nat)
    requires n > 0
    ensures P.StartAt(cursor + k, 0, n) == P.StartAt(cursor, k, n)
  {
  }

  lemma {:induction false} RoundRobinState(lb: LB, ops: seq<Op>)
    requires lb.Ok() && lb.alg.RoundRobin? && lb.sticky.None?
    requires forall k :: 0 <= k < |ops| ==> ops[k].Pick?
    ensures var lb' := After(lb, ops);
            lb'.alg == lb.alg && lb'.sticky.None? && lb'.cursor == lb.cursor + |ops| && Healths(lb'.ups) == Healths(lb.ups)
    decreases |ops|
  {
    hide P.FirstFrom, P.StartAt, Step, Result, Healths;
    if ops != [] {
      RoundRobinState(lb, ops[..|ops| - 1]);
      RoundRobinStep(After(lb, ops[..|ops| - 1]), ops[|ops| - 1]);
    }
  }

  lemma {:induction false} RoundRobinResults(lb: LB, ops: seq<Op>)
    requires lb.Ok() && lb.alg.RoundRobin? && lb.sticky.None?
    requires forall k :: 0 <= k < |ops| ==> ops[k].Pick?
    ensures |Results(lb, ops)| == |ops|
    ensures forall k :: 0 <= k < |ops| ==>
              Results(lb, ops)[k] == P.FirstFrom(Healths(lb.ups), P.StartAt(lb.cursor, k, |lb.ups|))
    decreases |ops|
  {
    hide P.FirstFrom, P.StartAt, Step, Result, Healths, After;
    if ops != [] {
      var init, op := ops[..|ops| - 1], ops[|ops| - 1];
      RoundRobinResults(lb, init);
      RoundRobinState(lb, init);
      RoundRobinStep(After(lb, init), op);
      StartMoves(lb.cursor, |init|, |lb.ups|);
    }
  }

  ghost function Positions(rs: seq<Option<nat>>, r: Option<nat>): set<int> {
    set k | k in P.Interval(0, |rs|) && rs[k] == r
  }

  lemma {:induction false} TallyIsSize(rs: seq<Option<nat>>, r: Option<nat>)
    ensures Tally(rs, r) == |Positions(rs, r)|
    decreases |rs|
  {
    hide P.Interval;
    if rs == [] {
      assert Positions(rs, r) == {};
    } else {
      var n := |rs| - 1;
      TallyIsSize(rs[..n], r);
      assert Positions(rs, r) == Positions(rs[..n], r) + if rs[n] == r then {n} else {};
    }
  }

  /** `n` consecutive round-robin picks with fixed health choose a healthy target
      once plus once per unhealthy target cyclically just before it. */
  lemma RoundRobinRunShare(lb: LB, ops: seq<Op>, i: nat)
    requires lb.Ok() && lb.alg.RoundRobin? && lb.sticky.None? && i < |lb.ups|
    requires |ops| == |lb.ups| && forall k :: 0 <= k < |ops| ==> ops[k].Pick?
    ensures Tally(Results(lb, ops), Some(i))
         == if lb.ups[i].healthy then 1 + P.RunBefore(Healths(lb.ups), i, 0) else 0
  {
    hide P.FirstFrom, P.RunBefore, P.Interval, P.StartAt, Results, After, Tally;
    var rs := Results(lb, ops);
    RoundRobinResults(lb, ops);
    TallyIsSize(rs, Some(i));
    P.RoundRobinShare(Healths(lb.ups), lb.cursor, i);
    assert Positions(rs, Some(i)) == P.Landings(Healths(lb.ups), lb.cursor, i);
  }

  // ---------------------------------------------------------------- ip hash

  function SetUp(lb: LB, j: nat, healthy: bool): LB
    requires j < |lb.ups|
  {
    lb.(ups := lb.ups[j := lb.ups[j].(healthy := healthy)])
  }

  /** Changing the health of `j` moves exactly the sources that map to `j` in the
      state in which it is healthy. */
  lemma IPHashDisruption(lb: LB, j: nat, src: string, hash: nat, draw: nat)
    requires lb.Ok() && lb.alg.IPHash? && j < |lb.ups|
    ensures Choice(SetUp(lb, j, true), Some(src), hash, draw) != Choice(SetUp(lb, j, false), Some(src), hash, draw)
       <==> Choice(SetUp(lb, j, true), Some(src), hash, draw) == Some(j)
  {
    var h := Healths(lb.ups);
    var up, down := Healths(SetUp(lb, j, true).ups), Healths(SetUp(lb, j, false).ups);
    P.MinimalDisruption(up, j, hash % |lb.ups|);
    assert down == up[j := !up[j]] && up[j := true] == up;
  }
}
