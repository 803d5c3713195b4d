/** The protection engine of internal/l7/engine.go as an object: the per-IP
    limiter maps hold limiter objects, and every method is tied to the limiter
    sections of `L7Limits`. */
module L7Engine {
  import opened Common
  import B = BanStore
  import L = L7Limits
  import S = SlidingWindows
  import T = TokenBuckets
  import P = Scoring

  datatype ScoreRule = ScoreRule(event: string, score: int)

  datatype Config = Config(
    enabled: bool,
    cyclingEnabled: bool, cyclingWindow: int, maxConnsInWindow: int,
    rateEnabled: bool, maxBytesPerSecPerIP: int, burstMultiplier: real,
    scoringEnabled: bool, banThreshold: int, banDuration: int, scoreRules: seq<ScoreRule>)
  {
    function Resolution(): int { S.Quotient(cyclingWindow, L.CYCLE_BUCKETS) }

    /** A positive byte rate is the rate, and gives a positive burst. */
    lemma LimitIsOk()
      requires maxBytesPerSecPerIP > 0
      ensures Limit().Ok() && Limit().rate == maxBytesPerSecPerIP as real
    {
    }

    function Limit(): L.Limit {
      var rate := maxBytesPerSecPerIP as real;
      L.Limit(rate, L.BurstFor(rate, burstMultiplier))
    }
  }

  /** The first configured rule for the event, or the built-in score. */
  function RuleScore(rules: seq<ScoreRule>, event: string): int {
    if rules != [] then
      if rules[0].event == event then rules[0].score else RuleScore(rules[1..], event)
    else if event == "payload_too_small" then 5
    else if event == "payload_too_large" then 10
    else if event == "handshake_timeout" then 20
    else if event == "invalid_protocol" then 30
    else if event == "connection_cycling" then 25
    else if event == "amplification_detected" then 40
    else 0
  }

  /** The first configured rule for the event decides; without one the built-in score
      does. */
  lemma {:induction false} RuleScoreIs(rules: seq<ScoreRule>, event: string)
    ensures forall i :: 0 <= i < |rules| && rules[i].event == event && (forall j :: 0 <= j < i ==> rules[j].event != event) ==>
              RuleScore(rules, event) == rules[i].score
    ensures (forall i :: 0 <= i < |rules| ==> rules[i].event != event) ==>
              && (event == "payload_too_small" ==> RuleScore(rules, event) == 5)
              && (event == "payload_too_large" ==> RuleScore(rules, event) == 10)
              && (event == "handshake_timeout" ==> RuleScore(rules, event) == 20)
              && (event == "invalid_protocol" ==> RuleScore(rules, event) == 30)
              && (event == "connection_cycling" ==> RuleScore(rules, event) == 25)
              && (event == "amplification_detected" ==> RuleScore(rules, event) == 40)
              && (RuleScore(rules, event) == 0 || event in {"payload_too_small", "payload_too_large", "handshake_timeout",
                                                            "invalid_protocol", "connection_cycling", "amplification_detected"})
  {
    if rules != [] {
      var rest := rules[1..];
      RuleScoreIs(rest, event);
      forall i | 0 <= i < |rules| && rules[i].event == event && (forall j :: 0 <= j < i ==> rules[j].event != event)
        ensures RuleScore(rules, event) == rules[i].score
      {
        if i > 0 {
          assert rest[i - 1] == rules[i] && forall j :: 0 <= j < i - 1 ==> rest[j] == rules[j + 1];
        }
      }
      assert forall i :: 0 <= i < |rest| ==> rest[i] == rules[i + 1];
    }
  }

  /** What an address without a bucket may send at once: a second's bytes times the
      multiplier, or twice a second's bytes when that product is not positive. */
  lemma FirstBytesIff(cfg: Config, bs: map<string, T.Bucket>, key: string, size: nat, tNew: int, tAllow: int)
    requires cfg.maxBytesPerSecPerIP > 0 && key !in bs && tNew <= tAllow
    ensures var second := cfg.maxBytesPerSecPerIP as real;
            L.Admits(bs, cfg.Limit(), L.Data(key, tNew, tAllow, size as real))
            <==> size as real <= if second * cfg.burstMultiplier > 0.0 then second * cfg.burstMultiplier else 2.0 * second
  {
    T.GainMonotone(cfg.maxBytesPerSecPerIP as real, tAllow - tNew);
    hide T.Gain;
  }

  /** Clock readings of one call, in the order they are taken: the two of the
      ban check, limiter creation, the limiter's two operations, the ban time. */
  datatype Readings = Readings(ban1: int, ban2: int, create: int, first: int, second: int, score: int) {
    predicate Ordered() { ban1 <= ban2 && create <= first <= second }
  }

  /** Accumulated score of an address that has just earned `points`. */
  function Earned(scores: map<string, int>, key: string, points: int): int {
    (if key in scores then scores[key] else 0) + points
  }

  // ---------------------------------------------------------------- scores and bans

  datatype Ledger = Ledger(scores: map<string, int>, bans: map<string, B.Entry>, bannedIPs: nat)

  predicate Trips(cfg: Config, l: Ledger, key: string, points: int) {
    points > 0 && cfg.scoringEnabled && Earned(l.scores, key, points) >= cfg.banThreshold
  }

  /** Adds to an address's score; reaching the threshold turns the score into a
      ban that starts at `now`. */
  function Charged(cfg: Config, l: Ledger, key: string, points: int, now: int): Ledger {
    if points <= 0 || !cfg.scoringEnabled then l
    else if !Trips(cfg, l, key, points) then l.(scores := l.scores[key := Earned(l.scores, key, points)])
    else Ledger(Without(l.scores, key),
                l.bans[key := B.Entry(now + cfg.banDuration, "behavioral threshold exceeded")],
                l.bannedIPs + 1)
  }

  /** A charge writes one ban only: of its own address, when the score with the new
      points reaches the threshold, for the configured duration from then on.  It
      replaces any other ban of that address, a permanent one too. */
  lemma ChargedBans(cfg: Config, l: Ledger, key: string, points: int, now: int, other: string)
    ensures var trips := cfg.scoringEnabled && points > 0 && (if key in l.scores then l.scores[key] else 0) + points >= cfg.banThreshold;
            var bans := Charged(cfg, l, key, points, now).bans;
            if trips && other == key then other in bans && bans[other].expiresAt == now + cfg.banDuration
            else Lookup(bans, other) == Lookup(l.bans, other)
  {
  }

  /** What changes the ban list: an order, a charge, and the lazy expiry of a look-up. */
  datatype BanOp =
    | Order(key: string, expiresAt: int, reason: string)
    | Lift(key: string)
    | Earn(charge: Charge)
    | Look(key: string, now: int)

  function BanStep(cfg: Config, l: Ledger, op: BanOp): Ledger {
    match op
    case Order(key, expiresAt, reason) =>
      l.(bans := l.bans[key := B.Entry(expiresAt, reason)], bannedIPs := l.bannedIPs + 1)
    case Lift(key) => l.(bans := Without(l.bans, key))
    case Earn(c) => Charged(cfg, l, c.key, c.points, c.at)
    case Look(key, now) => l.(bans := B.Swept(l.bans, key, now))
  }

  function BanRun(cfg: Config, l: Ledger, ops: seq<BanOp>): Ledger {
    if ops == [] then l else BanStep(cfg, BanRun(cfg, l, ops[..|ops| - 1]), ops[|ops| - 1])
  }

  predicate Forever(l: Ledger, key: string) {
    key in l.bans && l.bans[key].expiresAt == 0
  }

  /** The permanent ban is lifted, or replaced by a timed one: by order, or because the
      address, through a connection it still has, reaches the threshold. */
  predicate Ends(cfg: Config, l: Ledger, op: BanOp, key: string) {
    match op
    case Order(k, expiresAt, _) => k == key && expiresAt != 0
    case Lift(k) => k == key
    case Earn(c) =>
      && c.key == key && cfg.scoringEnabled && c.points > 0
      && (if key in l.scores then l.scores[key] else 0) + c.points >= cfg.banThreshold
      && c.at + cfg.banDuration != 0
    case Look(_, _) => false
  }

  lemma ForeverStep(cfg: Config, l: Ledger, op: BanOp, key: string)
    requires Forever(l, key)
    ensures Forever(BanStep(cfg, l, op), key) <==> !Ends(cfg, l, op, key)
  {
  }

  lemma BanRunNext(cfg: Config, l: Ledger, ops: seq<BanOp>, k: nat)
    requires k < |ops|
    ensures BanRun(cfg, l, ops[..k + 1]) == BanStep(cfg, BanRun(cfg, l, ops[..k]), ops[k])
  {
    assert ops[..k + 1][..k] == ops[..k];
  }

  ghost predicate Undisturbed(cfg: Config, l: Ledger, ops: seq<BanOp>, key: string) {
    forall k :: 0 <= k < |ops| ==> !Ends(cfg, BanRun(cfg, l, ops[..k]), ops[k], key)
  }

  lemma {:induction false} UndisturbedStays(cfg: Config, l: Ledger, ops: seq<BanOp>, key: string, k: nat)
    requires Forever(l, key) && Undisturbed(cfg, l, ops, key) && k <= |ops|
    ensures Forever(BanRun(cfg, l, ops[..k]), key)
  {
    hide BanStep, Ends, Forever;
    if k > 0 {
      UndisturbedStays(cfg, l, ops, key, k - 1);
      BanRunNext(cfg, l, ops, k - 1);
      ForeverStep(cfg, BanRun(cfg, l, ops[..k - 1]), ops[k - 1], key);
    }
  }

  /** A permanent ban stays throughout a run exactly when nothing in it lifts the ban
      and no charge of the address reaches the threshold. */
  lemma ForeverIff(cfg: Config, l: Ledger, ops: seq<BanOp>, key: string)
    requires Forever(l, key)
    ensures (forall k :: 0 <= k <= |ops| ==> Forever(BanRun(cfg, l, ops[..k]), key)) <==> Undisturbed(cfg, l, ops, key)
  {
    hide BanStep, Ends, Forever, BanRun;
    if Undisturbed(cfg, l, ops, key) {
      forall k | 0 <= k <= |ops| ensures Forever(BanRun(cfg, l, ops[..k]), key) {
        UndisturbedStays(cfg, l, ops, key, k);
      }
    }
    if forall k :: 0 <= k <= |ops| ==> Forever(BanRun(cfg, l, ops[..k]), key) {
      forall k | 0 <= k < |ops| ensures !Ends(cfg, BanRun(cfg, l, ops[..k]), ops[k], key) {
        BanRunNext(cfg, l, ops, k);
        ForeverStep(cfg, BanRun(cfg, l, ops[..k]), ops[k], key);
      }
    }
  }

  /** The charge that breaks it: once the ban that has replaced the permanent one has
      ended, the address is not banned at all. */
  lemma ForeverIsReplaced(cfg: Config, l: Ledger, key: string, points: int, at: int)
    requires Forever(l, key) && cfg.scoringEnabled && points > 0 && at + cfg.banDuration > 0
    requires (if key in l.scores then l.scores[key] else 0) + points >= cfg.banThreshold
    ensures key !in BanRun(cfg, l, [Earn(Charge(key, points, at)), Look(key, at + cfg.banDuration + 1)]).bans
  {
    var ops := [Earn(Charge(key, points, at)), Look(key, at + cfg.banDuration + 1)];
    BanRunNext(cfg, l, ops, 0);
    BanRunNext(cfg, l, ops, 1);
    assert ops[..0] == [] && ops[..2] == ops;
    ChargedBans(cfg, l, key, points, at, key);
    hide Charged;
  }

  datatype Charge = Charge(key: string, points: int, at: int)

  function LedgerAfter(cfg: Config, run: seq<Charge>): Ledger {
    if run == [] then Ledger(map[], map[], 0)
    else
      var c := run[|run| - 1];
      Charged(cfg, LedgerAfter(cfg, run[..|run| - 1]), c.key, c.points, c.at)
  }

  /** Bans that the charges of one address have caused. */
  function BansOf(cfg: Config, run: seq<Charge>, key: string): nat {
    if run == [] then 0
    else
      var init, c := run[..|run| - 1], run[|run| - 1];
      BansOf(cfg, init, key) + if c.key == key && Trips(cfg, LedgerAfter(cfg, init), key, c.points) then 1 else 0
  }

  /** All points charged to one address; charges of zero or less are ignored. */
  function PointsOf(run: seq<Charge>, key: string): int {
    if run == [] then 0
    else
      var c := run[|run| - 1];
      PointsOf(run[..|run| - 1], key) + if c.key == key && c.points > 0 then c.points else 0
  }

  /** What the charges of an address amount to when each ban has used up between
      `low` and `high` points. */
  predicate Spent(points: int, bans: nat, score: int, low: int, high: int) {
    bans * low + score <= points <= bans * high + score
  }

  lemma SpendOne(points: int, bans: nat, score: int, more: int, low: int, high: int)
    requires Spent(points, bans, score, low, high) && low <= score + more <= high
    ensures Spent(points + more, bans + 1, 0, low, high)
  {
    assert (bans + 1) * low == bans * low + low;
    assert (bans + 1) * high == bans * high + high;
  }

  /** Over any run of charges of at most `most` points, every ban of an address
      has used up at least the threshold and at most `most` - 1 more, and what is
      left is its score, which stays below the threshold. */
  lemma {:induction false} BansArePaidFor(cfg: Config, run: seq<Charge>, key: string, most: nat)
    requires cfg.scoringEnabled && cfg.banThreshold > 0
    requires forall i :: 0 <= i < |run| ==> run[i].points <= most
    ensures var score := Earned(LedgerAfter(cfg, run).scores, key, 0);
            && 0 <= score < cfg.banThreshold
            && Spent(PointsOf(run, key), BansOf(cfg, run, key), score, cfg.banThreshold, cfg.banThreshold - 1 + most)
    decreases |run|
  {
    hide Spent;
    if run == [] {
      assert Spent(0, 0, 0, cfg.banThreshold, cfg.banThreshold - 1 + most) by { NothingSpent(cfg.banThreshold, cfg.banThreshold - 1 + most); }
    } else {
      var init, c := run[..|run| - 1], run[|run| - 1];
      BansArePaidFor(cfg, init, key, most);
      var l := LedgerAfter(cfg, init);
      var score := Earned(l.scores, key, 0);
      if c.key == key && c.points > 0 {
        if Trips(cfg, l, key, c.points) {
          SpendOne(PointsOf(init, key), BansOf(cfg, init, key), score, c.points, cfg.banThreshold, cfg.banThreshold - 1 + most);
        } else {
          SpendNone(PointsOf(init, key), BansOf(cfg, init, key), score, c.points, cfg.banThreshold, cfg.banThreshold - 1 + most);
        }
      }
    }
  }

  lemma NothingSpent(low: int, high: int)
    ensures Spent(0, 0, 0, low, high)
  {
  }

  lemma SpendNone(points: int, bans: nat, score: int, more: int, low: int, high: int)
    requires Spent(points, bans, score, low, high)
    ensures Spent(points + more, bans, score + more, low, high)
  {
  }

  /** The mutex-guarded map of cycling windows. */
  class WindowTable {
    const window: int
    var windows: map<string, S.SlidingWindow>
    ghost var Repr: set<object>

    function Resolution(): int { S.Quotient(window, L.CYCLE_BUCKETS) }

    /** No window is shared between addresses. */
    ghost predicate Valid()
      reads this, Repr
    {
      && this !in Repr
      && (forall k :: k in windows ==>
            && windows[k] in Repr && windows[k].buckets in Repr && windows[k].Valid()
            && windows[k].resolution == Resolution() && windows[k].buckets.Length == L.CYCLE_BUCKETS)
      && (forall k, j :: k in windows && j in windows && k != j ==>
            windows[k] != windows[j] && windows[k].buckets != windows[j].buckets)
    }

    ghost function Model(): (ws: map<string, S.Window>)
      requires Valid()
      reads this, Repr
      ensures ws.Keys == windows.Keys
      ensures forall k :: k in ws ==> ws[k].Ok()
    {
      map k | k in windows :: windows[k].Model()
    }

    constructor (window: int)
      ensures Valid() && Model() == map[] && this.window == window && Repr == {}
    {
      this.window := window;
      windows := map[];
      Repr := {};
    }

    /** The window of an address, created on its first connection. */
    method Obtain(key: string, tNew: int) returns (sw: S.SlidingWindow)
      requires Valid() && Resolution() > 0
      modifies this
      ensures Valid() && fresh(Repr - old(Repr))
      ensures key in windows && windows[key] == sw && sw in Repr && sw.buckets in Repr
      ensures sw.lastTick == if key in old(windows) then old(windows[key].lastTick) else tNew
      ensures Model() == old(Model())[key := L.WindowFor(old(Model()), Resolution(), key, tNew)]
    {
      hide S.View, S.Zeros, S.Quotient;
      if key in windows {
        sw := windows[key];
      } else {
        S.QuotientPositive(window, L.CYCLE_BUCKETS);
        sw := new S.SlidingWindow(window, 10, tNew);
        windows := windows[key := sw];
        Repr := Repr + {sw, sw.buckets};
      }
    }

    /** `Add(1)` and `Count()` on an existing window. */
    method Bump(key: string, tAdd: int, tCount: int) returns (count: int)
      requires Valid() && key in windows && windows[key].lastTick <= tAdd <= tCount
      modifies Repr
      ensures Valid() && Repr == old(Repr) && windows == old(windows)
      ensures var w := S.Advance(S.AddAt(old(Model())[key], tAdd, 1), tCount);
              Model() == old(Model())[key := w] && count == S.Sum(w.ages)
    {
      hide S.View, S.AddAt, S.Advance;
      var sw := windows[key];
      sw.Add(tAdd, 1);
      count := sw.Count(tCount);
      forall k | k in windows && k != key ensures windows[k].Valid() && windows[k].Model() == old(windows[k].Model()) {
      }
    }

    /** The cycling section of `OnAccept`. */
    method Cycle(key: string, tNew: int, tAdd: int, tCount: int) returns (count: int)
      requires Valid() && Resolution() > 0 && tNew <= tAdd <= tCount
      requires key in windows ==> windows[key].lastTick <= tAdd
      modifies this, Repr
      ensures Valid() && fresh(Repr - old(Repr))
      ensures var w := L.Cycled(old(Model()), Resolution(), key, tNew, tAdd, tCount);
              Model() == old(Model())[key := w] && count == S.Sum(w.ages)
    {
      hide S.AddAt, S.Advance, S.Sum, L.WindowFor, Valid, Model;
      var _ := Obtain(key, tNew);
      count := Bump(key, tAdd, tCount);
    }

    /** `Count()` on an existing window. */
    method Recount(key: string, now: int) returns (count: int)
      requires Valid() && key in windows && Model()[key].lastTick <= now
      modifies Repr
      ensures Valid() && Repr == old(Repr) && windows == old(windows)
      ensures var w := S.Advance(old(Model())[key], now);
              Model() == old(Model())[key := w] && count == S.Sum(w.ages)
    {
      hide S.View, S.Advance;
      var sw := windows[key];
      count := sw.Count(now);
      forall k | k in windows && k != key ensures windows[k].Valid() && windows[k].Model() == old(windows[k].Model()) {
      }
    }

    method Drop(key: string)
      requires Valid()
      modifies this
      ensures Valid() && Repr == old(Repr)
      ensures Model() == Without(old(Model()), key)
    {
      windows := windows - {key};
    }

    /** One turn of the pruning loop. */
    method PruneTurn(key: string, now: int)
      requires Valid() && key in windows && Model()[key].lastTick <= now
      modifies this, Repr
      ensures Valid() && Repr == old(Repr)
      ensures Model() == L.PrunedWindow(old(Model()), key, now)
    {
      hide S.Advance, Valid, Model;
      var count := Recount(key, now);
      if count == 0 {
        Drop(key);
      }
    }

    /** Deletes every window whose count is zero at its reading. */
    method Prune(clock: string -> int)
      requires Valid() && forall k :: k in Model() ==> Model()[k].lastTick <= clock(k)
      modifies this, Repr
      ensures Valid() && Repr == old(Repr)
      ensures Model() == L.PrunedWindows(old(Model()), {}, clock)
    {
      ghost var ws := Model();
      var todo := windows.Keys;
      assert Model() == L.PrunedWindows(ws, todo, clock);
      hide Valid, Model, L.PrunedWindows, L.PrunedWindow;
      while todo != {}
        invariant Valid() && Repr == old(Repr)
        invariant todo <= ws.Keys && Model() == L.PrunedWindows(ws, todo, clock)
        decreases |todo|
      {
        var key :| key in todo;
        L.PruneWindowTurn(ws, todo, clock, key);
        PruneTurn(key, clock(key));
        todo := todo - {key};
      }
    }
  }

  /** The mutex-guarded map of payload buckets. */
  class BucketTable {
    const limit: L.Limit
    var buckets: map<string, T.TokenBucket>
    ghost var Repr: set<object>

    ghost predicate Valid()
      reads this, Repr
    {
      && this !in Repr
      && (forall k :: k in buckets ==>
            && buckets[k] in Repr && buckets[k].Valid()
            && buckets[k].rate == limit.rate && buckets[k].burst == limit.burst)
      && (forall k, j :: k in buckets && j in buckets && k != j ==> buckets[k] != buckets[j])
    }

    ghost function Model(): (bs: map<string, T.Bucket>)
      requires Valid()
      reads this, Repr
      ensures bs.Keys == buckets.Keys
    {
      map k | k in buckets :: buckets[k].Model()
    }

    constructor (limit: L.Limit)
      ensures Valid() && Model() == map[] && this.limit == limit && Repr == {}
    {
      this.limit := limit;
      buckets := map[];
      Repr := {};
    }

    method Obtain(key: string, tNew: int) returns (tb: T.TokenBucket)
      requires Valid() && limit.Ok()
      modifies this
      ensures Valid() && fresh(Repr - old(Repr))
      ensures key in buckets && buckets[key] == tb && tb in Repr
      ensures Model() == old(Model())[key := L.BucketFor(old(Model()), limit, key, tNew)]
    {
      hide T.TokenBucket.Valid;
      if key in buckets {
        tb := buckets[key];
      } else {
        tb := new T.TokenBucket(limit.rate, limit.burst, tNew);
        buckets := buckets[key := tb];
        Repr := Repr + {tb};
      }
    }

    method Draw(key: string, now: int, n: real) returns (ok: bool)
      requires Valid() && key in buckets && Model()[key].last <= now && n >= 0.0
      modifies Repr
      ensures Valid() && Repr == old(Repr) && buckets == old(buckets)
      ensures Model() == old(Model())[key := T.Take(old(Model())[key], now, n)]
      ensures ok <==> T.Refill(old(Model())[key], now).tokens >= n
    {
      hide T.TokenBucket.Valid, T.Refill, T.Take, T.Fits;
      var tb := buckets[key];
      ok := tb.Allow(now, n);
      forall k | k in buckets && k != key ensures buckets[k].Valid() && buckets[k].Model() == old(buckets[k].Model()) {
      }
    }

    /** The payload section of `OnData`. */
    method Meter(key: string, tNew: int, tAllow: int, n: real) returns (ok: bool)
      requires Valid() && limit.Ok() && tNew <= tAllow && n >= 0.0
      requires key in Model() ==> Model()[key].last <= tAllow
      modifies this, Repr
      ensures Valid() && fresh(Repr - old(Repr))
      ensures Model() == L.Metered(old(Model()), limit, key, tNew, tAllow, n)
      ensures ok <==> L.Admits(old(Model()), limit, L.Data(key, tNew, tAllow, n))
    {
      hide T.Refill, T.Take, Valid, Model;
      var _ := Obtain(key, tNew);
      ok := Draw(key, tAllow, n);
    }

    method Probe(key: string, now: int) returns (full: bool)
      requires Valid() && key in buckets && Model()[key].last <= now
      modifies Repr
      ensures Valid() && Repr == old(Repr) && buckets == old(buckets)
      ensures Model() == old(Model())[key := T.Refill(old(Model())[key], now)]
      ensures full == T.NearFull(old(Model())[key], now)
    {
      hide T.TokenBucket.Valid, T.Refill, T.NearFull;
      var tb := buckets[key];
      full := tb.IsFull(now);
      forall k | k in buckets && k != key ensures buckets[k].Valid() && buckets[k].Model() == old(buckets[k].Model()) {
      }
    }

    method Drop(key: string)
      requires Valid()
      modifies this
      ensures Valid() && Repr == old(Repr)
      ensures Model() == Without(old(Model()), key)
    {
      hide T.TokenBucket.Valid;
      buckets := buckets - {key};
    }

    /** One turn of the pruning loop. */
    method PruneTurn(key: string, now: int)
      requires Valid() && key in buckets && Model()[key].last <= now
      modifies this, Repr
      ensures Valid() && Repr == old(Repr)
      ensures Model() == L.PrunedBucket(old(Model()), key, now)
    {
      hide T.Refill, T.NearFull, Valid, Model;
      var full := Probe(key, now);
      if full {
        Drop(key);
      }
    }

    /** Deletes every bucket that is at least 99% full at its reading. */
    method Prune(clock: string -> int)
      requires Valid() && forall k :: k in Model() ==> Model()[k].last <= clock(k)
      modifies this, Repr
      ensures Valid() && Repr == old(Repr)
      ensures Model() == L.PrunedBuckets(old(Model()), {}, clock)
    {
      hide T.TokenBucket.Valid, T.NearFull, T.Refill;
      ghost var bs := Model();
      var todo := buckets.Keys;
      assert Model() == L.PrunedBuckets(bs, todo, clock);
      hide Valid, Model, L.PrunedBuckets, L.PrunedBucket;
      while todo != {}
        invariant Valid() && Repr == old(Repr)
        invariant todo <= bs.Keys && Model() == L.PrunedBuckets(bs, todo, clock)
        decreases |todo|
      {
        var key :| key in todo;
        L.PruneBucketTurn(bs, todo, clock, key);
        PruneTurn(key, clock(key));
        todo := todo - {key};
      }
    }
  }

  /** The positive scores and those still to be visited. */
  function PositiveScores(scores: map<string, int>, todo: set<string>): map<string, int> {
    map k | k in scores && (k in todo || scores[k] > 0) :: scores[k]
  }

  class Engine {
    const cfg: Config
    const bans: B.Store
    const cycling: WindowTable
    const payload: BucketTable
    var scores: map<string, int>
    var blockedConns: nat
    var bannedIPs: nat

    /** Scores that are kept are positive and below the threshold. */
    ghost predicate ScoresOk()
      reads this
    {
      forall k :: k in scores ==> 0 < scores[k] < cfg.banThreshold
    }

    ghost predicate Valid()
      reads this, cycling, cycling.Repr, payload, payload.Repr
    {
      && (cfg.cyclingEnabled ==> cycling.Resolution() > 0)
      && ScoresOk() && cycling.Valid() && payload.Valid() && payload.limit == cfg.Limit()
      && {this, bans, cycling, payload} !! cycling.Repr + payload.Repr
      && cycling.Repr !! payload.Repr
    }

    /** An enabled cycling window must leave each of its buckets a nanosecond. */
    constructor (cfg: Config)
      ensures Valid() <==> (cfg.cyclingEnabled ==> cfg.Resolution() > 0)
      ensures this.cfg == cfg && cycling.window == cfg.cyclingWindow && blockedConns == bannedIPs == 0 && scores == map[]
      ensures cycling.Valid() && payload.Valid()
      ensures bans.bans == map[] && cycling.Model() == map[] && payload.Model() == map[]
      ensures fresh(bans) && fresh(cycling) && fresh(payload)
    {
      this.cfg := cfg;
      bans := new B.Store();
      cycling := new WindowTable(cfg.cyclingWindow);
      payload := new BucketTable(cfg.Limit());
      scores := map[];
      blockedConns, bannedIPs := 0, 0;
    }

    ghost function Record(): Ledger
      reads this, bans
    {
      Ledger(scores, bans.bans, bannedIPs)
    }

    method AddScore(key: string, points: int, now: int)
      requires ScoresOk()
      modifies `scores, `bannedIPs, bans
      ensures ScoresOk()
      ensures Record() == Charged(cfg, old(Record()), key, points, now)
    {
      if points <= 0 || !cfg.scoringEnabled {
        return;
      }
      ghost var s := P.INIT.(score := Earned(scores, key, 0));
      var current := addPoints(key, points, s);
      if current >= cfg.banThreshold {
        ban(key, now);
        clear(key, P.INIT.(banned := 1));
        assert scores == Without(old(scores), key);
      }
    }

    /** One address's score in the machine of overlapping charges. */
    ghost predicate Scores(s: P.State, key: string)
      reads this
    {
      s.score == Earned(scores, key, 0)
    }

    /** The first critical section of a charge: the addition. */
    method addPoints(key: string, points: int, ghost s: P.State) returns (current: int)
      modifies `scores
      ensures scores == old(scores)[key := current] && current == Earned(old(scores), key, points)
      ensures old(Scores(s, key)) ==>
                var s' := P.Apply(s, P.Add(points), cfg.banThreshold);
                Scores(s', key) && (current >= cfg.banThreshold <==> s'.crossed == s.crossed + 1)
    {
      current := Earned(scores, key, points);
      scores := scores[key := current];
    }

    /** The second one: the ban. */
    method ban(key: string, now: int)
      modifies `bannedIPs, bans
      ensures bannedIPs == old(bannedIPs) + 1
      ensures bans.bans == old(bans.bans)[key := B.Entry(now + cfg.banDuration, "behavioral threshold exceeded")]
    {
      bans.Ban(Some(key), now + cfg.banDuration, "behavioral threshold exceeded");
      bannedIPs := bannedIPs + 1;
    }

    /** The third one: the deletion, whatever the score has become. */
    method clear(key: string, ghost s: P.State)
      modifies `scores
      ensures scores == Without(old(scores), key)
      ensures s.banned > 0 ==> Scores(P.Apply(s, P.Delete, cfg.banThreshold), key)
    {
      scores := scores - {key};
    }

    /** A ban by order: without a duration it is permanent. */
    method BanIP(ip: Option<string>, duration: int, reason: string, now: int)
      modifies `bannedIPs, bans
      ensures var expires := if duration > 0 then now + duration else 0;
              Record() == if ip.Some? then BanStep(cfg, old(Record()), Order(ip.value, expires, reason))
                          else old(Record()).(bannedIPs := old(bannedIPs) + 1)
      ensures ip.Some? && duration <= 0 ==> Forever(Record(), ip.value)
    {
      var expires := if duration > 0 then now + duration else 0;
      bans.Ban(ip, expires, reason);
      bannedIPs := bannedIPs + 1;
    }

    method UnbanIP(ip: Option<string>)
      modifies bans
      ensures Record() == if ip.Some? then BanStep(cfg, old(Record()), Lift(ip.value)) else old(Record())
      ensures ip.Some? ==> ip.value !in bans.bans
    {
      bans.Unban(ip);
    }

    /** Counts a refusal and charges the rule's score. */
    method Refuse(key: string, event: string, now: int)
      requires ScoresOk()
      modifies this, bans
      ensures ScoresOk() && blockedConns == old(blockedConns) + 1
      ensures Record() == Charged(cfg, old(Record()), key, RuleScore(cfg.scoreRules, event), now)
    {
      AddScore(key, RuleScore(cfg.scoreRules, event), now);
      blockedConns := blockedConns + 1;
    }

    /** The cycling section of `OnAccept` and its verdict. */
    method CountConnection(key: string, r: Readings) returns (ok: bool)
      requires Valid() && r.Ordered() && cfg.cyclingEnabled
      requires key in cycling.windows ==> cycling.windows[key].lastTick <= r.first
      modifies this, bans, cycling, cycling.Repr
      ensures Valid() && fresh(cycling.Repr - old(cycling.Repr))
      ensures blockedConns == old(blockedConns) + if ok then 0 else 1
      ensures var w := L.Cycled(old(cycling.Model()), cycling.Resolution(), key, r.create, r.first, r.second);
              && (ok <==> S.Sum(w.ages) <= cfg.maxConnsInWindow)
              && cycling.Model() == old(cycling.Model())[key := w]
      ensures Record() == if ok then old(Record())
                          else Charged(cfg, old(Record()), key, RuleScore(cfg.scoreRules, "connection_cycling"), r.score)
    {
      hide S.Advance, S.AddAt, S.Sum, L.Cycled, WindowTable.Model, RuleScore, Charged, BucketTable.Valid, T.TokenBucket.Valid;
      var count := cycling.Cycle(key, r.create, r.first, r.second);
      ok := count <= cfg.maxConnsInWindow;
      if !ok {
        Refuse(key, "connection_cycling", r.score);
      }
    }

    /** What a call of `OnAccept` past the ban check finds in the ledger. */
    ghost function Checked(key: string, now: int): Ledger
      reads this, bans
    {
      Record().(bans := B.Swept(bans.bans, key, now))
    }

    /** The address has a permanent ban, or one that has not ended. */
    ghost predicate Banned(key: string, now: int)
      reads this, bans
    {
      key in bans.bans && (bans.bans[key].expiresAt == 0 || now <= bans.bans[key].expiresAt)
    }

    /** Accept-time gate.  Every refusal is counted; a connection is accepted
        exactly when its address is not banned at `ban1` and the window counts at
        most the configured maximum. */
    method OnAccept(srcIP: Option<string>, r: Readings) returns (ok: bool)
      requires Valid() && r.Ordered()
      requires srcIP.Some? && srcIP.value in cycling.windows ==> cycling.windows[srcIP.value].lastTick <= r.first
      modifies this, bans, cycling, cycling.Repr
      ensures Valid() && fresh(cycling.Repr - old(cycling.Repr))
      ensures blockedConns == old(blockedConns) + if ok then 0 else 1
      ensures !cfg.enabled || srcIP.None? ==> ok && cycling.Model() == old(cycling.Model()) && Record() == old(Record())
      ensures cfg.enabled && srcIP.Some? && srcIP.value in old(bans.bans) ==>
                old(bans.bans)[srcIP.value].expiresAt == 0 ==> !ok && bans.bans == old(bans.bans)
      ensures cfg.enabled && srcIP.Some? ==>
                if ok || old(Banned(srcIP.value, r.ban1)) then Record() == old(Checked(srcIP.value, r.ban1))
                else Record() == Charged(cfg, old(Checked(srcIP.value, r.ban1)), srcIP.value,
                                         RuleScore(cfg.scoreRules, "connection_cycling"), r.score)
      ensures cfg.enabled && srcIP.Some? ==>
                if old(Banned(srcIP.value, r.ban1)) || !cfg.cyclingEnabled then
                  ok == !old(Banned(srcIP.value, r.ban1)) && cycling.Model() == old(cycling.Model())
                else
                  var w := L.Cycled(old(cycling.Model()), cycling.Resolution(), srcIP.value, r.create, r.first, r.second);
                  && (ok <==> S.Sum(w.ages) <= cfg.maxConnsInWindow)
                  && cycling.Model() == old(cycling.Model())[srcIP.value := w]
    {
      hide S.Sum, L.Cycled, WindowTable.Valid, WindowTable.Model, RuleScore, Charged, BucketTable.Valid;
      if !cfg.enabled || srcIP.None? {
        return true;
      }
      var banned := bans.IsBanned(srcIP, r.ban1, r.ban2);
      if banned {
        blockedConns := blockedConns + 1;
        return false;
      }
      ok := true;
      if cfg.cyclingEnabled {
        ok := CountConnection(srcIP.value, r);
      }
    }

    /** Payload gate.  `validPayload` is the inspector's verdict, asked for only
        on the first payload; `size` is the payload length. */
    method OnData(srcIP: Option<string>, size: nat, inspected: bool, validPayload: bool, r: Readings)
      returns (ok: bool, nowInspected: bool)
      requires Valid() && r.Ordered()
      requires srcIP.Some? && srcIP.value in payload.Model() ==> payload.Model()[srcIP.value].last <= r.first
      modifies this, bans, payload, payload.Repr
      ensures Valid() && fresh(payload.Repr - old(payload.Repr))
      ensures blockedConns == old(blockedConns) + if ok then 0 else 1
      ensures !cfg.enabled || srcIP.None? ==>
                ok && nowInspected == inspected && payload.Model() == old(payload.Model())
      ensures ok ==> Record() == old(Record())
      ensures !ok && srcIP.Some? ==>
                var event := if inspected || validPayload then "payload_rate_exceeded" else "invalid_protocol";
                Record() == Charged(cfg, old(Record()), srcIP.value, RuleScore(cfg.scoreRules, event), r.score)
      ensures cfg.enabled && srcIP.Some? ==>
                var clean := inspected || validPayload;
                var metered := clean && cfg.rateEnabled && cfg.maxBytesPerSecPerIP > 0;
                var bs := old(payload.Model());
                && nowInspected
                && (ok <==> clean && (metered ==> L.Admits(bs, cfg.Limit(), L.Data(srcIP.value, r.create, r.first, size as real))))
                && payload.Model() == if metered then L.Metered(bs, cfg.Limit(), srcIP.value, r.create, r.first, size as real) else bs
    {
      hide T.Refill, L.Admits, L.Metered, Config.Limit, RuleScore, Charged, WindowTable.Valid, BucketTable.Model, T.TokenBucket.Valid;
      nowInspected := inspected;
      if !cfg.enabled || srcIP.None? {
        return true, nowInspected;
      }
      if !inspected {
        nowInspected := true;
        if !validPayload {
          Refuse(srcIP.value, "invalid_protocol", r.score);
          return false, nowInspected;
        }
      }
      if cfg.rateEnabled && cfg.maxBytesPerSecPerIP > 0 {
        cfg.LimitIsOk();
        var allowed := payload.Meter(srcIP.value, r.create, r.first, size as real);
        if !allowed {
          Refuse(srcIP.value, "payload_rate_exceeded", r.score);
          return false, nowInspected;
        }
      }
      return true, nowInspected;
    }

    /** Deletes scores at or below zero. */
    method PruneScores()
      modifies `scores
      ensures scores == PositiveScores(old(scores), {})
      ensures scores == map k | k in old(scores) && old(scores)[k] > 0 :: old(scores)[k]
    {
      var todo := scores.Keys;
      while todo != {}
        invariant todo <= scores.Keys && scores == PositiveScores(old(scores), todo)
        decreases |todo|
      {
        var key :| key in todo;
        if scores[key] <= 0 {
          scores := scores - {key};
        }
        todo := todo - {key};
      }
    }

    /** The background pass over the three maps.  It keeps every score, because a
        score that is kept is positive. */
    method PruneInactiveMaps(clock: string -> int)
      requires Valid()
      requires forall k :: k in cycling.Model() ==> cycling.Model()[k].lastTick <= clock(k)
      requires forall k :: k in payload.Model() ==> payload.Model()[k].last <= clock(k)
      modifies this, cycling, cycling.Repr, payload, payload.Repr
      ensures Valid() && Record() == old(Record()) && blockedConns == old(blockedConns)
      ensures cycling.Model() == L.PrunedWindows(old(cycling.Model()), {}, clock)
      ensures payload.Model() == L.PrunedBuckets(old(payload.Model()), {}, clock)
    {
      hide L.PrunedWindows, L.PrunedBuckets, WindowTable.Valid, BucketTable.Valid, WindowTable.Model, BucketTable.Model;
      assert PositiveScores(scores, {}) == scores;
      hide PositiveScores;
      cycling.Prune(clock);
      payload.Prune(clock);
      PruneScores();
    }
  }
}
