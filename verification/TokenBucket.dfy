/** The lazily refilled token bucket of internal/l7/ratelimit.go.

    Token counts are real numbers; clock readings are explicit arguments in
    nanoseconds.  The bucket is proved to be exactly the rate/burst envelope
    over the history of its calls. */
module TokenBuckets {

  datatype Bucket = Bucket(rate: real, burst: real, tokens: real, last: int) {
    predicate Ok() { rate >= 0.0 && tokens <= burst }
  }

  function Seconds(nanos: int): real {
    nanos as real / 1000000000.0
  }

  /** Tokens that flow in during `nanos` nanoseconds. */
  function Gain(rate: real, nanos: int): real {
    Seconds(nanos) * rate
  }

  function Min(x: real, y: real): real {
    if x < y then x else y
  }

  /** A new bucket starts full; a non-positive burst falls back to the rate. */
  function Full(rate: real, burst: real, now: int): Bucket {
    var b := if burst <= 0.0 then rate else burst;
    Bucket(rate, b, b, now)
  }

  function Refill(b: Bucket, now: int): Bucket {
    b.(tokens := Min(b.burst, b.tokens + Gain(b.rate, now - b.last)), last := now)
  }

  function Take(b: Bucket, now: int, n: real): Bucket {
    var r := Refill(b, now);
    if r.tokens >= n then r.(tokens := r.tokens - n) else r
  }

  /** At least 99% of the capacity is available. */
  predicate NearFull(b: Bucket, now: int) {
    Refill(b, now).tokens >= b.burst * 0.99
  }

  lemma GainIs(rate: real, nanos: int)
    ensures Gain(rate, nanos) == rate * (nanos as real / 1000000000.0)
  {
  }

  lemma GainMonotone(rate: real, d: int)
    requires rate >= 0.0 && d >= 0
    ensures Gain(rate, d) >= 0.0
  {
    assert Seconds(d) >= 0.0;
  }

  lemma GainAdditive(rate: real, d: int, e: int)
    ensures Gain(rate, d + e) == Gain(rate, d) + Gain(rate, e)
  {
    assert Seconds(d + e) == Seconds(d) + Seconds(e);
  }

  lemma GainNothing(rate: real)
    ensures Gain(rate, 0) == 0.0
  {
  }

  /** Refilling in two steps is refilling once. */
  lemma RefillTwice(b: Bucket, mid: int, now: int)
    requires b.Ok() && b.last <= mid <= now
    ensures Refill(Refill(b, mid), now) == Refill(b, now)
  {
    hide Gain;
    GainAdditive(b.rate, mid - b.last, now - mid);
    assert (mid - b.last) + (now - mid) == now - b.last;
    GainMonotone(b.rate, now - mid);
  }

  // ---------------------------------------------------------------- runs

  datatype Op = Allow(at: int, n: real) | Probe(at: int)

  ghost predicate Run(ops: seq<Op>, start: int) {
    && (forall i :: 0 <= i < |ops| ==> start <= ops[i].at && (ops[i].Allow? ==> ops[i].n >= 0.0))
    && (forall i, j :: 0 <= i < j < |ops| ==> ops[i].at <= ops[j].at)
  }

  function Apply(b: Bucket, op: Op): Bucket {
    match op
    case Allow(at, n) => Take(b, at, n)
    case Probe(at) => Refill(b, at)
  }

  function After(b: Bucket, ops: seq<Op>): Bucket {
    if ops == [] then b else Apply(After(b, ops[..|ops| - 1]), ops[|ops| - 1])
  }

  predicate Accepted(b: Bucket, op: Op) {
    op.Allow? && Refill(b, op.at).tokens >= op.n
  }

  /** Amount admitted at or after the instant `from`. */
  function Admitted(b: Bucket, ops: seq<Op>, from: int): real {
    if ops == [] then 0.0
    else
      var init, op := ops[..|ops| - 1], ops[|ops| - 1];
      Admitted(b, init, from) + if op.at >= from && Accepted(After(b, init), op) then op.n else 0.0
  }

  /** The admitted calls of a run, in order. */
  function Effective(b: Bucket, ops: seq<Op>): seq<Op> {
    if ops == [] then []
    else
      var init, op := ops[..|ops| - 1], ops[|ops| - 1];
      Effective(b, init) + if Accepted(After(b, init), op) then [op] else []
  }

  lemma {:induction false} RunKeepsOk(b: Bucket, ops: seq<Op>)
    requires b.Ok() && Run(ops, b.last)
    ensures After(b, ops).Ok() && After(b, ops).rate == b.rate && After(b, ops).burst == b.burst
    ensures b.last <= After(b, ops).last
    ensures ops != [] ==> After(b, ops).last == ops[|ops| - 1].at
    decreases |ops|
  {
    if ops != [] { RunKeepsOk(b, ops[..|ops| - 1]); }
  }

  lemma {:induction false} NothingAdmittedYet(b: Bucket, ops: seq<Op>, from: int)
    requires forall i :: 0 <= i < |ops| ==> ops[i].at < from
    ensures Admitted(b, ops, from) == 0.0
    decreases |ops|
  {
    if ops != [] { NothingAdmittedYet(b, ops[..|ops| - 1], from); }
  }

  /** What the envelope anchored at instant `s` still grants at `now`. */
  function Grant(b: Bucket, ops: seq<Op>, s: int, now: int): real {
    b.burst + Gain(b.rate, now - s) - Admitted(b, ops, s)
  }

  /** The available tokens never exceed any envelope of the run. */
  lemma {:induction false} TokensBelowEnvelope(b: Bucket, ops: seq<Op>, s: int, now: int)
    requires b.Ok() && b.tokens == b.burst && Run(ops, b.last)
    requires b.last <= s <= now && forall i :: 0 <= i < |ops| ==> ops[i].at <= now
    ensures Refill(After(b, ops), now).tokens <= Grant(b, ops, s, now)
    decreases |ops|
  {
    hide Gain;
    if ops == [] {
      GainMonotone(b.rate, now - s);
    } else {
      var init, op := ops[..|ops| - 1], ops[|ops| - 1];
      RunKeepsOk(b, init);
      RunKeepsOk(b, ops);
      GainMonotone(b.rate, now - op.at);
      if s <= op.at {
        TokensBelowEnvelope(b, init, s, op.at);
        GainAdditive(b.rate, op.at - s, now - op.at);
        assert (op.at - s) + (now - op.at) == now - s;
      } else {
        NothingAdmittedYet(b, ops, s);
        GainMonotone(b.rate, now - s);
      }
    }
  }

  /** Some envelope of the run is met with equality. */
  lemma {:induction false} TokensMeetEnvelope(b: Bucket, ops: seq<Op>, now: int) returns (s: int)
    requires b.Ok() && b.tokens == b.burst && Run(ops, b.last)
    requires b.last <= now && forall i :: 0 <= i < |ops| ==> ops[i].at <= now
    ensures b.last <= s <= now
    ensures Refill(After(b, ops), now).tokens == Grant(b, ops, s, now)
    decreases |ops|
  {
    hide Gain;
    if ops == [] {
      s := now;
      GainMonotone(b.rate, now - b.last);
      GainNothing(b.rate);
    } else {
      var init, op := ops[..|ops| - 1], ops[|ops| - 1];
      RunKeepsOk(b, init);
      RunKeepsOk(b, ops);
      var s' := TokensMeetEnvelope(b, init, op.at);
      GainAdditive(b.rate, op.at - s', now - op.at);
      assert (op.at - s') + (now - op.at) == now - s';
      var t := After(b, ops).tokens;
      if t + Gain(b.rate, now - op.at) > b.burst {
        GainNothing(b.rate);
        s := now;
        NothingAdmittedYet(b, ops, now);
      } else {
        s := s';
      }
    }
  }

  /** `n` tokens fit under every envelope anchored in the run. */
  ghost predicate Fits(b: Bucket, ops: seq<Op>, now: int, n: real) {
    forall s :: b.last <= s <= now ==> Admitted(b, ops, s) + n <= b.burst + Gain(b.rate, now - s)
  }

  /** A call succeeds if and only if, for every earlier instant s of the run, the
      amount admitted since s plus the request is within burst + rate*(now-s). */
  lemma {:induction false} EnvelopeExact(b: Bucket, ops: seq<Op>, now: int, n: real)
    requires b.Ok() && b.tokens == b.burst && Run(ops, b.last)
    requires b.last <= now && forall i :: 0 <= i < |ops| ==> ops[i].at <= now
    ensures Accepted(After(b, ops), Allow(now, n)) <==> Fits(b, ops, now, n)
  {
    hide Gain;
    var have := Refill(After(b, ops), now).tokens;
    forall s | b.last <= s <= now && have >= n
      ensures Admitted(b, ops, s) + n <= b.burst + Gain(b.rate, now - s)
    {
      TokensBelowEnvelope(b, ops, s, now);
    }
    var s := TokensMeetEnvelope(b, ops, now);
    assert Fits(b, ops, now, n) ==> Admitted(b, ops, s) + n <= b.burst + Gain(b.rate, now - s);
  }

  lemma {:induction false} EffectiveIsRun(b: Bucket, ops: seq<Op>, start: int)
    requires Run(ops, start)
    ensures Run(Effective(b, ops), start)
    ensures forall i :: 0 <= i < |Effective(b, ops)| ==> Effective(b, ops)[i] in ops
    decreases |ops|
  {
    if ops != [] {
      var init, op := ops[..|ops| - 1], ops[|ops| - 1];
      EffectiveIsRun(b, init, start);
      var eff := Effective(b, init);
      forall i | 0 <= i < |eff| ensures eff[i] in ops && eff[i].at <= op.at {
        assert eff[i] in init;
      }
    }
  }

  /** Two buckets that refill alike take an operation alike, and a rejected one
      leaves them alike. */
  lemma StepAgrees(b0: Bucket, b1: Bucket, op: Op, now: int)
    requires b0.Ok() && b1.Ok() && b0.last <= op.at && b1.last <= op.at <= now
    requires Refill(b0, op.at) == Refill(b1, op.at)
    ensures Accepted(b0, op) == Accepted(b1, op)
    ensures Accepted(b1, op) ==> Apply(b0, op) == Apply(b1, op)
    ensures !Accepted(b1, op) ==> Refill(b0, now) == Refill(Apply(b1, op), now)
  {
    RefillTwice(b0, op.at, now);
    RefillTwice(b1, op.at, now);
    hide Gain;
  }

  /** Rejected calls and fullness probes never influence a later decision: the
      run and its admitted calls alone leave the same tokens at every later time. */
  lemma {:induction false} OnlyAdmissionsMatter(b: Bucket, ops: seq<Op>, now: int)
    requires b.Ok() && Run(ops, b.last)
    requires b.last <= now && forall i :: 0 <= i < |ops| ==> ops[i].at <= now
    ensures Refill(After(b, Effective(b, ops)), now) == Refill(After(b, ops), now)
    decreases |ops|
  {
    if ops != [] {
      var init, op := ops[..|ops| - 1], ops[|ops| - 1];
      OnlyAdmissionsMatter(b, init, op.at);
      EffectiveLast(b, init, op.at);
      RunKeepsOk(b, init);
      StepAgrees(After(b, Effective(b, init)), After(b, init), op, now);
      hide Refill, Apply;
      var eff := Effective(b, ops);
      if Accepted(After(b, init), op) {
        assert eff[..|eff| - 1] == Effective(b, init);
      } else {
        assert eff == Effective(b, init);
      }
    }
  }

  lemma EffectiveLast(b: Bucket, ops: seq<Op>, now: int)
    requires b.Ok() && Run(ops, b.last) && b.last <= now
    requires forall i :: 0 <= i < |ops| ==> ops[i].at <= now
    ensures After(b, Effective(b, ops)).Ok() && After(b, Effective(b, ops)).last <= now
  {
    var eff := Effective(b, ops);
    EffectiveIsRun(b, ops, b.last);
    RunKeepsOk(b, eff);
    if eff != [] { assert eff[|eff| - 1] in ops; }
  }

  lemma RunAppend(b: Bucket, ops: seq<Op>, op: Op, start: int)
    requires Run(ops, start) && (if ops == [] then start else ops[|ops| - 1].at) <= op.at
    ensures start <= op.at && forall i :: 0 <= i < |ops| ==> ops[i].at <= op.at
    ensures op.Probe? || op.n >= 0.0 ==> Run(ops + [op], start)
    ensures After(b, ops + [op]) == Apply(After(b, ops), op)
  {
    hide Apply;
    assert (ops + [op])[..|ops|] == ops;
  }

  // ---------------------------------------------------------------- the bucket object

  class TokenBucket {
    const rate: real
    const burst: real
    var tokens: real
    var lastRefill: int
    ghost const created: int
    ghost var history: seq<Op>

    ghost predicate Valid()
      reads this
    {
      && rate >= 0.0 && burst >= 0.0
      && Run(history, created)
      && lastRefill == (if history == [] then created else history[|history| - 1].at)
      && Model() == After(Bucket(rate, burst, burst, created), history)
    }

    ghost function Model(): Bucket
      reads this
    {
      Bucket(rate, burst, tokens, lastRefill)
    }

    /** The guarantees below need a rate that is not negative. */
    constructor (rate: real, burst: real, now: int)
      ensures rate >= 0.0 ==> Valid() && history == [] && created == now
      ensures Model() == Full(rate, burst, now)
      ensures this.rate == rate && this.burst == (if burst <= 0.0 then rate else burst)
      ensures tokens == this.burst && lastRefill == now
    {
      var b := if burst <= 0.0 then rate else burst;
      this.rate := rate;
      this.burst := b;
      tokens := b;
      lastRefill := now;
      created := now;
      history := [];
    }

    method Allow(now: int, n: real) returns (ok: bool)
      requires Valid() && lastRefill <= now
      modifies this
      ensures Model() == Take(old(Model()), now, n)
      ensures ok <==> Refill(old(Model()), now).tokens >= n
      ensures n >= 0.0 ==> Valid() && history == old(history) + [Op.Allow(now, n)]
      ensures ok <==> Fits(Bucket(rate, burst, burst, created), old(history), now, n)
    {
      hide Gain, Fits, Refill, Admitted, Run, After;
      RunAppend(Bucket(rate, burst, burst, created), history, Op.Allow(now, n), created);
      EnvelopeExact(Bucket(rate, burst, burst, created), history, now, n);
      refill(now, Op.Allow(now, n));
      ok := tokens >= n;
      if ok {
        tokens := tokens - n;
      }
    }

    method IsFull(now: int) returns (full: bool)
      requires Valid() && lastRefill <= now
      modifies this
      ensures Valid() && history == old(history) + [Probe(now)]
      ensures Model() == Refill(old(Model()), now)
      ensures full == NearFull(old(Model()), now) && (full <==> tokens >= burst * 0.99)
    {
      hide Gain, Run, After;
      RunAppend(Bucket(rate, burst, burst, created), history, Probe(now), created);
      refill(now, Probe(now));
      full := tokens >= burst * 0.99;
    }

    method refill(now: int, ghost op: Op)
      requires Valid() && lastRefill <= now
      modifies this
      ensures Model() == Refill(old(Model()), now) && lastRefill == now
      ensures var filled := old(tokens) + (now - old(lastRefill)) as real / 1000000000.0 * rate;
              tokens == if filled > burst then burst else filled
      ensures history == old(history) + [op]
    {
      var elapsed := now - lastRefill;
      tokens := tokens + Seconds(elapsed) * rate;
      if tokens > burst {
        tokens := burst;
      }
      lastRefill := now;
      history := history + [op];
    }
  }
}
