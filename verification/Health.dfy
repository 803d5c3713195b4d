/** The health checker of internal/health/checker.go: eject/readmit hysteresis per
    target, and the balancer flags it drives through its callback. */
module Health {
  import opened Common
  import L = Balancing

  datatype Config = Config(interval: int, timeout: int, failures: int, passes: int)

  datatype Error = BadInterval | BadTimeout | NoTargets

  /** Both counters and the last announced state of one target. */
  datatype Track = Track(fail: nat, pass: nat, healthy: bool)

  const UNPROBED := Track(0, 0, true)

  function Probed(cfg: Config, t: Track, ok: bool): Track {
    if ok then Track(0, t.pass + 1, t.healthy || t.pass + 1 >= cfg.passes)
    else Track(t.fail + 1, 0, t.healthy && t.fail + 1 < cfg.failures)
  }

  function TrackAfter(cfg: Config, h: seq<bool>): Track {
    if h == [] then UNPROBED else Probed(cfg, TrackAfter(cfg, h[..|h| - 1]), h[|h| - 1])
  }

  // ---------------------------------------------------------------- closed form

  /** Thresholds below one act like one. */
  function AtLeastOne(n: int): (r: nat)
    ensures r >= 1 && r >= n && (r == 1 || r == n)
  {
    if n < 1 then 1 else n
  }

  /** The `n` probes that end at position `k` all came out as `ok`. */
  predicate Streak(h: seq<bool>, k: nat, n: nat, ok: bool) {
    n <= k <= |h| && forall i :: k - n <= i < k ==> h[i] == ok
  }

  /** The most recent decisive run is a failure run: `F` straight failures, and no
      `P` straight passes that end later. */
  ghost predicate Failed(cfg: Config, h: seq<bool>) {
    exists k: nat :: Streak(h, k, AtLeastOne(cfg.failures), false)
      && forall j: nat :: k < j <= |h| ==> !Streak(h, j, AtLeastOne(cfg.passes), true)
  }

  lemma StreakInit(h: seq<bool>, k: nat, n: nat, ok: bool)
    requires k < |h|
    ensures Streak(h, k, n, ok) <==> Streak(h[..|h| - 1], k, n, ok)
  {
    var init := h[..|h| - 1];
    assert forall i :: 0 <= i < |init| ==> init[i] == h[i];
  }

  /** The counters are the lengths of the streaks that reach the present. */
  lemma {:induction false} CountersAreStreaks(cfg: Config, h: seq<bool>, n: nat)
    requires n >= 1
    ensures TrackAfter(cfg, h).fail >= n <==> Streak(h, |h|, n, false)
    ensures TrackAfter(cfg, h).pass >= n <==> Streak(h, |h|, n, true)
    decreases |h|
  {
    if h != [] {
      var init := h[..|h| - 1];
      assert Streak(h, |h|, 1, false) <==> !h[|h| - 1];
      assert Streak(h, |h|, 1, true) <==> h[|h| - 1];
      if n > 1 { CountersAreStreaks(cfg, init, n - 1); }
      StreakGrows(h, n, false);
      StreakGrows(h, n, true);
    }
  }

  lemma StreakGrows(h: seq<bool>, n: nat, ok: bool)
    requires h != [] && n >= 1
    ensures Streak(h, |h|, n, ok) <==> h[|h| - 1] == ok && Streak(h[..|h| - 1], |h| - 1, n - 1, ok)
  {
    var init := h[..|h| - 1];
    assert forall i :: 0 <= i < |init| ==> init[i] == h[i];
    if h[|h| - 1] == ok && Streak(init, |init|, n - 1, ok) {
      assert forall i :: |h| - n <= i < |init| ==> init[i] == ok;
    }
    if Streak(h, |h|, n, ok) {
      assert forall i :: |init| - (n - 1) <= i < |init| ==> h[i] == ok;
    }
  }

  lemma FailedStep(cfg: Config, h: seq<bool>)
    requires h != []
    ensures Failed(cfg, h) <==>
              Streak(h, |h|, AtLeastOne(cfg.failures), false)
              || (Failed(cfg, h[..|h| - 1]) && !Streak(h, |h|, AtLeastOne(cfg.passes), true))
  {
    var init := h[..|h| - 1];
    var f, p := AtLeastOne(cfg.failures), AtLeastOne(cfg.passes);
    forall k: nat, n: nat, ok | k <= |init| ensures Streak(h, k, n, ok) <==> Streak(init, k, n, ok) {
      StreakInit(h, k, n, ok);
    }
    if Failed(cfg, h) {
      var k: nat :| Streak(h, k, f, false) && forall j: nat :: k < j <= |h| ==> !Streak(h, j, p, true);
      if k < |h| { assert Streak(init, k, f, false); }
    }
    if Failed(cfg, init) && !Streak(h, |h|, p, true) {
      var k: nat :| Streak(init, k, f, false) && forall j: nat :: k < j <= |init| ==> !Streak(init, j, p, true);
      assert Streak(h, k, f, false);
    }
  }

  /** After any probe history the target is announced unhealthy exactly when the
      most recent decisive run is a failure run. */
  lemma {:induction false} UnhealthyIffFailed(cfg: Config, h: seq<bool>)
    ensures !TrackAfter(cfg, h).healthy <==> Failed(cfg, h)
    decreases |h|
  {
    if h == [] {
      assert forall k: nat :: !Streak(h, k, AtLeastOne(cfg.failures), false);
    } else {
      UnhealthyIffFailed(cfg, h[..|h| - 1]);
      FailedStep(cfg, h);
      CountersAreStreaks(cfg, h, AtLeastOne(cfg.failures));
      CountersAreStreaks(cfg, h, AtLeastOne(cfg.passes));
      assert Streak(h, |h|, AtLeastOne(cfg.failures), false) ==> !h[|h| - 1];
      assert Streak(h, |h|, AtLeastOne(cfg.passes), true) ==> h[|h| - 1];
    }
  }

  // ---------------------------------------------------------------- callbacks

  /** The states passed to the callback, oldest first. */
  function Announced(cfg: Config, h: seq<bool>): seq<bool> {
    if h == [] then []
    else
      var before, after := TrackAfter(cfg, h[..|h| - 1]).healthy, TrackAfter(cfg, h).healthy;
      Announced(cfg, h[..|h| - 1]) + if after != before then [after] else []
  }

  /** Callbacks strictly alternate, starting with an eject, and the last one (or
      none) is the announced state. */
  lemma {:induction false} CallbacksAlternate(cfg: Config, h: seq<bool>)
    ensures var a := Announced(cfg, h);
            && (forall i :: 0 <= i < |a| ==> (a[i] <==> i % 2 == 1))
            && (TrackAfter(cfg, h).healthy <==> |a| % 2 == 0)
    decreases |h|
  {
    if h != [] {
      CallbacksAlternate(cfg, h[..|h| - 1]);
      var before, after := TrackAfter(cfg, h[..|h| - 1]).healthy, TrackAfter(cfg, h).healthy;
      var a := Announced(cfg, h[..|h| - 1]);
      assert Announced(cfg, h) == if after != before then a + [after] else a;
    }
  }

  // ---------------------------------------------------------------- the balancer's flags

  datatype Event = Event(target: nat, ok: bool)

  datatype System = System(tracks: seq<Track>, ups: seq<L.Upstream>)

  ghost predicate Covers(ups: seq<L.Upstream>, events: seq<Event>) {
    forall e :: 0 <= e < |events| ==> events[e].target < |ups|
  }

  function Step(cfg: Config, s: System, e: Event): (s': System)
    requires |s.tracks| == |s.ups| && e.target < |s.ups|
    ensures |s'.tracks| == |s'.ups| == |s.ups|
  {
    var before, up := s.tracks[e.target], s.ups[e.target];
    var after := Probed(cfg, before, e.ok);
    System(s.tracks[e.target := after],
           if after.healthy != before.healthy then L.Marked(s.ups, up.ip, up.port, after.healthy) else s.ups)
  }

  /** Checker and balancer are built from one target list, all healthy. */
  ghost function SystemAfter(cfg: Config, ups: seq<L.Upstream>, events: seq<Event>): (s: System)
    requires Covers(ups, events)
    ensures |s.tracks| == |s.ups| == |ups|
  {
    if events == [] then System(seq(|ups|, _ => UNPROBED), ups)
    else Step(cfg, SystemAfter(cfg, ups, events[..|events| - 1]), events[|events| - 1])
  }

  function History(events: seq<Event>, i: nat): seq<bool> {
    if events == [] then []
    else
      var e := events[|events| - 1];
      History(events[..|events| - 1], i) + if e.target == i then [e.ok] else []
  }

  lemma {:induction false} TracksAreHistories(cfg: Config, ups: seq<L.Upstream>, events: seq<Event>, i: nat)
    requires Covers(ups, events) && i < |ups|
    ensures SystemAfter(cfg, ups, events).tracks[i] == TrackAfter(cfg, History(events, i))
    decreases |events|
  {
    if events != [] {
      var init, e := events[..|events| - 1], events[|events| - 1];
      TracksAreHistories(cfg, ups, init, i);
      if e.target == i {
        assert (History(init, i) + [e.ok])[..|History(init, i)|] == History(init, i);
      } else {
        assert History(events, i) == History(init, i);
      }
    }
  }

  predicate SameAddress(u: L.Upstream, v: L.Upstream) {
    u.ip == v.ip && u.port == v.port
  }

  ghost predicate Distinct(ups: seq<L.Upstream>) {
    forall i, j :: 0 <= i < j < |ups| ==> !SameAddress(ups[i], ups[j])
  }

  /** Every flag in the balancer is the state the checker last announced. */
  predicate Agree(s: System)
    requires |s.tracks| == |s.ups|
  {
    forall i :: 0 <= i < |s.ups| ==> s.ups[i].healthy == s.tracks[i].healthy
  }

  /** `SetHealth` writes the first target with that address and nothing else. */
  lemma {:induction false} MarksFirst(ups: seq<L.Upstream>, ip: string, port: int, healthy: bool, from: nat, i: nat)
    requires from <= i < |ups|
    ensures |L.MarkedFrom(ups, ip, port, healthy, from)| == |ups|
    ensures var first := (ups[i].ip == ip && ups[i].port == port
                          && forall j :: from <= j < i ==> !(ups[j].ip == ip && ups[j].port == port));
            L.MarkedFrom(ups, ip, port, healthy, from)[i] == if first then ups[i].(healthy := healthy) else ups[i]
    decreases |ups| - from
  {
    if from < i {
      if !(ups[from].ip == ip && ups[from].port == port) { MarksFirst(ups, ip, port, healthy, from + 1, i); }
    } else if !(ups[from].ip == ip && ups[from].port == port) {
      SparesEarlier(ups, ip, port, healthy, from + 1);
    }
  }

  lemma {:induction false} SparesEarlier(ups: seq<L.Upstream>, ip: string, port: int, healthy: bool, from: nat)
    requires from <= |ups|
    ensures L.MarkedFrom(ups, ip, port, healthy, from)[..from] == ups[..from]
    decreases |ups| - from
  {
    if from < |ups| && !(ups[from].ip == ip && ups[from].port == port) {
      SparesEarlier(ups, ip, port, healthy, from + 1);
      var r := L.MarkedFrom(ups, ip, port, healthy, from);
      assert r[..from] == r[..from + 1][..from] && ups[..from] == ups[..from + 1][..from];
    }
  }

  lemma {:induction false} AddressesStay(cfg: Config, ups: seq<L.Upstream>, events: seq<Event>, i: nat)
    requires Covers(ups, events) && i < |ups|
    ensures SameAddress(SystemAfter(cfg, ups, events).ups[i], ups[i])
    decreases |events|
  {
    if events != [] {
      var init, e := events[..|events| - 1], events[|events| - 1];
      AddressesStay(cfg, ups, init, i);
      var s := SystemAfter(cfg, ups, init);
      MarksFirst(s.ups, s.ups[e.target].ip, s.ups[e.target].port, Probed(cfg, s.tracks[e.target], e.ok).healthy, 0, i);
    }
  }

  lemma {:induction false} DistinctAgree(cfg: Config, ups: seq<L.Upstream>, events: seq<Event>)
    requires Covers(ups, events) && Distinct(ups) && forall i :: 0 <= i < |ups| ==> ups[i].healthy
    ensures Agree(SystemAfter(cfg, ups, events))
    decreases |events|
  {
    if events != [] {
      var init, e := events[..|events| - 1], events[|events| - 1];
      DistinctAgree(cfg, ups, init);
      var s, s' := SystemAfter(cfg, ups, init), SystemAfter(cfg, ups, events);
      var up, after := s.ups[e.target], Probed(cfg, s.tracks[e.target], e.ok).healthy;
      forall i | 0 <= i < |ups| ensures s'.ups[i].healthy == s'.tracks[i].healthy {
        forall j | 0 <= j <= i || j == e.target ensures SameAddress(s.ups[j], ups[j]) {
          AddressesStay(cfg, ups, init, j);
        }
        MarksFirst(s.ups, up.ip, up.port, after, 0, i);
      }
    }
  }

  /** Probes that all fail, long enough to be decisive, of one target. */
  function Outage(cfg: Config, i: nat): seq<Event> {
    seq(AtLeastOne(cfg.failures), _ => Event(i, false))
  }

  lemma {:induction false} OnlyProbed(events: seq<Event>, i: nat)
    requires forall e :: 0 <= e < |events| ==> events[e] == Event(i, false)
    ensures |History(events, i)| == |events|
    ensures forall k :: 0 <= k < |events| ==> !History(events, i)[k]
    decreases |events|
  {
    if events != [] { OnlyProbed(events[..|events| - 1], i); }
  }

  /** An outage of a target whose address stands earlier in the list never reaches
      the target's own flag. */
  lemma {:induction false} ShadowedFlagStays(cfg: Config, ups: seq<L.Upstream>, events: seq<Event>, i: nat, j: nat)
    requires i < j < |ups| && SameAddress(ups[i], ups[j])
    requires forall e :: 0 <= e < |events| ==> events[e] == Event(j, false)
    ensures Covers(ups, events)
    ensures SystemAfter(cfg, ups, events).ups[j].healthy == ups[j].healthy
    decreases |events|
  {
    if events != [] {
      var init, e := events[..|events| - 1], events[|events| - 1];
      ShadowedFlagStays(cfg, ups, init, i, j);
      AddressesStay(cfg, ups, init, i);
      AddressesStay(cfg, ups, init, j);
      var s := SystemAfter(cfg, ups, init);
      MarksFirst(s.ups, s.ups[j].ip, s.ups[j].port, Probed(cfg, s.tracks[j], false).healthy, 0, j);
    }
  }

  /** The flags agree with the checker after every run of probes exactly when no
      two targets share an address. */
  lemma AgreeIffDistinct(cfg: Config, ups: seq<L.Upstream>)
    requires forall i :: 0 <= i < |ups| ==> ups[i].healthy
    ensures (forall events :: Covers(ups, events) ==> Agree(SystemAfter(cfg, ups, events))) <==> Distinct(ups)
  {
    if Distinct(ups) {
      forall events | Covers(ups, events) ensures Agree(SystemAfter(cfg, ups, events)) {
        DistinctAgree(cfg, ups, events);
      }
    } else {
      var i, j :| 0 <= i < j < |ups| && SameAddress(ups[i], ups[j]);
      var events := Outage(cfg, j);
      ShadowedFlagStays(cfg, ups, events, i, j);
      TracksAreHistories(cfg, ups, events, j);
      OnlyProbed(events, j);
      var h := History(events, j);
      assert Streak(h, |h|, AtLeastOne(cfg.failures), false);
      UnhealthyIffFailed(cfg, h);
      assert !Agree(SystemAfter(cfg, ups, events));
    }
  }

  /** With distinct targets a balancer flag is down exactly when the most recent
      decisive run of that target's own probes is a failure run. */
  lemma FlagClosedForm(cfg: Config, ups: seq<L.Upstream>, events: seq<Event>, i: nat)
    requires Covers(ups, events) && Distinct(ups) && i < |ups|
    requires forall k :: 0 <= k < |ups| ==> ups[k].healthy
    ensures !SystemAfter(cfg, ups, events).ups[i].healthy <==> Failed(cfg, History(events, i))
  {
    DistinctAgree(cfg, ups, events);
    TracksAreHistories(cfg, ups, events, i);
    UnhealthyIffFailed(cfg, History(events, i));
  }

  // ---------------------------------------------------------------- the object

  datatype Target = Target(ip: string, port: int)

  class Checker {
    const cfg: Config
    const targets: seq<Target>
    const fail: array<nat>
    const pass: array<nat>
    const healthySn: array<bool>

    ghost predicate Valid()
      reads this
    {
      && |targets| == fail.Length == pass.Length == healthySn.Length
      && fail != pass
    }

    ghost function Tracks(): (t: seq<Track>)
      requires Valid()
      reads this, fail, pass, healthySn
      ensures |t| == |targets|
    {
      seq(|targets|, i requires 0 <= i < |targets| reads this, fail, pass, healthySn requires Valid() =>
            Track(fail[i], pass[i], healthySn[i]))
    }

    constructor (cfg: Config, targets: seq<Target>)
      ensures Valid() && fresh(fail) && fresh(pass) && fresh(healthySn)
      ensures this.targets == targets && this.cfg == cfg
      ensures Tracks() == seq(|targets|, _ => UNPROBED)
    {
      this.cfg, this.targets := cfg, targets;
      fail := new nat[|targets|](_ => 0);
      pass := new nat[|targets|](_ => 0);
      healthySn := new bool[|targets|](_ => true);
    }

    /** The interval is checked first, then the timeout, then the targets. */
    static method New(cfg: Config, targets: seq<Target>) returns (c: Checker?, err: Option<Error>)
      ensures err.None? <==> cfg.interval > 0 && 0 < cfg.timeout <= cfg.interval && targets != []
      ensures err == Some(BadInterval) <==> cfg.interval <= 0
      ensures err == Some(BadTimeout) <==> cfg.interval > 0 && !(0 < cfg.timeout <= cfg.interval)
      ensures err.None? <==> c != null
      ensures c != null ==> fresh(c) && c.Valid() && c.cfg == cfg && c.targets == targets
      ensures c != null ==> c.Tracks() == seq(|targets|, _ => UNPROBED)
    {
      c, err := null, None;
      if cfg.interval <= 0 { return null, Some(BadInterval); }
      if cfg.timeout <= 0 || cfg.timeout > cfg.interval { return null, Some(BadTimeout); }
      if |targets| == 0 { return null, Some(NoTargets); }
      c := new Checker(cfg, targets);
    }

    /** Records the outcome of one dial and says what to pass to the callback. */
    method ProbeOnce(idx: nat, ok: bool) returns (change: Option<bool>)
      requires Valid() && idx < |targets|
      modifies fail, pass, healthySn
      ensures Valid()
      ensures Tracks() == old(Tracks())[idx := Probed(cfg, old(Tracks()[idx]), ok)]
      ensures var before, after := old(Tracks()[idx]).healthy, Tracks()[idx].healthy;
              change == if after != before then Some(after) else None
    {
      var prev := healthySn[idx];
      if ok {
        pass[idx] := pass[idx] + 1;
        fail[idx] := 0;
        if !prev {
          if pass[idx] >= cfg.passes { healthySn[idx] := true; }
        }
      } else {
        fail[idx] := fail[idx] + 1;
        pass[idx] := 0;
        if prev {
          if fail[idx] >= cfg.failures { healthySn[idx] := false; }
        }
      }
      var after := healthySn[idx];
      change := if after != prev then Some(after) else None;
    }

    /** The first target with that address answers; an unknown one counts as healthy. */
    method Healthy(ip: string, port: int) returns (r: bool)
      requires Valid()
      ensures Target(ip, port) !in targets ==> r
      ensures forall i :: 0 <= i < |targets| && targets[i] == Target(ip, port) && Target(ip, port) !in targets[..i] ==>
                r == Tracks()[i].healthy
    {
      for i := 0 to |targets|
        invariant Target(ip, port) !in targets[..i]
      {
        if targets[i] == Target(ip, port) { return healthySn[i]; }
      }
      r := true;
    }
  }
}
