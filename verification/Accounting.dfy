/** Connection accounting shared by the UDP and TCP proxies of one instance:
    balancer counters, connection tracker, per-proxy counters and the UDP session
    maps, from internal/proxy/udp.go, tcp.go and conn.go.

    A step is one operation of a connection's goroutine on one shared table or
    counter, so the runs below are all interleavings of datagrams, accepts, reader
    exits, handler exits and reaping.  Sockets only contribute the nondeterministic
    outcome of picking and dialling.

    Four steps join operations that the code performs one after the other:
    - a pick's increments of the active and the total count; the total is only
      ever incremented and no step reads it;
    - drawing an id and entering it in the tracker; ids are never drawn twice, so
      no other step can tell the moment between;
    - the decrement of a release and the clamp after it; by `ReleaseNeverClamps`
      there is no clamp;
    - counting a stored session, starting its reader and returning the lock; what
      others do in between commutes with that, and so do the reader's own first
      operations, which touch neither the count nor the lock. */
module Accounting {
  import opened Common

  /** How far a connection has come.  A UDP session passes the `U` phases, a TCP
      handler the `T` phases; both end in `Done`. */
  datatype Phase =
    | ULocked      // holds the session lock, the key was re-checked
    | UPicked      // Pick succeeded
    | URegistered  // in the tracker's map
    | ULive        // counted by the tracker
    | UStored      // in the session map
    | URunning     // counted as active, reader running, lock released
    | UReleased    // reader exited and released its target
    | UForgotten   // out of the tracker's map
    | ULiveDown    // no longer counted by the tracker
    | UUnmapped    // deleted its key from the session map
    | TAccepted    // counted as active
    | TPicked
    | TRegistered
    | TLive        // relaying
    | TForgotten
    | TLiveDown
    | TReleased
    | Done

  /** `proxy` is the listener; `key` the client address of a UDP session.
      `picks` and `releases` count this connection's balancer calls. */
  datatype Conn = Conn(udp: bool, proxy: nat, key: string, phase: Phase, target: nat, id: nat, picks: nat, releases: nat)

  datatype Listener = Listener(activeConns: int, sessions: map<string, nat>, lock: Option<nat>)

  datatype State = State(
    active: seq<int>,
    tracked: map<nat, nat>, next: nat, live: int,
    listeners: seq<Listener>,
    conns: map<nat, Conn>)

  // ---------------------------------------------------------------- what a phase stands for

  predicate Holding(p: Phase) {
    p.UPicked? || p.URegistered? || p.ULive? || p.UStored? || p.URunning?
    || p.TPicked? || p.TRegistered? || p.TLive? || p.TForgotten? || p.TLiveDown?
  }

  predicate Tracked(p: Phase) {
    p.URegistered? || p.ULive? || p.UStored? || p.URunning? || p.UReleased? || p.TRegistered? || p.TLive?
  }

  predicate CountedLive(p: Phase) {
    p.ULive? || p.UStored? || p.URunning? || p.UReleased? || p.UForgotten? || p.TLive? || p.TForgotten?
  }

  predicate CountedActive(p: Phase) {
    p.URunning? || p.UReleased? || p.UForgotten? || p.ULiveDown? || p.UUnmapped?
    || p.TAccepted? || p.TPicked? || p.TRegistered? || p.TLive? || p.TForgotten? || p.TLiveDown? || p.TReleased?
  }

  /** The session's own reader has not yet deleted the key. */
  predicate Unfinished(p: Phase) {
    p.UStored? || p.URunning? || p.UReleased? || p.UForgotten? || p.ULiveDown?
  }

  predicate Creating(p: Phase) {
    p.ULocked? || p.UPicked? || p.URegistered? || p.ULive? || p.UStored?
  }

  // ---------------------------------------------------------------- steps

  datatype Step =
    | Datagram(c: nat, proxy: nat, key: string)
    | Accept(c: nat, proxy: nat)
    | Pick(c: nat, target: Option<nat>)
    | Fail(c: nat)
    | Next(c: nat)
    | Reap(proxy: nat, key: string)

  predicate InRange(s: State, c: nat) {
    c in s.conns && s.conns[c].target < |s.active| && s.conns[c].proxy < |s.listeners|
  }

  predicate Enabled(s: State, e: Step) {
    match e
    case Datagram(c, p, key) =>
      p < |s.listeners| && (key in s.listeners[p].sessions || (c !in s.conns && s.listeners[p].lock.None?))
    case Accept(c, p) => p < |s.listeners| && c !in s.conns
    case Pick(c, t) =>
      InRange(s, c) && (s.conns[c].phase.ULocked? || s.conns[c].phase.TAccepted?) && (t.Some? ==> t.value < |s.active|)
    case Fail(c) => InRange(s, c) && (s.conns[c].phase.UPicked? || s.conns[c].phase.TPicked?)
    case Next(c) =>
      && InRange(s, c)
      && var k := s.conns[c];
      && !k.phase.ULocked? && !k.phase.TAccepted? && !k.phase.Done?
      && (k.phase.ULiveDown? ==> s.listeners[k.proxy].lock.None?)
    case Reap(p, key) => p < |s.listeners| && s.listeners[p].lock.None? && key in s.listeners[p].sessions
  }

  /** `DecActive`: decrement, clamped at zero. */
  function Dec(active: seq<int>, t: nat): (r: seq<int>)
    requires t < |active|
    ensures |r| == |active|
  {
    active[t := if active[t] - 1 < 0 then 0 else active[t] - 1]
  }

  function WithConn(s: State, c: nat, k: Conn): State {
    s.(conns := s.conns[c := k])
  }

  function WithListener(s: State, p: nat, l: Listener): State
    requires p < |s.listeners|
  {
    s.(listeners := s.listeners[p := l])
  }

  /** The balancer's answer for connection `c`. */
  function AfterPick(s: State, c: nat, t: Option<nat>): State
    requires c in s.conns && s.conns[c].proxy < |s.listeners| && (t.Some? ==> t.value < |s.active|)
  {
    var k := s.conns[c];
    if t.Some? then
      WithConn(s.(active := s.active[t.value := s.active[t.value] + 1]), c,
               k.(phase := if k.udp then UPicked else TPicked, target := t.value, picks := k.picks + 1))
    else if k.udp then
      WithListener(WithConn(s, c, k.(phase := Done)), k.proxy, s.listeners[k.proxy].(lock := None))
    else WithConn(s, c, k.(phase := TReleased))
  }

  /** Resolver or dial failure right after the pick: the target is released; a
      UDP creation also gives the session lock back. */
  function AfterFail(s: State, c: nat): State
    requires c in s.conns && s.conns[c].target < |s.active| && s.conns[c].proxy < |s.listeners|
  {
    var k := s.conns[c];
    var s' := WithConn(s.(active := Dec(s.active, k.target)), c,
                       k.(phase := if k.udp then Done else TReleased, releases := k.releases + 1));
    if k.udp then WithListener(s', k.proxy, s.listeners[k.proxy].(lock := None)) else s'
  }

  /** The next operation of connection `c` in program order. */
  function AfterNext(s: State, c: nat): State
    requires c in s.conns && s.conns[c].target < |s.active| && s.conns[c].proxy < |s.listeners|
  {
    var k := s.conns[c];
    var l := s.listeners[k.proxy];
    match k.phase
    case UPicked => RegisterStep(s, c, URegistered)
    case URegistered => WithConn(s.(live := s.live + 1), c, k.(phase := ULive))
    case ULive => WithListener(WithConn(s, c, k.(phase := UStored)), k.proxy, l.(sessions := l.sessions[k.key := c]))
    case UStored => WithListener(WithConn(s, c, k.(phase := URunning)), k.proxy, l.(activeConns := l.activeConns + 1, lock := None))
    case URunning => ReleaseStep(s, c, UReleased)
    case UReleased => ForgetStep(s, c, UForgotten, ULiveDown)
    case UForgotten => WithConn(s.(live := s.live - 1), c, k.(phase := ULiveDown))
    case ULiveDown => WithListener(WithConn(s, c, k.(phase := UUnmapped)), k.proxy, l.(sessions := Without(l.sessions, k.key)))
    case UUnmapped => WithListener(WithConn(s, c, k.(phase := Done)), k.proxy, l.(activeConns := l.activeConns - 1))
    case TPicked => RegisterStep(s, c, TRegistered)
    case TRegistered => WithConn(s.(live := s.live + 1), c, k.(phase := TLive))
    case TLive => ForgetStep(s, c, TForgotten, TLiveDown)
    case TForgotten => WithConn(s.(live := s.live - 1), c, k.(phase := TLiveDown))
    case TLiveDown => ReleaseStep(s, c, TReleased)
    case TReleased => WithListener(WithConn(s, c, k.(phase := Done)), k.proxy, l.(activeConns := l.activeConns - 1))
    case _ => s
  }

  function RegisterStep(s: State, c: nat, phase: Phase): State
    requires c in s.conns
  {
    WithConn(s.(next := s.next + 1, tracked := s.tracked[s.next + 1 := c]), c,
             s.conns[c].(phase := phase, id := s.next + 1))
  }

  /** `Forget` only lowers the live count for an entry that existed. */
  function ForgetStep(s: State, c: nat, existed: Phase, missing: Phase): State
    requires c in s.conns
  {
    var k := s.conns[c];
    WithConn(s.(tracked := Without(s.tracked, k.id)), c, k.(phase := if k.id in s.tracked then existed else missing))
  }

  function ReleaseStep(s: State, c: nat, phase: Phase): State
    requires c in s.conns && s.conns[c].target < |s.active|
  {
    var k := s.conns[c];
    WithConn(s.(active := Dec(s.active, k.target)), c, k.(phase := phase, releases := k.releases + 1))
  }

  function Apply(s: State, e: Step): State
    requires Enabled(s, e)
  {
    match e
    case Datagram(c, p, key) =>
      if key in s.listeners[p].sessions then s
      else WithListener(WithConn(s, c, Conn(true, p, key, ULocked, 0, 0, 0, 0)), p, s.listeners[p].(lock := Some(c)))
    case Accept(c, p) =>
      WithListener(WithConn(s, c, Conn(false, p, "", TAccepted, 0, 0, 0, 0)), p,
                   s.listeners[p].(activeConns := s.listeners[p].activeConns + 1))
    case Pick(c, t) => AfterPick(s, c, t)
    case Fail(c) => AfterFail(s, c)
    case Next(c) => AfterNext(s, c)
    case Reap(p, key) =>
      WithListener(s, p, s.listeners[p].(sessions := Without(s.listeners[p].sessions, key)))
  }

  // ---------------------------------------------------------------- the invariant

  /** The connections that satisfy `f`. */
  ghost function Members(conns: map<nat, Conn>, f: Conn -> bool): set<nat> {
    set c | c in conns && f(conns[c])
  }

  function HoldsTarget(t: nat): Conn -> bool {
    (k: Conn) => Holding(k.phase) && k.target == t
  }

  function IsLive(): Conn -> bool {
    (k: Conn) => CountedLive(k.phase)
  }

  function ActiveOn(p: nat): Conn -> bool {
    (k: Conn) => CountedActive(k.phase) && k.proxy == p
  }

  predicate UdpPhase(p: Phase) {
    p.ULocked? || p.UPicked? || p.URegistered? || p.ULive? || p.UStored? || p.URunning? || p.UReleased?
    || p.UForgotten? || p.ULiveDown? || p.UUnmapped?
  }

  /** The record of one connection is consistent with its phase. */
  predicate ConnOk(s: State, k: Conn) {
    && k.target < |s.active| && k.proxy < |s.listeners|
    && (!k.phase.Done? ==> k.udp == UdpPhase(k.phase))
    && k.picks == k.releases + (if Holding(k.phase) then 1 else 0)
    && k.picks <= 1
    && (k.phase.ULocked? || k.phase.TAccepted? ==> k.picks == 0)
  }

  ghost predicate ConnsOk(s: State) {
    |s.active| > 0 && forall c :: c in s.conns ==> ConnOk(s, s.conns[c])
  }

  /** Each target's counter is the number of unreleased handles on it. */
  ghost predicate BalancerExact(s: State) {
    forall t :: 0 <= t < |s.active| ==> s.active[t] == |Members(s.conns, HoldsTarget(t))|
  }

  /** The tracker holds exactly the tracked connections, each under its own id. */
  ghost predicate TrackerExact(s: State) {
    && (forall id :: id in s.tracked ==>
          id <= s.next && s.tracked[id] in s.conns && Tracked(s.conns[s.tracked[id]].phase) && s.conns[s.tracked[id]].id == id)
    && (forall c :: c in s.conns && Tracked(s.conns[c].phase) ==>
          s.conns[c].id in s.tracked && s.tracked[s.conns[c].id] == c)
  }

  ghost predicate LiveExact(s: State) {
    s.live == |Members(s.conns, IsLive())|
  }

  ghost predicate ListenersExact(s: State) {
    forall p :: 0 <= p < |s.listeners| ==> s.listeners[p].activeConns == |Members(s.conns, ActiveOn(p))|
  }

  /** A mapped session belongs to this listener and key, and its reader has not
      finished. */
  ghost predicate SessionsAlive(s: State) {
    forall p, key :: 0 <= p < |s.listeners| && key in s.listeners[p].sessions ==>
      var c := s.listeners[p].sessions[key];
      c in s.conns && s.conns[c].udp && s.conns[c].proxy == p && s.conns[c].key == key && Unfinished(s.conns[c].phase)
  }

  /** A creation holds its listener's lock, and its key stays unmapped until it
      stores the session. */
  ghost predicate LocksOk(s: State) {
    forall c :: c in s.conns && Creating(s.conns[c].phase) && s.conns[c].proxy < |s.listeners| ==>
      && s.listeners[s.conns[c].proxy].lock == Some(c)
      && (!s.conns[c].phase.UStored? ==> s.conns[c].key !in s.listeners[s.conns[c].proxy].sessions)
  }

  ghost predicate Inv(s: State) {
    ConnsOk(s) && BalancerExact(s) && TrackerExact(s) && LiveExact(s) && ListenersExact(s) && SessionsAlive(s) && LocksOk(s)
  }

  function Init(targets: nat, proxies: nat): State {
    State(seq(targets, _ => 0), map[], 0, 0, seq(proxies, _ => Listener(0, map[], None)), map[])
  }

  lemma InitInv(targets: nat, proxies: nat)
    requires targets > 0
    ensures Inv(Init(targets, proxies))
  {
    var s := Init(targets, proxies);
    assert forall f: Conn -> bool :: Members(s.conns, f) == {};
  }

  // ---------------------------------------------------------------- one step

  /** Changing one connection changes each count by what it alone contributes. */
  lemma MembersChange(conns: map<nat, Conn>, c: nat, k: Conn, f: Conn -> bool)
    ensures |Members(conns[c := k], f)|
         == |Members(conns, f)| + (if f(k) then 1 else 0) - (if c in conns && f(conns[c]) then 1 else 0)
  {
    var before := Members(conns, f);
    var rest := before - {c};
    assert c in before ==> before == rest + {c};
    assert c !in before ==> before == rest;
    assert Members(conns[c := k], f) == if f(k) then rest + {c} else rest;
  }

  /** A holder's target has a positive count, so `DecActive` never clamps. */
  lemma HolderCounts(s: State, c: nat)
    requires ConnsOk(s) && BalancerExact(s) && c in s.conns && Holding(s.conns[c].phase)
    ensures s.active[s.conns[c].target] >= 1
    ensures Dec(s.active, s.conns[c].target) == s.active[s.conns[c].target := s.active[s.conns[c].target] - 1]
  {
    var t := s.conns[c].target;
    assert c in Members(s.conns, HoldsTarget(t));
  }

  function Bit(b: bool): int { if b then 1 else 0 }

  /** What connection `c` contributed before it changed. */
  function Was(s: State, c: nat, f: Conn -> bool): int {
    Bit(c in s.conns && f(s.conns[c]))
  }

  /** How `s'` can differ from `s` when connection `c` takes one step: its record,
      its own contribution to each counter, and its listener. */
  ghost predicate Effect(s: State, s': State, c: nat) {
    && c in s'.conns && s'.conns == s.conns[c := s'.conns[c]]
    && var k := s'.conns[c];
    && ConnOk(s', k) && |s'.active| == |s.active| > 0 && |s'.listeners| == |s.listeners|
    && (c in s.conns ==> s.conns[c].(phase := k.phase, target := k.target, id := k.id, picks := k.picks, releases := k.releases) == k)
    && s'.live == s.live + Bit(CountedLive(k.phase)) - Was(s, c, IsLive())
    && ActiveEffect(s, s', c)
    && TrackerEffect(s, s', c)
    && s'.listeners == s.listeners[k.proxy := s'.listeners[k.proxy]]
    && ListenerEffect(s, c, k, s.listeners[k.proxy], s'.listeners[k.proxy])
  }

  /** Holding is gained by one increment and lost by one decrement. */
  predicate ActiveEffect(s: State, s': State, c: nat)
    requires c in s'.conns && s'.conns[c].target < |s.active|
  {
    var k := s'.conns[c];
    var held := c in s.conns && Holding(s.conns[c].phase);
    if held then
      && s.conns[c].target == k.target
      && s'.active == if Holding(k.phase) then s.active else s.active[k.target := s.active[k.target] - 1]
    else
      s'.active == if Holding(k.phase) then s.active[k.target := s.active[k.target] + 1] else s.active
  }

  /** Tracking starts under a new id and ends by forgetting that id. */
  predicate TrackerEffect(s: State, s': State, c: nat)
    requires c in s'.conns
  {
    var k := s'.conns[c];
    var was := c in s.conns && Tracked(s.conns[c].phase);
    if was then
      && s.conns[c].id == k.id && s'.next == s.next
      && s'.tracked == if Tracked(k.phase) then s.tracked else Without(s.tracked, k.id)
    else if Tracked(k.phase) then
      s'.next == s.next + 1 && k.id == s'.next && s'.tracked == s.tracked[k.id := c]
    else
      s'.next == s.next && s'.tracked == s.tracked
  }

  predicate ListenerEffect(s: State, c: nat, k: Conn, l: Listener, l': Listener) {
    && l'.activeConns == l.activeConns + Bit(CountedActive(k.phase))
                         - Bit(c in s.conns && CountedActive(s.conns[c].phase))
    && (if k.phase.UStored? && !(c in s.conns && s.conns[c].phase.UStored?) then
          c in s.conns && s.conns[c].phase.ULive? && l'.sessions == l.sessions[k.key := c]
        else if k.phase.UUnmapped? then l'.sessions == Without(l.sessions, k.key)
        else l'.sessions == l.sessions && (Unfinished(k.phase) == (c in s.conns && Unfinished(s.conns[c].phase))))
    && (if Creating(k.phase) then
          l'.lock == Some(c)
          && (if c in s.conns then Creating(s.conns[c].phase) && l.lock == Some(c)
              else l.lock == None && k.key !in l.sessions)
        else if c in s.conns && Creating(s.conns[c].phase) then l'.lock == None
        else l'.lock == l.lock)
    && (c in s.conns && s.conns[c].phase.UStored? ==> !Creating(k.phase))
    && (k.phase.UUnmapped? ==> c in s.conns && Unfinished(s.conns[c].phase))
  }

  /** Every step other than reaping and a datagram of a mapped session changes
      exactly one connection, by an `Effect`. */
  lemma StepEffect(s: State, e: Step) returns (c: nat)
    requires Inv(s) && Enabled(s, e) && !e.Reap? && !(e.Datagram? && e.key in s.listeners[e.proxy].sessions)
    ensures Effect(s, Apply(s, e), c)
  {
    match e
    case Datagram(c', p, key) => c := c';
    case Accept(c', _) => c := c';
    case Pick(c', t) => c := c'; InvReady(s, c); PickEffect(s, c, t);
    case Fail(c') => c := c'; InvReady(s, c); FailEffect(s, c);
    case Next(c') => c := c'; InvReady(s, c); NextEffect(s, c);
    case Reap(_, _) => assert false;
  }

  /** What the invariant says about one connection that is about to step. */
  predicate Ready(s: State, c: nat) {
    && |s.active| > 0 && c in s.conns && ConnOk(s, s.conns[c])
    && var k := s.conns[c];
    && (Holding(k.phase) ==> s.active[k.target] >= 1)
    && (Tracked(k.phase) ==> k.id in s.tracked)
    && (Creating(k.phase) ==> s.listeners[k.proxy].lock == Some(c))
  }

  lemma InvReady(s: State, c: nat)
    requires Inv(s) && c in s.conns
    ensures Ready(s, c)
  {
    if Holding(s.conns[c].phase) { HolderCounts(s, c); }
  }

  lemma PickEffect(s: State, c: nat, t: Option<nat>)
    requires Ready(s, c) && Enabled(s, Pick(c, t))
    ensures Effect(s, AfterPick(s, c, t), c)
  {
  }

  lemma FailEffect(s: State, c: nat)
    requires Ready(s, c) && Enabled(s, Fail(c))
    ensures Effect(s, AfterFail(s, c), c)
  {
  }

  lemma NextEffect(s: State, c: nat)
    requires Ready(s, c) && Enabled(s, Next(c))
    ensures Effect(s, AfterNext(s, c), c)
  {
    hide Effect, Ready;
    match s.conns[c].phase
    case UPicked | URegistered => NextEffectRegister(s, c);
    case ULive | UStored => NextEffectStore(s, c);
    case URunning | UReleased => NextEffectExit(s, c);
    case UForgotten | ULiveDown => NextEffectUnmap(s, c);
    case UUnmapped => NextEffectEnd(s, c);
    case TPicked | TRegistered => NextEffectTcpRegister(s, c);
    case TLive | TForgotten => NextEffectTcpForget(s, c);
    case TLiveDown | TReleased => NextEffectTcpRelease(s, c);
  }

  lemma NextEffectRegister(s: State, c: nat)
    requires Ready(s, c) && Enabled(s, Next(c))
    requires var k := s.conns[c]; k.phase.UPicked? || k.phase.URegistered?
    ensures Effect(s, AfterNext(s, c), c)
  {
  }

  lemma NextEffectStore(s: State, c: nat)
    requires Ready(s, c) && Enabled(s, Next(c))
    requires var k := s.conns[c]; k.phase.ULive? || k.phase.UStored?
    ensures Effect(s, AfterNext(s, c), c)
  {
  }

  lemma NextEffectExit(s: State, c: nat)
    requires Ready(s, c) && Enabled(s, Next(c))
    requires var k := s.conns[c]; k.phase.URunning? || k.phase.UReleased?
    ensures Effect(s, AfterNext(s, c), c)
  {
  }

  lemma NextEffectUnmap(s: State, c: nat)
    requires Ready(s, c) && Enabled(s, Next(c))
    requires var k := s.conns[c]; k.phase.UForgotten? || k.phase.ULiveDown?
    ensures Effect(s, AfterNext(s, c), c)
  {
  }

  lemma NextEffectEnd(s: State, c: nat)
    requires Ready(s, c) && Enabled(s, Next(c)) && s.conns[c].phase.UUnmapped?
    ensures Effect(s, AfterNext(s, c), c)
  {
  }

  lemma NextEffectTcpRegister(s: State, c: nat)
    requires Ready(s, c) && Enabled(s, Next(c))
    requires var k := s.conns[c]; k.phase.TPicked? || k.phase.TRegistered?
    ensures Effect(s, AfterNext(s, c), c)
  {
  }

  lemma NextEffectTcpForget(s: State, c: nat)
    requires Ready(s, c) && Enabled(s, Next(c))
    requires var k := s.conns[c]; k.phase.TLive? || k.phase.TForgotten?
    ensures Effect(s, AfterNext(s, c), c)
  {
  }

  lemma NextEffectTcpRelease(s: State, c: nat)
    requires Ready(s, c) && Enabled(s, Next(c))
    requires var k := s.conns[c]; k.phase.TLiveDown? || k.phase.TReleased?
    ensures Effect(s, AfterNext(s, c), c)
  {
  }

  lemma EffectKeepsCounts(s: State, s': State, c: nat)
    requires Effect(s, s', c) && ConnsOk(s)
    ensures BalancerExact(s) ==> BalancerExact(s')
    ensures LiveExact(s) ==> LiveExact(s')
    ensures ListenersExact(s) ==> ListenersExact(s')
  {
    var k := s'.conns[c];
    forall t: nat | t < |s.active| && BalancerExact(s) ensures s'.active[t] == |Members(s'.conns, HoldsTarget(t))| {
      MembersChange(s.conns, c, k, HoldsTarget(t));
    }
    MembersChange(s.conns, c, k, IsLive());
    forall p: nat | p < |s.listeners| && ListenersExact(s)
      ensures s'.listeners[p].activeConns == |Members(s'.conns, ActiveOn(p))|
    {
      MembersChange(s.conns, c, k, ActiveOn(p));
    }
  }

  lemma EffectKeepsTables(s: State, s': State, c: nat)
    requires Effect(s, s', c)
    ensures ConnsOk(s) ==> ConnsOk(s')
    ensures TrackerExact(s) ==> TrackerExact(s')
  {
  }

  lemma EffectKeepsSessions(s: State, s': State, c: nat)
    requires Effect(s, s', c) && ConnsOk(s)
    ensures SessionsAlive(s) ==> SessionsAlive(s')
    ensures LocksOk(s) ==> LocksOk(s')
  {
  }

  /** Reaping only removes map entries. */
  lemma ReapKeeps(s: State, p: nat, key: string)
    requires Inv(s) && Enabled(s, Reap(p, key))
    ensures Inv(Apply(s, Reap(p, key)))
  {
  }

  lemma StepKeepsInv(s: State, e: Step)
    requires Inv(s) && Enabled(s, e)
    ensures Inv(Apply(s, e))
  {
    if e.Reap? {
      ReapKeeps(s, e.proxy, e.key);
    } else if e.Datagram? && e.key in s.listeners[e.proxy].sessions {
      assert Apply(s, e) == s;
    } else {
      hide Apply, Effect;
      var c := StepEffect(s, e);
      EffectKeepsCounts(s, Apply(s, e), c);
      EffectKeepsTables(s, Apply(s, e), c);
      EffectKeepsSessions(s, Apply(s, e), c);
    }
  }

  // ---------------------------------------------------------------- whole runs

  /** Every step of the run is enabled when it is taken. */
  ghost predicate Runs(targets: nat, proxies: nat, run: seq<Step>)
    requires targets > 0
    decreases |run|, 0
  {
    run == [] || (Runs(targets, proxies, run[..|run| - 1]) &&
                  Enabled(After(targets, proxies, run[..|run| - 1]), run[|run| - 1]))
  }

  ghost function After(targets: nat, proxies: nat, run: seq<Step>): State
    requires targets > 0 && Runs(targets, proxies, run)
    decreases |run|, 1
  {
    if run == [] then Init(targets, proxies)
    else Apply(After(targets, proxies, run[..|run| - 1]), run[|run| - 1])
  }

  lemma {:induction false} RunKeepsInv(targets: nat, proxies: nat, run: seq<Step>)
    requires targets > 0 && Runs(targets, proxies, run)
    ensures Inv(After(targets, proxies, run))
    decreases |run|
  {
    hide Inv, Apply, Enabled;
    if run == [] {
      InitInv(targets, proxies);
    } else {
      RunKeepsInv(targets, proxies, run[..|run| - 1]);
      StepKeepsInv(After(targets, proxies, run[..|run| - 1]), run[|run| - 1]);
    }
  }

  /** In every interleaving each target's counter is the number of unreleased
      handles on it, so it is never negative; the tracker's live count and each
      listener's active count are the connections not yet past that step. */
  lemma {:induction false} CountersExact(targets: nat, proxies: nat, run: seq<Step>)
    requires targets > 0 && Runs(targets, proxies, run)
    ensures var s := After(targets, proxies, run);
            && (forall t :: 0 <= t < |s.active| ==> s.active[t] == |Members(s.conns, HoldsTarget(t))| >= 0)
            && s.live == |Members(s.conns, IsLive())|
            && (forall p :: 0 <= p < |s.listeners| ==> s.listeners[p].activeConns == |Members(s.conns, ActiveOn(p))|)
  {
    hide After, Runs;
    RunKeepsInv(targets, proxies, run);
  }

  /** Each connection picks at most once; exactly its unreleased pick, if any, is
      outstanding, and none is once it is done -- on every path, also after a
      failed resolver or dial. */
  lemma {:induction false} PicksMatchReleases(targets: nat, proxies: nat, run: seq<Step>)
    requires targets > 0 && Runs(targets, proxies, run)
    ensures var conns := After(targets, proxies, run).conns;
            forall c :: c in conns ==>
              var k := conns[c];
              k.releases <= k.picks <= 1 && k.picks - k.releases == Bit(Holding(k.phase)) && (k.phase.Done? ==> k.picks == k.releases)
  {
    hide After, Runs;
    RunKeepsInv(targets, proxies, run);
    var s := After(targets, proxies, run);
    assert forall c :: c in s.conns ==> ConnOk(s, s.conns[c]);
  }

  /** A release always finds a positive counter: its clamp is never used. */
  lemma {:induction false} ReleaseNeverClamps(targets: nat, proxies: nat, run: seq<Step>)
    requires targets > 0 && Runs(targets, proxies, run)
    ensures var s := After(targets, proxies, run);
            forall c :: c in s.conns && Holding(s.conns[c].phase) ==> s.conns[c].target < |s.active| && s.active[s.conns[c].target] >= 1
  {
    hide After, Runs;
    RunKeepsInv(targets, proxies, run);
    var s := After(targets, proxies, run);
    forall c | c in s.conns && Holding(s.conns[c].phase) ensures s.conns[c].target < |s.active| && s.active[s.conns[c].target] >= 1 {
      assert ConnOk(s, s.conns[c]);
      HolderCounts(s, c);
    }
  }

  /** The tracker's map is exactly the connections between registering and
      forgetting, under distinct ids. */
  lemma {:induction false} TrackerIsExact(targets: nat, proxies: nat, run: seq<Step>, c: nat)
    requires targets > 0 && Runs(targets, proxies, run)
    ensures var s := After(targets, proxies, run);
            && (c in s.conns && Tracked(s.conns[c].phase) <==> exists id :: id in s.tracked && s.tracked[id] == c)
            && (forall id :: id in s.tracked && s.tracked[id] == c ==> s.conns[c].id == id)
  {
    hide After, Runs;
    RunKeepsInv(targets, proxies, run);
    var s := After(targets, proxies, run);
    if c in s.conns && Tracked(s.conns[c].phase) { assert s.tracked[s.conns[c].id] == c; }
  }

  /** A mapped session always has an unfinished reader, and storing a session
      never overwrites another one. */
  lemma {:induction false} MappedSessionsAreServed(targets: nat, proxies: nat, run: seq<Step>, p: nat, key: string)
    requires targets > 0 && Runs(targets, proxies, run)
    ensures var s := After(targets, proxies, run);
            p < |s.listeners| ==>
              && (key in s.listeners[p].sessions ==>
                    var c := s.listeners[p].sessions[key];
                    c in s.conns && s.conns[c].proxy == p && s.conns[c].key == key && Unfinished(s.conns[c].phase))
              && (forall c :: c in s.conns && s.conns[c].phase.ULive? && s.conns[c].proxy == p && s.conns[c].key == key ==>
                    key !in s.listeners[p].sessions)
  {
    hide After, Runs;
    RunKeepsInv(targets, proxies, run);
  }

  /** When every connection is done, nothing is left behind in any table. */
  lemma {:induction false} QuiescenceIsClean(targets: nat, proxies: nat, run: seq<Step>)
    requires targets > 0 && Runs(targets, proxies, run)
    ensures var s := After(targets, proxies, run);
            (forall c :: c in s.conns ==> s.conns[c].phase.Done?) ==>
              && (forall t :: 0 <= t < |s.active| ==> s.active[t] == 0)
              && s.live == 0 && s.tracked == map[]
              && (forall p :: 0 <= p < |s.listeners| ==> s.listeners[p].activeConns == 0 && s.listeners[p].sessions == map[])
  {
    hide After, Runs;
    RunKeepsInv(targets, proxies, run);
    var s := After(targets, proxies, run);
    if forall c :: c in s.conns ==> s.conns[c].phase.Done? {
      QuietCounters(s);
      QuietTables(s);
    }
  }

  lemma QuietCounters(s: State)
    requires Inv(s) && forall c :: c in s.conns ==> s.conns[c].phase.Done?
    ensures s.live == 0 && forall t :: 0 <= t < |s.active| ==> s.active[t] == 0
    ensures forall p :: 0 <= p < |s.listeners| ==> s.listeners[p].activeConns == 0
  {
    hide TrackerExact, SessionsAlive, LocksOk, ConnsOk;
    forall t: nat | t < |s.active| ensures s.active[t] == 0 {
      assert Members(s.conns, HoldsTarget(t)) == {};
    }
    assert Members(s.conns, IsLive()) == {};
    forall p: nat | p < |s.listeners| ensures s.listeners[p].activeConns == 0 {
      assert Members(s.conns, ActiveOn(p)) == {};
    }
  }

  lemma QuietTables(s: State)
    requires Inv(s) && forall c :: c in s.conns ==> s.conns[c].phase.Done?
    ensures s.tracked == map[] && forall p :: 0 <= p < |s.listeners| ==> s.listeners[p].sessions == map[]
  {
    hide BalancerExact, LiveExact, ListenersExact, LocksOk, ConnsOk;
    forall p: nat | p < |s.listeners| ensures s.listeners[p].sessions == map[] {
    }
  }

  // ---------------------------------------------------------------- one session per client

  /** An unfinished session of the client `key` of listener `p`. */
  predicate Serves(s: State, c: nat, p: nat, key: string) {
    c in s.conns && s.conns[c].udp && s.conns[c].proxy == p && s.conns[c].key == key && Unfinished(s.conns[c].phase)
  }

  /** The client's unfinished sessions are all in the map, where there is room for
      one. */
  ghost predicate Mapped(s: State, p: nat, key: string) {
    forall c :: Serves(s, c, p, key) ==>
      p < |s.listeners| && key in s.listeners[p].sessions && s.listeners[p].sessions[key] == c
  }

  ghost predicate Unique(s: State, p: nat, key: string) {
    forall c, d :: Serves(s, c, p, key) && Serves(s, d, p, key) ==> c == d
  }

  lemma EffectKeepsMapped(s: State, s': State, c: nat, p: nat, key: string)
    requires Effect(s, s', c) && ConnsOk(s) && LocksOk(s) && Mapped(s, p, key)
    ensures Mapped(s', p, key)
  {
    hide ActiveEffect, TrackerEffect, Members;
    var k := s'.conns[c];
    assert k.phase.UUnmapped? && k.proxy == p && k.key == key ==> Serves(s, c, p, key);
    forall d | Serves(s', d, p, key)
      ensures p < |s'.listeners| && key in s'.listeners[p].sessions && s'.listeners[p].sessions[key] == d
    {
      assert Serves(s, d, p, key) || (d == c && k.phase.UStored?);
    }
  }

  /** The reaper's session of the client is the only way out: from a state with
      every session mapped, a step leads to one without exactly when it takes it. */
  lemma MappedStepIff(s: State, e: Step, p: nat, key: string)
    requires Inv(s) && Enabled(s, e) && Mapped(s, p, key)
    ensures Mapped(Apply(s, e), p, key) <==> e != Reap(p, key)
  {
    hide BalancerExact, TrackerExact, LiveExact, ListenersExact;
    if e.Reap? {
      ReapMapped(s, e.proxy, e.key, p, key);
    } else if e.Datagram? && e.key in s.listeners[e.proxy].sessions {
      assert Apply(s, e) == s;
    } else {
      hide Apply, Effect;
      var c := StepEffect(s, e);
      EffectKeepsMapped(s, Apply(s, e), c, p, key);
    }
  }

  lemma ReapMapped(s: State, q: nat, other: string, p: nat, key: string)
    requires SessionsAlive(s) && Enabled(s, Reap(q, other)) && Mapped(s, p, key)
    ensures Mapped(Apply(s, Reap(q, other)), p, key) <==> Reap(q, other) != Reap(p, key)
  {
    var s' := Apply(s, Reap(q, other));
    assert forall c :: Serves(s', c, p, key) <==> Serves(s, c, p, key);
    if q == p && other == key {
      assert Serves(s', s.listeners[p].sessions[key], p, key);
    }
  }

  /** For every run: the client's unfinished sessions are mapped throughout the run
      if and only if the reaper never takes one of them. */
  lemma {:induction false} MappedThroughoutIff(targets: nat, proxies: nat, run: seq<Step>, p: nat, key: string)
    requires targets > 0 && Runs(targets, proxies, run)
    ensures (forall k :: 0 <= k <= |run| ==> MappedAt(targets, proxies, run, k, p, key)) <==> Reap(p, key) !in run
    decreases |run|
  {
    hide Inv, Mapped, Apply, Enabled;
    if run == [] {
      NoSessions(targets, proxies, p, key);
    } else {
      var init, e, n := run[..|run| - 1], run[|run| - 1], |run| - 1;
      assert run == init + [e];
      MappedThroughoutIff(targets, proxies, init, p, key);
      forall k | 0 <= k <= n
        ensures MappedAt(targets, proxies, run, k, p, key) == MappedAt(targets, proxies, init, k, p, key)
      {
        assert run[..k] == init[..k];
      }
      assert run[..|run|] == run && init[..n] == init;
      RunKeepsInv(targets, proxies, init);
      if Mapped(After(targets, proxies, init), p, key) {
        MappedStepIff(After(targets, proxies, init), e, p, key);
        assert MappedAt(targets, proxies, run, |run|, p, key) <==> e != Reap(p, key);
      } else {
        assert !MappedAt(targets, proxies, run, n, p, key) && !MappedAt(targets, proxies, init, n, p, key);
      }
    }
  }

  /** The first `k` steps are a run to a state with every session mapped. */
  ghost predicate MappedAt(targets: nat, proxies: nat, run: seq<Step>, k: int, p: nat, key: string)
    requires targets > 0 && 0 <= k <= |run|
  {
    Runs(targets, proxies, run[..k]) && Mapped(After(targets, proxies, run[..k]), p, key)
  }

  lemma NoSessions(targets: nat, proxies: nat, p: nat, key: string)
    requires targets > 0
    ensures Runs(targets, proxies, []) && Mapped(After(targets, proxies, []), p, key)
  {
  }

  /** Without a reaping of the client it has at most one unfinished session, and the
      map finds it. */
  lemma UniqueWithoutReap(targets: nat, proxies: nat, run: seq<Step>, p: nat, key: string)
    requires targets > 0 && Runs(targets, proxies, run) && Reap(p, key) !in run
    ensures Mapped(After(targets, proxies, run), p, key) && Unique(After(targets, proxies, run), p, key)
  {
    hide After, Runs;
    MappedThroughoutIff(targets, proxies, run, p, key);
    assert run[..|run|] == run;
    assert MappedAt(targets, proxies, run, |run|, p, key);
  }

  // ---------------------------------------------------------------- two sessions of one client

  ghost predicate RunsTo(targets: nat, proxies: nat, run: seq<Step>, s: State)
    requires targets > 0
  {
    Runs(targets, proxies, run) && After(targets, proxies, run) == s && Inv(s)
  }

  lemma Then(targets: nat, proxies: nat, run: seq<Step>, s: State, e: Step) returns (run': seq<Step>)
    requires targets > 0 && RunsTo(targets, proxies, run, s) && Enabled(s, e)
    ensures run' == run + [e] && RunsTo(targets, proxies, run', Apply(s, e))
  {
    hide Inv, Apply, Enabled;
    run' := run + [e];
    assert run'[..|run|] == run;
    StepKeepsInv(s, e);
  }

  predicate Session(s: State, c: nat, p: nat, key: string, phase: Phase) {
    InRange(s, c) && s.conns[c].phase == phase && s.conns[c].udp && s.conns[c].proxy == p && s.conns[c].key == key
  }

  /** The session map and lock of listener `p`. */
  predicate Table(s: State, p: nat, sessions: map<string, nat>, lock: Option<nat>) {
    p < |s.listeners| && s.listeners[p].sessions == sessions && s.listeners[p].lock == lock
  }

  predicate Unlocked(s: State, p: nat) {
    p < |s.listeners| && s.listeners[p].lock == None
  }

  predicate OnlyChanges(s: State, s': State, c: nat) {
    c in s'.conns && s'.conns == s.conns[c := s'.conns[c]] && |s'.active| == |s.active| && |s'.listeners| == |s.listeners|
  }

  function Succ(p: Phase): Phase {
    match p
    case UPicked => URegistered
    case URegistered => ULive
    case ULive => UStored
    case UStored => URunning
    case URunning => UReleased
    case UReleased => UForgotten
    case UForgotten => ULiveDown
    case _ => UUnmapped
  }

  /** One operation of a session and what it does to the session map. */
  lemma MoveEffect(s: State, c: nat, p: nat, key: string, phase: Phase)
    requires Ready(s, c) && Session(s, c, p, key, phase) && Enabled(s, Next(c)) && !phase.UUnmapped?
    ensures var s' := AfterNext(s, c);
            && OnlyChanges(s, s', c) && Session(s', c, p, key, Succ(phase))
            && Table(s', p, if phase.ULive? then s.listeners[p].sessions[key := c]
                            else if phase.ULiveDown? then Without(s.listeners[p].sessions, key) else s.listeners[p].sessions,
                     if phase.UStored? then None else s.listeners[p].lock)
  {
  }

  lemma Move(targets: nat, proxies: nat, run: seq<Step>, s: State, c: nat, p: nat, key: string, phase: Phase)
    returns (run': seq<Step>, s': State)
    requires targets > 0 && RunsTo(targets, proxies, run, s) && Session(s, c, p, key, phase) && !phase.UUnmapped?
    requires UdpPhase(phase) && !phase.ULocked? && (phase.ULiveDown? ==> s.listeners[p].lock == None)
    ensures run < run' && RunsTo(targets, proxies, run', s') && OnlyChanges(s, s', c) && Session(s', c, p, key, Succ(phase))
    ensures Table(s', p, if phase.ULive? then s.listeners[p].sessions[key := c]
                         else if phase.ULiveDown? then Without(s.listeners[p].sessions, key) else s.listeners[p].sessions,
                  if phase.UStored? then None else s.listeners[p].lock)
  {
    hide Inv, AfterNext, Runs, After;
    InvReady(s, c);
    MoveEffect(s, c, p, key, phase);
    run' := Then(targets, proxies, run, s, Next(c));
    s' := AfterNext(s, c);
  }

  /** A first datagram up to the picked target. */
  lemma Open(targets: nat, proxies: nat, run: seq<Step>, s: State, p: nat, key: string, c: nat)
    returns (run': seq<Step>, s': State)
    requires targets > 0 && RunsTo(targets, proxies, run, s) && |s.active| > 0 && c !in s.conns
    requires Unlocked(s, p) && key !in s.listeners[p].sessions
    ensures run < run' && RunsTo(targets, proxies, run', s') && OnlyChanges(s, s', c) && Session(s', c, p, key, UPicked)
    ensures Table(s', p, s.listeners[p].sessions, Some(c))
  {
    hide Inv, Runs, After;
    var run1 := Then(targets, proxies, run, s, Datagram(c, p, key));
    var s1 := Apply(s, Datagram(c, p, key));
    run' := Then(targets, proxies, run1, s1, Pick(c, Some(0)));
    s' := Apply(s1, Pick(c, Some(0)));
  }

  /** A first datagram runs through to a mapped, running session. */
  lemma CreateSession(targets: nat, proxies: nat, run: seq<Step>, s: State, p: nat, key: string, c: nat)
    returns (run': seq<Step>, s': State)
    requires targets > 0 && RunsTo(targets, proxies, run, s) && |s.active| > 0 && c !in s.conns
    requires Unlocked(s, p) && key !in s.listeners[p].sessions
    ensures run < run' && RunsTo(targets, proxies, run', s') && OnlyChanges(s, s', c) && Session(s', c, p, key, URunning)
    ensures Table(s', p, s.listeners[p].sessions[key := c], None)
  {
    hide RunsTo;
    var run2, s2 := Open(targets, proxies, run, s, p, key, c);
    var run3, s3 := Move(targets, proxies, run2, s2, c, p, key, UPicked);
    var run4, s4 := Move(targets, proxies, run3, s3, c, p, key, URegistered);
    var run5, s5 := Move(targets, proxies, run4, s4, c, p, key, ULive);
    run', s' := Move(targets, proxies, run5, s5, c, p, key, UStored);
  }

  /** A reader that exits runs through to its deletion by key. */
  lemma ExitReader(targets: nat, proxies: nat, run: seq<Step>, s: State, p: nat, key: string, c: nat)
    returns (run': seq<Step>, s': State)
    requires targets > 0 && RunsTo(targets, proxies, run, s) && Session(s, c, p, key, URunning) && Unlocked(s, p)
    ensures run < run' && RunsTo(targets, proxies, run', s') && OnlyChanges(s, s', c) && Session(s', c, p, key, UUnmapped)
    ensures Table(s', p, Without(s.listeners[p].sessions, key), None)
  {
    hide RunsTo;
    var run1, s1 := Move(targets, proxies, run, s, c, p, key, URunning);
    var run2, s2 := Move(targets, proxies, run1, s1, c, p, key, UReleased);
    var run3, s3 := Move(targets, proxies, run2, s2, c, p, key, UForgotten);
    run', s' := Move(targets, proxies, run3, s3, c, p, key, ULiveDown);
  }

  lemma ReapOne(targets: nat, proxies: nat, run: seq<Step>, s: State, p: nat, key: string)
    returns (run': seq<Step>, s': State)
    requires targets > 0 && RunsTo(targets, proxies, run, s) && Unlocked(s, p) && key in s.listeners[p].sessions
    ensures run < run' && RunsTo(targets, proxies, run', s') && s'.conns == s.conns && s'.active == s.active
    ensures |s'.listeners| == |s.listeners| && Table(s', p, Without(s.listeners[p].sessions, key), None)
  {
    hide Inv, Runs, After;
    run' := Then(targets, proxies, run, s, Reap(p, key));
    s' := Apply(s, Reap(p, key));
  }

  /** Every run to a mapped running session goes on to one in which that session was
      reaped and replaced, and its reader has deleted the newer session's entry.
      The newer session keeps running, but no later datagram finds it. */
  lemma OldReaderRemovesNewerSession(targets: nat, proxies: nat, run: seq<Step>, s: State, p: nat, key: string, older: nat, newer: nat)
    returns (run': seq<Step>, s': State)
    requires targets > 0 && RunsTo(targets, proxies, run, s) && |s.active| > 0
    requires Session(s, older, p, key, URunning) && Unlocked(s, p)
    requires key in s.listeners[p].sessions && newer !in s.conns
    ensures run < run' && RunsTo(targets, proxies, run', s')
    ensures Session(s', newer, p, key, URunning) && Unlocked(s', p) && key !in s'.listeners[p].sessions
    ensures s'.conns.Keys == s.conns.Keys + {newer} && |s'.active| == |s.active|
  {
    hide RunsTo;
    var run1, s1 := ReapOne(targets, proxies, run, s, p, key);
    var run2, s2 := CreateSession(targets, proxies, run1, s1, p, key, newer);
    run', s' := ExitReader(targets, proxies, run2, s2, p, key, older);
  }

  /** A client whose first session (0) was reaped, whose second one (1) was then
      unmapped by the first one's reader, and which now has two running sessions. */
  lemma SessionsAreNotUnique(targets: nat, proxies: nat, p: nat, key: string) returns (run: seq<Step>, s: State)
    requires targets > 0 && p < proxies
    ensures RunsTo(targets, proxies, run, s)
    ensures Session(s, 1, p, key, URunning) && Session(s, 2, p, key, URunning) && !Unique(s, p, key)
  {
    hide RunsTo, Inv, Unique;
    Start(targets, proxies, p, key);
    var run1, s1 := CreateSession(targets, proxies, [], Init(targets, proxies), p, key, 0);
    var run2, s2 := OldReaderRemovesNewerSession(targets, proxies, run1, s1, p, key, 0, 1);
    run, s := CreateSession(targets, proxies, run2, s2, p, key, 2);
    NotUnique(s, 1, 2, p, key);
  }

  lemma Start(targets: nat, proxies: nat, p: nat, key: string)
    requires targets > 0 && p < proxies
    ensures var s := Init(targets, proxies);
            RunsTo(targets, proxies, [], s) && |s.active| > 0 && s.conns == map[] && Table(s, p, map[], None)
  {
    InitInv(targets, proxies);
  }

  lemma NotUnique(s: State, c: nat, d: nat, p: nat, key: string)
    requires c != d && Session(s, c, p, key, URunning) && Session(s, d, p, key, URunning)
    ensures !Unique(s, p, key)
  {
    assert Serves(s, c, p, key) && Serves(s, d, p, key);
  }

  /** A run in which the client's sessions are reaped only if they may be. */
  ghost predicate Permitted(targets: nat, proxies: nat, run: seq<Step>, p: nat, key: string, reaped: bool)
    requires targets > 0
  {
    Runs(targets, proxies, run) && (Reap(p, key) in run ==> reaped)
  }

  /** A client has at most one unfinished session in all runs exactly when its
      sessions are never reaped. */
  lemma UniqueIff(targets: nat, proxies: nat, p: nat, key: string, reaped: bool)
    requires targets > 0 && p < proxies
    ensures (forall run :: Permitted(targets, proxies, run, p, key, reaped) ==> Unique(After(targets, proxies, run), p, key))
       <==> !reaped
  {
    hide Unique, Inv, Runs, After;
    if reaped {
      var run, s := SessionsAreNotUnique(targets, proxies, p, key);
      assert Permitted(targets, proxies, run, p, key, reaped);
    } else {
      forall run | Permitted(targets, proxies, run, p, key, reaped) ensures Unique(After(targets, proxies, run), p, key) {
        UniqueWithoutReap(targets, proxies, run, p, key);
      }
    }
  }
}
