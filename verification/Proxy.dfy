/** The mutable tables behind the accounting machine: the connection tracker of
    internal/proxy/conn.go and the UDP session table of internal/proxy/udp.go.

    Each operation on shared memory is a method of its own and is tied to the step
    of `Accounting` that takes it: from a table that agrees with a state it leads to
    one that agrees with the state after the step. */
module ProxyTables {
  import opened Common
  import A = Accounting
  import opened R = SessionRuns

  /** Connection `c` can take its next step from one of these phases. */
  predicate Stands(s: A.State, c: nat, phases: set<A.Phase>) {
    A.Enabled(s, A.Next(c)) && s.conns[c].phase in phases
  }

  function Stepped(s: A.State, c: nat): A.State
    requires A.Enabled(s, A.Next(c))
  {
    A.Apply(s, A.Next(c))
  }

  // ---------------------------------------------------------------- connection tracker

  datatype ConnInfo = ConnInfo(id: nat, protocol: string, src: string, upstream: string)

  class ConnTracker {
    var conns: map<nat, ConnInfo>
    var next: nat
    var live: int
    ghost var owner: map<nat, nat> // the connection behind each entry

    /** Between calls the live counter is the size of the registry, and ids are
        handed out once. */
    ghost predicate Valid()
      reads this
    {
      && live == |conns|
      && (forall id :: id in conns ==> conns[id].id == id && 0 < id <= next)
    }

    ghost predicate Agrees(s: A.State)
      reads this
    {
      owner.Keys == conns.Keys && s.tracked == owner && s.next == next && s.live == live
    }

    constructor ()
      ensures Valid() && conns == map[] && next == 0
      ensures forall targets, proxies :: Agrees(A.Init(targets, proxies))
    {
      conns, next, live, owner := map[], 0, 0, map[];
    }

    /** An unset id is replaced by the next one; a set one is kept. */
    method Register(info: ConnInfo, ghost s: A.State, ghost c: nat) returns (r: ConnInfo)
      modifies this
      ensures r == info.(id := if info.id == 0 then old(next) + 1 else info.id)
      ensures conns == old(conns)[r.id := r] && live == old(live) + 1
      ensures next == if info.id == 0 then old(next) + 1 else old(next)
      ensures old(Valid()) && info.id == 0 ==> Valid() && r.id !in old(conns)
      ensures old(Agrees(s)) && info.id == 0 && Stands(s, c, {A.UPicked, A.TPicked}) ==>
                Stands(Stepped(s, c), c, {A.URegistered, A.TRegistered}) && Agrees(Stepped(Stepped(s, c), c))
    {
      r := enter(info, s, c);
      ghost var s1 := if Stands(s, c, {A.UPicked, A.TPicked}) then Stepped(s, c) else s;
      countUp(s1, c);
    }

    method enter(info: ConnInfo, ghost s: A.State, ghost c: nat) returns (r: ConnInfo)
      modifies `conns, `next, `owner
      ensures r == info.(id := if info.id == 0 then old(next) + 1 else info.id)
      ensures conns == old(conns)[r.id := r] && next == if info.id == 0 then old(next) + 1 else old(next)
      ensures old(Agrees(s)) && info.id == 0 && Stands(s, c, {A.UPicked, A.TPicked}) ==> Agrees(Stepped(s, c))
    {
      r := info;
      if r.id == 0 {
        next := next + 1;
        r := r.(id := next);
      }
      conns := conns[r.id := r];
      owner := owner[r.id := c];
    }

    method countUp(ghost s: A.State, ghost c: nat)
      modifies `live
      ensures live == old(live) + 1
      ensures old(Agrees(s)) && Stands(s, c, {A.URegistered, A.TRegistered}) ==> Agrees(Stepped(s, c))
    {
      live := live + 1;
    }

    /** Forgetting is idempotent: an unknown id changes nothing. */
    method Forget(id: nat, ghost s: A.State, ghost c: nat)
      modifies this
      ensures conns == Without(old(conns), id) && next == old(next)
      ensures live == old(live) - if id in old(conns) then 1 else 0
      ensures old(Valid()) ==> Valid()
      ensures old(Agrees(s)) && Stands(s, c, {A.UReleased, A.TLive}) && s.conns[c].id == id ==>
                var s1 := Stepped(s, c);
                if Stands(s1, c, {A.UForgotten, A.TForgotten}) then Agrees(Stepped(s1, c)) else Agrees(s1)
    {
      var existed := remove(id, s, c);
      if existed {
        ghost var s1 := if Stands(s, c, {A.UReleased, A.TLive}) then Stepped(s, c) else s;
        countDown(s1, c);
      }
    }

    /** The step goes on to the decrement exactly when the entry existed. */
    method remove(id: nat, ghost s: A.State, ghost c: nat) returns (existed: bool)
      modifies `conns, `owner
      ensures conns == Without(old(conns), id) && existed == (id in old(conns))
      ensures old(Agrees(s)) && Stands(s, c, {A.UReleased, A.TLive}) && s.conns[c].id == id ==>
                Agrees(Stepped(s, c)) && existed == Stands(Stepped(s, c), c, {A.UForgotten, A.TForgotten})
    {
      existed := id in conns;
      conns := conns - {id};
      owner := owner - {id};
    }

    method countDown(ghost s: A.State, ghost c: nat)
      modifies `live
      ensures live == old(live) - 1
      ensures old(Agrees(s)) && Stands(s, c, {A.UForgotten, A.TForgotten}) ==> Agrees(Stepped(s, c))
    {
      live := live - 1;
    }

    method Live() returns (n: int)
      ensures n == live && (Valid() ==> n == |conns|)
    {
      n := live;
    }
  }

  // ---------------------------------------------------------------- session table

  /** Sessions idle for longer than the timeout. */
  predicate Idle(s: Session, now: int, timeout: int) {
    now - s.lastActivity > timeout
  }

  /** The sessions a reaping leaves that has yet to visit `todo` ... */
  function Kept(sessions: map<string, Session>, todo: set<string>, now: int, timeout: int): map<string, Session> {
    map k | k in sessions && (k in todo || !Idle(sessions[k], now, timeout)) :: sessions[k]
  }

  /** ... and the connections of those it has taken. */
  function Taken(sessions: map<string, Session>, todo: set<string>, now: int, timeout: int): set<nat> {
    set k | k in sessions && k !in todo && Idle(sessions[k], now, timeout) :: sessions[k].conn
  }

  lemma NothingReaped(sessions: map<string, Session>, now: int, timeout: int)
    ensures Kept(sessions, sessions.Keys, now, timeout) == sessions && Taken(sessions, sessions.Keys, now, timeout) == {}
  {
  }

  lemma ReapTurn(sessions: map<string, Session>, todo: set<string>, now: int, timeout: int, key: string)
    requires key in sessions && key in todo
    ensures key in Kept(sessions, todo, now, timeout) && Kept(sessions, todo, now, timeout)[key] == sessions[key]
    ensures var kept, taken := Kept(sessions, todo, now, timeout), Taken(sessions, todo, now, timeout);
            Kept(sessions, todo - {key}, now, timeout) == (if Idle(sessions[key], now, timeout) then Without(kept, key) else kept)
            && Taken(sessions, todo - {key}, now, timeout)
               == (if Idle(sessions[key], now, timeout) then taken + {sessions[key].conn} else taken)
  {
    if Idle(sessions[key], now, timeout) {
      assert Taken(sessions, todo - {key}, now, timeout) == Taken(sessions, todo, now, timeout) + {sessions[key].conn};
    } else {
      assert Taken(sessions, todo - {key}, now, timeout) == Taken(sessions, todo, now, timeout);
    }
  }

  lemma AllReaped(sessions: map<string, Session>, now: int, timeout: int)
    ensures Kept(sessions, {}, now, timeout) == R.Step(timeout, sessions, R.Reap(now))
    ensures Taken(sessions, {}, now, timeout)
         == set k | k in sessions && now - sessions[k].lastActivity > timeout :: sessions[k].conn
  {
  }

  /** The reaper can take these sessions of listener `p` one after the other. */
  ghost predicate CanReap(s: A.State, p: nat, keys: seq<string>)
    decreases |keys|, 0
  {
    keys == [] || (CanReap(s, p, keys[..|keys| - 1]) &&
                   A.Enabled(AfterReaps(s, p, keys[..|keys| - 1]), A.Reap(p, keys[|keys| - 1])))
  }

  ghost function AfterReaps(s: A.State, p: nat, keys: seq<string>): A.State
    requires CanReap(s, p, keys)
    decreases |keys|, 1
  {
    if keys == [] then s
    else A.Apply(AfterReaps(s, p, keys[..|keys| - 1]), A.Reap(p, keys[|keys| - 1]))
  }

  lemma ReapNone(s: A.State, p: nat)
    ensures CanReap(s, p, []) && AfterReaps(s, p, []) == s
  {
  }

  lemma ReapNext(s: A.State, p: nat, keys: seq<string>, key: string)
    requires CanReap(s, p, keys) && A.Enabled(AfterReaps(s, p, keys), A.Reap(p, key))
    ensures CanReap(s, p, keys + [key])
    ensures AfterReaps(s, p, keys + [key]) == A.Apply(AfterReaps(s, p, keys), A.Reap(p, key))
  {
    assert (keys + [key])[..|keys|] == keys;
  }

  class SessionTable {
    const timeout: int
    var sessions: map<string, Session>
    var activeConns: int
    var totalConns: int
    ghost var reaped: set<nat>

    ghost function Conns(): map<string, nat>
      reads this
    {
      map k | k in sessions :: sessions[k].conn
    }

    /** The table of listener `p`. */
    ghost predicate Agrees(s: A.State, p: nat)
      reads this
    {
      p < |s.listeners| && s.listeners[p].activeConns == activeConns && s.listeners[p].sessions == Conns()
    }

    /** Timeouts below one second fall back to sixty. */
    constructor (timeout: int)
      ensures sessions == map[] && activeConns == totalConns == 0 && reaped == {}
      ensures this.timeout == if timeout < 1000000000 then 60000000000 else timeout
      ensures forall targets, proxies, p: nat :: p < proxies ==> Agrees(A.Init(targets, proxies), p)
    {
      this.timeout := if timeout < 1000000000 then 60000000000 else timeout;
      sessions, activeConns, totalConns, reaped := map[], 0, 0, {};
    }

    /** A hit is a datagram that changes nothing in the accounting machine; the session
        is found first and refreshed after that. */
    method Lookup(key: string, now: int, ghost s: A.State, ghost p: nat, ghost c: nat) returns (conn: Option<nat>)
      modifies `sessions
      ensures conn == if key in old(sessions) then Some(old(sessions)[key].conn) else None
      ensures sessions == if key in old(sessions) then old(sessions)[key := old(sessions)[key].(lastActivity := now)]
                          else old(sessions)
      ensures conn.Some? ==> sessions == R.Step(timeout, old(sessions), R.Touch(key, conn.value, now))
      ensures old(Agrees(s, p)) ==>
                Agrees(s, p) && conn == Common.Lookup(s.listeners[p].sessions, key)
                && (conn.Some? ==> A.Enabled(s, A.Datagram(c, p, key)) && A.Apply(s, A.Datagram(c, p, key)) == s)
    {
      if key !in sessions {
        return None;
      }
      conn := Some(sessions[key].conn);
      Refresh(key, conn.value, now, s, p);
    }

    /** A datagram in either direction: the session's time is set whether or not the key
        still maps to it. */
    method Refresh(key: string, conn: nat, now: int, ghost s: A.State, ghost p: nat)
      modifies `sessions
      ensures sessions == R.Step(timeout, old(sessions), R.Touch(key, conn, now))
      ensures sessions.Keys == old(sessions).Keys
      ensures forall k :: k in sessions ==>
                sessions[k] == if k == key && old(sessions)[k].conn == conn then old(sessions)[k].(lastActivity := now)
                               else old(sessions)[k]
      ensures old(Agrees(s, p)) ==> Agrees(s, p)
    {
      if key in sessions && sessions[key].conn == conn {
        sessions := sessions[key := sessions[key].(lastActivity := now)];
      }
      assert Conns() == old(Conns());
    }

    method Store(key: string, conn: nat, now: int, ghost s: A.State, ghost p: nat)
      modifies `sessions, `activeConns, `totalConns
      ensures sessions == old(sessions)[key := Session(conn, now, false)]
      ensures sessions == R.Step(timeout, old(sessions), R.Put(key, conn, now))
      ensures activeConns == old(activeConns) + 1 && totalConns == old(totalConns) + 1
      ensures old(Agrees(s, p)) && Stands(s, conn, {A.ULive}) && s.conns[conn].proxy == p && s.conns[conn].key == key ==>
                Stands(Stepped(s, conn), conn, {A.UStored}) && Agrees(Stepped(Stepped(s, conn), conn), p)
    {
      put(key, conn, now, s, p);
      ghost var s1 := if Stands(s, conn, {A.ULive}) then Stepped(s, conn) else s;
      count(s1, p, conn);
    }

    method put(key: string, conn: nat, now: int, ghost s: A.State, ghost p: nat)
      modifies `sessions
      ensures sessions == old(sessions)[key := Session(conn, now, false)]
      ensures old(Agrees(s, p)) && Stands(s, conn, {A.ULive}) && s.conns[conn].proxy == p && s.conns[conn].key == key ==>
                Agrees(Stepped(s, conn), p)
    {
      sessions := sessions[key := Session(conn, now, false)];
      assert Conns() == old(Conns())[key := conn];
    }

    method count(ghost s: A.State, ghost p: nat, ghost c: nat)
      modifies `activeConns, `totalConns
      ensures activeConns == old(activeConns) + 1 && totalConns == old(totalConns) + 1
      ensures old(Agrees(s, p)) && Stands(s, c, {A.UStored}) && s.conns[c].proxy == p ==> Agrees(Stepped(s, c), p)
    {
      activeConns := activeConns + 1;
      totalConns := totalConns + 1;
    }

    /** The last part of a reader's cleanup: it deletes whatever the key maps to. */
    method Unmap(key: string, ghost s: A.State, ghost p: nat, ghost c: nat)
      modifies `sessions, `activeConns
      ensures sessions == Without(old(sessions), key) && activeConns == old(activeConns) - 1
      ensures sessions == R.Step(timeout, old(sessions), R.Unmap(key))
      ensures old(Agrees(s, p)) && Stands(s, c, {A.ULiveDown}) && s.conns[c].proxy == p && s.conns[c].key == key ==>
                Stands(Stepped(s, c), c, {A.UUnmapped}) && Agrees(Stepped(Stepped(s, c), c), p)
    {
      drop(key, s, p, c);
      ghost var s1 := if Stands(s, c, {A.ULiveDown}) then Stepped(s, c) else s;
      uncount(s1, p, c);
    }

    method drop(key: string, ghost s: A.State, ghost p: nat, ghost c: nat)
      modifies `sessions
      ensures sessions == Without(old(sessions), key)
      ensures old(Agrees(s, p)) && Stands(s, c, {A.ULiveDown}) && s.conns[c].proxy == p && s.conns[c].key == key ==>
                Agrees(Stepped(s, c), p)
    {
      sessions := sessions - {key};
      assert Conns() == Without(old(Conns()), key);
    }

    method uncount(ghost s: A.State, ghost p: nat, ghost c: nat)
      modifies `activeConns
      ensures activeConns == old(activeConns) - 1
      ensures old(Agrees(s, p)) && Stands(s, c, {A.UUnmapped}) && s.conns[c].proxy == p ==> Agrees(Stepped(s, c), p)
    {
      activeConns := activeConns - 1;
    }

    /** Removes and cancels exactly the idle sessions, as one `Reap` step each;
        `reaped` collects their connections. */
    method Reap(now: int, ghost s: A.State, ghost p: nat) returns (ghost keys: seq<string>)
      modifies `sessions, `reaped
      ensures sessions == R.Step(timeout, old(sessions), R.Reap(now))
      ensures sessions == map k | k in old(sessions) && now - old(sessions)[k].lastActivity <= timeout :: old(sessions)[k]
      ensures reaped == old(reaped) + set k | k in old(sessions) && now - old(sessions)[k].lastActivity > timeout
                                          :: old(sessions)[k].conn
      ensures forall k :: k in keys <==> k in old(sessions) && k !in sessions
      ensures old(Agrees(s, p)) && A.Unlocked(s, p) ==> CanReap(s, p, keys) && Agrees(AfterReaps(s, p, keys), p)
    {
      hide CanReap, AfterReaps, Agrees, Kept, Taken;
      ReapNone(s, p);
      ghost var before := sessions;
      ghost var tied := Agrees(s, p) && A.Unlocked(s, p);
      var todo := sessions.Keys;
      NothingReaped(before, now, timeout);
      keys := [];
      while todo != {}
        invariant todo <= before.Keys
        invariant sessions == Kept(before, todo, now, timeout) && reaped == old(reaped) + Taken(before, todo, now, timeout)
        invariant forall k :: k in keys <==> k in before && k !in todo && Idle(before[k], now, timeout)
        invariant tied ==> CanReap(s, p, keys) && Agrees(AfterReaps(s, p, keys), p)
                           && A.Unlocked(AfterReaps(s, p, keys), p)
        decreases |todo|
      {
        var key := Choose(todo);
        ReapTurn(before, todo, now, timeout, key);
        if now - sessions[key].lastActivity > timeout {
          remove(key, keys, tied, s, p);
          keys := keys + [key];
        }
        todo := todo - {key};
      }
      AllReaped(before, now, timeout);
    }

    /** One turn of the reaper's loop. */
    method remove(key: string, ghost keys: seq<string>, ghost tied: bool, ghost s: A.State, ghost p: nat)
      requires key in sessions
      requires tied ==> CanReap(s, p, keys) && Agrees(AfterReaps(s, p, keys), p) && A.Unlocked(AfterReaps(s, p, keys), p)
      modifies `sessions, `reaped
      ensures sessions == Without(old(sessions), key) && reaped == old(reaped) + {old(sessions)[key].conn}
      ensures tied ==> CanReap(s, p, keys + [key]) && Agrees(AfterReaps(s, p, keys + [key]), p)
                       && A.Unlocked(AfterReaps(s, p, keys + [key]), p)
    {
      if tied { ReapNext(s, p, keys, key); }
      reaped := reaped + {sessions[key].conn};
      sessions := sessions - {key};
      assert Conns() == Without(old(Conns()), key);
    }

    /** Cancels every session and leaves the deletion to the readers. */
    method Stop(ghost s: A.State, ghost p: nat)
      modifies `sessions
      ensures sessions == R.Step(timeout, old(sessions), R.Stop)
      ensures sessions == map k | k in old(sessions) :: old(sessions)[k].(cancelled := true)
      ensures old(Agrees(s, p)) ==> Agrees(s, p)
    {
      ghost var before := sessions;
      var todo := sessions.Keys;
      while todo != {}
        invariant todo <= before.Keys
        invariant sessions == map k | k in before :: if k in todo then before[k] else before[k].(cancelled := true)
        decreases |todo|
      {
        var key := Choose(todo);
        sessions := sessions[key := sessions[key].(cancelled := true)];
        todo := todo - {key};
      }
      assert Conns() == old(Conns());
    }
  }
}
