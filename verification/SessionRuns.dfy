/** Runs of the UDP session table of internal/proxy/udp.go: which sessions are still
    mapped, told from the run alone. */
module SessionRuns {
  import opened Common

  /** `lastActivity` and `cancelled` are shared with the session's reader. */
  datatype Session = Session(conn: nat, lastActivity: int, cancelled: bool)

  type Table = map<string, Session>

  /** `Touch` is the refresh after a datagram of the client or of the upstream: it goes
      to one session, whether or not the key still maps to it. */
  datatype Op =
    | Put(key: string, conn: nat, now: int)
    | Touch(key: string, conn: nat, now: int)
    | Unmap(key: string)
    | Reap(now: int)
    | Stop

  function Step(timeout: int, t: Table, op: Op): Table {
    match op
    case Put(key, conn, now) => t[key := Session(conn, now, false)]
    case Touch(key, conn, now) =>
      if key in t && t[key].conn == conn then t[key := t[key].(lastActivity := now)] else t
    case Unmap(key) => Without(t, key)
    case Reap(now) => map k | k in t && now - t[k].lastActivity <= timeout :: t[k]
    case Stop => map k | k in t :: t[k].(cancelled := true)
  }

  function Run(timeout: int, ops: seq<Op>): Table {
    if ops == [] then map[] else Step(timeout, Run(timeout, ops[..|ops| - 1]), ops[|ops| - 1])
  }

  predicate Timed(op: Op) {
    op.Put? || op.Touch? || op.Reap?
  }

  ghost predicate Ordered(ops: seq<Op>) {
    forall i, j :: 0 <= i < j < |ops| && Timed(ops[i]) && Timed(ops[j]) ==> ops[i].now <= ops[j].now
  }

  predicate Touches(op: Op, key: string, conn: nat) {
    (op.Put? || op.Touch?) && op.key == key && op.conn == conn
  }

  /** A datagram of the session, or its creation, at most `timeout` before `now`. */
  ghost predicate Recent(timeout: int, ops: seq<Op>, key: string, conn: nat, i: nat, j: nat, now: int)
    requires j <= |ops|
  {
    exists h :: i <= h < j && Touches(ops[h], key, conn) && now - ops[h].now <= timeout
  }

  /** The `j`-th operation does not end the session mapped by the `i`-th. */
  ghost predicate Survives(timeout: int, ops: seq<Op>, key: string, conn: nat, i: nat, j: nat)
    requires j < |ops|
  {
    match ops[j]
    case Put(k, _, _) => k != key
    case Unmap(k) => k != key
    case Reap(now) => Recent(timeout, ops, key, conn, i, j, now)
    case _ => true
  }

  ghost predicate Lives(timeout: int, ops: seq<Op>, key: string, conn: nat, i: nat) {
    && i < |ops| && ops[i].Put? && ops[i].key == key && ops[i].conn == conn
    && forall j :: i < j < |ops| ==> Survives(timeout, ops, key, conn, i, j)
  }

  /** The last thing heard of the session. */
  ghost predicate LastTouch(ops: seq<Op>, key: string, conn: nat, h: nat) {
    && h < |ops| && Touches(ops[h], key, conn)
    && forall j :: h < j < |ops| ==> !Touches(ops[j], key, conn)
  }

  lemma {:induction false} ActivityIsLastTouch(timeout: int, ops: seq<Op>, key: string) returns (h: nat)
    requires key in Run(timeout, ops)
    ensures LastTouch(ops, key, Run(timeout, ops)[key].conn, h) && Run(timeout, ops)[key].lastActivity == ops[h].now
  {
    var n := |ops| - 1;
    var conn := Run(timeout, ops)[key].conn;
    if Touches(ops[n], key, conn) {
      h := n;
    } else {
      h := ActivityIsLastTouch(timeout, ops[..n], key);
    }
  }

  lemma LivesPrefix(timeout: int, ops: seq<Op>, op: Op, key: string, conn: nat, i: nat)
    requires i < |ops|
    ensures Lives(timeout, ops + [op], key, conn, i)
       <==> Lives(timeout, ops, key, conn, i) && Survives(timeout, ops + [op], key, conn, i, |ops|)
  {
    forall j: nat | i < j < |ops|
      ensures Survives(timeout, ops + [op], key, conn, i, j) <==> Survives(timeout, ops, key, conn, i, j)
    {
      assert forall h :: 0 <= h < j ==> (ops + [op])[h] == ops[h];
    }
  }

  lemma LastStep(timeout: int, ops: seq<Op>, op: Op)
    ensures Run(timeout, ops + [op]) == Step(timeout, Run(timeout, ops), op)
  {
    assert (ops + [op])[..|ops|] == ops;
  }

  /** What the reaper decides is whether the session was heard of within the timeout. */
  lemma ReapKeepsRecent(timeout: int, ops: seq<Op>, key: string, i: nat, now: int)
    requires Ordered(ops) && key in Run(timeout, ops) && i < |ops|
    requires Touches(ops[i], key, Run(timeout, ops)[key].conn)
    ensures key in Run(timeout, ops + [Reap(now)])
       <==> Recent(timeout, ops, key, Run(timeout, ops)[key].conn, i, |ops|, now)
  {
    LastStep(timeout, ops, Reap(now));
    var h := ActivityIsLastTouch(timeout, ops, key);
    assert i <= h;
  }

  predicate Maps(t: Table, key: string, conn: nat) {
    key in t && t[key].conn == conn
  }

  /** The next operation leaves a mapped session mapped exactly when it does not end it. */
  lemma SurvivesIff(timeout: int, ops: seq<Op>, op: Op, key: string, conn: nat, i: nat)
    requires Ordered(ops) && Maps(Run(timeout, ops), key, conn) && Lives(timeout, ops, key, conn, i)
    requires !(op.Put? && op.key == key && op.conn == conn)
    ensures Maps(Run(timeout, ops + [op]), key, conn) <==> Survives(timeout, ops + [op], key, conn, i, |ops|)
  {
    LastStep(timeout, ops, op);
    if op.Reap? {
      ReapKeepsRecent(timeout, ops, key, i, op.now);
      assert forall h :: 0 <= h < |ops| ==> (ops + [op])[h] == ops[h];
    }
  }

  lemma MappedStep(timeout: int, ops: seq<Op>, op: Op, key: string, conn: nat)
    requires Ordered(ops) && !(op.Put? && op.key == key && op.conn == conn)
    requires Maps(Run(timeout, ops), key, conn) <==> exists i: nat :: Lives(timeout, ops, key, conn, i)
    ensures Maps(Run(timeout, ops + [op]), key, conn) <==> exists i: nat :: Lives(timeout, ops + [op], key, conn, i)
  {
    forall i: nat | Lives(timeout, ops + [op], key, conn, i)
      ensures Lives(timeout, ops, key, conn, i) && Maps(Run(timeout, ops + [op]), key, conn)
    {
      LivesPrefix(timeout, ops, op, key, conn, i);
      SurvivesIff(timeout, ops, op, key, conn, i);
    }
    forall i: nat | Lives(timeout, ops, key, conn, i) && Maps(Run(timeout, ops + [op]), key, conn)
      ensures Lives(timeout, ops + [op], key, conn, i)
    {
      LivesPrefix(timeout, ops, op, key, conn, i);
      SurvivesIff(timeout, ops, op, key, conn, i);
    }
    LastStep(timeout, ops, op);
    hide Lives, Survives;
  }

  /** After any run a client is mapped to a session exactly when that session was put and
      since then neither replaced nor unmapped, and every reaping came at most `timeout`
      after something was heard of it. */
  lemma {:induction false} MappedIff(timeout: int, ops: seq<Op>, key: string, conn: nat)
    requires Ordered(ops)
    ensures Maps(Run(timeout, ops), key, conn) <==> exists i: nat :: Lives(timeout, ops, key, conn, i)
  {
    if ops != [] {
      var n, op := |ops| - 1, ops[|ops| - 1];
      assert ops == ops[..n] + [op];
      MappedIff(timeout, ops[..n], key, conn);
      if op.Put? && op.key == key && op.conn == conn {
        assert Lives(timeout, ops, key, conn, n);
      } else {
        MappedStep(timeout, ops[..n], op, key, conn);
      }
    }
  }
}
