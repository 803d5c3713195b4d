/** The ban list of internal/l7/inspector.go with its lazy expiry.

    `IsBanned` runs in two critical sections with clock readings in between, so
    other goroutines may ban and unban between them.  `Step` is the machine of
    these sections; the class carries one method per section. */
module BanStore {
  import opened Common

  /** `expiresAt == 0` is a permanent ban. */
  datatype Entry = Entry(expiresAt: int, reason: string)

  /** What a lookup of the last write should answer at time `now`. */
  predicate BannedBy(last: Option<Entry>, now: int) {
    last.Some? && (last.value.expiresAt == 0 || now <= last.value.expiresAt)
  }

  predicate Expired(e: Entry, now: int) {
    0 < e.expiresAt < now
  }

  /** The store after a write section. */
  function Swept(bans: map<string, Entry>, key: string, now: int): map<string, Entry> {
    if key in bans && Expired(bans[key], now) then Without(bans, key) else bans
  }

  // ---------------------------------------------------------------- the store object

  class Store {
    var bans: map<string, Entry>

    constructor ()
      ensures bans == map[]
    {
      bans := map[];
    }

    method Ban(ip: Option<string>, expiresAt: int, reason: string)
      modifies this
      ensures bans == if ip.None? then old(bans) else old(bans)[ip.value := Entry(expiresAt, reason)]
    {
      if ip.Some? {
        bans := bans[ip.value := Entry(expiresAt, reason)];
      }
    }

    method Unban(ip: Option<string>)
      modifies this
      ensures bans == if ip.None? then old(bans) else Without(old(bans), ip.value)
    {
      if ip.Some? {
        bans := bans - {ip.value};
      }
    }

    /** The read section of `IsBanned`. */
    method Read(key: string) returns (found: Option<Entry>)
      ensures found == Lookup(bans, key)
    {
      found := if key in bans then Some(bans[key]) else None;
    }

    /** The write section: re-checks the entry before removing it. */
    method Sweep(key: string, now: int)
      modifies this
      ensures bans == Swept(old(bans), key, now)
      ensures bans == if key in old(bans) && 0 < old(bans)[key].expiresAt < now then Without(old(bans), key) else old(bans)
    {
      if key in bans && bans[key].expiresAt > 0 && now > bans[key].expiresAt {
        bans := bans - {key};
      }
    }

    /** Both sections without interference; `now1` and `now2` are the two clock
        readings. */
    method IsBanned(ip: Option<string>, now1: int, now2: int) returns (banned: bool)
      requires now1 <= now2
      modifies this
      ensures ip.None? || ip.value !in old(bans) ==> !banned
      ensures ip.Some? && ip.value in old(bans) ==>
                (banned <==> old(bans)[ip.value].expiresAt == 0 || now1 <= old(bans)[ip.value].expiresAt)
      ensures bans == if ip.Some? then Swept(old(bans), ip.value, now1) else old(bans)
      ensures ip.Some? && ip.value in old(bans) && 0 < old(bans)[ip.value].expiresAt < now1 ==> ip.value !in bans
    {
      if ip.None? {
        return false;
      }
      var e := Read(ip.value);
      if e.None? {
        return false;
      }
      if e.value.expiresAt == 0 {
        return true;
      }
      if now1 > e.value.expiresAt {
        Sweep(ip.value, now2);
        return false;
      }
      return true;
    }
  }

  // ---------------------------------------------------------------- the interleaved machine

  /** One atomic action.  `Read`, `Decide` and `Sweep` are the parts of the
      `IsBanned` call numbered `call`. */
  datatype Action =
    | Ban(key: string, entry: Entry)
    | Unban(key: string)
    | Read(call: nat, key: string)
    | Decide(call: nat, now: int)
    | Sweep(call: nat, now: int)

  /** Where an `IsBanned` call stands; `readAt` numbers its read among the actions. */
  datatype Call =
    | Looked(key: string, found: Option<Entry>, readAt: nat)
    | Stale(key: string)

  datatype Answer = Answer(key: string, readAt: nat, now: int, banned: bool)

  datatype State = State(
    bans: map<string, Entry>,
    calls: map<nat, Call>,
    answers: seq<Answer>,
    clock: int,
    steps: nat)

  function Init(clock: int): State {
    State(map[], map[], [], clock, 0)
  }

  predicate Enabled(s: State, a: Action) {
    match a
    case Ban(_, _) => true
    case Unban(_) => true
    case Read(call, _) => call !in s.calls
    case Decide(call, now) => call in s.calls && s.calls[call].Looked? && s.clock <= now
    case Sweep(call, now) => call in s.calls && s.calls[call].Stale? && s.clock <= now
  }

  function Step(s: State, a: Action): State
    requires Enabled(s, a)
  {
    var s := s.(steps := s.steps + 1);
    match a
    case Ban(key, entry) => s.(bans := s.bans[key := entry])
    case Unban(key) => s.(bans := Without(s.bans, key))
    case Read(call, key) =>
      s.(calls := s.calls[call := Looked(key, Lookup(s.bans, key), s.steps - 1)])
    case Decide(call, now) =>
      var c := s.calls[call];
      var banned := c.found.Some? && (c.found.value.expiresAt == 0 || !(now > c.found.value.expiresAt));
      s.(clock := now,
         answers := s.answers + [Answer(c.key, c.readAt, now, banned)],
         calls := if c.found.Some? && !banned then s.calls[call := Stale(c.key)]
                  else Without(s.calls, call))
    case Sweep(call, now) =>
      s.(clock := now,
         bans := Swept(s.bans, s.calls[call].key, now),
         calls := Without(s.calls, call))
  }

  /** `run[i]` is taken in the i-th state reached from an empty store. */
  ghost predicate Runs(clock: int, run: seq<Action>)
    decreases |run|, 0
  {
    run == [] || (var init := run[..|run| - 1];
                  Runs(clock, init) && Enabled(After(clock, init), run[|run| - 1]))
  }

  ghost function After(clock: int, run: seq<Action>): State
    requires Runs(clock, run)
    decreases |run|, 1
  {
    if run == [] then Init(clock)
    else Step(After(clock, run[..|run| - 1]), run[|run| - 1])
  }

  /** The specification: the last `Ban` or `Unban` of the key decides. */
  function LastWrite(run: seq<Action>, key: string): Option<Entry> {
    if run == [] then None
    else
      match run[|run| - 1]
      case Ban(k, e) => if k == key then Some(e) else LastWrite(run[..|run| - 1], key)
      case Unban(k) => if k == key then None else LastWrite(run[..|run| - 1], key)
      case _ => LastWrite(run[..|run| - 1], key)
  }

  /** A looked-up result agrees with the last write, except that an expired
      write may be missing. */
  predicate Agrees(found: Option<Entry>, last: Option<Entry>, clock: int) {
    found == last || (found.None? && Expired(last.value, clock))
  }

  ghost predicate Refines(s: State, run: seq<Action>) {
    && s.steps == |run|
    && (forall key :: Agrees(Lookup(s.bans, key), LastWrite(run, key), s.clock))
    && (forall call :: call in s.calls && s.calls[call].Looked? ==>
          var c := s.calls[call];
          c.readAt <= |run| && Agrees(c.found, LastWrite(run[..c.readAt], c.key), s.clock))
    && (forall i :: 0 <= i < |s.answers| ==>
          var a := s.answers[i];
          a.readAt <= |run| && a.banned == BannedBy(LastWrite(run[..a.readAt], a.key), a.now))
  }

  lemma StepRefines(s: State, run: seq<Action>, a: Action)
    requires Refines(s, run) && Enabled(s, a)
    ensures Refines(Step(s, a), run + [a])
  {
    var s', run' := Step(s, a), run + [a];
    assert run'[..|run|] == run;
    assert forall r: nat :: r <= |run| ==> run'[..r] == run[..r];
    forall key ensures Agrees(Lookup(s'.bans, key), LastWrite(run', key), s'.clock) {
      assert Agrees(Lookup(s.bans, key), LastWrite(run, key), s.clock);
    }
    forall call | call in s'.calls && s'.calls[call].Looked?
      ensures var c := s'.calls[call];
              c.readAt <= |run'| && Agrees(c.found, LastWrite(run'[..c.readAt], c.key), s'.clock)
    {
      if a.Read? && call == a.call {
        assert run'[..|run|] == run;
      } else {
        assert s'.calls[call] == s.calls[call];
      }
    }
  }

  lemma {:induction false} RunRefines(clock: int, run: seq<Action>)
    requires Runs(clock, run)
    ensures Refines(After(clock, run), run)
    decreases |run|
  {
    if run != [] {
      var init := run[..|run| - 1];
      RunRefines(clock, init);
      StepRefines(After(clock, init), init, run[|run| - 1]);
      assert init + [run[|run| - 1]] == run;
    }
  }

  /** In every interleaving, a ban that is permanent or not yet expired is in the
      store exactly as it was last written, and an unbanned address is not. */
  lemma {:induction false} LiveBansAreKept(clock: int, run: seq<Action>, key: string)
    requires Runs(clock, run)
    ensures var s := After(clock, run);
            var last := LastWrite(run, key);
            && (last.Some? && (last.value.expiresAt <= 0 || s.clock <= last.value.expiresAt) ==> Lookup(s.bans, key) == last)
            && (last.None? ==> key !in s.bans)
  {
    RunRefines(clock, run);
    var s := After(clock, run);
    assert Agrees(Lookup(s.bans, key), LastWrite(run, key), s.clock);
  }

  /** The run bans the key with this entry and writes it no more. */
  ghost predicate WroteLast(run: seq<Action>, key: string, entry: Entry) {
    exists j :: 0 <= j < |run| && run[j] == Ban(key, entry) && Untouched(run, j + 1, key)
  }

  /** No write of the key from position `j` on. */
  predicate Untouched(run: seq<Action>, j: nat, key: string) {
    forall k :: j <= k < |run| ==> !((run[k].Ban? || run[k].Unban?) && run[k].key == key)
  }

  /** The key is unbanned and written no more, or never written. */
  ghost predicate Unwritten(run: seq<Action>, key: string) {
    Untouched(run, 0, key) || exists j :: 0 <= j < |run| && run[j] == Unban(key) && Untouched(run, j + 1, key)
  }

  lemma {:induction false} LastWriteIs(run: seq<Action>, key: string)
    ensures forall entry :: WroteLast(run, key, entry) ==> LastWrite(run, key) == Some(entry)
    ensures Unwritten(run, key) ==> LastWrite(run, key) == None
    decreases |run|
  {
    if run != [] {
      var n := |run| - 1;
      var init := run[..n];
      LastWriteIs(init, key);
      if !((run[n].Ban? || run[n].Unban?) && run[n].key == key) {
        forall entry | WroteLast(run, key, entry) ensures WroteLast(init, key, entry) {
          var j :| 0 <= j < |run| && run[j] == Ban(key, entry) && Untouched(run, j + 1, key);
          assert init[j] == run[j] && Untouched(init, j + 1, key);
        }
        if Unwritten(run, key) && !Untouched(run, 0, key) {
          var j :| 0 <= j < |run| && run[j] == Unban(key) && Untouched(run, j + 1, key);
          assert init[j] == run[j] && Untouched(init, j + 1, key);
        }
      }
    }
  }

  /** In every interleaving, if the last write of the key before a call read the store
      is a ban, the call answers true exactly when the ban is permanent or the reading
      is not past its end; after an unban, or without a write, it answers false. */
  lemma AnswersFollowLastWrite(clock: int, run: seq<Action>, i: nat)
    requires Runs(clock, run) && i < |After(clock, run).answers|
    ensures var a := After(clock, run).answers[i];
            a.readAt <= |run|
            && (forall entry :: WroteLast(run[..a.readAt], a.key, entry) ==>
                  (a.banned <==> entry.expiresAt == 0 || a.now <= entry.expiresAt))
            && (Unwritten(run[..a.readAt], a.key) ==> !a.banned)
  {
    var a := After(clock, run).answers[i];
    LastWriteIs(run[..(if a.readAt <= |run| then a.readAt else |run|)], a.key);
    RunRefines(clock, run);
  }
}
