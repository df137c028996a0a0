/**
  The session table of the QUIC gateway. Goroutines open a backend connection, put it in the table, take
  sessions out by key and close them, each under the table's lock only for one step; every method of
  SessionTable is one such step, and the goroutines below run with any steps of others between their own.
  */
module Sessions {
  import opened Text
  import opened World

  /** A session and its backend connection; `closes` counts the gateway's calls of Close on it. */
  class Session {
    var lastActivity: int
    var closes: nat

    constructor (now: int)
      ensures lastActivity == now && closes == 0
    {
      lastActivity, closes := now, 0;
    }
  }

  /** What the goroutines share at one moment. */
  datatype Snapshot = Snapshot(sessions: map<string, Session>, held: set<Session>, closing: set<Session>,
      everOpened: set<Session>)
  {
    /** Out of the table for good: closed, or about to be. */
    ghost predicate Gone(s: Session) {
      s in everOpened && s !in held && s !in sessions.Values
    }

    /** In no other place of the table than under `key`. */
    ghost predicate Only(key: string, s: Session) {
      s in everOpened && s !in held && forall k :: k in sessions && sessions[k] == s ==> k == key
    }
  }

  /**
    What any goroutine leaves true of the sessions opened before: none comes back to the table, is moved
    to another key or is held again, and those of `mine` stay where they are.
    */
  ghost predicate Onward(before: Snapshot, after: Snapshot, mine: set<Session>) {
    && before.everOpened <= after.everOpened
    && after.held * before.everOpened <= before.held
    && (forall k :: k in after.sessions && after.sessions[k] in before.everOpened - before.held ==>
          k in before.sessions && before.sessions[k] == after.sessions[k])
    && mine * before.held <= after.held && mine * before.closing <= after.closing
  }

  lemma OnwardTrans(a: Snapshot, b: Snapshot, c: Snapshot, mine: set<Session>)
    ensures Onward(a, a, mine)
    ensures Onward(a, b, mine) && Onward(b, c, mine) ==> Onward(a, c, mine)
  {
  }

  lemma StaysGone(a: Snapshot, b: Snapshot, mine: set<Session>, key: string, s: Session)
    requires Onward(a, b, mine)
    ensures a.Gone(s) ==> b.Gone(s)
    ensures a.Only(key, s) ==> b.Only(key, s)
  {
  }

  /**
    `held` are the sessions whose goroutine has not reached the table yet, and `closing` those that a
    goroutine has taken out, or found no place for, and is about to close.
    */
  class SessionTable {
    var sessions: map<string, Session>
    var held: set<Session>
    var closing: set<Session>
    ghost var everOpened: set<Session>

    constructor ()
      ensures Valid() && sessions == map[] && everOpened == {}
    {
      sessions, held, closing, everOpened := map[], {}, {}, {};
    }

    /** Every opened connection is exactly one of: held, in the table once, about to be closed, closed once. */
    ghost predicate Valid()
      reads this, everOpened`closes
    {
      && held + sessions.Values + closing <= everOpened
      && held !! sessions.Values && held !! closing && closing !! sessions.Values
      && (forall k, l :: k in sessions && l in sessions && sessions[k] == sessions[l] ==> k == l)
      && (forall s :: s in everOpened ==>
          s.closes == if s in held || s in sessions.Values || s in closing then 0 else 1)
    }

    ghost function Now(): Snapshot
      reads this
    {
      Snapshot(sessions, held, closing, everOpened)
    }

    /** The connection of a new session is open; nobody else knows it. */
    method Open(now: int) returns (s: Session)
      requires Valid()
      modifies this`held, this`everOpened
      ensures Valid() && fresh(s) && held == old(held) + {s} && everOpened == old(everOpened) + {s}
    {
      s := new Session(now);
      held, everOpened := held + {s}, everOpened + {s};
    }

    /** The locked part of newSession: the first session of a client stays, a later one is to be closed. */
    method InsertSession(key: string, s: Session) returns (inserted: bool)
      requires Valid() && s in held
      modifies this`sessions, this`held, this`closing
      ensures Valid() && inserted == (key !in old(sessions)) && held == old(held) - {s}
      ensures sessions == if inserted then old(sessions)[key := s] else old(sessions)
      ensures closing == if inserted then old(closing) else old(closing) + {s}
    {
      held := held - {s};
      inserted := key !in sessions;
      if inserted {
        ghost var before := sessions;
        sessions := sessions[key := s];
        assert sessions.Values == before.Values + {s} by {
          assert sessions[key] == s;
          assert forall k :: k in before ==> sessions[k] == before[k];
        }
      } else {
        closing := closing + {s};
      }
    }

    /** The locked part of remove. */
    method TakeOut(key: string) returns (taken: Option<Session>)
      requires Valid()
      modifies this`sessions, this`closing
      ensures Valid() && sessions == old(sessions) - {key}
      ensures taken == if key in old(sessions) then Some(old(sessions)[key]) else None
      ensures closing == if taken.Some? then old(closing) + {taken.value} else old(closing)
    {
      if key in sessions {
        ghost var before := sessions;
        taken := Some(sessions[key]);
        sessions := sessions - {key};
        closing := closing + {taken.value};
        assert before.Values == sessions.Values + {taken.value} by {
          assert forall k :: k in before && k != key ==> sessions[k] == before[k];
        }
      } else {
        taken := None;
      }
    }

    /** Close, after the lock is released. */
    method CloseTaken(s: Session)
      requires Valid() && s in closing
      modifies this`closing, s`closes
      ensures Valid() && closing == old(closing) - {s} && s.closes == 1
    {
      s.closes := s.closes + 1;
      closing := closing - {s};
    }

    /** close: everything in the table is closed and dropped under one lock; nothing else is closed again. */
    method Shutdown()
      requires Valid()
      modifies this`sessions, everOpened`closes
      ensures Valid() && sessions == map[]
      ensures forall s :: s in everOpened ==> s.closes == if s in old(sessions.Values) then 1 else old(s.closes)
    {
      hide Valid;
      while sessions != map[]
        invariant Valid() && sessions.Keys <= old(sessions.Keys) && sessions.Values <= old(sessions.Values)
        decreases sessions.Keys
      {
        CloseOne();
      }
      OnlyTableClosed();
    }

    twostate lemma OnlyTableClosed()
      requires old(Valid()) && Valid() && sessions == map[]
      requires everOpened == old(everOpened) && held == old(held) && closing == old(closing)
      ensures forall s :: s in everOpened ==> s.closes == if s in old(sessions.Values) then 1 else old(s.closes)
    {
    }

    /** One turn of that loop. */
    method CloseOne()
      requires Valid() && sessions != map[]
      modifies this`sessions, everOpened`closes
      ensures Valid() && sessions.Keys < old(sessions.Keys) && sessions.Values <= old(sessions.Values)
    {
      assert sessions.Keys != {} by {
        assert sessions.Keys == {} ==> sessions == map[];
      }
      var key :| key in sessions.Keys;
      ghost var before := sessions;
      var s := sessions[key];
      s.closes := s.closes + 1;
      sessions := sessions - {key};
      assert before.Values == sessions.Values + {s} by {
        assert forall k :: k in before && k != key ==> sessions[k] == before[k];
      }
    }

    /** The keys idle for longer than `maxIdle`, in any order: the first loop of gcOnce. */
    method StaleKeys(now: int, maxIdle: int) returns (stale: seq<string>)
      ensures forall k :: k in stale <==> k in sessions && now - sessions[k].lastActivity > maxIdle
    {
      stale := [];
      var rest := sessions.Keys;
      while rest != {}
        invariant rest <= sessions.Keys
        invariant forall k :: k in stale <==> k in sessions && k !in rest && now - sessions[k].lastActivity > maxIdle
        decreases |rest|
      {
        var key :| key in rest;
        if now - sessions[key].lastActivity > maxIdle {
          stale := stale + [key];
        }
        rest := rest - {key};
      }
    }
  }

  /**
    Any number of steps of other goroutines, none when this one is `alone`; they do not touch what this one holds or
    is about to close.
    */
  method Others(t: SessionTable, mine: set<Session>, alone: bool)
    requires t.Valid()
    modifies t, t.everOpened
    ensures t.Valid() && Onward(old(t.Now()), t.Now(), mine) && fresh(t.everOpened - old(t.everOpened))
    ensures alone ==> t.Now() == old(t.Now())
  {
    hide SessionTable.Valid, Onward;
    OnwardTrans(t.Now(), t.Now(), t.Now(), mine);
    var steps: nat := Any();
    for n := 0 to if alone then 0 else steps
      invariant t.Valid() && Onward(old(t.Now()), t.Now(), mine) && fresh(t.everOpened - old(t.everOpened))
      invariant n == 0 ==> t.Now() == old(t.Now())
    {
      ghost var before := t.Now();
      Step(t, mine);
      OnwardTrans(old(t.Now()), before, t.Now(), mine);
    }
  }

  method Step(t: SessionTable, mine: set<Session>)
    requires t.Valid()
    modifies t, t.everOpened
    ensures t.Valid() && Onward(old(t.Now()), t.Now(), mine) && fresh(t.everOpened - old(t.everOpened))
  {
    var key: string := Any();
    var now: int := Any();
    if {
      case true =>
        var _ := t.Open(now);
      case exists s :: s in t.held && s !in mine =>
        var s :| s in t.held && s !in mine;
        var _ := t.InsertSession(key, s);
      case true =>
        var _ := t.TakeOut(key);
      case exists s :: s in t.closing && s !in mine =>
        var s :| s in t.closing && s !in mine;
        t.CloseTaken(s);
      case key in t.sessions =>
        t.sessions[key].lastActivity := now;
      case true =>
        t.Shutdown();
    }
  }

  /** remove: whatever session has the key now is closed by this goroutine and no other. */
  method Remove(t: SessionTable, key: string, alone: bool)
    requires t.Valid()
    modifies t, t.everOpened
    ensures t.Valid() && Onward(old(t.Now()), t.Now(), {}) && fresh(t.everOpened - old(t.everOpened))
    ensures key in old(t.sessions) ==> old(t.sessions)[key].closes == 1
    ensures forall s :: old(t.Now()).Only(key, s) ==> t.Now().Gone(s)
    ensures alone ==> t.sessions == old(t.sessions) - {key}
  {
    var taken := t.TakeOut(key);
    if taken.Some? {
      Others(t, {taken.value}, alone);
      t.CloseTaken(taken.value);
    }
  }

  /** Remove, after any steps of others. */
  method RemoveOne(t: SessionTable, key: string, alone: bool)
    requires t.Valid()
    modifies t, t.everOpened
    ensures t.Valid() && Onward(old(t.Now()), t.Now(), {}) && fresh(t.everOpened - old(t.everOpened))
    ensures forall s :: old(t.Now()).Only(key, s) ==> t.Now().Gone(s)
    ensures alone ==> t.sessions == old(t.sessions) - {key}
  {
    hide Onward, SessionTable.Valid;
    ghost var start := t.Now();
    Others(t, {}, alone);
    ghost var middle := t.Now();
    Remove(t, key, alone);
    OnwardTrans(start, middle, t.Now(), {});
    forall s | start.Only(key, s) ensures t.Now().Gone(s) {
      StaysGone(start, middle, {}, key, s);
    }
  }

  /** The end of newSession for a session that found its client's key taken, or not. */
  method TryInsert(t: SessionTable, key: string, s: Session, alone: bool) returns (inserted: bool)
    requires t.Valid() && s in t.held
    modifies t, t.everOpened
    ensures t.Valid() && Onward(old(t.Now()), t.Now(), {}) && fresh(t.everOpened - old(t.everOpened))
    ensures if inserted then t.Now().Only(key, s) else t.Now().Gone(s) && s.closes == 1
  {
    inserted := t.InsertSession(key, s);
    if !inserted {
      Others(t, {s}, alone);
      t.CloseTaken(s);
    }
  }

  /** The connection is open and its goroutine on its way to the table. */
  method OpenHeld(t: SessionTable, now: int, alone: bool) returns (s: Session)
    requires t.Valid()
    modifies t, t.everOpened
    ensures t.Valid() && Onward(old(t.Now()), t.Now(), {}) && fresh(t.everOpened - old(t.everOpened))
    ensures fresh(s) && s in t.held
  {
    s := t.Open(now);
    Others(t, {s}, alone);
  }

  /** newSession from the open connection on; `s` is the session it opened. */
  method NewSession(t: SessionTable, key: string, now: int, writeFails: bool, turns: nat, alone: bool)
      returns (s: Session, inserted: bool, ended: bool)
    requires t.Valid()
    modifies t, t.everOpened
    ensures t.Valid() && Onward(old(t.Now()), t.Now(), {}) && fresh(t.everOpened - old(t.everOpened))
    ensures fresh(s) && s in t.everOpened && s !in t.held
    ensures !inserted ==> s.closes == 1
    ensures (ended ==> t.Now().Gone(s)) && (!inserted || writeFails ==> ended)
  {
    hide Onward, SessionTable.Valid;
    ghost var start := t.Now();
    s := OpenHeld(t, now, alone);
    ghost var open := t.Now();
    inserted := TryInsert(t, key, s, alone);
    OnwardTrans(start, open, t.Now(), {});
    ended := !inserted;
    if inserted {
      ghost var tabled := t.Now();
      ended := Forward(t, key, s, writeFails, turns, alone);
      OnwardTrans(start, tabled, t.Now(), {});
    }
  }

  /** The first write of the new session, and its relay. */
  method Forward(t: SessionTable, key: string, s: Session, writeFails: bool, turns: nat, alone: bool)
      returns (ended: bool)
    requires t.Valid() && t.Now().Only(key, s)
    modifies t, t.everOpened
    ensures t.Valid() && Onward(old(t.Now()), t.Now(), {}) && fresh(t.everOpened - old(t.everOpened))
    ensures s in t.everOpened && s !in t.held && (ended ==> t.Now().Gone(s)) && (writeFails ==> ended)
  {
    hide Onward, SessionTable.Valid;
    if writeFails {
      RemoveOne(t, key, alone);
      ended := true;
    } else {
      ghost var start := t.Now();
      Others(t, {}, alone);
      ghost var later := t.Now();
      StaysGone(start, later, {}, key, s);
      ended := Relay(t, key, s, turns, alone);
      OnwardTrans(start, later, t.Now(), {});
    }
  }

  /** One turn of relay: a read, which counts as activity at that moment, and a write to the client. */
  method RelayTurn(t: SessionTable, key: string, s: Session, now: int, readFails: bool, writeFails: bool, alone: bool)
      returns (ended: bool)
    requires t.Valid() && t.Now().Only(key, s)
    modifies t, t.everOpened
    ensures t.Valid() && Onward(old(t.Now()), t.Now(), {}) && fresh(t.everOpened - old(t.everOpened))
    ensures t.Now().Only(key, s) && (ended ==> t.Now().Gone(s))
    ensures (ended <==> readFails || writeFails) && (!ended ==> s.lastActivity == now)
  {
    if readFails {
      RemoveOne(t, key, alone);
      return true;
    }
    Others(t, {}, alone);
    s.lastActivity := now;
    if writeFails {
      RemoveOne(t, key, alone);
      return true;
    }
    ended := false;
  }

  /** relay, for any number of turns: when it ends, its session is out of the table and closed, or about to be. */
  method Relay(t: SessionTable, key: string, s: Session, turns: nat, alone: bool) returns (ended: bool)
    requires t.Valid() && t.Now().Only(key, s)
    modifies t, t.everOpened
    ensures t.Valid() && Onward(old(t.Now()), t.Now(), {}) && fresh(t.everOpened - old(t.everOpened))
    ensures s in t.everOpened && s !in t.held && (ended ==> t.Now().Gone(s))
  {
    hide Onward, SessionTable.Valid;
    OnwardTrans(t.Now(), t.Now(), t.Now(), {});
    for turn := 0 to turns
      invariant t.Valid() && Onward(old(t.Now()), t.Now(), {}) && fresh(t.everOpened - old(t.everOpened))
      invariant t.Now().Only(key, s)
    {
      ghost var before := t.Now();
      var now: int := Any();
      var readFails: bool, writeFails: bool := *, *;
      ended := RelayTurn(t, key, s, now, readFails, writeFails, alone);
      OnwardTrans(old(t.Now()), before, t.Now(), {});
      if ended {
        return;
      }
    }
    ended := false;
  }

  /** gcOnce: what was idle for too long is out of the table; left alone, nothing else is. */
  method GcOnce(t: SessionTable, now: int, maxIdle: int, alone: bool)
    requires t.Valid()
    modifies t, t.everOpened
    ensures t.Valid() && Onward(old(t.Now()), t.Now(), {}) && fresh(t.everOpened - old(t.everOpened))
    ensures forall k :: k in old(t.sessions) && now - old(t.sessions[k].lastActivity) > maxIdle ==>
              t.Now().Gone(old(t.sessions)[k])
    ensures alone ==>
              t.sessions == map k | k in old(t.sessions) && now - old(t.sessions[k].lastActivity) <= maxIdle ::
                  old(t.sessions)[k]
  {
    hide Onward;
    var stale := t.StaleKeys(now, maxIdle);
    RemoveAll(t, stale, alone);
  }

  /** The second loop of gcOnce. */
  method RemoveAll(t: SessionTable, stale: seq<string>, alone: bool)
    requires t.Valid() && forall k :: k in stale ==> k in t.sessions
    modifies t, t.everOpened
    ensures t.Valid() && Onward(old(t.Now()), t.Now(), {}) && fresh(t.everOpened - old(t.everOpened))
    ensures forall k :: k in stale ==> t.Now().Gone(old(t.sessions)[k])
    ensures alone ==> t.sessions == old(t.sessions) - (set k | k in stale)
  {
    hide Onward, SessionTable.Valid;
    ghost var start := t.Now();
    OnwardTrans(start, start, start, {});
    TableIsOnly(t);
    for n := 0 to |stale|
      invariant t.Valid() && Onward(start, t.Now(), {}) && fresh(t.everOpened - start.everOpened)
      invariant forall j :: 0 <= j < |stale| ==> t.Now().Only(stale[j], start.sessions[stale[j]])
      invariant forall j :: 0 <= j < n ==> t.Now().Gone(start.sessions[stale[j]])
      invariant alone ==> t.sessions == start.sessions - set k | k in stale[..n]
    {
      ghost var before := t.Now();
      RemoveOne(t, stale[n], alone);
      OnwardTrans(start, before, t.Now(), {});
      forall j | 0 <= j < |stale|
        ensures t.Now().Only(stale[j], start.sessions[stale[j]])
        ensures j < n ==> t.Now().Gone(start.sessions[stale[j]])
      {
        StaysGone(before, t.Now(), {}, stale[j], start.sessions[stale[j]]);
      }
      assert stale[..n + 1] == stale[..n] + [stale[n]];
    }
    assert stale[..|stale|] == stale;
  }

  lemma TableIsOnly(t: SessionTable)
    requires t.Valid()
    ensures forall k :: k in t.sessions ==> t.Now().Only(k, t.sessions[k])
  {
  }
}
