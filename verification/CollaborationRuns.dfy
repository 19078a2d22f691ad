/** Safety of the locks and sessions over every run. */
module CollaborationRuns {
  import opened Collaboration

  lemma JoinKeepsInv(s: State, e: Event, now: int)
    requires Inv(s) && e.Joined?
    ensures Inv(After(s, e, now))
  {
    var rows := ActiveRows(s, e.document, e.user);
    LookupMeans(rows);
    assert rows == {} ==> forall k | k in s.sessions ::
        !(s.sessions[k].isActive && s.sessions[k].document == e.document && s.sessions[k].user == e.user) by {
      assert forall k | k in s.sessions && s.sessions[k].isActive && s.sessions[k].document == e.document
                        && s.sessions[k].user == e.user :: k in rows;
    }
  }

  lemma LockKeepsInv(s: State, e: Event, now: int)
    requires Inv(s) && e.LockAsked? && Admissible(s, e)
    ensures Inv(After(s, e, now))
  {
    LookupMeans(LockRows(s, e.document, e.element));
  }

  lemma StepKeepsInv(s: State, e: Event, now: int)
    requires Inv(s) && Admissible(s, e)
    ensures Inv(After(s, e, now))
  {
    match e
    case Joined(_, _, _, _) => JoinKeepsInv(s, e, now);
    case LockAsked(_, _, _, _) => LockKeepsInv(s, e, now);
    case Left(x) => LookupMeans(SocketRows(s, x));
    case LockReleased(_, _, _) =>
    case LocksListed(_) =>
    case LocksSwept =>
    case SessionsSwept(_) =>
    case CursorMoved(_, _) =>
  }

  /** In every reachable state: one lock per element, held through a session of its
      user on its document; one active session per user and document. */
  lemma {:induction false} RunKeepsInv(states: seq<State>, ticks: seq<Tick>, i: nat)
    requires Run(states, ticks) && i <= |ticks| && Inv(states[0])
    ensures Inv(states[i])
  {
    hide Inv, After, Admissible;
    if i > 0 {
      RunKeepsInv(states, ticks, i - 1);
      StepKeepsInv(states[i - 1], ticks[i - 1].event, ticks[i - 1].at);
    }
  }

  /** With the invariant, fetching the session to reactivate or the lock to judge
      never finds several rows. */
  lemma NeverSeveral(s: State, document: string, user: string, element: string)
    requires Inv(s)
    ensures !Lookup(ActiveRows(s, document, user)).Several? && !Lookup(LockRows(s, document, element)).Several?
  {
  }

  // ---- Lock safety ---------------------------------------------------------------------

  /** What ends the holder's lock before it expires: the holder releases it, or its
      session leaves or is swept as idle. */
  ghost predicate Frees(s: State, e: Event, now: int, k: nat)
    requires k in s.locks
  {
    match e
    case LockReleased(d, el, u) => s.locks[k].document == d && s.locks[k].element == el && s.locks[k].user == u
    case Left(x) => Lookup(SocketRows(s, x)) == One(s.locks[k].session)
    case SessionsSwept(m) => s.locks[k].session in Idle(s, m, now)
    case _ => false
  }

  /** The same holder, holding at least as long. */
  ghost predicate StillHeld(s: State, s': State, k: nat)
    requires k in s.locks
  {
    k in s'.locks && s.locks[k].expiresAt <= s'.locks[k].expiresAt
    && s'.locks[k] == s.locks[k].(expiresAt := s'.locks[k].expiresAt)
  }

  /** An unexpired lock stays with its holder unless a step frees it, and then it is gone. */
  lemma StepKeepsHolder(s: State, e: Event, now: int, k: nat)
    requires Inv(s) && Bounded(s, now) && k in s.locks && s.locks[k].expiresAt > now
    ensures if Frees(s, e, now, k) then k !in After(s, e, now).locks else StillHeld(s, After(s, e, now), k)
  {
    match e
    case Joined(_, _, _, _) =>
    case LockAsked(d, el, _, _) =>
      LookupMeans(LockRows(s, d, el));
      assert s.locks[k].document == d && s.locks[k].element == el ==> k in LockRows(s, d, el);
    case Left(x) => LookupMeans(SocketRows(s, x));
    case LockReleased(_, _, _) =>
    case LocksListed(_) =>
    case LocksSwept =>
    case SessionsSwept(_) =>
    case CursorMoved(_, _) =>
  }

  lemma StepKeepsBound(s: State, e: Event, now: int)
    requires Bounded(s, now)
    ensures Bounded(After(s, e, now), now)
  {
    if e.LockAsked? {
      LookupMeans(LockRows(s, e.document, e.element));
    } else if e.Left? {
      LookupMeans(SocketRows(s, e.socket));
    }
  }

  ghost predicate BoundedAt(states: seq<State>, ticks: seq<Tick>, i: nat)
    requires i < |states| && i < |ticks|
  {
    Bounded(states[i], ticks[i].at)
  }

  lemma {:induction false} RunKeepsBound(states: seq<State>, ticks: seq<Tick>, i: nat)
    requires Run(states, ticks) && i < |ticks| && BoundedAt(states, ticks, 0)
    ensures BoundedAt(states, ticks, i)
  {
    hide After, Admissible;
    if i > 0 {
      RunKeepsBound(states, ticks, i - 1);
      StepKeepsBound(states[i - 1], ticks[i - 1].event, ticks[i - 1].at);
    }
  }

  /** The run frees lock k at some step from i on, before j. */
  ghost predicate FreedBetween(states: seq<State>, ticks: seq<Tick>, i: nat, j: nat, k: nat)
    requires |states| == |ticks| + 1 && j <= |ticks|
  {
    exists m: nat :: i <= m < j && FreedAt(states, ticks, m, k)
  }

  ghost predicate FreedAt(states: seq<State>, ticks: seq<Tick>, m: nat, k: nat)
    requires m < |states| && m < |ticks|
  {
    k in states[m].locks && Frees(states[m], ticks[m].event, ticks[m].at, k)
  }

  /** Over any stretch of a run that ends before the lock expires and in which
      nothing frees it, the holder keeps it. */
  lemma {:induction false} HolderKept(states: seq<State>, ticks: seq<Tick>, i: nat, j: nat, k: nat)
    requires Run(states, ticks) && i <= j <= |ticks| && k in states[i].locks
    requires forall m | i <= m < j :: Inv(states[m]) && BoundedAt(states, ticks, m)
    requires i < j ==> ticks[j - 1].at < states[i].locks[k].expiresAt
    requires !FreedBetween(states, ticks, i, j, k)
    ensures StillHeld(states[i], states[j], k)
    decreases j - i
  {
    hide Inv, Frees, After, Bounded;
    if i < j {
      assert !FreedAt(states, ticks, j - 1, k);
      assert ticks[j - 1].at < states[i].locks[k].expiresAt;
      assert i < j - 1 ==> ticks[j - 2].at <= ticks[j - 1].at;
      assert forall m: nat | i <= m < j - 1 :: !FreedAt(states, ticks, m, k);
      HolderKept(states, ticks, i, j - 1, k);
      StepKeepsHolder(states[j - 1], ticks[j - 1].event, ticks[j - 1].at, k);
    }
  }

  ghost predicate GrantedAt(states: seq<State>, ticks: seq<Tick>, i: nat, document: string, element: string,
                            user: string)
    requires i < |states| && i < |ticks|
  {
    var e := ticks[i].event;
    e.LockAsked? && e.document == document && e.element == element && e.user == user
    && Grants(states[i], document, element, user, ticks[i].at)
  }

  /** A granted request leaves exactly one lock row for the element, the asker's, good
      for the full term; a refused one changes nothing. */
  lemma GrantMeans(s: State, e: Event, now: int)
    requires Inv(s) && e.LockAsked?
    ensures var s' := After(s, e, now);
            if Grants(s, e.document, e.element, e.user, now) then
              exists k :: LockRows(s', e.document, e.element) == {k} && s'.locks[k].user == e.user
                          && s'.locks[k].expiresAt == now + LOCK_SECONDS
            else s' == s && exists k :: LockRows(s, e.document, e.element) == {k} && s.locks[k].user != e.user
                                        && s.locks[k].expiresAt > now
    ensures var t := After(s, e, now);
            && t.sessions == s.sessions
            && forall j | j in s.locks && !(s.locks[j].document == e.document && s.locks[j].element == e.element) ::
                 j in t.locks && t.locks[j] == s.locks[j]
  {
    var s' := After(s, e, now);
    var rows := LockRows(s, e.document, e.element);
    LookupMeans(rows);
    match Lookup(rows)
    case Several =>
    case Nothing =>
      assert LockRows(s', e.document, e.element) == {s.nextId};
    case One(k) =>
      if s.locks[k].expiresAt <= now {
        assert LockRows(s', e.document, e.element) == {s.nextId};
      } else if s.locks[k].user == e.user {
        assert LockRows(s', e.document, e.element) == {k};
      }
  }

  /** Two users never both have the lock: once it is granted to one, it is granted to
      another only after its term, or after a step that freed it. */
  lemma LockIsExclusive(states: seq<State>, ticks: seq<Tick>, i: nat, j: nat, document: string, element: string,
                        u: string, v: string)
    requires Run(states, ticks) && Inv(states[0]) && |ticks| > 0 && BoundedAt(states, ticks, 0)
    requires i < j < |ticks| && u != v
    requires GrantedAt(states, ticks, i, document, element, u) && GrantedAt(states, ticks, j, document, element, v)
    ensures ticks[j].at >= ticks[i].at + LOCK_SECONDS
            || exists k :: LockRows(states[i + 1], document, element) == {k} && FreedBetween(states, ticks, i + 1, j, k)
  {
    hide Inv, Frees, After, Bounded, FreedAt;
    forall m: nat | m < |ticks|
      ensures Inv(states[m]) && BoundedAt(states, ticks, m)
    {
      RunKeepsInv(states, ticks, m);
      RunKeepsBound(states, ticks, m);
    }
    GrantMeans(states[i], ticks[i].event, ticks[i].at);
    var k :| LockRows(states[i + 1], document, element) == {k} && states[i + 1].locks[k].user == u
             && states[i + 1].locks[k].expiresAt == ticks[i].at + LOCK_SECONDS;
    assert k in LockRows(states[i + 1], document, element);
    if ticks[j].at < ticks[i].at + LOCK_SECONDS && !FreedBetween(states, ticks, i + 1, j, k) {
      assert ticks[j - 1].at <= ticks[j].at;
      HolderKept(states, ticks, i + 1, j, k);
      HeldMeansRefused(states[j], document, element, k, v, ticks[j].at);
    }
  }

  lemma HeldMeansRefused(s: State, document: string, element: string, k: nat, v: string, now: int)
    requires k in LockRows(s, document, element) && s.locks[k].expiresAt > now && s.locks[k].user != v
    ensures !Grants(s, document, element, v, now)
  {
    LookupMeans(LockRows(s, document, element));
  }

  /** Sweeping expired locks is invisible: whoever asks from then on gets the same answer. */
  lemma SweepIsInvisible(s: State, now: int, document: string, element: string, user: string, later: int)
    requires Inv(s) && now <= later
    ensures Grants(AfterLockSweep(s, now), document, element, user, later) <==>
              Grants(s, document, element, user, later)
  {
    var a, b := LockRows(s, document, element), LockRows(AfterLockSweep(s, now), document, element);
    LookupMeans(a);
    LookupMeans(b);
    match Lookup(a)
    case Nothing =>
    case Several =>
    case One(k) => assert s.locks[k].expiresAt > now ==> b == a;
  }

  /** Releasing a held lock leaves the element free for anybody; releasing another's
      changes nothing. */
  lemma ReleaseFreesElement(s: State, document: string, element: string, user: string)
    requires Inv(s)
    ensures var s', rows := AfterUnlock(s, document, element, user), LockRows(s, document, element);
            if exists k :: k in rows && s.locks[k].user == user
            then LockRows(s', document, element) == {} && s'.locks == s.locks - rows
                 && forall v, later :: Grants(s', document, element, v, later)
            else s' == s
  {
    var s', rows := AfterUnlock(s, document, element, user), LockRows(s, document, element);
    if exists k :: k in rows && s.locks[k].user == user {
      LookupMeans(LockRows(s', document, element));
      assert s'.locks == s.locks - rows;
    } else {
      assert s'.locks == s.locks;
    }
  }

  /** A cursor move keeps the socket's sessions from every sweep of the next `minutes`. */
  lemma CursorKeepsAlive(s: State, socket: string, cursor: Cursor, now: int, minutes: int, later: int)
    requires later <= now + 60 * minutes
    ensures var s' := AfterCursor(s, socket, cursor, now);
            SocketRows(s', socket) == SocketRows(s, socket) && SocketRows(s', socket) !! Idle(s', minutes, later)
  {
  }

  /** A join leaves one active session of the user on the document, with this socket and
      seen now, so that no sweep within the timeout ends it. It is the session there was,
      its colour, name and cursor kept, or a new one; nobody else's session changes. */
  lemma JoinMeans(s: State, document: string, user: string, name: string, socket: string, now: int, k: nat,
                  minutes: int, later: int)
    requires Inv(s) && later <= now + 60 * minutes
    requires k in ActiveRows(AfterJoin(s, document, user, name, socket, now), document, user)
    ensures var t := AfterJoin(s, document, user, name, socket, now);
            && ActiveRows(t, document, user) == {k} && t.locks == s.locks
            && t.sessions[k].socket == socket && t.sessions[k].lastSeen == now && k !in Idle(t, minutes, later)
            && (if k in s.sessions
                then k in ActiveRows(s, document, user)
                     && t.sessions[k].name == s.sessions[k].name && t.sessions[k].color == s.sessions[k].color
                     && t.sessions[k].cursor == s.sessions[k].cursor
                     && t.sessions[k].joinedAt == s.sessions[k].joinedAt
                else ActiveRows(s, document, user) == {} && t.sessions[k].name == name
                     && t.sessions[k].joinedAt == now && t.sessions[k].cursor.None?)
            && t.sessions.Keys == s.sessions.Keys + {k}
            && forall j | j in s.sessions && j != k :: t.sessions[j] == s.sessions[j]
  {
    LookupMeans(ActiveRows(s, document, user));
  }

  /** A sweep ends exactly the active sessions last seen before the timeout, frees exactly
      the locks held through them, and leaves everything else. */
  lemma SessionSweepMeans(s: State, minutes: int, now: int)
    ensures var t := AfterSessionSweep(s, minutes, now);
            && t.sessions.Keys == s.sessions.Keys && t.nextId == s.nextId
            && (forall k | k in s.sessions && s.sessions[k].isActive && s.sessions[k].lastSeen < now - 60 * minutes ::
                  !t.sessions[k].isActive
                  && t.sessions[k] == s.sessions[k].(isActive := false, lastSeen := t.sessions[k].lastSeen))
            && (forall k | k in s.sessions && !(s.sessions[k].isActive
                                                && s.sessions[k].lastSeen < now - 60 * minutes) ::
                  t.sessions[k] == s.sessions[k])
            && (forall k :: k in t.locks <==>
                  && k in s.locks
                  && !(s.locks[k].session in s.sessions && s.sessions[s.locks[k].session].isActive
                       && s.sessions[s.locks[k].session].lastSeen < now - 60 * minutes))
            && forall k | k in t.locks :: t.locks[k] == s.locks[k]
  {
  }

  // ---- Leaving ---------------------------------------------------------------------------

  /** A leave that finds the session ends it and frees every lock held through it. */
  lemma LeaveFrees(s: State, socket: string, now: int)
    ensures var s' := AfterLeave(s, socket, now);
            match Lookup(SocketRows(s, socket))
            case One(k) => SocketRows(s, socket) == {k} && !s'.sessions[k].isActive
                           && s'.sessions == s.sessions[k := s.sessions[k].(isActive := false, lastSeen := now)]
                           && s'.locks.Keys == (set j | j in s.locks && s.locks[j].session != k)
                           && (forall j | j in s'.locks :: s'.locks[j] == s.locks[j])
            case _ => s' == s
  {
    LookupMeans(SocketRows(s, socket));
  }

  function Joins(ticks: seq<Tick>, socket: string): nat {
    if ticks == [] then 0
    else
      var last := ticks[|ticks| - 1].event;
      Joins(ticks[..|ticks| - 1], socket) + if last.Joined? && last.socket == socket then 1 else 0
  }

  lemma StepAddsRow(s: State, e: Event, now: int, socket: string)
    requires Inv(s)
    ensures |SocketRows(After(s, e, now), socket)|
            <= |SocketRows(s, socket)| + if e.Joined? && e.socket == socket then 1 else 0
  {
    hide After, SocketRows, ActiveRows;
    var a, b := SocketRows(s, socket), SocketRows(After(s, e, now), socket);
    StepRows(s, e, now, socket);
    Fits(b, a, s.nextId);
    if e.Joined? && Lookup(ActiveRows(s, e.document, e.user)).One? {
      Fits(b, a, Lookup(ActiveRows(s, e.document, e.user)).id);
    }
  }

  lemma StepRows(s: State, e: Event, now: int, socket: string)
    requires Inv(s)
    ensures var a, b := SocketRows(s, socket), SocketRows(After(s, e, now), socket);
            if !(e.Joined? && e.socket == socket) then b <= a
            else match Lookup(ActiveRows(s, e.document, e.user))
              case One(k) => b <= a + {k}
              case _ => b <= a + {s.nextId}
  {
    if e.Joined? {
      LookupMeans(ActiveRows(s, e.document, e.user));
    } else if e.Left? {
      LookupMeans(SocketRows(s, e.socket));
    }
  }

  lemma Fits(b: set<nat>, a: set<nat>, k: nat)
    ensures b <= a ==> |b| <= |a|
    ensures b <= a + {k} ==> |b| <= |a| + 1
  {
    if b <= a {
      assert |a| == |a - b| + |b| by { assert a == (a - b) + b; }
    }
    if b <= a + {k} {
      assert |a + {k}| == |(a + {k}) - b| + |b| by { assert a + {k} == ((a + {k}) - b) + b; }
    }
  }

  lemma {:induction false} RowsPerJoin(states: seq<State>, ticks: seq<Tick>, i: nat, socket: string)
    requires Run(states, ticks) && states[0] == EMPTY && i <= |ticks|
    ensures |SocketRows(states[i], socket)| <= Joins(ticks[..i], socket)
  {
    hide Inv, After, Admissible;
    if i == 0 {
      assert SocketRows(states[0], socket) == {};
    } else {
      RowsPerJoin(states, ticks, i - 1, socket);
      EmptyInv();
      RunKeepsInv(states, ticks, i - 1);
      StepAddsRow(states[i - 1], ticks[i - 1].event, ticks[i - 1].at, socket);
      assert ticks[..i][..i - 1] == ticks[..i - 1];
    }
  }

  lemma EmptyInv()
    ensures Inv(EMPTY)
  {
  }

  /** A socket that joins once can always leave: its session ends and its locks go. */
  lemma OneJoinLeaves(states: seq<State>, ticks: seq<Tick>, i: nat, socket: string)
    requires Run(states, ticks) && states[0] == EMPTY && i <= |ticks|
    requires Joins(ticks[..i], socket) <= 1
    ensures !Lookup(SocketRows(states[i], socket)).Several?
  {
    RowsPerJoin(states, ticks, i, socket);
    LookupMeans(SocketRows(states[i], socket));
  }

  /** The row of a session that ended keeps its socket for good. */
  ghost predicate Stale(s: State, k: nat, socket: string) {
    k in s.sessions && !s.sessions[k].isActive && s.sessions[k].socket == socket
  }

  lemma StepKeepsStale(s: State, e: Event, now: int, k: nat, socket: string)
    requires Inv(s) && Stale(s, k, socket)
    ensures Stale(After(s, e, now), k, socket)
  {
    if e.Joined? {
      LookupMeans(ActiveRows(s, e.document, e.user));
    } else if e.Left? {
      LookupMeans(SocketRows(s, e.socket));
    }
  }

  lemma {:induction false} RunKeepsStale(states: seq<State>, ticks: seq<Tick>, i: nat, j: nat, k: nat, socket: string)
    requires Run(states, ticks) && Inv(states[0]) && i <= j <= |ticks| && Stale(states[i], k, socket)
    ensures Stale(states[j], k, socket)
    decreases j - i
  {
    hide Inv, After, Admissible, Stale;
    if i < j {
      RunKeepsStale(states, ticks, i, j - 1, k, socket);
      RunKeepsInv(states, ticks, j - 1);
      StepKeepsStale(states[j - 1], ticks[j - 1].event, ticks[j - 1].at, k, socket);
    }
  }

  /** Once a socket has left a session, at every later point of every run leaving on it
      fails, and frees nothing, exactly while another row carries the socket. */
  lemma RejoinedCannotLeave(states: seq<State>, ticks: seq<Tick>, i: nat, j: nat, k: nat, socket: string, now: int)
    requires Run(states, ticks) && Inv(states[0]) && i <= j <= |ticks| && Stale(states[i], k, socket)
    ensures Lookup(SocketRows(states[j], socket)).Several? <==> exists r :: r in SocketRows(states[j], socket) && r != k
    ensures !Lookup(SocketRows(states[j], socket)).Nothing?
    ensures Lookup(SocketRows(states[j], socket)).Several? ==> AfterLeave(states[j], socket, now) == states[j]
  {
    RunKeepsStale(states, ticks, i, j, k, socket);
    assert k in SocketRows(states[j], socket);
    LookupMeans(SocketRows(states[j], socket));
  }

  /** Joining, leaving and joining again on one socket. */
  function Rejoining(document: string, user: string, name: string, socket: string, now: int): seq<Tick> {
    var join := Tick(now, Joined(document, user, name, socket));
    [join, Tick(now, Left(socket)), join]
  }

  ghost function StatesAfter(s: State, ticks: seq<Tick>): seq<State>
    decreases |ticks|
  {
    if ticks == [] then [s] else [s] + StatesAfter(After(s, ticks[0].event, ticks[0].at), ticks[1..])
  }

  /** Three steps from the empty tables are enough: the socket's session is active, and
      leaving on the socket changes nothing. */
  lemma RejoiningFails(document: string, user: string, name: string, socket: string, now: int)
    ensures var states := StatesAfter(EMPTY, Rejoining(document, user, name, socket, now));
            && Run(states, Rejoining(document, user, name, socket, now))
            && ActiveRows(states[3], document, user) == {1} && SocketRows(states[3], socket) == {0, 1}
            && AfterLeave(states[3], socket, now) == states[3]
  {
    hide After, AfterLeave;
    var e, ticks := Joined(document, user, name, socket), Rejoining(document, user, name, socket, now);
    var s1 := After(EMPTY, e, now);
    var s2 := After(s1, Left(socket), now);
    var s3 := After(s2, e, now);
    RejoinedRows(document, user, name, socket, now);
    var join, leave := ticks[0], ticks[1];
    assert ticks == [join] + ([leave] + ([join] + []));
    OneMoreTick(s2, join, []);
    OneMoreTick(s1, leave, [join]);
    OneMoreTick(EMPTY, join, [leave, join]);
    assert StatesAfter(EMPTY, ticks) == [EMPTY, s1, s2, s3];
  }

  lemma RejoinedRows(document: string, user: string, name: string, socket: string, now: int)
    ensures var e := Joined(document, user, name, socket);
            var s := After(After(After(EMPTY, e, now), Left(socket), now), e, now);
            && ActiveRows(s, document, user) == {1} && SocketRows(s, socket) == {0, 1}
            && AfterLeave(s, socket, now) == s
  {
    var e := Joined(document, user, name, socket);
    var s1 := After(EMPTY, e, now);
    FirstJoin(document, user, name, socket, now);
    var s2 := After(s1, Left(socket), now);
    LookupMeans(SocketRows(s1, socket));
    assert SocketRows(s1, socket) == {0};
    LookupMeans(ActiveRows(s2, document, user));
    assert ActiveRows(s2, document, user) == {};
    LookupMeans({0, 1});
    assert SocketRows(After(s2, e, now), socket) == {0, 1};
  }

  lemma OneMoreTick(s: State, t: Tick, rest: seq<Tick>)
    ensures StatesAfter(s, [t] + rest) == [s] + StatesAfter(After(s, t.event, t.at), rest)
  {
    hide After;
    assert ([t] + rest)[1..] == rest;
  }

  lemma FirstJoin(document: string, user: string, name: string, socket: string, now: int)
    ensures var s := After(EMPTY, Joined(document, user, name, socket), now);
            s.nextId == 1 && s.locks == map[] && s.sessions.Keys == {0} && s.sessions[0].isActive
            && s.sessions[0].document == document && s.sessions[0].user == user && s.sessions[0].socket == socket
  {
    LookupMeans(ActiveRows(EMPTY, document, user));
    assert ActiveRows(EMPTY, document, user) == {};
  }

  /** The elements locked through a session. */
  function HeldThrough(s: State, session: nat): set<string> {
    set k | k in s.locks && s.locks[k].session == session :: s.locks[k].element
  }

  /** The elements asked for through a session from step i on, before step j. */
  function AskedBetween(ticks: seq<Tick>, i: nat, j: nat, session: nat): set<string>
    requires i <= j <= |ticks|
  {
    set m | i <= m < j && ticks[m].event.LockAsked? && ticks[m].event.session == session :: ticks[m].event.element
  }

  lemma StepHeldThrough(s: State, e: Event, now: int, session: nat)
    ensures HeldThrough(After(s, e, now), session)
            <= HeldThrough(s, session) + if e.LockAsked? && e.session == session then {e.element} else {}
  {
    if e.LockAsked? {
      LookupMeans(LockRows(s, e.document, e.element));
    } else if e.Left? {
      LookupMeans(SocketRows(s, e.socket));
    }
  }

  /** Listing a session's locks before it leaves announces every lock the leave frees,
      but those asked for through the session in between. */
  lemma {:induction false} FreedWereListed(states: seq<State>, ticks: seq<Tick>, i: nat, j: nat, session: nat)
    requires Run(states, ticks) && i <= j <= |ticks|
    ensures HeldThrough(states[j], session) <= HeldThrough(states[i], session) + AskedBetween(ticks, i, j, session)
    decreases j - i
  {
    hide After, Admissible, HeldThrough;
    if i < j {
      FreedWereListed(states, ticks, i, j - 1, session);
      StepHeldThrough(states[j - 1], ticks[j - 1].event, ticks[j - 1].at, session);
    }
  }

  /** What other transactions may make of the tables: session rows stay, of the same
      user on the same document. */
  ghost predicate Continues(s: State, t: State) {
    Inv(t) && forall k | k in s.sessions :: Belongs(t, k, s.sessions[k].document, s.sessions[k].user)
  }

  lemma StepContinues(s: State, e: Event, now: int, k: nat, document: string, user: string)
    requires Belongs(s, k, document, user) && Fresh(s)
    ensures Belongs(After(s, e, now), k, document, user)
  {
    if e.Joined? {
      LookupMeans(ActiveRows(s, e.document, e.user));
    } else if e.Left? {
      LookupMeans(SocketRows(s, e.socket));
    }
  }

  lemma {:induction false} RunContinues(states: seq<State>, ticks: seq<Tick>, i: nat, j: nat)
    requires Run(states, ticks) && Inv(states[0]) && i <= j <= |ticks|
    ensures Continues(states[i], states[j])
    decreases j - i
  {
    hide After, Admissible;
    RunKeepsInv(states, ticks, j);
    if i < j {
      RunContinues(states, ticks, i, j - 1);
      forall k | k in states[i].sessions
        ensures Belongs(states[j], k, states[i].sessions[k].document, states[i].sessions[k].user)
      {
        StepContinues(states[j - 1], ticks[j - 1].event, ticks[j - 1].at, k,
                      states[i].sessions[k].document, states[i].sessions[k].user);
      }
    }
  }

  ghost predicate ActiveHolders(s: State) {
    forall k | k in s.locks :: s.locks[k].session in s.sessions && s.sessions[s.locks[k].session].isActive
  }

  /** Every lock is held through a live session, as long as none is granted to a session
      that ended between the handler's reading it and asking. */
  lemma StepKeepsActiveHolders(s: State, e: Event, now: int)
    requires Fresh(s) && ActiveHolders(s)
    requires e.LockAsked? ==> e.session in s.sessions && s.sessions[e.session].isActive
    ensures ActiveHolders(After(s, e, now))
  {
    if e.Joined? {
      LookupMeans(ActiveRows(s, e.document, e.user));
    } else if e.LockAsked? {
      LookupMeans(LockRows(s, e.document, e.element));
    } else if e.Left? {
      LookupMeans(SocketRows(s, e.socket));
    }
  }

  // ---- Locks that outlive their session -----------------------------------------------------

  ghost predicate Live(s: State, session: nat) {
    session in s.sessions && s.sessions[session].isActive
  }

  predicate SameHolder(a: Lock, b: Lock) {
    a.document == b.document && a.element == b.element && a.user == b.user && a.session == b.session
  }

  lemma StepKeepsRow(s: State, e: Event, now: int, k: nat)
    requires k < s.nextId && k in After(s, e, now).locks
    ensures k in s.locks && SameHolder(s.locks[k], After(s, e, now).locks[k])
  {
    if e.LockAsked? {
      LookupMeans(LockRows(s, e.document, e.element));
    } else if e.Left? {
      LookupMeans(SocketRows(s, e.socket));
    }
  }

  lemma IdsGrow(s: State, e: Event, now: int)
    ensures s.nextId <= After(s, e, now).nextId
  {
  }

  /** Row ids are not given twice: a lock row that is there was there, the same holder's. */
  lemma {:induction false} RowsNeverReturn(states: seq<State>, ticks: seq<Tick>, i: nat, j: nat, k: nat)
    requires Run(states, ticks) && i <= j <= |ticks| && k < states[i].nextId
    ensures states[i].nextId <= states[j].nextId
    ensures k in states[j].locks ==> k in states[i].locks && SameHolder(states[i].locks[k], states[j].locks[k])
    decreases j - i
  {
    hide After, Admissible;
    if i < j {
      RowsNeverReturn(states, ticks, i, j - 1, k);
      IdsGrow(states[j - 1], ticks[j - 1].event, ticks[j - 1].at);
      if k in states[j].locks {
        StepKeepsRow(states[j - 1], ticks[j - 1].event, ticks[j - 1].at, k);
      }
    }
  }

  /** The lock row is inserted by a request through a session that had ended. */
  ghost predicate AskedTooLate(states: seq<State>, ticks: seq<Tick>, m: nat, k: nat)
    requires |states| == |ticks| + 1 && m < |ticks|
  {
    ticks[m].event.LockAsked? && !Live(states[m], ticks[m].event.session)
    && k !in states[m].locks && k in states[m + 1].locks
  }

  /** A session that ends takes the locks held through it along, and none starts again. */
  lemma StepKeepsLife(s: State, e: Event, now: int, k: nat)
    requires Inv(s) && k in s.locks && k in After(s, e, now).locks
    ensures Live(After(s, e, now), s.locks[k].session) <==> Live(s, s.locks[k].session)
  {
    if e.Joined? {
      LookupMeans(ActiveRows(s, e.document, e.user));
    } else if e.LockAsked? {
      LookupMeans(LockRows(s, e.document, e.element));
    } else if e.Left? {
      LookupMeans(SocketRows(s, e.socket));
    }
  }

  lemma NewRow(s: State, e: Event, now: int, k: nat)
    requires k !in s.locks && k in After(s, e, now).locks
    ensures e.LockAsked? && k == s.nextId && After(s, e, now).locks[k].session == e.session
    ensures After(s, e, now).sessions == s.sessions && s.nextId < After(s, e, now).nextId
  {
    if e.LockAsked? {
      LookupMeans(LockRows(s, e.document, e.element));
    } else if e.Left? {
      LookupMeans(SocketRows(s, e.socket));
    }
  }

  ghost predicate SomeTooLate(states: seq<State>, ticks: seq<Tick>, j: nat, k: nat)
    requires |states| == |ticks| + 1 && j <= |ticks|
  {
    exists m: nat :: m < j && AskedTooLate(states, ticks, m, k)
  }

  /** At any point of any run a lock is held through a session that has ended exactly when
      it was asked for through that session after it ended. */
  lemma {:induction false} HeldThroughEndedIff(states: seq<State>, ticks: seq<Tick>, j: nat, k: nat)
    requires Run(states, ticks) && states[0] == EMPTY && j <= |ticks| && k in states[j].locks
    ensures !Live(states[j], states[j].locks[k].session) <==> SomeTooLate(states, ticks, j, k)
    decreases j
  {
    hide After, Admissible, Live, Inv;
    var s, e, now := states[j - 1], ticks[j - 1].event, ticks[j - 1].at;
    EmptyInv();
    RunKeepsInv(states, ticks, j - 1);
    if k in s.locks {
      InvIsFresh(s);
      HeldThroughEndedIff(states, ticks, j - 1, k);
      StepKeepsRow(s, e, now, k);
      StepKeepsLife(s, e, now, k);
      assert !AskedTooLate(states, ticks, j - 1, k);
      assert SomeTooLate(states, ticks, j, k) <==> SomeTooLate(states, ticks, j - 1, k);
    } else {
      NewRow(s, e, now, k);
      SameSessions(s, states[j], e.session);
      assert AskedTooLate(states, ticks, j - 1, k) <==> !Live(s, e.session);
      forall m: nat | m < j - 1
        ensures !AskedTooLate(states, ticks, m, k)
      {
        if AskedTooLate(states, ticks, m, k) {
          NewRow(states[m], ticks[m].event, ticks[m].at, k);
          RowsNeverReturn(states, ticks, m + 1, j - 1, k);
        }
      }
    }
  }

  lemma InvIsFresh(s: State)
    requires Inv(s)
    ensures Fresh(s)
  {
  }

  lemma SameSessions(s: State, t: State, session: nat)
    requires s.sessions == t.sessions
    ensures Live(s, session) <==> Live(t, session)
  {
  }

  /** What still frees a lock whose session has ended: its user's release, or a leave on
      the session's socket while no other row carries it. */
  ghost predicate LetsGo(s: State, e: Event, lock: Lock, socket: string) {
    match e
    case LockReleased(d, el, u) => lock.document == d && lock.element == el && lock.user == u
    case Left(x) => x == socket && SocketRows(s, x) == {lock.session}
    case _ => false
  }

  /** Until it expires, a lock held through an ended session stays exactly as long as
      none of these happens: joins, sweeps and other leaves do not touch it. */
  lemma EndedHolderKept(states: seq<State>, ticks: seq<Tick>, i: nat, j: nat, k: nat, socket: string)
    requires Run(states, ticks) && states[0] == EMPTY && i <= j <= |ticks| && k in states[i].locks
    requires Stale(states[i], states[i].locks[k].session, socket)
    requires i < j ==> ticks[j - 1].at < states[i].locks[k].expiresAt
    ensures StillHeld(states[i], states[j], k)
            <==> forall m | i <= m < j :: !LetsGo(states[m], ticks[m].event, states[i].locks[k], socket)
  {
    hide After, Admissible, Inv, Stale, LetsGo, Frees, Bounded;
    var lock := states[i].locks[k];
    EmptyInv();
    RunKeepsInv(states, ticks, i);
    InvIsFresh(states[i]);
    forall m: nat | i <= m < j
      ensures LetsGo(states[m], ticks[m].event, lock, socket) ==> k !in states[j].locks
      ensures FreedAt(states, ticks, m, k) ==> LetsGo(states[m], ticks[m].event, lock, socket)
    {
      RowsNeverReturn(states, ticks, i, m, k);
      RowsNeverReturn(states, ticks, i, m + 1, k);
      RowsNeverReturn(states, ticks, m, j, k);
      RowsNeverReturn(states, ticks, m + 1, j, k);
      assert states[m + 1] == After(states[m], ticks[m].event, ticks[m].at);
      RunKeepsStale(states, ticks, i, m, lock.session, socket);
      if k in states[m].locks {
        FreesMeans(states[m], ticks[m].event, ticks[m].at, k, lock, socket);
      }
    }
    if forall m | i <= m < j :: !LetsGo(states[m], ticks[m].event, lock, socket) {
      forall m: nat | i <= m < j
        ensures Inv(states[m]) && BoundedAt(states, ticks, m)
      {
        RunKeepsInv(states, ticks, m);
        EmptyBounded(states, ticks);
        RunKeepsBound(states, ticks, m);
      }
      HolderKept(states, ticks, i, j, k);
    }
  }

  lemma EmptyBounded(states: seq<State>, ticks: seq<Tick>)
    requires |states| > 0 && |ticks| > 0 && states[0] == EMPTY
    ensures BoundedAt(states, ticks, 0)
  {
  }

  lemma FreesMeans(s: State, e: Event, now: int, k: nat, lock: Lock, socket: string)
    requires k in s.locks && SameHolder(s.locks[k], lock) && Stale(s, lock.session, socket)
    ensures Frees(s, e, now, k) <==> LetsGo(s, e, lock, socket)
    ensures LetsGo(s, e, lock, socket) ==> k !in After(s, e, now).locks
  {
    if e.Left? {
      LookupMeans(SocketRows(s, e.socket));
      assert Lookup(SocketRows(s, e.socket)) == One(lock.session) ==> lock.session in SocketRows(s, e.socket);
    }
  }

  /** Joining, leaving, and then asking with the session read before. */
  function Lingering(document: string, user: string, name: string, socket: string, element: string, now: int,
                     later: int): seq<Tick> {
    [Tick(now, Joined(document, user, name, socket)), Tick(now, Left(socket)),
     Tick(now, LockAsked(document, element, user, 0)), Tick(later, SessionsSwept(IDLE_MINUTES))]
  }

  /** Such a run: nobody is on the document any more and the sweep has passed, and the
      element stays refused to everybody else for the full term. */
  lemma LockOutlivesSession(document: string, user: string, name: string, socket: string, element: string,
                            now: int, later: int, other: string)
    requires now <= later < now + LOCK_SECONDS && other != user
    ensures var ticks := Lingering(document, user, name, socket, element, now, later);
            var states := StatesAfter(EMPTY, ticks);
            && Run(states, ticks) && ActiveIn(states[4], document) == {}
            && LockRows(states[4], document, element) == {1} && !Live(states[4], states[4].locks[1].session)
            && !Grants(states[4], document, element, other, later)
  {
    hide After, Lookup, Grants;
    var ticks := Lingering(document, user, name, socket, element, now, later);
    var s1 := After(EMPTY, ticks[0].event, now);
    var s2 := After(s1, ticks[1].event, now);
    var s3 := After(s2, ticks[2].event, now);
    var s4 := After(s3, ticks[3].event, later);
    LingeringRows(document, user, name, socket, element, now, later);
    HeldMeansRefused(s4, document, element, 1, other, later);
    var join, leave, ask, sweep := ticks[0], ticks[1], ticks[2], ticks[3];
    assert ticks == [join] + ([leave] + ([ask] + ([sweep] + [])));
    OneMoreTick(s3, sweep, []);
    OneMoreTick(s2, ask, [sweep]);
    OneMoreTick(s1, leave, [ask, sweep]);
    OneMoreTick(EMPTY, join, [leave, ask, sweep]);
    assert StatesAfter(EMPTY, ticks) == [EMPTY, s1, s2, s3, s4];
  }

  lemma LingeringRows(document: string, user: string, name: string, socket: string, element: string, now: int,
                      later: int)
    requires now <= later < now + LOCK_SECONDS
    ensures var s2 := After(After(EMPTY, Joined(document, user, name, socket), now), Left(socket), now);
            var s3 := After(s2, LockAsked(document, element, user, 0), now);
            var s4 := After(s3, SessionsSwept(IDLE_MINUTES), later);
            && Belongs(s2, 0, document, user)
            && ActiveIn(s4, document) == {} && LockRows(s4, document, element) == {1}
            && s4.locks[1] == Lock(document, element, user, 0, now, now + LOCK_SECONDS) && !Live(s4, 0)
  {
    var s1 := After(EMPTY, Joined(document, user, name, socket), now);
    FirstJoin(document, user, name, socket, now);
    LookupMeans(SocketRows(s1, socket));
    assert SocketRows(s1, socket) == {0};
    var s2 := After(s1, Left(socket), now);
    LookupMeans(LockRows(s2, document, element));
    assert LockRows(s2, document, element) == {};
    var s3 := After(s2, LockAsked(document, element, user, 0), now);
    assert s3.locks == map[1 := Lock(document, element, user, 0, now, now + LOCK_SECONDS)];
    assert Idle(s3, IDLE_MINUTES, later) == {};
    var s4 := After(s3, SessionsSwept(IDLE_MINUTES), later);
    assert s4.locks == s3.locks;
    assert LockRows(s4, document, element) == {1};
  }

  // ---- Colours -----------------------------------------------------------------------------

  function AsSet<T>(xs: seq<T>): set<T> { set x | x in xs }

  lemma {:induction false} DistinctCount<T>(xs: seq<T>)
    requires forall i, j | 0 <= i < j < |xs| :: xs[i] != xs[j]
    ensures |AsSet(xs)| == |xs|
  {
    if xs != [] {
      DistinctCount(xs[1..]);
      assert AsSet(xs) == {xs[0]} + AsSet(xs[1..]);
    }
  }

  lemma {:induction false} ImageSmaller(ids: set<nat>, sessions: map<nat, Session>)
    requires ids <= sessions.Keys
    ensures |set k | k in ids :: sessions[k].color| <= |ids|
  {
    if ids != {} {
      var k := Any(ids);
      var rest := ids - {k};
      ImageSmaller(rest, sessions);
      assert (set j | j in ids :: sessions[j].color) == (set j | j in rest :: sessions[j].color) + {sessions[k].color};
    }
  }

  lemma {:induction false} FreeColorMeans(colors: seq<nat>, used: set<nat>)
    ensures FreeColor(colors, used) in COLORS || FreeColor(colors, used) in colors
    ensures (exists c :: c in colors && c !in used) ==>
              FreeColor(colors, used) in colors && FreeColor(colors, used) !in used
  {
    if colors != [] && colors[0] in used {
      FreeColorMeans(colors[1..], used);
      assert forall c | c in colors && c !in used :: c in colors[1..];
    }
  }

  /** While fewer than twelve are active, a newcomer's colour is not among theirs. */
  lemma ColorIsFree(s: State, document: string)
    ensures FreeColor(COLORS, UsedColors(s, document)) in COLORS
    ensures |ActiveIn(s, document)| < 12 ==> FreeColor(COLORS, UsedColors(s, document)) !in UsedColors(s, document)
  {
    var used := UsedColors(s, document);
    FreeColorMeans(COLORS, used);
    ImageSmaller(ActiveIn(s, document), s.sessions);
    TwelveColors();
    if forall c | c in COLORS :: c in used {
      WholePalette(used);
    }
  }

  lemma TwelveColors()
    ensures |AsSet(COLORS)| == 12
  {
    var c := COLORS;
    assert c[0] == 0x3B82F6 && c[1] == 0x10B981 && c[2] == 0xF59E0B && c[3] == 0xEF4444 && c[4] == 0x8B5CF6;
    assert c[5] == 0xEC4899 && c[6] == 0x06B6D4 && c[7] == 0xF97316 && c[8] == 0x14B8A6 && c[9] == 0x6366F1;
    assert c[10] == 0x84CC16 && c[11] == 0xF43F5E;
    DistinctCount(c);
  }

  lemma WholePalette(used: set<nat>)
    requires forall c | c in COLORS :: c in used
    ensures |used| >= 12
  {
    TwelveColors();
    assert used == AsSet(COLORS) + (used - AsSet(COLORS));
  }

  lemma JoinKeepsColors(s: State, e: Event, now: int, document: string)
    requires ColorsApart(s, document) && e.Joined? && Fresh(s) && |ActiveIn(After(s, e, now), document)| <= 12
    ensures ColorsApart(After(s, e, now), document)
  {
    hide UsedColors, FreeColor, ColorsApart, After, ActiveIn;
    var s' := After(s, e, now);
    JoinedRows(s, e, now, document);
    if Lookup(ActiveRows(s, e.document, e.user)).Nothing? && e.document == document {
      ColorIsFree(s, document);
      NewcomerApart(s, s', document, s.nextId);
    } else {
      SameColorsApart(s, s', document);
    }
  }

  lemma JoinedRows(s: State, e: Event, now: int, document: string)
    requires e.Joined? && Fresh(s)
    ensures var s' := After(s, e, now);
            && (forall j | j in ActiveIn(s, document) :: j != s.nextId && s'.sessions[j].color == s.sessions[j].color)
            && if Lookup(ActiveRows(s, e.document, e.user)).Nothing? && e.document == document then
                 ActiveIn(s', document) == ActiveIn(s, document) + {s.nextId}
                 && s'.sessions[s.nextId].color == FreeColor(COLORS, UsedColors(s, document))
               else ActiveIn(s', document) == ActiveIn(s, document)
  {
    hide UsedColors, FreeColor;
    LookupMeans(ActiveRows(s, e.document, e.user));
  }

  lemma NewcomerApart(s: State, s': State, document: string, k: nat)
    requires ColorsApart(s, document) && ActiveIn(s', document) == ActiveIn(s, document) + {k}
    requires forall j | j in ActiveIn(s, document) :: s'.sessions[j].color == s.sessions[j].color
    requires s'.sessions[k].color !in UsedColors(s, document)
    ensures ColorsApart(s', document)
  {
    AllUsed(s, document);
  }

  lemma SameColorsApart(s: State, s': State, document: string)
    requires ColorsApart(s, document) && ActiveIn(s', document) <= ActiveIn(s, document)
    requires forall j | j in ActiveIn(s', document) :: s'.sessions[j].color == s.sessions[j].color
    ensures ColorsApart(s', document)
  {
  }

  lemma AllUsed(s: State, document: string)
    ensures forall k | k in ActiveIn(s, document) :: s.sessions[k].color in UsedColors(s, document)
  {
  }

  lemma StepKeepsColors(s: State, e: Event, now: int, document: string)
    requires Inv(s) && ColorsApart(s, document) && |ActiveIn(After(s, e, now), document)| <= 12
    ensures ColorsApart(After(s, e, now), document)
  {
    if e.Joined? {
      JoinKeepsColors(s, e, now, document);
    } else {
      var s' := After(s, e, now);
      if e.Left? {
        LookupMeans(SocketRows(s, e.socket));
      }
      assert forall k | k in ActiveIn(s', document) ::
               k in ActiveIn(s, document) && s'.sessions[k].color == s.sessions[k].color;
    }
  }

  /** As long as a document never has more than twelve active users, they all have
      different colours. */
  lemma {:induction false} ColorsStayApart(states: seq<State>, ticks: seq<Tick>, i: nat, document: string)
    requires Run(states, ticks) && states[0] == EMPTY && i <= |ticks|
    requires forall m | 0 <= m <= i :: |ActiveIn(states[m], document)| <= 12
    ensures ColorsApart(states[i], document)
  {
    hide Inv, After, Admissible, ColorsApart, ActiveIn;
    EmptyInv();
    if i == 0 {
      EmptyColors(document);
    } else {
      ColorsStayApart(states, ticks, i - 1, document);
      RunKeepsInv(states, ticks, i - 1);
      assert states[i] == After(states[i - 1], ticks[i - 1].event, ticks[i - 1].at);
      StepKeepsColors(states[i - 1], ticks[i - 1].event, ticks[i - 1].at, document);
    }
  }

  lemma EmptyColors(document: string)
    ensures ColorsApart(EMPTY, document)
  {
  }

  lemma StepKeepsPainted(s: State, e: Event, now: int)
    requires Painted(s)
    ensures Painted(After(s, e, now))
  {
    if e.Joined? {
      LookupMeans(ActiveRows(s, e.document, e.user));
      ColorIsFree(s, e.document);
    } else if e.Left? {
      LookupMeans(SocketRows(s, e.socket));
    }
  }

  lemma {:induction false} RunKeepsPainted(states: seq<State>, ticks: seq<Tick>, i: nat)
    requires Run(states, ticks) && states[0] == EMPTY && i <= |ticks|
    ensures Painted(states[i])
  {
    hide After, Admissible, Painted;
    if i == 0 {
      EmptyPainted();
    } else {
      RunKeepsPainted(states, ticks, i - 1);
      StepKeepsPainted(states[i - 1], ticks[i - 1].event, ticks[i - 1].at);
    }
  }

  lemma EmptyPainted()
    ensures Painted(EMPTY)
  {
  }

  lemma PaletteIsTwelve(s: State, document: string)
    requires Painted(s) && ColorsApart(s, document)
    ensures |ActiveIn(s, document)| <= 12
  {
    var ids, used := ActiveIn(s, document), UsedColors(s, document);
    SameCount(ids, s.sessions);
    assert used <= AsSet(COLORS);
    TwelveColors();
    assert AsSet(COLORS) == used + (AsSet(COLORS) - used);
  }

  /** Up to any point of any run, a document's users had different colours throughout
      exactly when there were never more than twelve at once. */
  lemma ColorsApartIffTwelve(states: seq<State>, ticks: seq<Tick>, i: nat, document: string)
    requires Run(states, ticks) && states[0] == EMPTY && i <= |ticks|
    ensures (forall m | 0 <= m <= i :: ColorsApart(states[m], document))
            <==> (forall m | 0 <= m <= i :: |ActiveIn(states[m], document)| <= 12)
  {
    hide ColorsApart, ActiveIn, Run, Painted;
    RunSize(states, ticks);
    forall m: nat | m <= i
      ensures ColorsApart(states[m], document) ==> |ActiveIn(states[m], document)| <= 12
    {
      RunKeepsPainted(states, ticks, m);
      if ColorsApart(states[m], document) {
        PaletteIsTwelve(states[m], document);
      }
    }
    if forall m | 0 <= m <= i :: |ActiveIn(states[m], document)| <= 12 {
      forall m: nat | m <= i
        ensures ColorsApart(states[m], document)
      {
        ColorsStayApart(states, ticks, m, document);
      }
    }
  }

  lemma RunSize(states: seq<State>, ticks: seq<Tick>)
    requires Run(states, ticks)
    ensures |states| == |ticks| + 1
  {
  }

  lemma {:induction false} SameCount(ids: set<nat>, sessions: map<nat, Session>)
    requires ids <= sessions.Keys
    requires forall j, k | j in ids && k in ids && j != k :: sessions[j].color != sessions[k].color
    ensures |set k | k in ids :: sessions[k].color| == |ids|
  {
    if ids != {} {
      var k := Any(ids);
      var rest := ids - {k};
      SameCount(rest, sessions);
      assert (set j | j in ids :: sessions[j].color) == (set j | j in rest :: sessions[j].color) + {sessions[k].color};
    }
  }
}
