/** The manager that updates the collaboration tables in place, and the socket
    handlers that drive it. */
module CollaborationService {
  import opened Wrappers
  import opened Collaboration
  import opened CollaborationRuns

  datatype Removal = Removed(session: nat) | NoSession | SeveralSessions

  datatype Answer = Granted(lock: nat) | HeldBy(lock: nat) | SeveralLocks

  /** Fetches the only row of a result. */
  method Fetch(ids: set<nat>) returns (found: Found)
    ensures found == Lookup(ids)
  {
    if ids == {} {
      return Nothing;
    }
    var id :| id in ids;
    found := if ids == {id} then One(id) else Several;
  }

  lemma EndNone(s: State, now: int)
    ensures Ended(s.sessions, {}, now) == s.sessions && NotHeldBy(s.locks, {}) == s.locks
  {
  }

  lemma EndOneMore(s: State, done: set<nat>, k: nat, now: int)
    requires k in s.sessions && k !in done
    ensures var sessions := Ended(s.sessions, done, now);
            k in sessions
            && sessions[k := sessions[k].(isActive := false, lastSeen := now)] == Ended(s.sessions, done + {k}, now)
    ensures NotHeldBy(NotHeldBy(s.locks, done), {k}) == NotHeldBy(s.locks, done + {k})
  {
  }

  lemma NobodyNotices(s: State, now: int)
    ensures Inv(s) ==> forall d, e, u, later | now <= later ::
              Grants(AfterLockSweep(s, now), d, e, u, later) <==> Grants(s, d, e, u, later)
  {
    hide Grants, Inv;
    if Inv(s) {
      forall d, e, u, later | now <= later
        ensures Grants(AfterLockSweep(s, now), d, e, u, later) <==> Grants(s, d, e, u, later)
      {
        SweepIsInvisible(s, now, d, e, u, later);
      }
    }
  }

  /** Every row with the socket has the new cursor and was seen now; the others, and the
      locks, stay as they were. */
  ghost predicate MovedTo(s: State, socket: string, cursor: Cursor, now: int, t: State) {
    && t.sessions.Keys == s.sessions.Keys && t.locks == s.locks && t.nextId == s.nextId
    && forall k | k in s.sessions ::
         t.sessions[k] == if s.sessions[k].socket == socket then s.sessions[k].(cursor := Some(cursor), lastSeen := now)
                          else s.sessions[k]
  }

  lemma MovedToOnce(s: State, socket: string, cursor: Cursor, now: int, t: State)
    requires MovedTo(s, socket, cursor, now, t)
    ensures t == AfterCursor(s, socket, cursor, now) && SocketRows(t, socket) == SocketRows(s, socket)
  {
    assert t.sessions == AfterCursor(s, socket, cursor, now).sessions;
  }

  class CollaborationManager {
    var sessions: map<nat, Session>
    var locks: map<nat, Lock>
    var nextId: nat

    constructor ()
      ensures Contents() == EMPTY
    {
      sessions, locks, nextId := map[], map[], 0;
    }

    ghost function Contents(): (s: State)
      reads this
    {
      State(sessions, locks, nextId)
    }

    method AssignUserColor(document: string) returns (color: nat)
      ensures color == FreeColor(COLORS, UsedColors(Contents(), document))
    {
      var used := set k | k in sessions && sessions[k].isActive && sessions[k].document == document ::
          sessions[k].color;
      assert used == UsedColors(Contents(), document);
      var i := 0;
      while i < |COLORS|
        invariant 0 <= i <= |COLORS|
        invariant FreeColor(COLORS, used) == FreeColor(COLORS[i..], used)
      {
        if COLORS[i] !in used {
          return COLORS[i];
        }
        i := i + 1;
      }
      color := COLORS[0];
    }

    /** `None` when the lookup of the user's session finds several rows. */
    method CreateSession(document: string, user: string, name: string, socket: string, now: int)
      returns (session: Option<nat>)
      modifies this
      ensures Contents() == AfterJoin(old(Contents()), document, user, name, socket, now)
      ensures session.None? <==> Lookup(ActiveRows(old(Contents()), document, user)).Several?
      ensures session.Some? && Fresh(old(Contents())) ==>
                Belongs(Contents(), session.value, document, user) && sessions[session.value].isActive
                && sessions[session.value].socket == socket
    {
      ghost var s := Contents();
      LookupMeans(ActiveRows(s, document, user));
      var rows := set k | k in sessions && sessions[k].isActive && sessions[k].document == document
        && sessions[k].user == user;
      assert rows == ActiveRows(s, document, user);
      var found := Fetch(rows);
      match found
      case Several => session := None;
      case One(k) =>
        assert k in rows;
        sessions := sessions[k := sessions[k].(socket := socket, lastSeen := now, isActive := true)];
        session := Some(k);
      case Nothing =>
        var color := AssignUserColor(document);
        sessions := sessions[nextId := Session(document, user, name, color, socket, None, true, now, now)];
        session := Some(nextId);
        nextId := nextId + 1;
    }

    method RemoveSession(socket: string, now: int) returns (removal: Removal)
      modifies this
      ensures Contents() == AfterLeave(old(Contents()), socket, now)
      ensures match Lookup(SocketRows(old(Contents()), socket))
              case One(k) => removal == Removed(k)
              case Nothing => removal == NoSession
              case Several => removal == SeveralSessions
    {
      ghost var s := Contents();
      LookupMeans(SocketRows(s, socket));
      var rows := set k | k in sessions && sessions[k].socket == socket;
      assert rows == SocketRows(s, socket);
      var found := Fetch(rows);
      match found
      case Several => removal := SeveralSessions;
      case Nothing => removal := NoSession;
      case One(k) =>
        assert k in rows;
        sessions := sessions[k := sessions[k].(isActive := false, lastSeen := now)];
        ReleaseSessionLocks(k);
        removal := Removed(k);
    }

    method ReleaseSessionLocks(session: nat)
      modifies this`locks
      ensures locks == NotHeldBy(old(locks), {session})
    {
      locks := map k | k in locks && locks[k].session != session :: locks[k];
    }

    /** The elements a socket's session has locked; `None` when several sessions match. */
    method LockedElements(socket: string) returns (elements: Option<set<string>>)
      ensures elements.None? <==> Lookup(SocketRows(Contents(), socket)).Several?
      ensures forall k | Lookup(SocketRows(Contents(), socket)) == One(k) ::
                elements == Some(set j | j in locks && locks[j].session == k :: locks[j].element)
      ensures Lookup(SocketRows(Contents(), socket)).Nothing? ==> elements == Some({})
    {
      var rows := set k | k in sessions && sessions[k].socket == socket;
      assert rows == SocketRows(Contents(), socket);
      var found := Fetch(rows);
      match found
      case Several => elements := None;
      case Nothing => elements := Some({});
      case One(k) => elements := Some(set j | j in locks && locks[j].session == k :: locks[j].element);
    }

    /** The rows change even when the method then fails over several of them. */
    method UpdateCursor(socket: string, cursor: Cursor, now: int) returns (found: Found)
      modifies this`sessions
      ensures found == Lookup(SocketRows(Contents(), socket))
              && MovedTo(old(Contents()), socket, cursor, now, Contents())
      ensures Contents() == AfterCursor(old(Contents()), socket, cursor, now)
    {
      ghost var s := Contents();
      var rows := set k | k in sessions && sessions[k].socket == socket;
      var pending := rows;
      while pending != {}
        invariant pending <= rows && sessions.Keys == s.sessions.Keys
        invariant forall k | k in sessions ::
                    sessions[k] == if k in rows && k !in pending
                                   then s.sessions[k].(cursor := Some(cursor), lastSeen := now)
                                   else s.sessions[k]
      {
        var k :| k in pending;
        sessions := sessions[k := sessions[k].(cursor := Some(cursor), lastSeen := now)];
        pending := pending - {k};
      }
      assert MovedTo(s, socket, cursor, now, Contents());
      MovedToOnce(s, socket, cursor, now, Contents());
      assert rows == SocketRows(s, socket);
      found := Fetch(rows);
    }

    /** Other transactions commit. */
    method Proceed(others: State)
      modifies this
      ensures Contents() == others
    {
      sessions, locks, nextId := others.sessions, others.locks, others.nextId;
    }

    method ActiveUsers(document: string) returns (active: set<nat>)
      ensures active == ActiveIn(Contents(), document)
    {
      active := set k | k in sessions && sessions[k].isActive && sessions[k].document == document;
    }

    method AcquireLock(document: string, element: string, user: string, session: nat, duration: int, now: int)
      returns (answer: Answer)
      modifies this
      ensures Contents() == AfterLock(old(Contents()), document, element, user, session, duration, now)
      ensures answer.SeveralLocks? <==> Lookup(LockRows(old(Contents()), document, element)).Several?
      ensures answer.Granted? <==> Grants(old(Contents()), document, element, user, now)
      ensures answer.Granted? ==> LockRows(Contents(), document, element) == {answer.lock}
                                  && locks[answer.lock].user == user && locks[answer.lock].expiresAt == now + duration
      ensures answer.HeldBy? ==>
                answer.lock in locks && locks[answer.lock].user != user && locks[answer.lock].expiresAt > now
    {
      ghost var s := Contents();
      ghost var all := LockRows(s, document, element);
      LookupMeans(all);
      var rows := set k | k in locks && locks[k].document == document && locks[k].element == element;
      assert rows == all;
      var found := Fetch(rows);
      if found.Several? {
        return SeveralLocks;
      }
      if found.One? {
        var k := found.id;
        assert k in all;
        if locks[k].expiresAt > now {
          if locks[k].user == user {
            locks := locks[k := locks[k].(expiresAt := now + duration)];
            assert LockRows(Contents(), document, element) == {k};
            return Granted(k);
          }
          return HeldBy(k);
        }
        locks := locks - {k};
      }
      assert locks == s.locks - all;
      locks := locks[nextId := Lock(document, element, user, session, now, now + duration)];
      answer := Granted(nextId);
      nextId := nextId + 1;
      assert LockRows(Contents(), document, element) == {answer.lock};
    }

    /** Only the holder's own release counts; after it the element is free for anybody. */
    method ReleaseLock(document: string, element: string, user: string) returns (released: bool)
      modifies this`locks
      ensures released <==> locks != old(locks)
      ensures forall k :: k in locks <==>
                k in old(locks) && !(k in LockRows(old(Contents()), document, element) && old(locks)[k].user == user)
      ensures forall k | k in locks :: locks[k] == old(locks)[k]
      ensures Contents() == AfterUnlock(old(Contents()), document, element, user)
      ensures released && Inv(old(Contents())) ==> LockRows(Contents(), document, element) == {}
    {
      ghost var s := Contents();
      var rows := set k | k in locks && locks[k].document == document && locks[k].element == element
        && locks[k].user == user;
      locks := locks - rows;
      released := |rows| > 0;
      if Inv(s) {
        ReleaseFreesElement(s, document, element, user);
      }
      assert locks == AfterUnlock(s, document, element, user).locks;
      assert released ==> exists k :: k in s.locks && k !in locks;
    }

    method GetDocumentLocks(document: string, now: int) returns (listed: map<nat, Lock>)
      modifies this`locks
      ensures Contents() == AfterListing(old(Contents()), document, now)
      ensures forall k :: k in listed <==> k in locks && locks[k].document == document
      ensures forall k | k in listed :: listed[k] == locks[k] && listed[k].expiresAt > now
    {
      var expired := set k | k in locks && locks[k].document == document && locks[k].expiresAt <= now;
      ghost var s := Contents();
      locks := locks - expired;
      assert locks == AfterListing(s, document, now).locks;
      listed := map k | k in locks && locks[k].document == document && locks[k].expiresAt > now :: locks[k];
    }

    /** Nobody notices: every request from now on is answered as it would have been. */
    method CleanupExpiredLocks(now: int) returns (count: nat)
      modifies this`locks
      ensures count == |old(locks)| - |locks|
      ensures forall k :: k in locks <==> k in old(locks) && old(locks)[k].expiresAt > now
      ensures forall k | k in locks :: locks[k] == old(locks)[k]
      ensures Contents() == AfterLockSweep(old(Contents()), now)
      ensures Inv(old(Contents())) ==>
                forall d, e, u, later | now <= later ::
                    Grants(Contents(), d, e, u, later) <==> Grants(old(Contents()), d, e, u, later)
    {
      hide Grants, Inv;
      ghost var s := Contents();
      var rows := set k | k in locks && locks[k].expiresAt <= now;
      locks := locks - rows;
      count := |rows|;
      assert locks == AfterLockSweep(s, now).locks;
      assert s.locks.Keys == locks.Keys + rows;
      hide AfterLockSweep;
      NobodyNotices(s, now);
    }

    method CleanupInactiveSessions(minutes: int, now: int) returns (count: nat)
      modifies this
      ensures Contents() == AfterSessionSweep(old(Contents()), minutes, now)
      ensures count == |Idle(old(Contents()), minutes, now)|
    {
      hide Ended, NotHeldBy;
      ghost var s := Contents();
      EndNone(s, now);
      var idle := Idle(State(sessions, locks, nextId), minutes, now);
      var pending := idle;
      count := 0;
      assert idle - pending == {};
      while pending != {}
        invariant pending <= idle && sessions.Keys == s.sessions.Keys && count == |idle| - |pending|
                  && nextId == s.nextId
        invariant sessions == Ended(s.sessions, idle - pending, now)
        invariant locks == NotHeldBy(s.locks, idle - pending)
      {
        var k :| k in pending;
        sessions := sessions[k := sessions[k].(isActive := false, lastSeen := now)];
        ReleaseSessionLocks(k);
        EndOneMore(s, idle - pending, k, now);
        assert idle - (pending - {k}) == idle - pending + {k};
        pending := pending - {k};
        count := count + 1;
      }
      assert idle - pending == idle;
    }
  }

  // ---- Socket handlers ---------------------------------------------------------------

  /** What a socket's own session remembers; an empty user is not signed in. */
  datatype Connection = Connection(user: string, name: string, document: Option<string>)

  datatype Reply =
    | MissingArgument
    | NotAuthenticated
    | Denied
    | NotInDocument
    | NoActiveSession
    | Failed
    | InDocument(session: nat)
    | LeftDocument(unlocked: set<string>)
    | NothingToLeave
    | Locked(lock: nat)
    | LockedByOther(lock: nat)
    | Unlocked
    | NotOwned

  class Gateway {
    const manager: CollaborationManager
    var connections: map<string, Connection>

    constructor (manager: CollaborationManager)
      requires manager.Contents() == EMPTY
      ensures Valid() && this.manager == manager && connections == map[]
    {
      this.manager, connections := manager, map[];
      new;
      EmptyInv();
    }

    /** A session row's socket, while connected, is one of its own user's. */
    ghost predicate Valid()
      reads this, manager
    {
      Inv(manager.Contents()) && OwnSockets(manager.Contents(), connections)
    }

    /** Socket ids are not used again. A caller that cannot be authenticated is refused. */
    method Connect(sid: string, user: Option<string>, name: string) returns (accepted: bool)
      requires Valid() && sid !in connections && SocketRows(manager.Contents(), sid) == {}
      modifies this
      ensures Valid() && (accepted <==> user.Some?)
      ensures connections == if accepted then old(connections)[sid := Connection(user.value, name, None)]
                             else old(connections)
    {
      accepted := user.Some?;
      if accepted {
        assert forall k | k in manager.sessions && manager.sessions[k].socket == sid ::
                 k in SocketRows(manager.Contents(), sid);
        connections := connections[sid := Connection(user.value, name, None)];
      }
    }

    /** As a leave, and the connection is gone. Other transactions may commit between
        the listing of the locks and the removal, leaving `others`. */
    method Disconnect(sid: string, now: int, others: State) returns (reply: Reply)
      requires Valid() && sid in connections && Continues(manager.Contents(), others) && OwnSockets(others, connections)
      modifies this, manager
      ensures Valid() && connections == old(connections) - {sid}
      ensures if old(connections)[sid].document.None? then
                reply == NotInDocument && manager.Contents() == old(manager.Contents())
              else LeftAfter(old(manager.Contents()), others, sid, now, manager.Contents(), reply)
    {
      var c := connections[sid];
      connections := connections - {sid};
      if c.document.None? {
        return NotInDocument;
      }
      reply := Depart(manager, sid, now, others);
    }

    /** One round of the periodic clean-up: expired locks, then idle sessions. */
    method CleanUp(now: int, later: int) returns (locks: nat, sessions: nat)
      requires Valid()
      modifies manager
      ensures Valid()
      ensures manager.Contents() == AfterSessionSweep(AfterLockSweep(old(manager.Contents()), now), IDLE_MINUTES, later)
      ensures locks == |old(manager.locks)| - |AfterLockSweep(old(manager.Contents()), now).locks|
      ensures sessions == |Idle(old(manager.Contents()), IDLE_MINUTES, later)|
    {
      hide AfterSessionSweep, AfterLockSweep, Idle, Inv, Grants;
      SweptSockets(manager.Contents(), now, later, connections);
      StepKeepsInv(manager.Contents(), LocksSwept, now);
      locks := manager.CleanupExpiredLocks(now);
      StepKeepsInv(manager.Contents(), SessionsSwept(IDLE_MINUTES), later);
      sessions := manager.CleanupInactiveSessions(IDLE_MINUTES, later);
    }

    method Join(sid: string, document: string, authorized: bool, now: int) returns (reply: Reply)
      requires Valid() && sid in connections
      modifies this, manager
      ensures Valid()
      ensures var c := old(connections)[sid];
              if document == "" then reply == MissingArgument
              else if c.user == "" then reply == NotAuthenticated
              else if !authorized then reply == Denied
              else reply.InDocument? && ActiveRows(manager.Contents(), document, c.user) == {reply.session}
                   && manager.sessions[reply.session].socket == sid
      ensures if reply.InDocument? then
                var c := old(connections)[sid];
                connections == old(connections)[sid := c.(document := Some(document))]
                && manager.Contents() ==
                   AfterListing(AfterJoin(old(manager.Contents()), document, c.user, c.name, sid, now), document, now)
              else connections == old(connections) && manager.Contents() == old(manager.Contents())
    {
      var c := connections[sid];
      if document == "" {
        return MissingArgument;
      }
      if c.user == "" {
        return NotAuthenticated;
      }
      if !authorized {
        return Denied;
      }
      ghost var s := manager.Contents();
      NeverSeveral(s, document, c.user, "");
      StepKeepsInv(s, Joined(document, c.user, c.name, sid), now);
      connections := connections[sid := c.(document := Some(document))];
      var session := manager.CreateSession(document, c.user, c.name, sid, now);
      StepKeepsInv(manager.Contents(), LocksListed(document), now);
      JoinedOnce(manager.Contents(), document, c.user, session.value);
      var listed := manager.GetDocumentLocks(document, now);
      reply := InDocument(session.value);
    }

    /** A failure is caught: the document is forgotten but the session stays. Other
        transactions may commit between the listing of the locks and the removal. */
    method Leave(sid: string, now: int, others: State) returns (reply: Reply)
      requires Valid() && sid in connections && Continues(manager.Contents(), others) && OwnSockets(others, connections)
      modifies this, manager
      ensures Valid()
      ensures connections == old(connections)[sid := old(connections)[sid].(document := None)]
      ensures if old(connections)[sid].document.None? then
                reply == NotInDocument && manager.Contents() == old(manager.Contents())
              else LeftAfter(old(manager.Contents()), others, sid, now, manager.Contents(), reply)
    {
      var c := connections[sid];
      connections := connections[sid := c.(document := None)];
      if c.document.None? {
        return NotInDocument;
      }
      reply := Depart(manager, sid, now, others);
    }

    /** The session found may have ended by the time the lock is asked for: other
        transactions may commit in between, leaving `others`. */
    method ElementLock(sid: string, element: string, now: int, others: State) returns (reply: Reply)
      requires Valid() && sid in connections && Continues(manager.Contents(), others) && OwnSockets(others, connections)
      modifies manager
      ensures Valid()
      ensures var c := old(connections)[sid];
              if element == "" then reply == MissingArgument
              else if c.document.None? || c.document.value == "" || c.user == "" then reply == NotInDocument
              else var s := old(manager.Contents());
                   var mine := ActiveIn(s, c.document.value) * SocketRows(s, sid);
                   if mine == {} then reply == NoActiveSession
                   else exists k :: k in mine && Admissible(others, LockAsked(c.document.value, element, c.user, k))
                          && manager.Contents() == After(others, LockAsked(c.document.value, element, c.user, k), now)
                          && (reply.Locked? <==> Grants(others, c.document.value, element, c.user, now))
                          && (reply.Locked? || reply.LockedByOther?)
      ensures !reply.Locked? ==> manager.Contents() == if reply.LockedByOther? then others else old(manager.Contents())
    {
      var c := connections[sid];
      if element == "" {
        return MissingArgument;
      }
      if c.document.None? || c.document.value == "" || c.user == "" {
        return NotInDocument;
      }
      ghost var s := manager.Contents();
      var document := c.document.value;
      var active := manager.ActiveUsers(document);
      var mine := set k | k in active && manager.sessions[k].socket == sid;
      assert mine == ActiveIn(s, document) * SocketRows(s, sid);
      if mine == {} {
        return NoActiveSession;
      }
      var session :| session in mine;
      manager.Proceed(others);
      hide Grants, After, Inv;
      reply := Ask(manager, document, element, c.user, session, now);
    }

    method ElementUnlock(sid: string, element: string) returns (reply: Reply)
      requires Valid() && sid in connections
      modifies manager
      ensures Valid()
      ensures var c := old(connections)[sid];
              if element == "" then reply == MissingArgument
              else if c.document.None? || c.document.value == "" || c.user == "" then reply == NotInDocument
              else manager.Contents() == AfterUnlock(old(manager.Contents()), c.document.value, element, c.user)
                   && (reply == NotOwned || reply == Unlocked)
                   && (reply == NotOwned <==> manager.Contents() == old(manager.Contents()))
      ensures reply != Unlocked ==> manager.Contents() == old(manager.Contents())
    {
      var c := connections[sid];
      if element == "" {
        return MissingArgument;
      }
      if c.document.None? || c.document.value == "" || c.user == "" {
        return NotInDocument;
      }
      ghost var s := manager.Contents();
      StepKeepsInv(s, LockReleased(c.document.value, element, c.user), 0);
      var released := manager.ReleaseLock(c.document.value, element, c.user);
      assert !released ==> manager.locks == s.locks;
      reply := if released then Unlocked else NotOwned;
    }
  }

  ghost predicate OwnSockets(s: State, connections: map<string, Connection>) {
    forall k | k in s.sessions && s.sessions[k].socket in connections ::
      connections[s.sessions[k].socket].user == s.sessions[k].user
  }

  lemma SweptSockets(s: State, now: int, later: int, connections: map<string, Connection>)
    ensures OwnSockets(s, connections) ==>
              OwnSockets(AfterSessionSweep(AfterLockSweep(s, now), IDLE_MINUTES, later), connections)
    ensures Idle(AfterLockSweep(s, now), IDLE_MINUTES, later) == Idle(s, IDLE_MINUTES, later)
  {
  }

  /** What a departure answers: the locks held through the session when they were listed
      are announced, those held through it when it is removed are freed. */
  ghost predicate LeftAfter(s: State, others: State, sid: string, now: int, t: State, reply: Reply) {
    match Lookup(SocketRows(s, sid))
    case Several => reply == Failed && t == s
    case found =>
      && t == AfterLeave(others, sid, now)
      && match Lookup(SocketRows(others, sid))
         case Several => reply == Failed
         case Nothing => reply == NothingToLeave
         case One(_) => reply == LeftDocument(if found.One? then HeldThrough(s, found.id) else {})
  }

  method Ask(manager: CollaborationManager, document: string, element: string, user: string, session: nat, now: int)
    returns (reply: Reply)
    requires Inv(manager.Contents()) && Belongs(manager.Contents(), session, document, user)
    modifies manager
    ensures Inv(manager.Contents()) && manager.sessions == old(manager.sessions)
    ensures var s, e := old(manager.Contents()), LockAsked(document, element, user, session);
            && Admissible(s, e) && manager.Contents() == After(s, e, now)
            && (reply.Locked? <==> Grants(s, document, element, user, now))
            && (reply.Locked? || (reply.LockedByOther? && manager.Contents() == s))
  {
    ghost var s, e := manager.Contents(), LockAsked(document, element, user, session);
    StepKeepsInv(s, e, now);
    GrantMeans(s, e, now);
    NeverSeveral(s, document, user, element);
    var answer := manager.AcquireLock(document, element, user, session, LOCK_SECONDS, now);
    reply := if answer.Granted? then Locked(answer.lock) else LockedByOther(answer.lock);
  }

  /** The two transactions of a departure. */
  method Depart(manager: CollaborationManager, sid: string, now: int, others: State) returns (reply: Reply)
    requires Inv(manager.Contents()) && Continues(manager.Contents(), others)
    modifies manager
    ensures Inv(manager.Contents()) && LeftAfter(old(manager.Contents()), others, sid, now, manager.Contents(), reply)
    ensures manager.Contents() == old(manager.Contents())
            || (manager.sessions.Keys == others.sessions.Keys
                && forall k | k in manager.sessions :: manager.sessions[k].user == others.sessions[k].user
                                                       && manager.sessions[k].socket == others.sessions[k].socket)
  {
    var elements := manager.LockedElements(sid);
    if elements.None? {
      return Failed;
    }
    manager.Proceed(others);
    StepKeepsInv(others, Left(sid), now);
    LookupMeans(SocketRows(others, sid));
    var removal := manager.RemoveSession(sid, now);
    match removal
    case SeveralSessions => reply := Failed;
    case NoSession => reply := NothingToLeave;
    case Removed(_) => reply := LeftDocument(elements.value);
  }

  lemma JoinedOnce(s: State, document: string, user: string, k: nat)
    requires OneSession(s) && Belongs(s, k, document, user) && s.sessions[k].isActive
    ensures ActiveRows(s, document, user) == {k}
  {
  }
}
