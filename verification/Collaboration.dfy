/** Who edits which document, and which element they hold: the two tables behind
    real-time collaboration, and the transactions on them. */
module Collaboration {
  import opened Wrappers

  const COLORS: seq<nat> := [
    0x3B82F6, 0x10B981, 0xF59E0B, 0xEF4444, 0x8B5CF6, 0xEC4899,
    0x06B6D4, 0xF97316, 0x14B8A6, 0x6366F1, 0x84CC16, 0xF43F5E]

  const LOCK_SECONDS := 300

  const IDLE_MINUTES := 60

  datatype Cursor = Cursor(page: int, x: real, y: real)

  datatype Session = Session(
    document: string,
    user: string,
    name: string,
    color: nat,
    socket: string,
    cursor: Option<Cursor>,
    isActive: bool,
    joinedAt: int,
    lastSeen: int
  )

  datatype Lock = Lock(document: string, element: string, user: string, session: nat, lockedAt: int, expiresAt: int)

  /** Row ids come from one counter: only their distinctness matters. */
  datatype State = State(sessions: map<nat, Session>, locks: map<nat, Lock>, nextId: nat)

  const EMPTY := State(map[], map[], 0)

  /** What fetching the single row of a result gives: several rows are an error. */
  datatype Found = Nothing | One(id: nat) | Several

  ghost function Any(ids: set<nat>): (id: nat)
    requires ids != {}
    ensures id in ids
  {
    var id :| id in ids;
    id
  }

  ghost function Lookup(ids: set<nat>): Found {
    if ids == {} then Nothing else if ids == {Any(ids)} then One(Any(ids)) else Several
  }

  lemma LookupMeans(ids: set<nat>)
    ensures Lookup(ids).Nothing? <==> |ids| == 0
    ensures Lookup(ids).One? <==> |ids| == 1
    ensures forall id: nat :: Lookup(ids) == One(id) <==> ids == {id}
  {
    if ids != {} {
      var id := Any(ids);
      assert |ids| == |ids - {id}| + 1;
      assert ids == ids - {id} + {id};
    }
  }

  function ActiveRows(s: State, document: string, user: string): set<nat> {
    set k | k in s.sessions && s.sessions[k].isActive && s.sessions[k].document == document
      && s.sessions[k].user == user
  }

  function ActiveIn(s: State, document: string): set<nat> {
    set k | k in s.sessions && s.sessions[k].isActive && s.sessions[k].document == document
  }

  function SocketRows(s: State, socket: string): set<nat> {
    set k | k in s.sessions && s.sessions[k].socket == socket
  }

  function LockRows(s: State, document: string, element: string): set<nat> {
    set k | k in s.locks && s.locks[k].document == document && s.locks[k].element == element
  }

  function UsedColors(s: State, document: string): set<nat> {
    set k | k in ActiveIn(s, document) :: s.sessions[k].color
  }

  /** The first unused colour of the palette, or its first when all are used. */
  function FreeColor(colors: seq<nat>, used: set<nat>): nat {
    if colors == [] then COLORS[0] else if colors[0] !in used then colors[0] else FreeColor(colors[1..], used)
  }

  function NotHeldBy(locks: map<nat, Lock>, sessions: set<nat>): map<nat, Lock> {
    map k | k in locks && locks[k].session !in sessions :: locks[k]
  }

  // ---- The transactions, as functions of the state they find -----------------------

  ghost function AfterJoin(s: State, document: string, user: string, name: string, socket: string, now: int): State {
    match Lookup(ActiveRows(s, document, user))
    case Several => s
    case One(k) => s.(sessions := s.sessions[k := s.sessions[k].(socket := socket, lastSeen := now)])
    case Nothing =>
      var color := FreeColor(COLORS, UsedColors(s, document));
      s.(sessions := s.sessions[s.nextId := Session(document, user, name, color, socket, None, true, now, now)],
         nextId := s.nextId + 1)
  }

  ghost function AfterLeave(s: State, socket: string, now: int): State {
    match Lookup(SocketRows(s, socket))
    case One(k) =>
      s.(sessions := s.sessions[k := s.sessions[k].(isActive := false, lastSeen := now)],
         locks := NotHeldBy(s.locks, {k}))
    case _ => s
  }

  /** Whether a request for the element's lock is granted. */
  ghost predicate Grants(s: State, document: string, element: string, user: string, now: int) {
    match Lookup(LockRows(s, document, element))
    case Nothing => true
    case One(k) => s.locks[k].expiresAt <= now || s.locks[k].user == user
    case Several => false
  }

  ghost function AfterLock(s: State, document: string, element: string, user: string, session: nat, duration: int,
                           now: int): State {
    var rows := LockRows(s, document, element);
    var row := Lock(document, element, user, session, now, now + duration);
    var taken := s.(locks := (s.locks - rows)[s.nextId := row], nextId := s.nextId + 1);
    match Lookup(rows)
    case Several => s
    case Nothing => taken
    case One(k) =>
      if s.locks[k].expiresAt <= now then taken
      else if s.locks[k].user == user then s.(locks := s.locks[k := s.locks[k].(expiresAt := now + duration)])
      else s
  }

  function AfterUnlock(s: State, document: string, element: string, user: string): State {
    s.(locks := map k | k in s.locks && !(s.locks[k].document == document && s.locks[k].element == element
                                          && s.locks[k].user == user) :: s.locks[k])
  }

  function AfterListing(s: State, document: string, now: int): State {
    s.(locks := map k | k in s.locks && !(s.locks[k].document == document && s.locks[k].expiresAt <= now) :: s.locks[k])
  }

  function AfterLockSweep(s: State, now: int): State {
    s.(locks := map k | k in s.locks && s.locks[k].expiresAt > now :: s.locks[k])
  }

  function Idle(s: State, minutes: int, now: int): set<nat> {
    set k | k in s.sessions && s.sessions[k].isActive && s.sessions[k].lastSeen < now - 60 * minutes
  }

  /** The idle sessions end; last_seen_at moves with every update of a row. */
  function Ended(sessions: map<nat, Session>, idle: set<nat>, now: int): map<nat, Session> {
    map k | k in sessions :: if k in idle then sessions[k].(isActive := false, lastSeen := now) else sessions[k]
  }

  function AfterSessionSweep(s: State, minutes: int, now: int): State {
    var idle := Idle(s, minutes, now);
    s.(sessions := Ended(s.sessions, idle, now), locks := NotHeldBy(s.locks, idle))
  }

  function AfterCursor(s: State, socket: string, cursor: Cursor, now: int): State {
    s.(sessions := map k | k in s.sessions ::
                     if s.sessions[k].socket == socket then s.sessions[k].(cursor := Some(cursor), lastSeen := now)
                     else s.sessions[k])
  }

  // ---- Invariants ------------------------------------------------------------------

  ghost predicate Fresh(s: State) {
    (forall k | k in s.sessions :: k < s.nextId) && (forall k | k in s.locks :: k < s.nextId)
  }

  ghost predicate OneLock(s: State) {
    forall j, k | j in s.locks && k in s.locks && s.locks[j].document == s.locks[k].document
                  && s.locks[j].element == s.locks[k].element :: j == k
  }

  ghost predicate OneSession(s: State) {
    forall j, k | j in s.sessions && k in s.sessions && s.sessions[j].isActive && s.sessions[k].isActive
                  && s.sessions[j].document == s.sessions[k].document && s.sessions[j].user == s.sessions[k].user ::
                       j == k
  }

  /** A session id read from the table stays good to lock with, even once it has ended. */
  predicate Belongs(s: State, session: nat, document: string, user: string) {
    session in s.sessions && s.sessions[session].document == document && s.sessions[session].user == user
  }

  ghost predicate OwnLocks(s: State) {
    forall k | k in s.locks :: Belongs(s, s.locks[k].session, s.locks[k].document, s.locks[k].user)
  }

  ghost predicate Inv(s: State) {
    Fresh(s) && OneLock(s) && OneSession(s) && OwnLocks(s)
  }

  /** No lock outlasts a grant made now. */
  ghost predicate Bounded(s: State, now: int) {
    forall k | k in s.locks :: s.locks[k].expiresAt <= now + LOCK_SECONDS
  }

  ghost predicate ColorsApart(s: State, document: string) {
    forall j, k | j in ActiveIn(s, document) && k in ActiveIn(s, document) && j != k ::
      s.sessions[j].color != s.sessions[k].color
  }

  ghost predicate Painted(s: State) {
    forall k | k in s.sessions :: s.sessions[k].color in COLORS
  }

  // ---- Steps and runs ----------------------------------------------------------------

  /** One committed transaction; each happens at once, in any interleaving. */
  datatype Event =
    | Joined(document: string, user: string, name: string, socket: string)
    | Left(socket: string)
    | LockAsked(document: string, element: string, user: string, session: nat)
    | LockReleased(document: string, element: string, user: string)
    | LocksListed(document: string)
    | LocksSwept
    | SessionsSwept(minutes: int)
    | CursorMoved(socket: string, cursor: Cursor)

  ghost function After(s: State, e: Event, now: int): State {
    match e
    case Joined(d, u, n, x) => AfterJoin(s, d, u, n, x, now)
    case Left(x) => AfterLeave(s, x, now)
    case LockAsked(d, el, u, k) => AfterLock(s, d, el, u, k, LOCK_SECONDS, now)
    case LockReleased(d, el, u) => AfterUnlock(s, d, el, u)
    case LocksListed(d) => AfterListing(s, d, now)
    case LocksSwept => AfterLockSweep(s, now)
    case SessionsSwept(m) => AfterSessionSweep(s, m, now)
    case CursorMoved(x, c) => AfterCursor(s, x, c, now)
  }

  /** A lock is asked for with a session row of the asking user on that document. */
  ghost predicate Admissible(s: State, e: Event) {
    e.LockAsked? ==> Belongs(s, e.session, e.document, e.user)
  }

  datatype Tick = Tick(at: int, event: Event)

  ghost predicate Run(states: seq<State>, ticks: seq<Tick>) {
    && |states| == |ticks| + 1
    && (forall i | 0 <= i < |ticks| :: Admissible(states[i], ticks[i].event))
    && (forall i | 0 <= i < |ticks| :: states[i + 1] == After(states[i], ticks[i].event, ticks[i].at))
    && (forall i, j | 0 <= i <= j < |ticks| :: ticks[i].at <= ticks[j].at)
  }
}
