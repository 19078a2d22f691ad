/** Runs of calls on one worker's session cache: to its callers it is one map. */
module SessionRuns {
  import opened Wrappers
  import opened Lru
  import opened SessionCache

  /** An edit looks the session up, changes it and saves it. */
  datatype Op =
    | Create(id: string, session: Session)
    | Get(id: string)
    | Edit(id: string, change: Session)
    | Delete(id: string)

  datatype Call = Call(at: int, op: Op)

  predicate HasBytes(op: Op) {
    match op
    case Create(_, x) => x.pdf != []
    case Edit(_, x) => x.pdf != []
    case _ => true
  }

  function After(s: State, c: Call, max: nat): State
    requires max >= 1
  {
    match c.op
    case Create(id, x) => AfterCreate(s, id, x.(lastAccessed := c.at), max)
    case Get(id) => AfterGet(s, id, c.at, max)
    case Edit(id, x) => AfterSave(AfterChange(AfterGet(s, id, c.at, max), id, x), id)
    case Delete(id) => AfterDelete(s, id)
  }

  /** In order of time, from an empty cache and an empty Redis, with PDFs that have bytes. */
  ghost predicate Run(states: seq<State>, calls: seq<Call>, max: nat) {
    && max >= 1 && |states| == |calls| + 1 && states[0] == EMPTY
    && (forall i, j | 0 <= i <= j < |calls| :: calls[i].at <= calls[j].at)
    && (forall i | 0 <= i < |calls| :: HasBytes(calls[i].op))
    && forall i | 0 <= i < |calls| :: states[i + 1] == After(states[i], calls[i], max)
  }

  // ---- The map ------------------------------------------------------------------------

  function OnMap(m: map<string, Session>, op: Op): map<string, Session> {
    match op
    case Create(id, x) => m[id := View(x)]
    case Get(_) => m
    case Edit(id, x) => if id in m then m[id := View(x)] else m
    case Delete(id) => m - {id}
  }

  function MapAfter(calls: seq<Call>): map<string, Session> {
    if calls == [] then map[] else OnMap(MapAfter(calls[..|calls| - 1]), calls[|calls| - 1].op)
  }

  ghost predicate Good(s: State, max: nat) { InBounds(s, max) && CoherentBut(s, None) }

  lemma EditMeans(s: State, id: string, x: Session, now: int, max: nat)
    requires Good(s, max) && Before(s, now) && x.pdf != []
    ensures var t := AfterSave(AfterChange(AfterGet(s, id, now, max), id, x), id);
            Good(t, max) && Before(t, now) && ContentsOf(t.store) == OnMap(ContentsOf(s.store), Edit(id, x))
  {
    hide Lined, CoherentBut, ContentsOf, AfterGet, Before, View, Written;
    GetMeans(s, id, now, max);
    var g := AfterGet(s, id, now, max);
    ChangeMeans(g, id, x, max, now);
    var c := AfterChange(g, id, x);
    if id in c.cache {
      SaveMeans(c, id);
      InBoundsStore(c, Written(c.store, id, c.cache[id]), max, now);
    }
  }

  lemma StepMeans(s: State, c: Call, max: nat)
    requires Good(s, max) && Before(s, c.at) && HasBytes(c.op)
    ensures Good(After(s, c, max), max) && Before(After(s, c, max), c.at)
    ensures ContentsOf(After(s, c, max).store) == OnMap(ContentsOf(s.store), c.op)
  {
    hide Lined, CoherentBut, ContentsOf, AfterGet, Before, AfterCreate, AfterDelete, AfterSave, AfterChange;
    match c.op
    case Create(id, x) => CreateMeans(s, id, x.(lastAccessed := c.at), max);
    case Get(id) => GetMeans(s, id, c.at, max);
    case Edit(id, x) => EditMeans(s, id, x, c.at, max);
    case Delete(id) =>
      CoherentMore(s, id);
      DeleteMeans(s, id, max);
  }

  lemma CoherentMore(s: State, id: string)
    requires CoherentBut(s, None)
    ensures CoherentBut(s, Some(id))
  {
  }

  ghost predicate BeforeCall(states: seq<State>, calls: seq<Call>, i: nat)
    requires i < |states|
  {
    i < |calls| ==> Before(states[i], calls[i].at)
  }

  lemma LaterToo(s: State, now: int, later: int)
    requires Before(s, now) && now <= later
    ensures Before(s, later)
  {
  }

  /** At every point of every run the cache is within its bound and in the order of last
      access, agrees with Redis, and the two stand for the map the calls describe. */
  lemma {:induction false} RunIsMap(states: seq<State>, calls: seq<Call>, max: nat, i: nat)
    requires Run(states, calls, max) && i <= |calls|
    ensures Good(states[i], max) && ContentsOf(states[i].store) == MapAfter(calls[..i]) && BeforeCall(states, calls, i)
  {
    hide Good, After, ContentsOf, Before, OnMap;
    if i == 0 {
      EmptyIsGood(max);
      EmptyIsBefore(if calls == [] then 0 else calls[0].at);
    } else {
      RunIsMap(states, calls, max, i - 1);
      StepMeans(states[i - 1], calls[i - 1], max);
      assert calls[..i][..i - 1] == calls[..i - 1];
      if i < |calls| {
        LaterToo(states[i], calls[i - 1].at, calls[i].at);
      }
    }
  }

  lemma EmptyIsGood(max: nat)
    requires max >= 1
    ensures Good(EMPTY, max) && ContentsOf(EMPTY.store) == map[]
  {
  }

  lemma EmptyIsBefore(now: int)
    ensures Before(EMPTY, now)
  {
  }

  /** Every lookup in every run answers as the map would. */
  lemma LookupsAnswer(states: seq<State>, calls: seq<Call>, max: nat, i: nat)
    requires Run(states, calls, max) && i < |calls| && calls[i].op.Get?
    ensures var id, m := calls[i].op.id, MapAfter(calls[..i]);
            && (id in states[i + 1].cache <==> id in m)
            && (id in m ==> View(states[i + 1].cache[id]) == m[id])
  {
    hide InBounds, CoherentBut, ContentsOf, AfterGet, View, Before, MapAfter;
    RunIsMap(states, calls, max, i);
    GetMeans(states[i], calls[i].op.id, calls[i].at, max);
  }

  // ---- Which sessions are cached --------------------------------------------------------

  /** The documents in the order of their last use. */
  function RecentUses(calls: seq<Call>): seq<string> {
    if calls == [] then []
    else
      var before, op := calls[..|calls| - 1], calls[|calls| - 1].op;
      match op
      case Create(id, _) => Touched(RecentUses(before), id)
      case Get(id) => if id in MapAfter(before) then Touched(RecentUses(before), id) else RecentUses(before)
      case Edit(id, _) => if id in MapAfter(before) then Touched(RecentUses(before), id) else RecentUses(before)
      case Delete(id) => Minus(RecentUses(before), id)
  }

  lemma GetOrder(s: State, id: string, now: int, max: nat, recent: seq<string>)
    requires Good(s, max) && Before(s, now) && Suffix(s.order, recent)
    ensures Suffix(AfterGet(s, id, now, max).order, if id in ContentsOf(s.store) then Touched(recent, id) else recent)
  {
    hide Minus, Loaded, Lined;
    GetMeans(s, id, now, max);
    TouchedSuffix(s.order, recent, id);
    PutSuffix(s.order, recent, id, max);
  }

  /** In every run, creations, edits and deletions included, the cached documents are the
      most recently used ones, in the order of their last use. */
  lemma {:induction false} CachesTheMostRecent(states: seq<State>, calls: seq<Call>, max: nat, i: nat)
    requires Run(states, calls, max) && i <= |calls|
    ensures |states[i].order| <= max && Suffix(states[i].order, RecentUses(calls[..i]))
  {
    hide Lined, CoherentBut, ContentsOf, AfterGet, Before, MapAfter, Minus, Touched, Put;
    RunIsMap(states, calls, max, i);
    if i > 0 {
      var before := calls[..i - 1];
      RunIsMap(states, calls, max, i - 1);
      CachesTheMostRecent(states, calls, max, i - 1);
      assert calls[..i][..i - 1] == before && calls[..i][i - 1] == calls[i - 1];
      var s, id, recent := states[i - 1], calls[i - 1].op.id, RecentUses(before);
      GetOrder(s, id, calls[i - 1].at, max, recent);
      TouchedSuffix(s.order, recent, id);
      PutSuffix(s.order, recent, id, max);
    }
  }
}
