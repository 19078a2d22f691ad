/** Editing sessions: a small cache in front of Redis that together behave like one map. */
module SessionCache {
  import opened Wrappers
  import opened SceneGraph
  import opened Sequences
  import opened Lru

  // ---- The history kept with a session ------------------------------------------------

  /** One entry; time stamps are numbers. */
  datatype Entry = Entry(
    index: nat,
    action: string,
    timestamp: int,
    canUndo: bool,
    canRedo: bool,
    elements: seq<string>,
    pages: seq<int>
  )

  datatype HistoryState = HistoryState(current: int, max: int, entries: seq<Entry>)

  /** An entry as JSON: the fields read with a default may be missing. */
  datatype EntryJson = EntryJson(
    index: nat,
    action: string,
    timestamp: int,
    canUndo: Option<bool>,
    canRedo: Option<bool>,
    elements: Option<seq<string>>,
    pages: Option<seq<int>>
  )

  datatype HistoryJson = HistoryJson(current: Option<int>, max: Option<int>, entries: Option<seq<EntryJson>>)

  function Or<T>(value: Option<T>, default: T): T { if value.Some? then value.value else default }

  function SerializeEntry(e: Entry): EntryJson {
    EntryJson(e.index, e.action, e.timestamp, Some(e.canUndo), Some(e.canRedo), Some(e.elements), Some(e.pages))
  }

  function DeserializeEntry(j: EntryJson): Entry {
    Entry(j.index, j.action, j.timestamp, Or(j.canUndo, true), Or(j.canRedo, false), Or(j.elements, []),
          Or(j.pages, []))
  }

  function Serialize(h: HistoryState): HistoryJson {
    HistoryJson(Some(h.current), Some(h.max),
                Some(seq(|h.entries|, i requires 0 <= i < |h.entries| => SerializeEntry(h.entries[i]))))
  }

  function Deserialize(j: HistoryJson): HistoryState {
    var entries := Or(j.entries, []);
    HistoryState(Or(j.current, -1), Or(j.max, 100),
                 seq(|entries|, i requires 0 <= i < |entries| => DeserializeEntry(entries[i])))
  }

  lemma HistoryRoundTrip(h: HistoryState)
    ensures Deserialize(Serialize(h)) == h
  {
    assert Deserialize(Serialize(h)).entries == h.entries;
  }

  const NO_HISTORY := HistoryState(-1, 100, [])

  ghost predicate ValidHistory(h: HistoryState) {
    h.max >= 1 && -1 <= h.current < |h.entries| <= h.max
  }

  /** The redo branch is cut, the entry appended, its predecessor made redoable, and the
      oldest dropped when there are too many. */
  function Pushed(h: HistoryState, action: string, elements: seq<string>, pages: seq<int>, now: int): HistoryState
    requires -1 <= h.current < |h.entries|
  {
    var kept := h.entries[..h.current + 1];
    var n := |kept|;
    var longer := kept + [Entry(n, action, now, true, false, elements, pages)];
    var marked := if n > 0 then longer[n - 1 := longer[n - 1].(canRedo := true)] else longer;
    if n + 1 > h.max then HistoryState(n - 1, h.max, marked[1..]) else HistoryState(n, h.max, marked)
  }

  /** What a push leaves: the new entry last and current, before it the entries up to the
      one that was current, less the oldest when the bound is passed. */
  lemma PushMeans(h: HistoryState, action: string, elements: seq<string>, pages: seq<int>, now: int)
    requires ValidHistory(h)
    ensures var p := Pushed(h, action, elements, pages, now);
            var dropped := if h.current + 2 > h.max then 1 else 0;
            && ValidHistory(p) && p.current == |p.entries| - 1 == h.current + 1 - dropped
            && p.max == h.max
            && p.entries[p.current] == Entry(h.current + 1, action, now, true, false, elements, pages)
            && (p.current > 0 ==> p.entries[p.current - 1] == h.entries[h.current].(canRedo := true))
            && forall i | 0 <= i < p.current - 1 :: p.entries[i] == h.entries[i + dropped]
  {
  }

  // ---- Sessions, and what Redis keeps of them -------------------------------------------------

  datatype Session = Session(
    pdf: seq<nat>,
    graph: seq<Page>,
    owner: Option<string>,
    filename: Option<string>,
    fileSize: nat,
    createdAt: int,
    lastAccessed: int,
    locks: map<string, string>,
    history: HistoryState
  )

  datatype Meta = Meta(
    owner: Option<string>,
    filename: Option<string>,
    fileSize: nat,
    createdAt: int,
    lastAccessed: int,
    locks: map<string, string>,
    history: HistoryJson
  )

  /** The three keys of each document. */
  datatype Store = Store(pdfs: map<string, seq<nat>>, graphs: map<string, seq<Page>>, metas: map<string, Meta>)

  function MetaOf(s: Session): Meta {
    Meta(s.owner, s.filename, s.fileSize, s.createdAt, s.lastAccessed, s.locks, Serialize(s.history))
  }

  function Written(store: Store, id: string, s: Session): Store {
    Store(store.pdfs[id := s.pdf], store.graphs[id := s.graph], store.metas[id := MetaOf(s)])
  }

  function Erased(store: Store, id: string): Store {
    Store(store.pdfs - {id}, store.graphs - {id}, store.metas - {id})
  }

  /** A document whose PDF is missing or empty, or whose scene graph is missing, is not found. */
  predicate Loadable(store: Store, id: string) {
    id in store.pdfs && store.pdfs[id] != [] && id in store.graphs
  }

  /** The session rebuilt from Redis; without metadata it starts with none. */
  function Loaded(store: Store, id: string, now: int): Session
    requires Loadable(store, id)
  {
    if id in store.metas then
      var m := store.metas[id];
      Session(store.pdfs[id], store.graphs[id], m.owner, m.filename, m.fileSize, m.createdAt, now, m.locks,
              Deserialize(m.history))
    else Session(store.pdfs[id], store.graphs[id], None, None, 0, now, now, map[], NO_HISTORY)
  }

  const NO_SESSIONS := Store(map[], map[], map[])

  /** A session, whenever it was last accessed. */
  function View(s: Session): Session { s.(lastAccessed := 0) }

  lemma ViewMeans(a: Session, b: Session)
    ensures View(a) == View(b) <==> a.(lastAccessed := b.lastAccessed) == b
  {
  }

  lemma SaveAndReload(store: Store, id: string, s: Session, now: int)
    ensures Loadable(Written(store, id, s), id) <==> s.pdf != []
    ensures s.pdf != [] ==> Loaded(Written(store, id, s), id, now) == s.(lastAccessed := now)
  {
    HistoryRoundTrip(s.history);
  }

  function ContentsOf(store: Store): map<string, Session> {
    map id | id in store.pdfs && Loadable(store, id) :: View(Loaded(store, id, 0))
  }

  lemma WriteMeans(store: Store, id: string, s: Session)
    ensures var w := Written(store, id, s);
            && (s.pdf != [] ==> Loadable(w, id) && View(Loaded(w, id, 0)) == View(s))
            && forall x | x != id :: (Loadable(w, x) <==> Loadable(store, x))
                                     && (Loadable(w, x) ==> Loaded(w, x, 0) == Loaded(store, x, 0))
  {
    SaveAndReload(store, id, s, 0);
  }

  lemma WriteContents(store: Store, id: string, s: Session)
    requires s.pdf != []
    ensures ContentsOf(Written(store, id, s)) == ContentsOf(store)[id := View(s)]
  {
    hide Loaded, View;
    WriteMeans(store, id, s);
  }

  // ---- What each call does to the cache and Redis together --------------------------------------

  datatype State = State(order: seq<string>, cache: map<string, Session>, store: Store)

  const EMPTY := State([], map[], NO_SESSIONS)

  /** The bound, and the order by last access. */
  ghost predicate InBounds(s: State, max: nat) {
    max >= 1 && |s.order| <= max && Lined(s.order, s.cache)
  }

  /** Every cached session, but perhaps this one, is saved as it is. */
  ghost predicate CoherentBut(s: State, but: Option<string>) {
    && s.store.pdfs.Keys <= s.store.metas.Keys
    && forall id | id in s.cache && but != Some(id) ::
         Loadable(s.store, id) && View(s.cache[id]) == View(Loaded(s.store, id, 0))
  }

  /** No access is later than now. */
  ghost predicate Before(s: State, now: int) {
    forall id | id in s.cache :: s.cache[id].lastAccessed <= now
  }

  function Placed(s: State, id: string, x: Session, max: nat): State
    requires max >= 1
  {
    var order := Put(s.order, id, max);
    s.(order := order,
       cache := map y | y in order && (y == id || y in s.cache) :: if y == id then x else s.cache[y])
  }

  function Refreshed(s: State, id: string, x: Session): State {
    s.(order := Touched(s.order, id), cache := s.cache[id := x])
  }

  function AfterGet(s: State, id: string, now: int, max: nat): State
    requires max >= 1
  {
    if id in s.cache then Refreshed(s, id, s.cache[id].(lastAccessed := now))
    else if Loadable(s.store, id) then Placed(s, id, Loaded(s.store, id, now), max)
    else s
  }

  function AfterCreate(s: State, id: string, x: Session, max: nat): State
    requires max >= 1
  {
    var placed := Placed(s, id, x, max);
    if x.pdf != [] then placed.(store := Written(s.store, id, x)) else placed
  }

  /** A service changes the live session, not when it was last accessed. */
  function AfterChange(s: State, id: string, x: Session): State {
    if id in s.cache then s.(cache := s.cache[id := x.(lastAccessed := s.cache[id].lastAccessed)]) else s
  }

  function AfterSave(s: State, id: string): State {
    if id in s.cache then s.(store := Written(s.store, id, s.cache[id])) else s
  }

  function AfterDelete(s: State, id: string): State {
    State(Minus(s.order, id), s.cache - {id}, Erased(s.store, id))
  }

  /** What the calls keep of bounds and order. */
  lemma PlacedInBounds(s: State, id: string, x: Session, max: nat)
    requires InBounds(s, max) && Before(s, x.lastAccessed)
    ensures InBounds(Placed(s, id, x, max), max) && Before(Placed(s, id, x, max), x.lastAccessed)
    ensures id in Placed(s, id, x, max).cache && Placed(s, id, x, max).cache[id] == x
    ensures forall y | y in Placed(s, id, x, max).cache && y != id ::
              y in s.cache && Placed(s, id, x, max).cache[y] == s.cache[y]
  {
    hide Lined, Placed, Touched, Last, Only;
    var kept := Last(s.order, max - 1);
    LinedIds(s.order, s.cache);
    PlacedParts(s, id, x, max);
    LastLined(s.order, s.cache, max - 1);
    OnlyKeeps(s.cache, kept);
    LinedIds(kept, Only(s.cache, kept));
    PutLast(kept, Only(s.cache, kept), id, x);
    LastLength(s.order, max - 1);
    LinedIds(Touched(kept, id), Only(s.cache, kept)[id := x]);
  }

  lemma LastLength(ids: seq<string>, n: nat)
    ensures |Last(ids, n)| <= n
  {
  }

  lemma OnlyKeeps(cache: map<string, Session>, ids: seq<string>)
    ensures forall y | y in Only(cache, ids) :: y in cache && y in ids && Only(cache, ids)[y] == cache[y]
  {
  }

  lemma PlacedParts(s: State, id: string, x: Session, max: nat)
    requires max >= 1 && (forall y :: y in s.order <==> y in s.cache)
    ensures var t, kept := Placed(s, id, x, max), Last(s.order, max - 1);
            t.order == Touched(kept, id) && t.cache == Only(s.cache, kept)[id := x] && t.store == s.store
  {
    var t, kept := Placed(s, id, x, max), Last(s.order, max - 1);
    assert forall y | y in kept :: y in s.order;
    assert t.cache == Only(s.cache, kept)[id := x];
  }

  function Only(cache: map<string, Session>, ids: seq<string>): map<string, Session> {
    map y | y in cache && y in ids :: cache[y]
  }

  lemma LastLined(order: seq<string>, cache: map<string, Session>, n: nat)
    requires Lined(order, cache)
    ensures Lined(Last(order, n), Only(cache, Last(order, n)))
    ensures forall y | y in Last(order, n) :: y in order
  {
    var kept := Last(order, n);
    var from := |order| - |kept|;
    assert forall i | 0 <= i < |kept| :: kept[i] == order[from + i] && kept[i] in order;
  }

  lemma RefreshedInBounds(s: State, id: string, x: Session, max: nat)
    requires InBounds(s, max) && id in s.cache && Before(s, x.lastAccessed)
    ensures InBounds(Refreshed(s, id, x), max) && Before(Refreshed(s, id, x), x.lastAccessed)
  {
    hide Lined;
    LinedIds(s.order, s.cache);
    PutLast(s.order, s.cache, id, x);
  }

  /** A lookup answers as the map would, and changes neither map nor bounds. */
  lemma GetMeans(s: State, id: string, now: int, max: nat)
    requires InBounds(s, max) && Before(s, now) && CoherentBut(s, None)
    ensures var t := AfterGet(s, id, now, max);
            && InBounds(t, max) && Before(t, now) && CoherentBut(t, None) && t.store == s.store
            && (id in t.cache <==> id in ContentsOf(s.store))
            && (id in t.cache ==> View(t.cache[id]) == ContentsOf(s.store)[id])
  {
    hide Lined, Placed, Loaded, Before;
    if id in s.cache {
      RefreshedInBounds(s, id, s.cache[id].(lastAccessed := now), max);
    } else if Loadable(s.store, id) {
      LoadedNow(s.store, id, now);
      PlacedInBounds(s, id, Loaded(s.store, id, now), max);
      PlacedStore(s, id, Loaded(s.store, id, now), max);
    }
  }

  lemma PlacedStore(s: State, id: string, x: Session, max: nat)
    requires max >= 1
    ensures Placed(s, id, x, max).store == s.store
  {
  }

  lemma LoadedNow(store: Store, id: string, now: int)
    requires Loadable(store, id)
    ensures Loaded(store, id, now).lastAccessed == now
    ensures id in store.metas ==> View(Loaded(store, id, now)) == View(Loaded(store, id, 0))
  {
  }

  lemma CreateMeans(s: State, id: string, x: Session, max: nat)
    requires InBounds(s, max) && Before(s, x.lastAccessed) && CoherentBut(s, None) && x.pdf != []
    ensures var t := AfterCreate(s, id, x, max);
            && InBounds(t, max) && Before(t, x.lastAccessed) && CoherentBut(t, None)
            && ContentsOf(t.store) == ContentsOf(s.store)[id := View(x)]
  {
    hide Lined, Placed, Before, Loaded, Loadable, View, ContentsOf;
    PlacedInBounds(s, id, x, max);
    InBoundsStore(Placed(s, id, x, max), Written(s.store, id, x), max, x.lastAccessed);
    WriteMeans(s.store, id, x);
    WriteContents(s.store, id, x);
  }

  lemma InBoundsStore(s: State, store: Store, max: nat, now: int)
    ensures InBounds(s, max) ==> InBounds(s.(store := store), max)
    ensures Before(s, now) ==> Before(s.(store := store), now)
  {
  }

  /** After a change a save brings map and cache together again. */
  lemma SaveMeans(s: State, id: string)
    requires CoherentBut(s, Some(id)) && id in s.cache && s.cache[id].pdf != []
    ensures var t := AfterSave(s, id);
            CoherentBut(t, None) && ContentsOf(t.store) == ContentsOf(s.store)[id := View(s.cache[id])]
  {
    hide Loaded, Loadable, View, ContentsOf;
    WriteMeans(s.store, id, s.cache[id]);
    WriteContents(s.store, id, s.cache[id]);
  }

  lemma ChangeMeans(s: State, id: string, x: Session, max: nat, now: int)
    requires InBounds(s, max) && Before(s, now)
    ensures var t := AfterChange(s, id, x);
            && InBounds(t, max) && Before(t, now) && t.store == s.store
            && (CoherentBut(s, None) ==> CoherentBut(t, Some(id)))
            && (id in s.cache ==> id in t.cache && View(t.cache[id]) == View(x))
  {
  }

  lemma DeleteMeans(s: State, id: string, max: nat)
    requires InBounds(s, max)
    ensures var t := AfterDelete(s, id);
            && InBounds(t, max) && (forall now :: Before(s, now) ==> Before(t, now))
            && (CoherentBut(s, Some(id)) ==> CoherentBut(t, None) && ContentsOf(t.store) == ContentsOf(s.store) - {id})
  {
    hide Minus, Loaded, Loadable, View, Lined, ContentsOf, Erased;
    DropFrom(s.order, s.cache, id);
    EraseMeans(s.store, id);
  }

  class RedisDocumentSessionManager {
    const max: nat
    var order: seq<string>
    var cache: map<string, Session>
    var redis: Store

    constructor (max: nat)
      requires max >= 1
      ensures Valid() && Coherent() && this.max == max && Now() == EMPTY
    {
      this.max, order, cache, redis := max, [], map[], Store(map[], map[], map[]);
    }

    ghost function Now(): State
      reads this
    {
      State(order, cache, redis)
    }

    ghost predicate Valid()
      reads this
    {
      InBounds(Now(), max)
    }

    ghost predicate Coherent()
      reads this
    {
      CoherentBut(Now(), None)
    }

    /** The map the cache and Redis stand for. */
    ghost function Contents(): map<string, Session>
      reads this
    {
      ContentsOf(redis)
    }

    /** Evicts the oldest until there is room for one more. */
    method Evict()
      requires Valid()
      modifies this`order, this`cache
      ensures order == Last(old(order), max - 1) && Lined(order, cache) && cache == Only(old(cache), order)
    {
      hide Lined;
      LinedIds(order, cache);
      ghost var was, had := order, cache;
      while |order| >= max
        invariant Lined(order, cache) && |order| <= |was| && order == Last(was, |order|)
        invariant |order| == |was| || |order| >= max - 1
        invariant cache == Only(had, order)
        decreases |order|
      {
        WithoutOldest(order, cache);
        OneLess(was, order);
        assert cache - {order[0]} == Only(had, order[1..]);
        order, cache := order[1..], cache - {order[0]};
      }
    }

    /** Makes room, then puts the session last. */
    method AddToLocalCache(id: string, s: Session)
      requires Valid() && Before(Now(), s.lastAccessed)
      modifies this`order, this`cache
      ensures Valid() && Now() == Placed(old(Now()), id, s, max)
    {
      hide Lined, Placed, Last, Only;
      ghost var was := Now();
      PlacedInBounds(was, id, s, max);
      LinedIds(order, cache);
      PlacedParts(was, id, s, max);
      Evict();
      cache := cache[id := s];
      order := Minus(order, id) + [id];
    }

    /** Nothing is persisted for empty bytes: such a session is local only. */
    method CreateSession(id: string, pdf: seq<nat>, graph: seq<Page>, owner: Option<string>, filename: Option<string>,
                         size: nat, now: int) returns (s: Session)
      requires Valid() && Before(Now(), now)
      modifies this
      ensures Valid() && Now() == AfterCreate(old(Now()), id, s, max)
      ensures s.pdf == pdf && s.graph == graph && s.owner == owner && s.filename == filename && s.fileSize == size
              && s.lastAccessed == now && s.createdAt == now && s.locks == map[]
              && s.history == HistoryState(0, 100, [Entry(0, "Document opened", now, false, false, [], [])])
      ensures pdf == [] ==> redis == old(redis)
      ensures id in cache && cache[id] == s
      ensures old(Coherent()) && pdf != [] ==> Coherent() && Contents() == old(Contents())[id := View(s)]
    {
      hide Lined, Placed, CoherentBut, ContentsOf, Before, Written;
      var first := Entry(0, "Document opened", now, false, false, [], []);
      s := Session(pdf, graph, owner, filename, size, now, now, map[], HistoryState(0, 100, [first]));
      ghost var was := Now();
      if pdf != [] && Coherent() {
        CreateMeans(was, id, s, max);
      }
      PlacedInBounds(was, id, s, max);
      AddToLocalCache(id, s);
      PlacedStore(was, id, s, max);
      if pdf != [] {
        InBoundsStore(Now(), Written(redis, id, s), max, now);
        redis := Written(redis, id, s);
      }
    }

    /** A hit is touched and moved to the end; a miss is loaded from Redis. */
    method GetSession(id: string, now: int) returns (found: Option<Session>)
      requires Valid() && Before(Now(), now)
      modifies this`order, this`cache
      ensures Valid() && Before(Now(), now) && Now() == AfterGet(old(Now()), id, now, max)
      ensures found == if id in cache then Some(cache[id]) else None
      ensures old(Coherent()) ==> Coherent() && (found.Some? <==> id in Contents())
                                  && (found.Some? ==> View(found.value) == Contents()[id])
    {
      hide Lined, Placed, CoherentBut, ContentsOf, Loaded, Before;
      ghost var was := Now();
      if Coherent() {
        GetMeans(was, id, now, max);
      }
      if id in cache {
        var s := cache[id].(lastAccessed := now);
        RefreshedInBounds(was, id, s, max);
        cache := cache[id := s];
        order := Minus(order, id) + [id];
        return Some(s);
      }
      if !Loadable(redis, id) {
        return None;
      }
      var s := Loaded(redis, id, now);
      LoadedNow(redis, id, now);
      PlacedInBounds(was, id, s, max);
      AddToLocalCache(id, s);
      found := Some(s);
    }

    method SaveSession(id: string) returns (ok: bool)
      requires Valid()
      modifies this`redis
      ensures Valid() && (ok <==> id in cache) && Now() == AfterSave(old(Now()), id)
      ensures ok && cache[id].pdf != [] && old(CoherentBut(Now(), Some(id))) ==>
                Coherent() && Contents() == old(Contents())[id := View(cache[id])]
    {
      hide CoherentBut, ContentsOf, Written;
      ok := id in cache;
      if ok {
        if cache[id].pdf != [] && CoherentBut(Now(), Some(id)) {
          SaveMeans(Now(), id);
        }
        redis := Written(redis, id, cache[id]);
      }
    }

    /** A service looks a session up, changes it in place, and saves it. */
    method Edit(id: string, change: Session, now: int) returns (ok: bool)
      requires Valid() && Before(Now(), now)
      modifies this
      ensures Valid() && Now() == AfterSave(AfterChange(AfterGet(old(Now()), id, now, max), id, change), id)
      ensures old(Coherent()) && change.pdf != [] ==>
                Coherent() && (ok <==> id in old(Contents()))
                && Contents() == if ok then old(Contents())[id := View(change)] else old(Contents())
    {
      hide InBounds, CoherentBut, ContentsOf, AfterGet, Before, Written;
      var found := GetSession(id, now);
      if found.Some? {
        ghost var got := Now();
        ChangeMeans(got, id, change, max, now);
        cache := cache[id := change.(lastAccessed := cache[id].lastAccessed)];
      }
      ok := SaveSession(id);
    }

    method DeleteSession(id: string)
      requires Valid()
      modifies this
      ensures Valid() && Now() == AfterDelete(old(Now()), id)
      ensures id !in cache && id !in redis.pdfs && id !in redis.graphs && id !in redis.metas
      ensures forall x | x != id ::
                && (x in redis.pdfs <==> x in old(redis).pdfs) && (x in redis.metas <==> x in old(redis).metas)
                && (x in cache <==> x in old(cache)) && (x in cache ==> cache[x] == old(cache)[x])
      ensures old(CoherentBut(Now(), Some(id))) ==> Coherent() && Contents() == old(Contents()) - {id}
    {
      hide InBounds, CoherentBut, ContentsOf, Before, Minus;
      DeleteMeans(Now(), id, max);
      order, cache := Minus(order, id), cache - {id};
      redis := Erased(redis, id);
    }

    /** A local change: it needs the session in the cache, and a save afterwards. */
    method PushHistory(id: string, action: string, elements: seq<string>, pages: seq<int>, now: int) returns (ok: bool)
      requires Valid() && Before(Now(), now) && (id in cache ==> ValidHistory(cache[id].history))
      modifies this`order, this`cache
      ensures Valid() && (ok <==> id in old(cache))
      ensures Now() == if !ok then old(Now())
                       else
                         var history := Pushed(old(cache)[id].history, action, elements, pages, now);
                         Refreshed(old(Now()), id, old(cache)[id].(lastAccessed := now, history := history))
      ensures ok ==> ValidHistory(cache[id].history)
      ensures old(Coherent()) ==> CoherentBut(Now(), Some(id))
    {
      ok := id in cache;
      if ok {
        PushMeans(cache[id].history, action, elements, pages, now);
        var s := cache[id].(lastAccessed := now, history := Pushed(cache[id].history, action, elements, pages, now));
        RefreshedInBounds(Now(), id, s, max);
        cache := cache[id := s];
        order := Minus(order, id) + [id];
      }
    }
  }

  lemma EraseMeans(store: Store, id: string)
    ensures var e := Erased(store, id);
            && ContentsOf(e) == ContentsOf(store) - {id}
            && e.pdfs.Keys == store.pdfs.Keys - {id} && e.metas.Keys == store.metas.Keys - {id}
            && forall x | x != id :: (Loadable(e, x) <==> Loadable(store, x))
                                     && (Loadable(e, x) ==> Loaded(e, x, 0) == Loaded(store, x, 0))
  {
    hide View;
  }

  lemma DropFrom(order: seq<string>, cache: map<string, Session>, id: string)
    requires Lined(order, cache)
    ensures Lined(Minus(order, id), cache - {id}) && |Minus(order, id)| <= |order|
  {
    MinusOne(order, id);
    var stamps := map x | x in cache :: cache[x].lastAccessed;
    MinusLined(order, stamps, id);
  }

  /** The order lists the cached ids once, the longest unused first. */
  ghost predicate Lined(order: seq<string>, cache: map<string, Session>) {
    && Distinct(order) && (forall id :: id in order <==> id in cache)
    && forall i, j | 0 <= i < j < |order| :: cache[order[i]].lastAccessed <= cache[order[j]].lastAccessed
  }

  lemma LinedIds(order: seq<string>, cache: map<string, Session>)
    requires Lined(order, cache)
    ensures forall id :: id in order <==> id in cache
  {
  }

  lemma OneLess(all: seq<string>, order: seq<string>)
    requires 0 < |order| <= |all| && order == Last(all, |order|)
    ensures order[1..] == Last(all, |order| - 1)
  {
  }

  lemma WithoutOldest(order: seq<string>, cache: map<string, Session>)
    requires Lined(order, cache) && order != []
    ensures Lined(order[1..], cache - {order[0]})
    ensures forall x | x in order[1..] :: x in order && x in cache - {order[0]}
  {
    assert forall i | 0 < i < |order| :: order[i] == order[1..][i - 1] && order[i] != order[0];
    assert forall x :: x in order[1..] <==> x in order && x != order[0];
  }

  lemma {:induction false} MinusLined(order: seq<string>, stamps: map<string, int>, id: string)
    requires (forall x | x in order :: x in stamps) && forall i, j | 0 <= i < j < |order| ::
               stamps[order[i]] <= stamps[order[j]]
    ensures (forall x | x in Minus(order, id) :: x in stamps)
            && forall i, j | 0 <= i < j < |Minus(order, id)| ::
                 stamps[Minus(order, id)[i]] <= stamps[Minus(order, id)[j]]
  {
    if order != [] {
      assert forall i | 0 <= i < |order[1..]| :: order[1..][i] == order[i + 1];
      MinusLined(order[1..], stamps, id);
      assert forall x | x in order[1..] :: stamps[order[0]] <= stamps[x];
    }
  }

  lemma PutLast(order: seq<string>, cache: map<string, Session>, id: string, s: Session)
    requires Lined(order, cache) && forall x | x in cache :: cache[x].lastAccessed <= s.lastAccessed
    ensures Lined(Touched(order, id), cache[id := s])
    ensures |Touched(order, id)| == if id in order then |order| else |order| + 1
  {
    MinusOne(order, id);
    if id !in order {
      MinusAbsent(order, id);
    }
    PutLastSorted(order, cache, id, s);
  }

  lemma PutLastSorted(order: seq<string>, cache: map<string, Session>, id: string, s: Session)
    requires Lined(order, cache) && forall x | x in cache :: cache[x].lastAccessed <= s.lastAccessed
    ensures var ids, c := Touched(order, id), cache[id := s];
            (forall x | x in ids :: x in c) && forall i, j | 0 <= i < j < |ids| ::
                c[ids[i]].lastAccessed <= c[ids[j]].lastAccessed
  {
    hide Distinct;
    var stamps := map x | x in cache :: cache[x].lastAccessed;
    MinusLined(order, stamps, id);
    var kept, ids := Minus(order, id), Touched(order, id);
    assert forall i | 0 <= i < |kept| :: ids[i] == kept[i] && kept[i] in kept;
  }
}
