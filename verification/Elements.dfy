/** Edits of the elements on the pages: what each does to the whole collection, and
    batches of them. */
module Elements {
  import opened Wrappers
  import opened SceneGraph

  /** Where a search through the pages first finds an id. */
  datatype Place = Nowhere | At(page: nat, index: nat)

  /** How many of the elements have the id. */
  function Count(elements: seq<Element>, id: string): nat {
    if elements == [] then 0 else (if elements[0].id == id then 1 else 0) + Count(elements[1..], id)
  }

  /** How many elements of the document have the id. */
  function CountAll(pages: seq<Page>, id: string): nat {
    if pages == [] then 0 else Count(pages[0].elements, id) + CountAll(pages[1..], id)
  }

  function Size(pages: seq<Page>): nat {
    if pages == [] then 0 else |pages[0].elements| + Size(pages[1..])
  }

  function Pool<T>(parts: seq<seq<T>>): multiset<T> {
    if parts == [] then multiset{} else multiset(parts[0]) + Pool(parts[1..])
  }

  function Lists(pages: seq<Page>): (lists: seq<seq<Element>>)
    ensures |lists| == |pages| && forall p | 0 <= p < |pages| :: lists[p] == pages[p].elements
  {
    seq(|pages|, p requires 0 <= p < |pages| => pages[p].elements)
  }

  /** All elements of the document, however they lie. */
  function Bag(pages: seq<Page>): multiset<Element> { Pool(Lists(pages)) }

  ghost predicate UniqueIds(pages: seq<Page>) {
    forall id :: CountAll(pages, id) <= 1
  }

  /** The index of the first element with the id; the length when there is none. */
  function IndexOf(elements: seq<Element>, id: string): (i: nat)
    ensures i <= |elements| && (i < |elements| ==> elements[i].id == id)
    ensures forall k | 0 <= k < i :: elements[k].id != id
  {
    if elements == [] || elements[0].id == id then 0 else 1 + IndexOf(elements[1..], id)
  }

  function Locate(pages: seq<Page>, id: string): (place: Place)
    ensures place.At? ==> place.page < |pages| && place.index < |pages[place.page].elements|
                          && pages[place.page].elements[place.index].id == id
    ensures place.At? ==> place.index == IndexOf(pages[place.page].elements, id)
  {
    if pages == [] then Nowhere
    else
      var i := IndexOf(pages[0].elements, id);
      if i < |pages[0].elements| then At(0, i)
      else match Locate(pages[1..], id)
        case Nowhere => Nowhere
        case At(p, j) => At(p + 1, j)
  }

  function Kept(elements: seq<Element>, id: string): seq<Element> {
    if elements == [] then [] else (if elements[0].id == id then [] else [elements[0]]) + Kept(elements[1..], id)
  }

  // ---- The edits, as functions of the pages they find ------------------------------------

  /** What a caller asks to create: the id may be given or generated; `kind` is none for
      an unknown type, and `valid` says whether the fields pass the element's own checks. */
  datatype Draft = Draft(id: Option<string>, kind: Option<Kind>, bounds: Bounds, content: string, valid: bool)

  datatype Change = Change(bounds: Bounds, content: string)

  /** Generated ids are parameters; a change is none when the updated fields are rejected. */
  datatype Edit =
    | Create(number: int, draft: Draft, generated: string)
    | Update(id: string, change: Option<Change>)
    | Delete(id: string)
    | Move(id: string, number: int, bounds: Option<Bounds>)
    | Duplicate(id: string, target: Option<int>, dx: real, dy: real, generated: string)
    | Unknown(action: string)

  datatype Outcome = Done | PageNotFound | ElementNotFound | UnknownType | Rejected | UnknownAction

  function Built(draft: Draft, generated: string): Element
    requires draft.kind.Some?
  {
    Element(if draft.id.Some? then draft.id.value else generated, draft.kind.value, draft.bounds, draft.content)
  }

  function Appended(pages: seq<Page>, p: nat, e: Element): seq<Page>
    requires p < |pages|
  {
    pages[p := pages[p].(elements := pages[p].elements + [e])]
  }

  function Dropped(pages: seq<Page>, p: nat, id: string): seq<Page>
    requires p < |pages|
  {
    pages[p := pages[p].(elements := Kept(pages[p].elements, id))]
  }

  function Copied(e: Element, generated: string, dx: real, dy: real): Element {
    e.(id := generated, bounds := e.bounds.(x := e.bounds.x + dx, y := e.bounds.y + dy))
  }

  function Result(pages: seq<Page>, e: Edit): Outcome {
    match e
    case Create(n, d, _) =>
      if !(1 <= n <= |pages|) then PageNotFound
      else if d.kind.None? then UnknownType
      else if !d.valid then Rejected
      else Done
    case Update(id, change) =>
      if Locate(pages, id).Nowhere? then ElementNotFound else if change.None? then Rejected else Done
    case Delete(id) => if Locate(pages, id).Nowhere? then ElementNotFound else Done
    case Move(id, n, _) =>
      if !(1 <= n <= |pages|) then PageNotFound else if Locate(pages, id).Nowhere? then ElementNotFound else Done
    case Duplicate(id, target, _, _, _) =>
      if Locate(pages, id).Nowhere? then ElementNotFound
      else if target.Some? && !(1 <= target.value <= |pages|) then PageNotFound
      else Done
    case Unknown(_) => UnknownAction
  }

  function After(pages: seq<Page>, e: Edit): seq<Page> {
    if !Result(pages, e).Done? then pages
    else match e
      case Create(n, d, g) => Appended(pages, n - 1, Built(d, g))
      case Update(id, change) =>
        var at := Locate(pages, id);
        var es := pages[at.page].elements;
        pages[at.page := pages[at.page].(elements :=
          es[at.index := es[at.index].(bounds := change.value.bounds, content := change.value.content)])]
      case Delete(id) => Dropped(pages, Locate(pages, id).page, id)
      case Move(id, n, bounds) =>
        var at := Locate(pages, id);
        var el := pages[at.page].elements[at.index];
        Appended(Dropped(pages, at.page, id), n - 1, if bounds.Some? then el.(bounds := bounds.value) else el)
      case Duplicate(id, target, dx, dy, g) =>
        var at := Locate(pages, id);
        Appended(pages, if target.Some? then target.value - 1 else at.page,
                 Copied(pages[at.page].elements[at.index], g, dx, dy))
  }

  // ---- Bags ----------------------------------------------------------------------------------

  /** What is in the other parts. */
  ghost function Others<T>(parts: seq<seq<T>>, p: nat): multiset<T>
    requires p < |parts|
  {
    Pool(parts[..p]) + Pool(parts[p + 1..])
  }

  lemma {:induction false} PoolConcat<T>(a: seq<seq<T>>, b: seq<seq<T>>)
    ensures Pool(a + b) == Pool(a) + Pool(b)
  {
    if a == [] {
      assert a + b == b;
    } else {
      assert (a + b)[1..] == a[1..] + b;
      PoolConcat(a[1..], b);
    }
  }

  lemma PoolOne<T>(part: seq<T>)
    ensures Pool([part]) == multiset(part)
  {
    assert [part][1..] == [];
  }

  lemma PoolSplit<T>(parts: seq<seq<T>>, p: nat)
    requires p < |parts|
    ensures Pool(parts) == Others(parts, p) + multiset(parts[p])
  {
    hide Pool;
    var before, after := parts[..p], parts[p + 1..];
    assert parts == before + [parts[p]] + after;
    PoolConcat(before + [parts[p]], after);
    PoolConcat(before, [parts[p]]);
    PoolOne(parts[p]);
  }

  lemma PoolWrite<T>(parts: seq<seq<T>>, p: nat, part: seq<T>)
    requires p < |parts|
    ensures Pool(parts[p := part]) == Others(parts, p) + multiset(part)
    ensures Pool(parts) == Others(parts, p) + multiset(parts[p])
  {
    var written := parts[p := part];
    assert written[..p] == parts[..p] && written[p + 1..] == parts[p + 1..];
    PoolSplit(parts, p);
    PoolSplit(written, p);
  }

  /** Writing one page's elements: the rest of the document stays as it is. */
  lemma BagWrite(pages: seq<Page>, p: nat, elements: seq<Element>)
    requires p < |pages|
    ensures Bag(pages[p := pages[p].(elements := elements)]) == Others(Lists(pages), p) + multiset(elements)
    ensures Bag(pages) == Others(Lists(pages), p) + multiset(pages[p].elements)
  {
    hide Pool;
    var written := pages[p := pages[p].(elements := elements)];
    assert Lists(written) == Lists(pages)[p := elements];
    PoolWrite(Lists(pages), p, elements);
  }

  lemma {:induction false} CountWrite(pages: seq<Page>, p: nat, elements: seq<Element>, id: string)
    requires p < |pages|
    ensures var written := pages[p := pages[p].(elements := elements)];
            && CountAll(written, id) == CountAll(pages, id) - Count(pages[p].elements, id) + Count(elements, id)
            && Size(written) == Size(pages) - |pages[p].elements| + |elements|
    ensures Count(pages[p].elements, id) <= CountAll(pages, id)
  {
    hide Count;
    var written := pages[p := pages[p].(elements := elements)];
    if p == 0 {
      assert written[1..] == pages[1..];
    } else {
      assert written[1..] == pages[1..][p - 1 := pages[p].(elements := elements)];
      CountWrite(pages[1..], p - 1, elements, id);
    }
  }

  lemma {:induction false} CountConcat(a: seq<Element>, b: seq<Element>, id: string)
    ensures Count(a + b, id) == Count(a, id) + Count(b, id)
  {
    if a == [] {
      assert a + b == b;
    } else {
      assert (a + b)[1..] == a[1..] + b;
      CountConcat(a[1..], b, id);
    }
  }

  lemma {:induction false} CountPositive(elements: seq<Element>, i: nat)
    requires i < |elements|
    ensures Count(elements, elements[i].id) >= 1
  {
    if i > 0 {
      CountPositive(elements[1..], i - 1);
    }
  }

  /** Replacing an element by one of the same id leaves every count. */
  lemma {:induction false} CountReplaced(elements: seq<Element>, i: nat, e: Element, id: string)
    requires i < |elements| && e.id == elements[i].id
    ensures Count(elements[i := e], id) == Count(elements, id)
  {
    if i == 0 {
      assert elements[0 := e][1..] == elements[1..];
    } else {
      assert elements[i := e][1..] == elements[1..][i - 1 := e];
      CountReplaced(elements[1..], i - 1, e, id);
    }
  }

  lemma BagAppend(pages: seq<Page>, p: nat, e: Element)
    requires p < |pages|
    ensures Bag(Appended(pages, p, e)) == Bag(pages) + multiset{e}
    ensures forall id :: CountAll(Appended(pages, p, e), id) == CountAll(pages, id) + if id == e.id then 1 else 0
  {
    hide Others, Bag, CountAll;
    var es := pages[p].elements;
    BagWrite(pages, p, es + [e]);
    forall id
      ensures CountAll(Appended(pages, p, e), id) == CountAll(pages, id) + if id == e.id then 1 else 0
    {
      CountWrite(pages, p, es + [e], id);
      CountConcat(es, [e], id);
      assert [e][1..] == [];
    }
  }

  /** Every occurrence of the id goes, and no other. */
  lemma {:induction false} KeptMeans(elements: seq<Element>, id: string, x: string)
    ensures Count(Kept(elements, id), x) == if x == id then 0 else Count(elements, x)
    ensures |Kept(elements, id)| == |elements| - Count(elements, id)
    ensures Count(elements, id) == 0 ==> Kept(elements, id) == elements
  {
    if elements != [] {
      KeptMeans(elements[1..], id, x);
      if elements[0].id == id {
        assert Kept(elements, id) == Kept(elements[1..], id);
      } else {
        CountConcat([elements[0]], Kept(elements[1..], id), x);
        assert elements == [elements[0]] + elements[1..];
      }
    }
  }

  /** When an id occurs once, keeping the others drops just that element. */
  lemma {:induction false} KeptDropsOne(elements: seq<Element>, i: nat)
    requires i < |elements| && Count(elements, elements[i].id) == 1
    ensures multiset(Kept(elements, elements[i].id)) + multiset{elements[i]} == multiset(elements)
  {
    var id, rest := elements[i].id, elements[1..];
    assert elements == [elements[0]] + rest;
    if i == 0 {
      KeptMeans(rest, id, id);
    } else {
      CountPositive(rest, i - 1);
      KeptDropsOne(rest, i - 1);
    }
  }

  // ---- What each edit does to the collection ---------------------------------------------------

  lemma CreateAddsOne(pages: seq<Page>, e: Edit)
    requires e.Create? && Result(pages, e).Done?
    ensures var el := Built(e.draft, e.generated);
            && Bag(After(pages, e)) == Bag(pages) + multiset{el}
            && forall id :: CountAll(After(pages, e), id) == CountAll(pages, id) + if id == el.id then 1 else 0
  {
    BagAppend(pages, e.number - 1, Built(e.draft, e.generated));
  }

  lemma DuplicateAddsOne(pages: seq<Page>, e: Edit)
    requires e.Duplicate? && Result(pages, e).Done?
    ensures var at := Locate(pages, e.id);
            var el := Copied(pages[at.page].elements[at.index], e.generated, e.dx, e.dy);
            && Bag(After(pages, e)) == Bag(pages) + multiset{el}
            && forall id :: CountAll(After(pages, e), id) == CountAll(pages, id) + if id == e.generated then 1 else 0
  {
    var at := Locate(pages, e.id);
    BagAppend(pages, if e.target.Some? then e.target.value - 1 else at.page,
              Copied(pages[at.page].elements[at.index], e.generated, e.dx, e.dy));
  }

  lemma UpdateReplacesOne(pages: seq<Page>, e: Edit)
    requires e.Update? && Result(pages, e).Done?
    ensures var at := Locate(pages, e.id);
            var el := pages[at.page].elements[at.index];
            && Bag(After(pages, e)) + multiset{el}
               == Bag(pages) + multiset{el.(bounds := e.change.value.bounds, content := e.change.value.content)}
            && forall id :: CountAll(After(pages, e), id) == CountAll(pages, id)
  {
    hide Others, Bag, CountAll;
    var at := Locate(pages, e.id);
    var es := pages[at.page].elements;
    var changed := es[at.index].(bounds := e.change.value.bounds, content := e.change.value.content);
    BagWrite(pages, at.page, es[at.index := changed]);
    forall id
      ensures CountAll(After(pages, e), id) == CountAll(pages, id)
    {
      CountWrite(pages, at.page, es[at.index := changed], id);
      CountReplaced(es, at.index, changed, id);
    }
  }

  /** Delete drops every element with the id from the first page that has it: exactly
      one when the id occurs once there. */
  lemma DeleteDropsOne(pages: seq<Page>, e: Edit)
    requires e.Delete? && Result(pages, e).Done?
    ensures var at := Locate(pages, e.id);
            var n := Count(pages[at.page].elements, e.id);
            && n >= 1 && Size(After(pages, e)) == Size(pages) - n
            && (forall id ::
                  CountAll(After(pages, e), id) == if id == e.id then CountAll(pages, id) - n else CountAll(pages, id))
            && (n == 1 ==> Bag(After(pages, e)) + multiset{pages[at.page].elements[at.index]} == Bag(pages))
  {
    hide Bag, CountAll, Size, Others;
    var at := Locate(pages, e.id);
    var es := pages[at.page].elements;
    CountPositive(es, at.index);
    CountWrite(pages, at.page, Kept(es, e.id), e.id);
    KeptMeans(es, e.id, e.id);
    forall id
      ensures CountAll(After(pages, e), id)
              == if id == e.id then CountAll(pages, id) - Count(es, id) else CountAll(pages, id)
    {
      CountWrite(pages, at.page, Kept(es, e.id), id);
      KeptMeans(es, e.id, id);
    }
    BagWrite(pages, at.page, Kept(es, e.id));
    if Count(es, e.id) == 1 {
      KeptDropsOne(es, at.index);
    }
  }

  /** Move keeps the collection, but for the moved element's bounds when new ones are
      given, exactly when its id occurs once on its page: others of that id are lost. */
  lemma MoveKeepsAll(pages: seq<Page>, e: Edit)
    requires e.Move? && Result(pages, e).Done?
    ensures var at := Locate(pages, e.id);
            var el := pages[at.page].elements[at.index];
            var n := Count(pages[at.page].elements, e.id);
            && n >= 1 && Size(After(pages, e)) == Size(pages) - n + 1
            && (forall id ::
                  CountAll(After(pages, e), id)
                  == if id == e.id then CountAll(pages, id) - n + 1 else CountAll(pages, id))
            && (n == 1 ==> Bag(After(pages, e)) + multiset{el}
                           == Bag(pages) + multiset{if e.bounds.Some? then el.(bounds := e.bounds.value) else el})
  {
    hide Bag, CountAll, Size;
    var at := Locate(pages, e.id);
    var el := pages[at.page].elements[at.index];
    var dropped := Dropped(pages, at.page, e.id);
    var moved := if e.bounds.Some? then el.(bounds := e.bounds.value) else el;
    DeleteDropsOne(pages, Delete(e.id));
    BagAppend(dropped, e.number - 1, moved);
    CountWrite(dropped, e.number - 1, dropped[e.number - 1].elements + [moved], e.id);
  }

  // ---- Where each edit puts its element ----------------------------------------------------------

  /** The first element with the id, in page order. */
  ghost predicate FirstAt(pages: seq<Page>, id: string, p: nat, i: nat) {
    && p < |pages| && i < |pages[p].elements| && pages[p].elements[i].id == id
    && (forall k | 0 <= k < i :: pages[p].elements[k].id != id)
    && forall q, k | 0 <= q < p && 0 <= k < |pages[q].elements| :: pages[q].elements[k].id != id
  }

  ghost predicate Absent(pages: seq<Page>, id: string) {
    forall q, k | 0 <= q < |pages| && 0 <= k < |pages[q].elements| :: pages[q].elements[k].id != id
  }

  lemma {:induction false} LocateMeans(pages: seq<Page>, id: string)
    ensures match Locate(pages, id)
            case Nowhere => Absent(pages, id)
            case At(p, i) => FirstAt(pages, id, p, i)
  {
    if pages != [] {
      var i := IndexOf(pages[0].elements, id);
      if i == |pages[0].elements| {
        LocateMeans(pages[1..], id);
        assert forall q | 0 < q < |pages| :: pages[q] == pages[1..][q - 1];
      }
    }
  }

  predicate Ascending(at: seq<nat>) { forall j, k | 0 <= j < k < |at| :: at[j] < at[k] }

  predicate StandAt(kept: seq<Element>, elements: seq<Element>, at: seq<nat>, id: string) {
    |at| == |kept|
    && forall j | 0 <= j < |at| :: at[j] < |elements| && kept[j] == elements[at[j]] && kept[j].id != id
  }

  predicate AllIn(elements: seq<Element>, at: seq<nat>, id: string) {
    forall i | 0 <= i < |elements| && elements[i].id != id :: i in at
  }

  /** The indices of the elements that have another id. */
  predicate Picks(kept: seq<Element>, elements: seq<Element>, at: seq<nat>, id: string) {
    StandAt(kept, elements, at, id) && Ascending(at) && AllIn(elements, at, id)
  }

  /** All elements but those with the id, in their order. */
  ghost predicate AllBut(kept: seq<Element>, elements: seq<Element>, id: string) {
    exists at :: Picks(kept, elements, at, id)
  }

  function OtherPlaces(elements: seq<Element>, id: string): seq<nat> {
    if elements == [] then []
    else
      var rest := OtherPlaces(elements[1..], id);
      (if elements[0].id == id then [] else [0]) + OneOn(rest)
  }

  function OneOn(at: seq<nat>): (r: seq<nat>)
    ensures |r| == |at| && forall j | 0 <= j < |at| :: r[j] == at[j] + 1
  {
    seq(|at|, j requires 0 <= j < |at| => at[j] + 1)
  }

  lemma AllInMore(elements: seq<Element>, at: seq<nat>, id: string, e: Element)
    requires AllIn(elements, at, id)
    ensures AllIn([e] + elements, [0] + OneOn(at), id)
    ensures e.id == id ==> AllIn([e] + elements, OneOn(at), id)
  {
    forall i | 0 < i < |elements| + 1 && ([e] + elements)[i].id != id
      ensures i in OneOn(at)
    {
      assert elements[i - 1].id != id;
      var j :| 0 <= j < |at| && at[j] == i - 1;
      assert OneOn(at)[j] == i;
    }
  }

  lemma StandAtMore(kept: seq<Element>, elements: seq<Element>, at: seq<nat>, id: string, e: Element)
    requires StandAt(kept, elements, at, id)
    ensures StandAt(kept, [e] + elements, OneOn(at), id)
    ensures e.id != id ==> StandAt([e] + kept, [e] + elements, [0] + OneOn(at), id)
  {
  }

  lemma AscendingMore(at: seq<nat>)
    requires Ascending(at)
    ensures Ascending(OneOn(at)) && Ascending([0] + OneOn(at))
  {
  }

  lemma {:induction false} KeptIsAllBut(elements: seq<Element>, id: string)
    ensures Picks(Kept(elements, id), elements, OtherPlaces(elements, id), id)
    ensures AllBut(Kept(elements, id), elements, id)
  {
    hide StandAt, AllIn, Ascending, OneOn;
    if elements == [] {
      NothingPicked(id);
    } else {
      var e, rest := elements[0], elements[1..];
      var at := OtherPlaces(rest, id);
      KeptIsAllBut(rest, id);
      assert elements == [e] + rest;
      AllInMore(rest, at, id, e);
      StandAtMore(Kept(rest, id), rest, at, id, e);
      AscendingMore(at);
      if e.id == id {
        assert [] + Kept(rest, id) == Kept(rest, id);
        assert [] + OneOn(at) == OneOn(at);
      }
    }
  }

  lemma NothingPicked(id: string)
    ensures Picks([], [], [], id)
  {
  }

  /** Only the elements of pages p and q can differ. */
  predicate SameBut(pages: seq<Page>, after: seq<Page>, p: nat, q: nat) {
    && |after| == |pages|
    && (forall k | 0 <= k < |pages| :: after[k] == pages[k].(elements := after[k].elements))
    && forall k | 0 <= k < |pages| && k != p && k != q :: after[k] == pages[k]
  }

  /** The last element of the list, after the others. */
  predicate Ends(elements: seq<Element>, others: seq<Element>, last: Element) {
    |elements| == |others| + 1 && elements[|others|] == last && elements[..|others|] == others
  }

  /** The moved element is the last of its target page, where the others are as before, as
      are those of its source page; no other page changes. */
  lemma MovePlaces(pages: seq<Page>, e: Edit)
    requires e.Move? && Result(pages, e).Done?
    ensures var t, at, n := After(pages, e), Locate(pages, e.id), e.number - 1;
            && FirstAt(pages, e.id, at.page, at.index) && 0 <= n < |pages| && SameBut(pages, t, at.page, n)
            && t[n].elements != []
            && (var el, moved := pages[at.page].elements[at.index], t[n].elements[|t[n].elements| - 1];
                moved == Element(el.id, el.kind, if e.bounds.Some? then e.bounds.value else el.bounds, el.content))
            && var others := t[n].elements[..|t[n].elements| - 1];
               if n == at.page then AllBut(others, pages[n].elements, e.id)
               else others == pages[n].elements && AllBut(t[at.page].elements, pages[at.page].elements, e.id)
  {
    hide Locate, Kept, AllBut, FirstAt, Appended, Dropped, SameBut;
    LocateMeans(pages, e.id);
    var at, n := Locate(pages, e.id), e.number - 1;
    var el := pages[at.page].elements[at.index];
    KeptIsAllBut(pages[at.page].elements, e.id);
    var dropped := Dropped(pages, at.page, e.id);
    DroppedPlaces(pages, at.page, e.id);
    AppendedPlaces(dropped, n, if e.bounds.Some? then el.(bounds := e.bounds.value) else el);
    SameTwice(pages, dropped, After(pages, e), at.page, n);
    assert el == Element(el.id, el.kind, el.bounds, el.content);
  }

  lemma AppendedPlaces(pages: seq<Page>, p: nat, e: Element)
    requires p < |pages|
    ensures SameBut(pages, Appended(pages, p, e), p, p) && |Appended(pages, p, e)| == |pages|
    ensures Ends(Appended(pages, p, e)[p].elements, pages[p].elements, e)
    ensures forall k | 0 <= k < |pages| && k != p :: Appended(pages, p, e)[k] == pages[k]
  {
  }

  lemma DroppedPlaces(pages: seq<Page>, p: nat, id: string)
    requires p < |pages|
    ensures SameBut(pages, Dropped(pages, p, id), p, p) && |Dropped(pages, p, id)| == |pages|
    ensures Dropped(pages, p, id)[p].elements == Kept(pages[p].elements, id)
    ensures forall k | 0 <= k < |pages| && k != p :: Dropped(pages, p, id)[k] == pages[k]
  {
  }

  lemma SameTwice(a: seq<Page>, b: seq<Page>, c: seq<Page>, p: nat, q: nat)
    requires SameBut(a, b, p, p) && SameBut(b, c, q, q)
    ensures SameBut(a, c, p, q)
  {
  }

  /** The created element is the last of its page; nothing else changes. */
  lemma CreatePlaces(pages: seq<Page>, e: Edit)
    requires e.Create? && Result(pages, e).Done?
    ensures var t, n, d := After(pages, e), e.number - 1, e.draft;
            && 0 <= n < |pages| && d.kind.Some? && SameBut(pages, t, n, n)
            && Ends(t[n].elements, pages[n].elements,
                    Element(match d.id case Some(id) => id case None => e.generated, d.kind.value, d.bounds, d.content))
  {
  }

  /** The page a copy goes to: the target, or that of the original when none is given. */
  function CopyPage(e: Edit, source: nat): int
    requires e.Duplicate?
  {
    match e.target
    case Some(number) => number - 1
    case None => source
  }

  /** The copy, shifted and under the generated id, is the last of its page; nothing else
      changes. */
  lemma DuplicatePlaces(pages: seq<Page>, e: Edit)
    requires e.Duplicate? && Result(pages, e).Done?
    ensures var t, at := After(pages, e), Locate(pages, e.id);
            var n := CopyPage(e, at.page);
            && FirstAt(pages, e.id, at.page, at.index) && 0 <= n < |pages| && SameBut(pages, t, n, n)
            && var el := pages[at.page].elements[at.index];
               var bounds := Bounds(el.bounds.x + e.dx, el.bounds.y + e.dy, el.bounds.width, el.bounds.height);
               Ends(t[n].elements, pages[n].elements, Element(e.generated, el.kind, bounds, el.content))
  {
    hide Locate, FirstAt, Appended, SameBut, Ends, Copied, After, Result, CopyPage;
    LocateMeans(pages, e.id);
    DuplicateAppends(pages, e);
    var at := Locate(pages, e.id);
    var el := pages[at.page].elements[at.index];
    AppendedPlaces(pages, CopyPage(e, at.page), Copied(el, e.generated, e.dx, e.dy));
    CopiedMeans(el, e.generated, e.dx, e.dy);
  }

  lemma DuplicateAppends(pages: seq<Page>, e: Edit)
    requires e.Duplicate? && Result(pages, e).Done?
    ensures var at := Locate(pages, e.id);
            && at.At? && 0 <= CopyPage(e, at.page) < |pages|
            && After(pages, e) == Appended(pages, CopyPage(e, at.page),
                                           Copied(pages[at.page].elements[at.index], e.generated, e.dx, e.dy))
  {
    hide Locate, Appended, Copied;
  }

  lemma CopiedMeans(el: Element, generated: string, dx: real, dy: real)
    ensures Copied(el, generated, dx, dy)
            == Element(generated, el.kind,
                       Bounds(el.bounds.x + dx, el.bounds.y + dy, el.bounds.width, el.bounds.height), el.content)
  {
  }

  /** The elements with the id go from the first page that has it; nothing else changes. */
  lemma DeletePlaces(pages: seq<Page>, e: Edit)
    requires e.Delete? && Result(pages, e).Done?
    ensures var t, at := After(pages, e), Locate(pages, e.id);
            && FirstAt(pages, e.id, at.page, at.index) && SameBut(pages, t, at.page, at.page)
            && AllBut(t[at.page].elements, pages[at.page].elements, e.id)
  {
    hide Locate, Kept, AllBut, FirstAt, Dropped, SameBut;
    LocateMeans(pages, e.id);
    DroppedPlaces(pages, Locate(pages, e.id).page, e.id);
    KeptIsAllBut(pages[Locate(pages, e.id).page].elements, e.id);
  }

  /** The first element with the id has the changed fields, at its place; nothing else changes. */
  lemma UpdatePlaces(pages: seq<Page>, e: Edit)
    requires e.Update? && Result(pages, e).Done?
    ensures var t, at := After(pages, e), Locate(pages, e.id);
            && FirstAt(pages, e.id, at.page, at.index) && SameBut(pages, t, at.page, at.page)
            && |t[at.page].elements| == |pages[at.page].elements| && e.change.Some?
            && (forall k | 0 <= k < |t[at.page].elements| && k != at.index ::
                  t[at.page].elements[k] == pages[at.page].elements[k])
            && var el := pages[at.page].elements[at.index];
               t[at.page].elements[at.index]
               == Element(el.id, el.kind, e.change.value.bounds, e.change.value.content)
  {
    LocateMeans(pages, e.id);
    hide Locate, FirstAt;
  }

  /** Each edit fails for the first of these that applies, and otherwise succeeds. */
  lemma OutcomeMeans(pages: seq<Page>, e: Edit)
    ensures var r := Result(pages, e);
            match e
            case Create(n, d, _) =>
              && (r.PageNotFound? <==> n < 1 || n > |pages|)
              && (r.UnknownType? <==> 1 <= n <= |pages| && d.kind.None?)
              && (r.Rejected? <==> 1 <= n <= |pages| && d.kind.Some? && !d.valid)
              && (r.Done? <==> 1 <= n <= |pages| && d.kind.Some? && d.valid)
            case Update(id, change) =>
              && (r.ElementNotFound? <==> Absent(pages, id)) && (r.Rejected? <==> !Absent(pages, id) && change.None?)
              && (r.Done? <==> !Absent(pages, id) && change.Some?)
            case Delete(id) => (r.ElementNotFound? <==> Absent(pages, id)) && (r.Done? <==> !Absent(pages, id))
            case Move(id, n, _) =>
              && (r.PageNotFound? <==> n < 1 || n > |pages|)
              && (r.ElementNotFound? <==> 1 <= n <= |pages| && Absent(pages, id))
              && (r.Done? <==> 1 <= n <= |pages| && !Absent(pages, id))
            case Duplicate(id, target, _, _, _) =>
              && (r.ElementNotFound? <==> Absent(pages, id))
              && (r.PageNotFound? <==> !Absent(pages, id) && target.Some?
                                       && (target.value < 1 || target.value > |pages|))
              && (r.Done? <==> !Absent(pages, id) && (target.None? || 1 <= target.value <= |pages|))
            case Unknown(_) => r.UnknownAction?
  {
    if e.Update? || e.Delete? || e.Move? || e.Duplicate? {
      LocateMeans(pages, e.id);
      if Locate(pages, e.id).At? {
        FirstIsThere(pages, e.id, Locate(pages, e.id).page, Locate(pages, e.id).index);
      }
    }
    hide Locate, Absent;
  }

  lemma FirstIsThere(pages: seq<Page>, id: string, p: nat, i: nat)
    requires FirstAt(pages, id, p, i)
    ensures !Absent(pages, id)
  {
  }

  // ---- Distinct ids -----------------------------------------------------------------------------

  /** The id an edit brings into the document. */
  function NewId(e: Edit): Option<string> {
    match e
    case Create(_, d, g) => Some(if d.id.Some? then d.id.value else g)
    case Duplicate(_, _, _, _, g) => Some(g)
    case _ => None
  }

  /** Ids stay distinct exactly when no edit brings in one that is already there. */
  lemma EditKeepsIdsDistinct(pages: seq<Page>, e: Edit)
    requires UniqueIds(pages)
    ensures UniqueIds(After(pages, e)) <==>
            !(Result(pages, e).Done? && NewId(e).Some? && CountAll(pages, NewId(e).value) > 0)
  {
    hide Bag, CountAll, After;
    FailedChangesNothing(pages, e);
    if Result(pages, e).Done? {
      match e
      case Create(_, d, g) => CreateAddsOne(pages, e);
      case Duplicate(_, _, _, _, g) => DuplicateAddsOne(pages, e);
      case Update(_, _) => UpdateReplacesOne(pages, e);
      case Delete(_) => DeleteDropsOne(pages, e);
      case Move(id, _, _) =>
        var at := Locate(pages, id);
        CountPositive(pages[at.page].elements, at.index);
        CountWrite(pages, at.page, [], id);
        MoveKeepsAll(pages, e);
      case Unknown(_) =>
    }
  }

  // ---- Batches ------------------------------------------------------------------------------------

  function AfterAll(pages: seq<Page>, edits: seq<Edit>): seq<Page>
    decreases |edits|
  {
    if edits == [] then pages else After(AfterAll(pages, edits[..|edits| - 1]), edits[|edits| - 1])
  }

  function Results(pages: seq<Page>, edits: seq<Edit>): (r: seq<Outcome>)
    ensures |r| == |edits|
    decreases |edits|
  {
    if edits == [] then []
    else Results(pages, edits[..|edits| - 1]) + [Result(AfterAll(pages, edits[..|edits| - 1]), edits[|edits| - 1])]
  }

  /** The edits of a batch that succeed. */
  function Successful(pages: seq<Page>, edits: seq<Edit>): seq<Edit>
    decreases |edits|
  {
    if edits == [] then []
    else
      var init, last := edits[..|edits| - 1], edits[|edits| - 1];
      Successful(pages, init) + if Result(AfterAll(pages, init), last).Done? then [last] else []
  }

  /** A batch leaves what its successful edits alone would, and they all succeed alone. */
  lemma {:induction false} BatchIsItsSuccesses(pages: seq<Page>, edits: seq<Edit>)
    ensures var done := Successful(pages, edits);
            AfterAll(pages, done) == AfterAll(pages, edits) && forall i | 0 <= i < |done| ::
                Results(pages, done)[i].Done?
    decreases |edits|
  {
    hide After, Result;
    if edits != [] {
      var init, last := edits[..|edits| - 1], edits[|edits| - 1];
      BatchIsItsSuccesses(pages, init);
      var done := Successful(pages, init);
      var longer := done + [last];
      assert longer[..|longer| - 1] == done && longer[|longer| - 1] == last;
      FailedChangesNothing(AfterAll(pages, init), last);
      assert Successful(pages, edits) == longer || Successful(pages, edits) == done;
    }
  }

  lemma FailedChangesNothing(pages: seq<Page>, e: Edit)
    ensures Result(pages, e).Done? || After(pages, e) == pages
  {
  }

  /** Each edit brings in no id that is there when its turn comes. */
  ghost predicate FreshIds(pages: seq<Page>, edits: seq<Edit>) {
    forall i | 0 <= i < |edits| ::
        NewId(edits[i]).Some? ==> CountAll(AfterAll(pages, edits[..i]), NewId(edits[i]).value) == 0
  }

  lemma {:induction false} EditsKeepIdsDistinct(pages: seq<Page>, edits: seq<Edit>)
    requires UniqueIds(pages) && FreshIds(pages, edits)
    ensures UniqueIds(AfterAll(pages, edits))
    decreases |edits|
  {
    hide UniqueIds, After, CountAll;
    if edits != [] {
      var init, last := edits[..|edits| - 1], edits[|edits| - 1];
      forall i | 0 <= i < |init| && NewId(init[i]).Some?
        ensures CountAll(AfterAll(pages, init[..i]), NewId(init[i]).value) == 0
      {
        assert init[..i] == edits[..i] && init[i] == edits[i];
      }
      EditsKeepIdsDistinct(pages, init);
      EditKeepsIdsDistinct(AfterAll(pages, init), last);
    }
  }
}
