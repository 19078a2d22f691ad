/** Histories whose snapshots hold the pages that changed: when undo brings a state back. */
module HistoryRuns {
  import opened SceneGraph
  import opened History

  function Affected(h: Timeline): seq<seq<int>> {
    seq(|h.snapshots|, i requires 0 <= i < |h.snapshots| => h.snapshots[i].affected)
  }

  /** The list names every page that differs; the empty list stands for all. */
  predicate Names(list: seq<int>, before: seq<Page>, after: seq<Page>) {
    |before| == |after| && forall i | 0 <= i < |before| :: list == [] || i + 1 in list || before[i] == after[i]
  }

  predicate TakenOf(s: Snapshot, pages: seq<Page>) {
    Positive(s.affected) && s.pages == Stored(pages, ToStore(pages, s.affected))
  }

  /** Each snapshot was taken of the state beside it, with a list that names every page
      changed since the state before. */
  ghost predicate Honest(h: Timeline, states: seq<seq<Page>>, n: nat) {
    && |states| == |h.snapshots|
    && (forall i | 0 <= i < |states| :: |states[i]| == n && TakenOf(h.snapshots[i], states[i]))
    && (forall i | 0 < i < |states| :: Names(h.snapshots[i].affected, states[i - 1], states[i]))
  }

  function Low(from: nat, to: nat): nat { if from <= to then from else to }

  function High(from: nat, to: nat): nat { if from <= to then to else from }

  predicate Lists(list: seq<int>, page: int) { list == [] || page in list }

  /** The target's list has every page of the lists on the way, between the two positions:
      known before the jump. */
  predicate Covered(lists: seq<seq<int>>, n: nat, from: nat, to: nat)
    requires from < |lists| && to < |lists|
  {
    forall i, page | Low(from, to) < i <= High(from, to) && 1 <= page <= n && Lists(lists[i], page) ::
        Lists(lists[to], page)
  }

  lemma {:induction false} PageStays(h: Timeline, states: seq<seq<Page>>, n: nat, page: int, low: nat, high: nat)
    requires Honest(h, states, n) && low <= high < |states| && 1 <= page <= n
    requires forall i | low < i <= high :: !Lists(h.snapshots[i].affected, page)
    ensures states[low][page - 1] == states[high][page - 1]
    decreases high - low
  {
    if low < high {
      PageStays(h, states, n, page, low, high - 1);
      assert Names(h.snapshots[high].affected, states[high - 1], states[high]);
      assert !Lists(h.snapshots[high].affected, page);
    }
  }

  lemma StoredPage(pages: seq<Page>, s: Snapshot, page: int)
    requires TakenOf(s, pages) && 1 <= page <= |pages|
    ensures page in s.pages <==> Lists(s.affected, page)
    ensures page in s.pages ==> s.pages[page] == pages[page - 1]
  {
    assert PageNumbers(|pages|)[page - 1] == page;
  }

  lemma CoveredIsExact(h: Timeline, states: seq<seq<Page>>, n: nat, from: nat, to: nat)
    requires Honest(h, states, n) && from < |states| && to < |states| && Covered(Affected(h), n, from, to)
    ensures Restored(states[from], h.snapshots[to]) == states[to]
  {
    hide Honest;
    HonestSizes(h, states, n);
    forall i | 0 <= i < n
      ensures Restored(states[from], h.snapshots[to])[i] == states[to][i]
    {
      StoredPage(states[to], h.snapshots[to], i + 1);
      if !Lists(h.snapshots[to].affected, i + 1) {
        assert Affected(h)[to] == h.snapshots[to].affected;
        Unlisted(Affected(h), n, from, to, i + 1);
        assert forall m | Low(from, to) < m <= High(from, to) :: Affected(h)[m] == h.snapshots[m].affected;
        PageStays(h, states, n, i + 1, Low(from, to), High(from, to));
      }
    }
  }

  lemma Unlisted(lists: seq<seq<int>>, n: nat, from: nat, to: nat, page: int)
    requires from < |lists| && to < |lists| && Covered(lists, n, from, to) && 1 <= page <= n && !Lists(lists[to], page)
    ensures forall m | Low(from, to) < m <= High(from, to) :: !Lists(lists[m], page)
  {
  }

  lemma HonestSizes(h: Timeline, states: seq<seq<Page>>, n: nat)
    requires Honest(h, states, n)
    ensures |states| == |h.snapshots| && forall i | 0 <= i < |states| ::
              |states[i]| == n && TakenOf(h.snapshots[i], states[i])
  {
  }

  predicate AllPositive(lists: seq<seq<int>>) { forall i | 0 <= i < |lists| :: Positive(lists[i]) }

  /** One page changes once, when snapshot m is taken. */
  function Blank(number: int): Page { Page("", number, 1.0, 1.0, 0, []) }

  function ChangedOnce(n: nat, page: int, m: nat, i: nat): seq<Page> {
    seq(n, k => Blank(if k + 1 == page && m <= i then 1 else 0))
  }

  function ChangedOnceStates(count: nat, n: nat, page: int, m: nat): seq<seq<Page>> {
    seq(count, i requires 0 <= i < count => ChangedOnce(n, page, m, i))
  }

  function SnapshotsOf(lists: seq<seq<int>>, states: seq<seq<Page>>): seq<Snapshot>
    requires |lists| == |states| && AllPositive(lists)
  {
    seq(|lists|, i requires 0 <= i < |lists| => Taken(states[i], "Document opened", [], lists[i]))
  }

  /** Where the target's list misses a page listed on the way, some honest history is not
      restored. */
  lemma UncoveredCanFail(lists: seq<seq<int>>, n: nat, from: nat, to: nat, position: nat)
    returns (h: Timeline, states: seq<seq<Page>>)
    requires AllPositive(lists) && from < |lists| && to < |lists| && !Covered(lists, n, from, to)
    ensures Honest(h, states, n) && Affected(h) == lists && h.position == position
    ensures forall i | 0 <= i < |lists| :: h.snapshots[i] == Taken(states[i], "Document opened", [], lists[i])
    ensures Restored(states[from], h.snapshots[to]) != states[to]
  {
    hide Honest, Covered, Restored;
    var m, page := Missed(lists, n, from, to);
    states := ChangedOnceStates(|lists|, n, page, m);
    h := Timeline(SnapshotsOf(lists, states), position);
    ChangedOnceIsHonest(lists, n, page, m, position);
    ChangeIsMissed(states, h.snapshots[to], n, page, m, from, to);
  }

  /** Of all histories in which each entry's list names every page that differs from the
      entry before: the recorded state is restored in every one with these lists. */
  ghost predicate JumpIsExact(lists: seq<seq<int>>, n: nat, from: nat, to: nat)
    requires from < |lists| && to < |lists|
  {
    forall h, states | Honest(h, states, n) && Affected(h) == lists ::
        Restored(states[from], h.snapshots[to]) == states[to]
  }

  /** That is so exactly when the target covers the way. */
  lemma JumpIsExactIffCovered(lists: seq<seq<int>>, n: nat, from: nat, to: nat)
    requires AllPositive(lists) && from < |lists| && to < |lists|
    ensures JumpIsExact(lists, n, from, to) <==> Covered(lists, n, from, to)
  {
    hide Covered, Restored;
    if Covered(lists, n, from, to) {
      forall h, states | Honest(h, states, n) && Affected(h) == lists
        ensures Restored(states[from], h.snapshots[to]) == states[to]
      {
        CoveredIsExact(h, states, n, from, to);
      }
    } else {
      var h, states := UncoveredCanFail(lists, n, from, to, from);
    }
  }

  lemma Missed(lists: seq<seq<int>>, n: nat, from: nat, to: nat) returns (m: nat, page: int)
    requires from < |lists| && to < |lists| && !Covered(lists, n, from, to)
    ensures Low(from, to) < m <= High(from, to) && 1 <= page <= n && Lists(lists[m], page) && !Lists(lists[to], page)
  {
    m, page :| Low(from, to) < m <= High(from, to) && 1 <= page <= n && Lists(lists[m], page)
      && !Lists(lists[to], page);
  }

  lemma ChangedOnceIsHonest(lists: seq<seq<int>>, n: nat, page: int, m: nat, position: nat)
    requires AllPositive(lists) && m < |lists| && Lists(lists[m], page)
    ensures var states := ChangedOnceStates(|lists|, n, page, m);
            Honest(Timeline(SnapshotsOf(lists, states), position), states, n)
            && Affected(Timeline(SnapshotsOf(lists, states), position)) == lists
  {
    var states := ChangedOnceStates(|lists|, n, page, m);
    forall i | 0 < i < |states|
      ensures Names(lists[i], states[i - 1], states[i])
    {
      assert i != m ==> states[i - 1] == states[i];
    }
  }

  lemma ChangeIsMissed(states: seq<seq<Page>>, s: Snapshot, n: nat, page: int, m: nat, from: nat, to: nat)
    requires from < |states| && to < |states| && states == ChangedOnceStates(|states|, n, page, m)
    requires 1 <= page <= n && Low(from, to) < m <= High(from, to) && TakenOf(s, states[to]) && !Lists(s.affected, page)
    ensures Restored(states[from], s) != states[to]
  {
    hide TakenOf;
    StoredPage(states[to], s, page);
    var p := page - 1;
    assert states[from] == ChangedOnce(n, page, m, from) && states[to] == ChangedOnce(n, page, m, to);
    assert states[from][p] == Blank(if m <= from then 1 else 0) && states[to][p] == Blank(if m <= to then 1 else 0);
    assert Restored(states[from], s)[p] == states[from][p];
  }

  // ---- Runs -------------------------------------------------------------------------------------

  /** The timeline, the state each snapshot was taken of, and the pages shown. */
  datatype Tracked = Tracked(h: Timeline, states: seq<seq<Page>>, shown: seq<Page>)

  datatype Act =
    | Recorded(pages: seq<Page>, action: string, elements: seq<string>, affected: seq<int>)
    | Undo(steps: int)
    | Redo(steps: int)
    | Goto(index: int)

  function Opened(pages: seq<Page>): Tracked {
    Tracked(Timeline([Taken(pages, "Document opened", [], PageNumbers(|pages|))], 0), [pages], pages)
  }

  function Trimmed<T>(longer: seq<T>, max: nat): seq<T> {
    if |longer| > max && longer != [] then longer[1..] else longer
  }

  function Next(t: Tracked, act: Act, max: nat): Tracked
    requires Valid(t.h, max) && |t.states| == |t.h.snapshots| && (act.Recorded? ==> Positive(act.affected))
  {
    match act
    case Recorded(now, action, elements, affected) =>
      Tracked(Pushed(t.h, Taken(now, action, elements, affected), max),
              Trimmed(t.states[..t.h.position + 1] + [now], max), now)
    case Undo(k) => t.(h := t.h.(position := Back(t.h, k)), shown := Gone(t.h, Back(t.h, k), t.shown))
    case Redo(k) => t.(h := t.h.(position := Forth(t.h, k)), shown := Gone(t.h, Forth(t.h, k), t.shown))
    case Goto(i) =>
      if 0 <= i < |t.h.snapshots| then t.(h := t.h.(position := i), shown := Restored(t.shown, t.h.snapshots[i])) else t
  }

  function Target(h: Timeline, act: Act): nat
    requires h.position < |h.snapshots|
  {
    match act
    case Recorded(_, _, _, _) => h.position
    case Undo(k) => Back(h, k)
    case Redo(k) => Forth(h, k)
    case Goto(i) => if 0 <= i < |h.snapshots| then i else h.position
  }

  /** A recording names every page changed since the pages shown before it, and a jump is
      covered. */
  ghost predicate Allowed(t: Tracked, act: Act, n: nat) {
    if act.Recorded? then Positive(act.affected) && |act.pages| == n && Names(act.affected, t.shown, act.pages)
    else t.h.position < |t.h.snapshots| && Covered(Affected(t.h), n, t.h.position, Target(t.h, act))
  }

  ghost predicate Good(t: Tracked, n: nat, max: nat) {
    Valid(t.h, max) && Honest(t.h, t.states, n) && t.shown == t.states[t.h.position]
  }

  lemma OpenedIsGood(pages: seq<Page>, max: nat)
    requires max >= 1
    ensures Good(Opened(pages), |pages|, max)
  {
  }

  lemma RecordStaysGood(t: Tracked, act: Act, n: nat, max: nat)
    requires Good(t, n, max) && act.Recorded? && Allowed(t, act, n)
    ensures Good(Next(t, act, max), n, max)
  {
    var u := Next(t, act, max);
    var s := Taken(act.pages, act.action, act.elements, act.affected);
    PushIsZipperPush(t.h, s, max);
    var p := t.h.position;
    var dropped := if p + 2 > max then 1 else 0;
    assert |u.states| == |u.h.snapshots| == p + 2 - dropped;
    forall i | 0 <= i < |u.states|
      ensures |u.states[i]| == n && TakenOf(u.h.snapshots[i], u.states[i])
    {
      assert i + dropped <= p ==>
               u.states[i] == t.states[i + dropped] && u.h.snapshots[i] == t.h.snapshots[i + dropped];
    }
    forall i | 0 < i < |u.states|
      ensures Names(u.h.snapshots[i].affected, u.states[i - 1], u.states[i])
    {
      assert u.states[i - 1] == t.states[i - 1 + dropped];
      if i + dropped <= p {
        assert Names(t.h.snapshots[i + dropped].affected, t.states[i + dropped - 1], t.states[i + dropped]);
      }
    }
  }

  lemma JumpStaysGood(t: Tracked, act: Act, n: nat, max: nat)
    requires Good(t, n, max) && !act.Recorded? && Allowed(t, act, n)
    ensures Good(Next(t, act, max), n, max)
  {
    hide Covered, Restored;
    CoveredIsExact(t.h, t.states, n, t.h.position, Target(t.h, act));
    assert Affected(t.h.(position := Target(t.h, act))) == Affected(t.h);
  }

  ghost predicate Run(tracks: seq<Tracked>, acts: seq<Act>, n: nat, max: nat) {
    && |tracks| == |acts| + 1
    && (exists pages: seq<Page> :: |pages| == n && tracks[0] == Opened(pages))
    && forall i | 0 <= i < |acts| ::
         Allowed(tracks[i], acts[i], n) && Valid(tracks[i].h, max) && |tracks[i].states| == |tracks[i].h.snapshots|
         && tracks[i + 1] == Next(tracks[i], acts[i], max)
  }

  /** At every point of every run of recordings that name the pages they changed and of
      covered undos, redos and jumps, the pages shown are exactly those recorded at the
      current position, and the position and length are within bounds. */
  lemma {:induction false} RunStaysInSync(tracks: seq<Tracked>, acts: seq<Act>, n: nat, max: nat, i: nat)
    requires Run(tracks, acts, n, max) && i <= |acts| && max >= 1
    ensures Good(tracks[i], n, max)
  {
    hide Good, Next, Allowed, Opened;
    if i == 0 {
      var pages: seq<Page> :| |pages| == n && tracks[0] == Opened(pages);
      OpenedIsGood(pages, max);
    } else {
      RunStaysInSync(tracks, acts, n, max, i - 1);
      assert Allowed(tracks[i - 1], acts[i - 1], n);
      if acts[i - 1].Recorded? {
        RecordStaysGood(tracks[i - 1], acts[i - 1], n, max);
      } else {
        JumpStaysGood(tracks[i - 1], acts[i - 1], n, max);
      }
    }
  }

  /** Undoing the addition of a page leaves the page there. */
  lemma AddedPageStays(a: Page, b: Page)
    ensures var start := Opened([a]);
            var added := Next(start, Recorded([a, b], "add", [], []), 100);
            Next(added, Undo(1), 100).shown == [a, b] != start.shown
  {
    var start := Opened([a]);
    var added := Next(start, Recorded([a, b], "add", [], []), 100);
    assert added.h.snapshots[0].pages.Keys == {1} && added.h.snapshots[0].pages[1] == a by {
      assert PageNumbers(1) == [1];
    }
  }

  // ---- Undo is exact in every run exactly when its target is covered ---------------------------------

  function AfterActs(t: Tracked, acts: seq<Act>, max: nat): Tracked
    decreases |acts|
  {
    if acts == [] then t
    else
      var u := AfterActs(t, acts[..|acts| - 1], max);
      var act := acts[|acts| - 1];
      if Valid(u.h, max) && |u.states| == |u.h.snapshots| && (act.Recorded? ==> Positive(act.affected))
      then Next(u, act, max) else u
  }

  ghost predicate AllAllowed(t: Tracked, acts: seq<Act>, n: nat, max: nat)
    decreases |acts|
  {
    acts == []
    || (AllAllowed(t, acts[..|acts| - 1], n, max)
       && Allowed(AfterActs(t, acts[..|acts| - 1], max), acts[|acts| - 1], n))
  }

  lemma {:induction false} ActsStayGood(t: Tracked, acts: seq<Act>, n: nat, max: nat)
    requires Good(t, n, max) && AllAllowed(t, acts, n, max)
    ensures Good(AfterActs(t, acts, max), n, max)
    decreases |acts|
  {
    hide Honest, Next, Allowed;
    if acts != [] {
      var init, act := acts[..|acts| - 1], acts[|acts| - 1];
      ActsStayGood(t, init, n, max);
      var u := AfterActs(t, init, max);
      HonestSizes(u.h, u.states, n);
      AllowedPositive(u, act, n);
      if act.Recorded? {
        RecordStaysGood(u, act, n, max);
      } else {
        JumpStaysGood(u, act, n, max);
      }
    }
  }

  lemma AllowedPositive(t: Tracked, act: Act, n: nat)
    ensures Allowed(t, act, n) && act.Recorded? ==> Positive(act.affected)
  {
  }

  /** After every run whose jumps were all covered and that ends at its newest entry with
      these lists, undo(k) brings back exactly the state recorded k entries before. */
  ghost predicate UndoIsExact(lists: seq<seq<int>>, n: nat, max: nat, k: nat) {
    forall pages: seq<Page>, acts: seq<Act> | |pages| == n && AllAllowed(Opened(pages), acts, n, max) ::
      RestoredBy(AfterActs(Opened(pages), acts, max), lists, k)
  }

  ghost predicate RestoredBy(t: Tracked, lists: seq<seq<int>>, k: nat) {
    Affected(t.h) == lists && t.h.position + 1 == |lists| && |t.states| == |lists| && k <= t.h.position ==>
      Gone(t.h, Back(t.h, k), t.shown) == t.states[t.h.position - k]
  }

  /** The recordings of a history, one after the other. */
  function Recordings(h: Timeline, states: seq<seq<Page>>, from: nat, to: nat): seq<Act>
    requires from <= to <= |h.snapshots| && |states| == |h.snapshots|
  {
    seq(to - from, i requires 0 <= i < to - from =>
          var s := h.snapshots[from + i];
          Recorded(states[from + i], s.action, s.elements, s.affected))
  }

  /** The history up to an entry, as of when it was the newest. */
  function UpTo(h: Timeline, states: seq<seq<Page>>, count: nat): Tracked
    requires 1 <= count <= |h.snapshots| && |states| == |h.snapshots|
  {
    Tracked(Timeline(h.snapshots[..count], count - 1), states[..count], states[count - 1])
  }

  predicate Retaken(h: Timeline, states: seq<seq<Page>>) {
    |states| == |h.snapshots|
    && forall i | 0 <= i < |states| ::
         Positive(h.snapshots[i].affected)
         && h.snapshots[i] == Taken(states[i], h.snapshots[i].action, h.snapshots[i].elements, h.snapshots[i].affected)
  }

  lemma OneMoreAct(t: Tracked, acts: seq<Act>, act: Act, n: nat, max: nat)
    requires Good(t, n, max) && AllAllowed(t, acts, n, max) && Allowed(AfterActs(t, acts, max), act, n)
    ensures AllAllowed(t, acts + [act], n, max) && Good(AfterActs(t, acts, max), n, max)
    ensures AfterActs(t, acts + [act], max) == Next(AfterActs(t, acts, max), act, max)
  {
    hide Allowed, Next, Honest;
    var longer := acts + [act];
    assert longer[..|longer| - 1] == acts && longer[|longer| - 1] == act;
    ActsStayGood(t, acts, n, max);
    var u := AfterActs(t, acts, max);
    HonestSizes(u.h, u.states, n);
    AllowedPositive(u, act, n);
  }

  /** A history whose first entry is the opening one is the run of its recordings. */
  lemma {:induction false} RecordedFromOpening(h: Timeline, states: seq<seq<Page>>, n: nat, max: nat, count: nat)
    requires Honest(h, states, n) && Retaken(h, states) && 1 <= count <= |states| && count <= max
    requires h.snapshots[0] == Opened(states[0]).h.snapshots[0]
    ensures AllAllowed(Opened(states[0]), Recordings(h, states, 1, count), n, max)
    ensures AfterActs(Opened(states[0]), Recordings(h, states, 1, count), max) == UpTo(h, states, count)
    decreases count
  {
    hide AllAllowed, AfterActs;
    var start := Opened(states[0]);
    OpenedIsGood(states[0], max);
    if count == 1 {
      assert Recordings(h, states, 1, 1) == [];
      NoActs(start, n, max);
      assert h.snapshots[..1] == [h.snapshots[0]] && states[..1] == [states[0]];
    } else {
      RecordedFromOpening(h, states, n, max, count - 1);
      var acts := Recordings(h, states, 1, count - 1);
      var s := h.snapshots[count - 1];
      var act := Recorded(states[count - 1], s.action, s.elements, s.affected);
      assert Recordings(h, states, 1, count) == acts + [act];
      assert Names(s.affected, states[count - 2], states[count - 1]);
      OneMoreAct(start, acts, act, n, max);
      assert h.snapshots[..count] == h.snapshots[..count - 1] + [s];
      assert states[..count] == states[..count - 1] + [states[count - 1]];
    }
  }

  lemma NoActs(t: Tracked, n: nat, max: nat)
    ensures AllAllowed(t, [], n, max) && AfterActs(t, [], max) == t
  {
  }

  /** Every honest history that starts with the opening entry, or has lost it to the
      bound, is reached by a run. */
  lemma HistoryIsReached(h: Timeline, states: seq<seq<Page>>, n: nat, max: nat)
    returns (pages: seq<Page>, acts: seq<Act>)
    requires Honest(h, states, n) && Retaken(h, states) && h.position + 1 == |states| <= max
    requires h.snapshots[0] == Opened(states[0]).h.snapshots[0] || |states| == max
    ensures |pages| == n && AllAllowed(Opened(pages), acts, n, max)
    ensures AfterActs(Opened(pages), acts, max) == Tracked(h, states, states[h.position])
  {
    hide AllAllowed, AfterActs, Honest;
    HonestSizes(h, states, n);
    pages := states[0];
    if h.snapshots[0] == Opened(states[0]).h.snapshots[0] {
      acts := Recordings(h, states, 1, |states|);
      RecordedFromOpening(h, states, n, max, |states|);
      assert h.snapshots[..|states|] == h.snapshots && states[..|states|] == states;
    } else {
      acts := LosingTheOpening(h, states, n, max);
    }
  }

  /** The history with the opening entry, which it lost, in front. */
  function WithOpening(h: Timeline, states: seq<seq<Page>>): Timeline
    requires states != []
  {
    Timeline(Opened(states[0]).h.snapshots + h.snapshots, h.position + 1)
  }

  lemma WithOpeningIsHonest(h: Timeline, states: seq<seq<Page>>, n: nat)
    requires Honest(h, states, n) && Retaken(h, states) && states != []
    ensures Honest(WithOpening(h, states), [states[0]] + states, n)
            && Retaken(WithOpening(h, states), [states[0]] + states)
  {
    hide Names, Taken;
    var g, longer := WithOpening(h, states), [states[0]] + states;
    OpeningTaken(states[0]);
    forall i | 0 <= i < |longer|
      ensures |longer[i]| == n && TakenOf(g.snapshots[i], longer[i])
    {
      assert i > 0 ==> g.snapshots[i] == h.snapshots[i - 1] && longer[i] == states[i - 1];
    }
    forall i | 0 < i < |longer|
      ensures Names(g.snapshots[i].affected, longer[i - 1], longer[i])
    {
      SameNames(h.snapshots[0].affected, states[0]);
      assert i > 1 ==> Names(h.snapshots[i - 1].affected, states[i - 2], states[i - 1]);
    }
  }

  lemma SameNames(list: seq<int>, pages: seq<Page>)
    ensures Names(list, pages, pages)
  {
  }

  lemma OpeningTaken(pages: seq<Page>)
    ensures var s := Opened(pages).h.snapshots[0];
            TakenOf(s, pages) && Positive(s.affected) && s == Taken(pages, s.action, s.elements, s.affected)
  {
  }

  lemma LosingTheOpening(h: Timeline, states: seq<seq<Page>>, n: nat, max: nat) returns (acts: seq<Act>)
    requires Honest(h, states, n) && Retaken(h, states) && h.position + 1 == |states| == max
    ensures AllAllowed(Opened(states[0]), acts, n, max)
    ensures AfterActs(Opened(states[0]), acts, max) == Tracked(h, states, states[h.position])
  {
    hide AllAllowed, AfterActs;
    var start := Opened(states[0]);
    var g, longer := WithOpening(h, states), [states[0]] + states;
    WithOpeningIsHonest(h, states, n);
    RecordedFromOpening(g, longer, n, max, max);
    var s := h.snapshots[max - 1];
    var front, last := Recordings(g, longer, 1, max), Recorded(states[max - 1], s.action, s.elements, s.affected);
    OpenedIsGood(states[0], max);
    assert Names(s.affected, longer[max - 1], longer[max]);
    OneMoreAct(start, front, last, n, max);
    acts := front + [last];
    assert (g.snapshots[..max] + [s])[1..] == h.snapshots;
    assert (longer[..max] + [states[max - 1]])[1..] == states;
  }

  /** As long as every jump before was covered, undoing k entries brings back the state
      recorded then, in every such run that ends with these lists, exactly when the target's
      list is empty or has every page listed by the entries after it. After an uncovered jump
      this is not enough: see HistoryScripts, where all runs are treated. */
  lemma UndoIsExactIffCovered(lists: seq<seq<int>>, n: nat, max: nat, k: nat)
    requires AllPositive(lists) && 1 <= k < |lists| <= max && (lists[0] == PageNumbers(n) || |lists| == max)
    ensures UndoIsExact(lists, n, max, k) <==> Covered(lists, n, |lists| - 1, |lists| - 1 - k)
  {
    hide Covered, UndoIsExact;
    if Covered(lists, n, |lists| - 1, |lists| - 1 - k) {
      CoveredUndoIsExact(lists, n, max, k);
    } else {
      UncoveredUndoIsNot(lists, n, max, k);
    }
  }

  lemma CoveredUndoIsExact(lists: seq<seq<int>>, n: nat, max: nat, k: nat)
    requires 1 <= k < |lists| <= max && Covered(lists, n, |lists| - 1, |lists| - 1 - k)
    ensures UndoIsExact(lists, n, max, k)
  {
    hide Covered, Good, AllAllowed, AfterActs, RestoredBy, Opened;
    forall pages: seq<Page>, acts: seq<Act> | |pages| == n && AllAllowed(Opened(pages), acts, n, max)
      ensures RestoredBy(AfterActs(Opened(pages), acts, max), lists, k)
    {
      OpenedIsGood(pages, max);
      ActsStayGood(Opened(pages), acts, n, max);
      CoveredUndo(AfterActs(Opened(pages), acts, max), lists, n, max, k);
    }
  }

  lemma UncoveredUndoIsNot(lists: seq<seq<int>>, n: nat, max: nat, k: nat)
    requires AllPositive(lists) && 1 <= k < |lists| <= max && (lists[0] == PageNumbers(n) || |lists| == max)
    requires !Covered(lists, n, |lists| - 1, |lists| - 1 - k)
    ensures !UndoIsExact(lists, n, max, k)
  {
    hide Covered, Honest, Affected, Restored, AllAllowed, AfterActs;
    var from, to := |lists| - 1, |lists| - 1 - k;
    var h, states := UncoveredCanFail(lists, n, from, to, from);
    HonestSizes(h, states, n);
    ListsOf(h);
    var pages, acts := HistoryIsReached(h, states, n, max);
    assert !RestoredBy(AfterActs(Opened(pages), acts, max), lists, k);
  }

  lemma ListsOf(h: Timeline)
    ensures |Affected(h)| == |h.snapshots| && forall i | 0 <= i < |h.snapshots| ::
              Affected(h)[i] == h.snapshots[i].affected
  {
  }

  lemma CoveredUndo(t: Tracked, lists: seq<seq<int>>, n: nat, max: nat, k: nat)
    requires Good(t, n, max) && 1 <= k < |lists| && Covered(lists, n, |lists| - 1, |lists| - 1 - k)
    ensures RestoredBy(t, lists, k)
  {
    hide Covered, Restored;
    if Affected(t.h) == lists && t.h.position + 1 == |lists| {
      CoveredIsExact(t.h, t.states, n, t.h.position, t.h.position - k);
    }
  }
}
