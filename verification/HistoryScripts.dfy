/** All runs of recordings and jumps: which pages an undo brings back is known from the
    lists and jumps alone, by running them on version numbers. */
module HistoryScripts {
  import opened SceneGraph
  import opened History
  import opened HistoryRuns

  /** An act without its pages: a recording's list and number of pages, or a jump. */
  datatype Move =
    | Record(affected: seq<int>, count: nat)
    | UndoBy(steps: int)
    | RedoBy(steps: int)
    | GoTo(index: int)

  function MoveOf(act: Act): Move {
    match act
    case Recorded(pages, _, _, affected) => Record(affected, |pages|)
    case Undo(k) => UndoBy(k)
    case Redo(k) => RedoBy(k)
    case Goto(i) => GoTo(i)
  }

  predicate Shaped(acts: seq<Act>, script: seq<Move>) {
    |acts| == |script| && forall i | 0 <= i < |acts| :: MoveOf(acts[i]) == script[i]
  }

  predicate PositiveLists(script: seq<Move>) {
    forall i | 0 <= i < |script| && script[i].Record? :: Positive(script[i].affected)
  }

  /** The list names every page changed since the pages before, as far as both go. */
  predicate NamesChanges(list: seq<int>, before: seq<Page>, after: seq<Page>) {
    forall i | 0 <= i < |before| && i < |after| :: Lists(list, i + 1) || before[i] == after[i]
  }

  /** Jumps are unconstrained. */
  predicate Named(t: Tracked, act: Act) {
    act.Recorded? ==> Positive(act.affected) && NamesChanges(act.affected, t.shown, act.pages)
  }

  predicate AllNamed(t: Tracked, acts: seq<Act>, max: nat)
    decreases |acts|
  {
    acts == []
    || (AllNamed(t, acts[..|acts| - 1], max) && Named(AfterActs(t, acts[..|acts| - 1], max), acts[|acts| - 1]))
  }

  ghost predicate Kept(t: Tracked, max: nat) {
    && Valid(t.h, max) && |t.states| == |t.h.snapshots|
    && forall i | 0 <= i < |t.states| :: TakenOf(t.h.snapshots[i], t.states[i])
  }

  lemma OpenedIsKept(pages: seq<Page>, max: nat)
    requires max >= 1
    ensures Kept(Opened(pages), max)
  {
  }

  // ---- Versions ---------------------------------------------------------------------------

  /** The pages of a recording on versions: every listed or new page gets a fresh one. */
  function Bumped(shown: seq<Page>, list: seq<int>, count: nat, stamp: nat): seq<Page> {
    seq(count, i => if 0 <= i < |shown| && !Lists(list, i + 1) then shown[i] else Blank(stamp))
  }

  function VersionAct(v: Tracked, move: Move, stamp: nat): Act {
    match move
    case Record(list, count) => Recorded(Bumped(v.shown, list, count, stamp), "", [], list)
    case UndoBy(k) => Undo(k)
    case RedoBy(k) => Redo(k)
    case GoTo(i) => Goto(i)
  }

  function Unchanged(n: nat): seq<Page> { seq(n, i => Blank(0)) }

  function VersionActs(n: nat, script: seq<Move>, max: nat): (acts: seq<Act>)
    ensures |acts| == |script|
    decreases |script|
  {
    if script == [] then []
    else
      var init := VersionActs(n, script[..|script| - 1], max);
      init + [VersionAct(AfterActs(Opened(Unchanged(n)), init, max), script[|script| - 1], |script|)]
  }

  /** The script, run on version numbers. */
  function VersionRun(n: nat, script: seq<Move>, max: nat): Tracked {
    AfterActs(Opened(Unchanged(n)), VersionActs(n, script, max), max)
  }

  /** Every page the target's list leaves out has the version that was recorded there. */
  predicate VersionsAgree(v: Tracked, to: nat)
    requires to < |v.h.snapshots| && |v.states| == |v.h.snapshots|
  {
    && |v.shown| == |v.states[to]|
    && forall page | 1 <= page <= |v.shown| && !Lists(v.h.snapshots[to].affected, page) ::
         v.shown[page - 1] == v.states[to][page - 1]
  }

  predicate Exact(t: Tracked, to: nat)
    requires to < |t.h.snapshots| && |t.states| == |t.h.snapshots|
  {
    Restored(t.shown, t.h.snapshots[to]) == t.states[to]
  }

  lemma AgreeIsExact(t: Tracked, to: nat, max: nat)
    requires Kept(t, max) && to < |t.states|
    ensures VersionsAgree(t, to) <==> Exact(t, to)
  {
    var s, recorded := t.h.snapshots[to], t.states[to];
    var restored := Restored(t.shown, s);
    if |t.shown| == |recorded| {
      forall page | 1 <= page <= |recorded|
        ensures restored[page - 1] == if Lists(s.affected, page) then recorded[page - 1] else t.shown[page - 1]
      {
        StoredPage(recorded, s, page);
      }
      forall i | 0 <= i < |recorded|
        ensures restored[i] == if Lists(s.affected, i + 1) then recorded[i] else t.shown[i]
      {
        StoredPage(recorded, s, i + 1);
      }
    }
  }

  // ---- Every run follows the version run -----------------------------------------------------

  /** The page a version stands for: that of the recording it was given by. */
  predicate Stands(start: seq<Page>, acts: seq<Act>, i: nat, version: int, page: Page) {
    if version == 0 then i < |start| && page == start[i]
    else 0 < version <= |acts| && acts[version - 1].Recorded? && i < |acts[version - 1].pages|
         && page == acts[version - 1].pages[i]
  }

  predicate Follows(start: seq<Page>, acts: seq<Act>, versions: seq<Page>, pages: seq<Page>) {
    |versions| == |pages| && forall i | 0 <= i < |pages| :: Stands(start, acts, i, versions[i].number, pages[i])
  }

  ghost predicate Alike(start: seq<Page>, acts: seq<Act>, t: Tracked, v: Tracked, max: nat) {
    && Kept(t, max) && Kept(v, max)
    && t.h.position == v.h.position && |t.states| == |v.states|
    && (forall j | 0 <= j < |t.states| :: t.h.snapshots[j].affected == v.h.snapshots[j].affected)
    && (forall j | 0 <= j < |t.states| :: Follows(start, acts, v.states[j], t.states[j]))
    && Follows(start, acts, v.shown, t.shown)
  }

  lemma FollowsOn(start: seq<Page>, acts: seq<Act>, act: Act, versions: seq<Page>, pages: seq<Page>)
    requires Follows(start, acts, versions, pages)
    ensures Follows(start, acts + [act], versions, pages)
  {
    forall i | 0 <= i < |pages|
      ensures Stands(start, acts + [act], i, versions[i].number, pages[i])
    {
      assert Stands(start, acts, i, versions[i].number, pages[i]);
    }
  }

  lemma BumpedFollows(start: seq<Page>, acts: seq<Act>, act: Act, versions: seq<Page>, pages: seq<Page>)
    requires Follows(start, acts, versions, pages) && act.Recorded? && NamesChanges(act.affected, pages, act.pages)
    ensures Follows(start, acts + [act], Bumped(versions, act.affected, |act.pages|, |acts| + 1), act.pages)
  {
    var bumped := Bumped(versions, act.affected, |act.pages|, |acts| + 1);
    forall i | 0 <= i < |act.pages|
      ensures Stands(start, acts + [act], i, bumped[i].number, act.pages[i])
    {
      if i < |versions| && !Lists(act.affected, i + 1) {
        assert Stands(start, acts, i, versions[i].number, pages[i]);
        assert bumped[i] == versions[i] && pages[i] == act.pages[i];
      } else {
        assert bumped[i] == Blank(|acts| + 1) && (acts + [act])[|acts|] == act;
      }
    }
  }

  /** A push, entry by entry. */
  lemma PushedEntries(t: Tracked, act: Act, max: nat)
    requires Kept(t, max) && act.Recorded? && Positive(act.affected)
    ensures var u := Next(t, act, max);
            var dropped := if t.h.position + 2 > max then 1 else 0;
            var s := Taken(act.pages, act.action, act.elements, act.affected);
            && Kept(u, max) && |u.states| == t.h.position + 2 - dropped && u.h.position == |u.states| - 1
            && u.shown == act.pages
            && u.h.snapshots[|u.states| - 1] == s && u.states[|u.states| - 1] == act.pages
            && forall j | 0 <= j < |u.states| - 1 ::
                 u.h.snapshots[j] == t.h.snapshots[j + dropped] && u.states[j] == t.states[j + dropped]
  {
  }

  lemma RecordAlike(start: seq<Page>, acts: seq<Act>, t: Tracked, v: Tracked, act: Act, max: nat)
    requires Alike(start, acts, t, v, max) && act.Recorded? && Named(t, act)
    ensures Alike(start, acts + [act], Next(t, act, max), Next(v, VersionAct(v, MoveOf(act), |acts| + 1), max), max)
  {
    hide Follows, Next, TakenOf;
    var act' := VersionAct(v, MoveOf(act), |acts| + 1);
    var u, w := Next(t, act, max), Next(v, act', max);
    PushedEntries(t, act, max);
    PushedEntries(v, act', max);
    BumpedFollows(start, acts, act, v.shown, t.shown);
    forall j | 0 <= j < |u.states|
      ensures u.h.snapshots[j].affected == w.h.snapshots[j].affected
      ensures Follows(start, acts + [act], w.states[j], u.states[j])
    {
      if j < |u.states| - 1 {
        var k := j + if t.h.position + 2 > max then 1 else 0;
        FollowsOn(start, acts, act, v.states[k], t.states[k]);
      }
    }
  }

  lemma RestoredFollows(start: seq<Page>, acts: seq<Act>, t: Tracked, v: Tracked, to: nat, max: nat)
    requires Alike(start, acts, t, v, max) && to < |t.states|
    ensures Follows(start, acts, Restored(v.shown, v.h.snapshots[to]), Restored(t.shown, t.h.snapshots[to]))
  {
    var r, q := Restored(t.shown, t.h.snapshots[to]), Restored(v.shown, v.h.snapshots[to]);
    forall i | 0 <= i < |r|
      ensures Stands(start, acts, i, q[i].number, r[i])
    {
      if i < |t.states[to]| {
        StoredPage(t.states[to], t.h.snapshots[to], i + 1);
        StoredPage(v.states[to], v.h.snapshots[to], i + 1);
        assert Stands(start, acts, i, v.states[to][i].number, t.states[to][i]);
      } else {
        NotStored(t.states[to], t.h.snapshots[to], i + 1);
        NotStored(v.states[to], v.h.snapshots[to], i + 1);
      }
      assert Stands(start, acts, i, v.shown[i].number, t.shown[i]);
    }
  }

  lemma NotStored(pages: seq<Page>, s: Snapshot, page: int)
    requires TakenOf(s, pages) && page > |pages|
    ensures page !in s.pages
  {
  }

  lemma JumpAlike(start: seq<Page>, acts: seq<Act>, t: Tracked, v: Tracked, act: Act, max: nat)
    requires Alike(start, acts, t, v, max) && !act.Recorded?
    ensures Alike(start, acts + [act], Next(t, act, max), Next(v, act, max), max)
  {
    hide Follows, TakenOf, Restored;
    var to := Target(t.h, act);
    RestoredFollows(start, acts, t, v, to, max);
    forall j | 0 <= j < |t.states|
      ensures Follows(start, acts + [act], v.states[j], t.states[j])
    {
      FollowsOn(start, acts, act, v.states[j], t.states[j]);
    }
    FollowsOn(start, acts, act, v.shown, t.shown);
    FollowsOn(start, acts, act, Restored(v.shown, v.h.snapshots[to]), Restored(t.shown, t.h.snapshots[to]));
  }

  /** Whatever the pages, a run with these lists, counts and jumps shows and records page
      by page what the versions stand for. */
  lemma {:induction false} RunFollows(pages: seq<Page>, acts: seq<Act>, script: seq<Move>, max: nat)
    requires Shaped(acts, script) && AllNamed(Opened(pages), acts, max) && max >= 1
    ensures Alike(pages, acts, AfterActs(Opened(pages), acts, max), VersionRun(|pages|, script, max), max)
    decreases |acts|
  {
    hide Alike, Next, Opened, VersionAct;
    if acts == [] {
      StartAlike(pages, max);
    } else {
      var init, act, front := acts[..|acts| - 1], acts[|acts| - 1], script[..|script| - 1];
      RunFollows(pages, init, front, max);
      var t, v := AfterActs(Opened(pages), init, max), VersionRun(|pages|, front, max);
      AlikeIsKept(pages, init, t, v, max);
      assert init + [act] == acts;
      VersionsOn(|pages|, script, max);
      SameJump(v, act, |acts|);
      assert MoveOf(act) == script[|script| - 1];
      NamedPositive(t, act);
      if act.Recorded? {
        RecordAlike(pages, init, t, v, act, max);
      } else {
        JumpAlike(pages, init, t, v, act, max);
      }
    }
  }

  lemma NamedPositive(t: Tracked, act: Act)
    requires Named(t, act)
    ensures act.Recorded? ==> Positive(act.affected)
  {
  }

  lemma SameJump(v: Tracked, act: Act, stamp: nat)
    ensures !act.Recorded? ==> VersionAct(v, MoveOf(act), stamp) == act
    ensures act.Recorded? ==> VersionAct(v, MoveOf(act), stamp).Recorded?
                              && VersionAct(v, MoveOf(act), stamp).affected == act.affected
  {
  }

  lemma StartAlike(pages: seq<Page>, max: nat)
    requires max >= 1
    ensures Alike(pages, [], AfterActs(Opened(pages), [], max), VersionRun(|pages|, [], max), max)
  {
  }

  lemma AlikeIsKept(start: seq<Page>, acts: seq<Act>, t: Tracked, v: Tracked, max: nat)
    requires Alike(start, acts, t, v, max)
    ensures Kept(t, max) && Kept(v, max)
  {
  }

  /** One move more of the version run. */
  lemma VersionsOn(n: nat, script: seq<Move>, max: nat)
    requires script != []
    ensures var v := VersionRun(n, script[..|script| - 1], max);
            var act := VersionAct(v, script[|script| - 1], |script|);
            Kept(v, max) && (act.Recorded? ==> Positive(act.affected)) ==>
              VersionRun(n, script, max) == Next(v, act, max)
  {
    var init := VersionActs(n, script[..|script| - 1], max);
    var acts := VersionActs(n, script, max);
    assert acts[..|acts| - 1] == init;
  }

  // ---- Which jumps are exact in every run --------------------------------------------------------

  lemma {:induction false} VersionsAreARun(n: nat, script: seq<Move>, max: nat)
    requires PositiveLists(script) && max >= 1
    ensures Shaped(VersionActs(n, script, max), script)
    ensures AllNamed(Opened(Unchanged(n)), VersionActs(n, script, max), max)
    decreases |script|
  {
    if script != [] {
      var front, last := script[..|script| - 1], script[|script| - 1];
      VersionsAreARun(n, front, max);
      var v, init := VersionRun(n, front, max), VersionActs(n, front, max);
      VersionNamed(v, last, |script|);
      var acts := VersionActs(n, script, max);
      assert acts[..|acts| - 1] == init;
    }
  }

  lemma VersionNamed(v: Tracked, move: Move, stamp: nat)
    requires move.Record? ==> Positive(move.affected)
    ensures Named(v, VersionAct(v, move, stamp)) && MoveOf(VersionAct(v, move, stamp)) == move
  {
  }

  lemma VersionsAreKept(n: nat, script: seq<Move>, max: nat)
    requires PositiveLists(script) && max >= 1
    ensures Kept(VersionRun(n, script, max), max)
  {
    hide VersionActs, VersionRun, Kept, AfterActs;
    VersionsAreARun(n, script, max);
    assert |Unchanged(n)| == n;
    var acts := VersionActs(n, script, max);
    RunFollows(Unchanged(n), acts, script, max);
    AlikeIsKept(Unchanged(n), acts, AfterActs(Opened(Unchanged(n)), acts, max), VersionRun(n, script, max), max);
  }

  /** In every run of the script: whatever its pages, and each recording naming what it changed. */
  ghost predicate AlwaysExact(n: nat, script: seq<Move>, max: nat, to: nat) {
    forall pages: seq<Page>, acts: seq<Act> |
      |pages| == n && Shaped(acts, script) && AllNamed(Opened(pages), acts, max) ::
      ExactThen(AfterActs(Opened(pages), acts, max), to)
  }

  ghost predicate ExactThen(t: Tracked, to: nat) {
    to < |t.h.snapshots| && |t.states| == |t.h.snapshots| && Exact(t, to)
  }

  lemma FollowersAreExact(start: seq<Page>, acts: seq<Act>, t: Tracked, v: Tracked, to: nat, max: nat)
    requires Alike(start, acts, t, v, max) && to < |v.states| && Exact(v, to)
    ensures ExactThen(t, to)
  {
    RestoredFollows(start, acts, t, v, to, max);
    SameFollower(start, acts, v.states[to], Restored(t.shown, t.h.snapshots[to]), t.states[to]);
  }

  lemma SameFollower(start: seq<Page>, acts: seq<Act>, versions: seq<Page>, a: seq<Page>, b: seq<Page>)
    requires Follows(start, acts, versions, a) && Follows(start, acts, versions, b)
    ensures a == b
  {
    forall i | 0 <= i < |a|
      ensures a[i] == b[i]
    {
      assert Stands(start, acts, i, versions[i].number, a[i]) && Stands(start, acts, i, versions[i].number, b[i]);
    }
  }

  /** After any recordings and jumps, exact or not, going to a position brings back what was
      recorded there, in every run with these lists, counts and jumps, exactly when each page
      its list leaves out has the version it had there: known before the call. */
  lemma JumpIsExactIffVersionsAgree(n: nat, script: seq<Move>, max: nat, to: nat)
    requires PositiveLists(script) && max >= 1 && to < |VersionRun(n, script, max).h.snapshots|
    ensures |VersionRun(n, script, max).states| == |VersionRun(n, script, max).h.snapshots|
    ensures AlwaysExact(n, script, max, to) <==> VersionsAgree(VersionRun(n, script, max), to)
  {
    hide VersionActs, AfterActs, Opened, Alike, AllNamed, Exact, VersionsAgree, ExactThen;
    var v := VersionRun(n, script, max);
    VersionsAreKept(n, script, max);
    AgreeIsExact(v, to, max);
    if VersionsAgree(v, to) {
      forall pages: seq<Page>, acts: seq<Act> |
        |pages| == n && Shaped(acts, script) && AllNamed(Opened(pages), acts, max)
        ensures ExactThen(AfterActs(Opened(pages), acts, max), to)
      {
        RunFollows(pages, acts, script, max);
        FollowersAreExact(pages, acts, AfterActs(Opened(pages), acts, max), v, to, max);
      }
    } else {
      VersionsAreARun(n, script, max);
      assert |Unchanged(n)| == n;
      InexactThen(v, to);
    }
  }

  lemma InexactThen(t: Tracked, to: nat)
    requires to < |t.h.snapshots| && |t.states| == |t.h.snapshots| && !Exact(t, to)
    ensures !ExactThen(t, to)
  {
  }

  /** Undoing k entries is going k entries back. */
  ghost predicate UndoAlwaysExact(n: nat, script: seq<Move>, max: nat, k: nat) {
    forall pages: seq<Page>, acts: seq<Act> |
      |pages| == n && Shaped(acts, script) && AllNamed(Opened(pages), acts, max) ::
      UndoneThen(AfterActs(Opened(pages), acts, max), k)
  }

  ghost predicate UndoneThen(t: Tracked, k: nat) {
    k <= t.h.position < |t.h.snapshots| && |t.states| == |t.h.snapshots|
    && Gone(t.h, Back(t.h, k), t.shown) == t.states[t.h.position - k]
  }

  lemma UndoneIsExact(t: Tracked, v: Tracked, start: seq<Page>, acts: seq<Act>, k: nat, max: nat)
    requires Alike(start, acts, t, v, max) && 1 <= k <= v.h.position
    ensures UndoneThen(t, k) <==> ExactThen(t, v.h.position - k)
  {
  }

  /** The same for undo(k), after which the document is where it was k entries before. */
  lemma UndoIsExactIffVersionsAgree(n: nat, script: seq<Move>, max: nat, k: nat)
    requires PositiveLists(script) && max >= 1 && 1 <= k <= VersionRun(n, script, max).h.position
    ensures var v := VersionRun(n, script, max);
            && v.h.position < |v.h.snapshots| && |v.states| == |v.h.snapshots|
            && (UndoAlwaysExact(n, script, max, k) <==> VersionsAgree(v, v.h.position - k))
  {
    hide VersionActs, AfterActs, Opened, Alike, AllNamed, Exact, VersionsAgree, ExactThen, UndoneThen;
    var v := VersionRun(n, script, max);
    VersionsAreKept(n, script, max);
    JumpIsExactIffVersionsAgree(n, script, max, v.h.position - k);
    forall pages: seq<Page>, acts: seq<Act> |
      |pages| == n && Shaped(acts, script) && AllNamed(Opened(pages), acts, max)
      ensures UndoneThen(AfterActs(Opened(pages), acts, max), k)
              <==> ExactThen(AfterActs(Opened(pages), acts, max), v.h.position - k)
    {
      RunFollows(pages, acts, script, max);
      UndoneIsExact(AfterActs(Opened(pages), acts, max), v, pages, acts, k, max);
    }
  }

  // ---- Runs in which every jump is exact -----------------------------------------------------------

  predicate SameCount(n: nat, script: seq<Move>) {
    forall i | 0 <= i < |script| && script[i].Record? :: script[i].count == n
  }

  /** Every jump's target covers the way, on the lists as they are when its turn comes. */
  ghost predicate JumpsCovered(n: nat, script: seq<Move>, max: nat)
    decreases |script|
  {
    script == []
    || (JumpsCovered(n, script[..|script| - 1], max)
       && CoveredMove(VersionRun(n, script[..|script| - 1], max), script[|script| - 1], n))
  }

  ghost predicate CoveredMove(v: Tracked, move: Move, n: nat) {
    var act := VersionAct(v, move, 0);
    !act.Recorded? ==>
      v.h.position < |v.h.snapshots| && Covered(Affected(v.h), n, v.h.position, Target(v.h, act))
  }

  ghost predicate InStep(t: Tracked) {
    t.h.position < |t.states| && t.shown == t.states[t.h.position]
  }

  /** After each move of the script, in every run of it, the pages shown are those recorded
      at the position. */
  ghost predicate JumpsExact(n: nat, script: seq<Move>, max: nat)
    decreases |script|
  {
    AlwaysInStep(n, script, max) && (script == [] || JumpsExact(n, script[..|script| - 1], max))
  }

  ghost predicate AlwaysInStep(n: nat, script: seq<Move>, max: nat) {
    forall pages: seq<Page>, acts: seq<Act> |
      |pages| == n && Shaped(acts, script) && AllNamed(Opened(pages), acts, max) ::
      InStep(AfterActs(Opened(pages), acts, max))
  }

  lemma MoveIsAllowed(start: seq<Page>, acts: seq<Act>, t: Tracked, v: Tracked, act: Act, n: nat, max: nat)
    requires Alike(start, acts, t, v, max) && Good(t, n, max) && Named(t, act)
    requires CoveredMove(v, MoveOf(act), n) && (act.Recorded? ==> |act.pages| == n)
    ensures Allowed(t, act, n)
  {
    hide Covered, Follows;
    assert Affected(t.h) == Affected(v.h);
    SameJump(v, act, 0);
    if act.Recorded? {
      forall i | 0 <= i < n
        ensures act.affected == [] || i + 1 in act.affected || t.shown[i] == act.pages[i]
      {
        assert Lists(act.affected, i + 1) || t.shown[i] == act.pages[i];
      }
    }
  }

  lemma {:induction false} CoveredRunsAreAllowed(pages: seq<Page>, acts: seq<Act>, script: seq<Move>, max: nat)
    requires Shaped(acts, script) && AllNamed(Opened(pages), acts, max) && max >= 1
    requires SameCount(|pages|, script) && JumpsCovered(|pages|, script, max)
    ensures AllAllowed(Opened(pages), acts, |pages|, max)
    decreases |acts|
  {
    hide Alike, Next, Opened, VersionAct, VersionRun, Allowed, Good, CoveredMove, Named;
    if acts != [] {
      var init, act, front := acts[..|acts| - 1], acts[|acts| - 1], script[..|script| - 1];
      CoveredRunsAreAllowed(pages, init, front, max);
      RunFollows(pages, init, front, max);
      OpenedIsGood(pages, max);
      ActsStayGood(Opened(pages), init, |pages|, max);
      assert MoveOf(act) == script[|script| - 1];
      var t, v := AfterActs(Opened(pages), init, max), VersionRun(|pages|, front, max);
      MoveIsAllowed(pages, init, t, v, act, |pages|, max);
    }
  }

  lemma {:induction false} CoveredIsAlwaysInStep(n: nat, script: seq<Move>, max: nat)
    requires max >= 1 && SameCount(n, script) && JumpsCovered(n, script, max)
    ensures JumpsExact(n, script, max)
    decreases |script|
  {
    hide AllNamed, AllAllowed, AfterActs, Opened, VersionRun, CoveredMove, Honest;
    forall pages: seq<Page>, acts: seq<Act> |
      |pages| == n && Shaped(acts, script) && AllNamed(Opened(pages), acts, max)
      ensures InStep(AfterActs(Opened(pages), acts, max))
    {
      CoveredRunsAreAllowed(pages, acts, script, max);
      OpenedIsGood(pages, max);
      ActsStayGood(Opened(pages), acts, n, max);
      var t := AfterActs(Opened(pages), acts, max);
      HonestSizes(t.h, t.states, n);
    }
    if script != [] {
      CoveredIsAlwaysInStep(n, script[..|script| - 1], max);
    }
  }

  /** From entry to entry a page's version never falls, and rises where the page is listed. */
  predicate Rising(h: Timeline, states: seq<seq<Page>>, n: nat, bound: nat) {
    && |states| == |h.snapshots|
    && (forall j | 0 <= j < |states| :: |states[j]| == n)
    && (forall j, i | 0 <= j < |states| && 0 <= i < n :: states[j][i].number <= bound)
    && (forall j | 0 < j < |states| :: Rises(h.snapshots[j].affected, states[j - 1], states[j]))
  }

  predicate Rises(list: seq<int>, before: seq<Page>, after: seq<Page>) {
    && |before| == |after|
    && forall i | 0 <= i < |before| ::
         before[i].number <= after[i].number && (Lists(list, i + 1) ==> before[i].number < after[i].number)
  }

  lemma RecordRises(v: Tracked, move: Move, n: nat, stamp: nat, max: nat)
    requires Good(v, n, max) && Rising(v.h, v.states, n, stamp)
    requires move.Record? && Positive(move.affected) && move.count == n
    ensures var w := Next(v, VersionAct(v, move, stamp + 1), max); Rising(w.h, w.states, n, stamp + 1)
  {
    hide Rises, Next, Good, TakenOf, Bumped;
    var act := VersionAct(v, move, stamp + 1);
    GoodIsKept(v, n, max);
    PushedEntries(v, act, max);
    var w := Next(v, act, max);
    var last, dropped := |w.states| - 1, if v.h.position + 2 > max then 1 else 0;
    BumpedRises(v.shown, move.affected, n, stamp);
    forall j | 0 < j < |w.states|
      ensures Rises(w.h.snapshots[j].affected, w.states[j - 1], w.states[j])
    {
      if j < last {
        assert Rises(v.h.snapshots[j + dropped].affected, v.states[j + dropped - 1], v.states[j + dropped]);
      } else {
        assert w.states[j - 1] == v.shown;
      }
    }
  }

  lemma BumpedRises(shown: seq<Page>, list: seq<int>, n: nat, stamp: nat)
    requires |shown| == n && forall i | 0 <= i < n :: shown[i].number <= stamp
    ensures var bumped := Bumped(shown, list, n, stamp + 1);
            Rises(list, shown, bumped) && forall i | 0 <= i < n :: bumped[i].number <= stamp + 1
  {
  }

  lemma GoodIsKept(t: Tracked, n: nat, max: nat)
    requires Good(t, n, max)
    ensures Kept(t, max) && |t.shown| == n && t.shown == t.states[t.h.position]
  {
  }

  lemma {:induction false} VersionsRise(n: nat, script: seq<Move>, max: nat)
    requires max >= 1 && PositiveLists(script) && SameCount(n, script) && JumpsCovered(n, script, max)
    ensures Good(VersionRun(n, script, max), n, max)
    ensures Rising(VersionRun(n, script, max).h, VersionRun(n, script, max).states, n, |script|)
    decreases |script|
  {
    hide Good, AfterActs, VersionActs, VersionRun, Rising, JumpsCovered, CoveredMove, AllNamed, AllAllowed;
    VersionsAreARun(n, script, max);
    assert |Unchanged(n)| == n;
    CoveredRunsAreAllowed(Unchanged(n), VersionActs(n, script, max), script, max);
    OpenedIsGood(Unchanged(n), max);
    ActsStayGood(Opened(Unchanged(n)), VersionActs(n, script, max), n, max);
    RunIsActs(n, script, max);
    if script == [] {
      NothingRises(n, max);
    } else {
      FrontCovered(n, script, max);
      VersionsRise(n, script[..|script| - 1], max);
      StepRises(n, script, max);
    }
  }

  lemma RunIsActs(n: nat, script: seq<Move>, max: nat)
    ensures VersionRun(n, script, max) == AfterActs(Opened(Unchanged(n)), VersionActs(n, script, max), max)
  {
  }

  lemma FrontCovered(n: nat, script: seq<Move>, max: nat)
    requires script != [] && JumpsCovered(n, script, max)
    ensures JumpsCovered(n, script[..|script| - 1], max)
  {
  }

  lemma NothingRises(n: nat, max: nat)
    ensures Rising(VersionRun(n, [], max).h, VersionRun(n, [], max).states, n, 0)
  {
  }

  lemma StepRises(n: nat, script: seq<Move>, max: nat)
    requires script != [] && PositiveLists(script) && SameCount(n, script)
    requires var v := VersionRun(n, script[..|script| - 1], max);
             Good(v, n, max) && Rising(v.h, v.states, n, |script| - 1)
    ensures Rising(VersionRun(n, script, max).h, VersionRun(n, script, max).states, n, |script|)
  {
    hide VersionRun, Rises, Good;
    var v, move := VersionRun(n, script[..|script| - 1], max), script[|script| - 1];
    VersionNamed(v, move, |script|);
    NamedPositive(v, VersionAct(v, move, |script|));
    GoodIsKept(v, n, max);
    VersionsOn(n, script, max);
    if move.Record? {
      RecordRises(v, move, n, |script| - 1, max);
    }
  }

  lemma {:induction false} RisesAlong(h: Timeline, states: seq<seq<Page>>, n: nat, bound: nat, i: nat, low: nat,
                                       high: nat)
    requires Rising(h, states, n, bound) && low <= high < |states| && i < n
    ensures states[low][i].number <= states[high][i].number
    decreases high - low
  {
    if low < high {
      RisesAlong(h, states, n, bound, i, low, high - 1);
      assert Rises(h.snapshots[high].affected, states[high - 1], states[high]);
    }
  }

  lemma UncoveredIsInexact(v: Tracked, n: nat, bound: nat, to: nat, max: nat)
    requires Good(v, n, max) && Rising(v.h, v.states, n, bound) && to < |v.h.snapshots|
    requires !Covered(Affected(v.h), n, v.h.position, to)
    ensures !Exact(v, to)
  {
    hide Rising, Honest, TakenOf;
    var from := v.h.position;
    HonestSizes(v.h, v.states, n);
    var m, page := Missed(Affected(v.h), n, from, to);
    ListsOf(v.h);
    var low, high := Low(from, to), High(from, to);
    RisesAlong(v.h, v.states, n, bound, page - 1, low, m - 1);
    RisesAlong(v.h, v.states, n, bound, page - 1, m, high);
    RisesAt(v.h, v.states, n, bound, page - 1, m);
    StoredPage(v.states[to], v.h.snapshots[to], page);
    assert Restored(v.shown, v.h.snapshots[to])[page - 1] == v.shown[page - 1];
  }

  lemma RisesAt(h: Timeline, states: seq<seq<Page>>, n: nat, bound: nat, i: nat, m: nat)
    requires Rising(h, states, n, bound) && 0 < m < |states| && i < n && Lists(h.snapshots[m].affected, i + 1)
    ensures states[m - 1][i].number < states[m][i].number
  {
    assert Rises(h.snapshots[m].affected, states[m - 1], states[m]);
  }

  lemma {:induction false} InStepIsCovered(n: nat, script: seq<Move>, max: nat)
    requires max >= 1 && PositiveLists(script) && SameCount(n, script) && JumpsExact(n, script, max)
    ensures JumpsCovered(n, script, max)
    decreases |script|
  {
    hide AfterActs, VersionActs, VersionRun, AllNamed, Good, Rising, Covered, Exact;
    if script != [] {
      var front, move := script[..|script| - 1], script[|script| - 1];
      InStepIsCovered(n, front, max);
      VersionsRise(n, front, max);
      VersionsAreARun(n, script, max);
      assert |Unchanged(n)| == n;
      RunIsActs(n, script, max);
      assert InStep(VersionRun(n, script, max));
      var v := VersionRun(n, front, max);
      VersionNamed(v, move, |script|);
      NamedPositive(v, VersionAct(v, move, |script|));
      GoodIsKept(v, n, max);
      VersionsOn(n, script, max);
      if !move.Record? {
        InStepJump(v, move, |script|, n, max);
        if !CoveredMove(v, move, n) {
          UncoveredIsInexact(v, n, |front|, Target(v.h, VersionAct(v, move, 0)), max);
        }
      }
    }
  }

  lemma InStepJump(v: Tracked, move: Move, stamp: nat, n: nat, max: nat)
    requires Good(v, n, max) && !move.Record?
    ensures var act := VersionAct(v, move, stamp);
            act == VersionAct(v, move, 0) && Target(v.h, act) < |v.h.snapshots|
            && (InStep(Next(v, act, max)) && Target(v.h, act) != v.h.position ==> Exact(v, Target(v.h, act)))
            && (Target(v.h, act) == v.h.position ==> CoveredMove(v, move, n))
  {
  }

  /** For given lists and jumps, on a document of a fixed number of pages: every undo, redo
      and goto is exact, in every run, exactly when the target of each covers its way. */
  lemma JumpsExactIffCovered(n: nat, script: seq<Move>, max: nat)
    requires max >= 1 && PositiveLists(script) && SameCount(n, script)
    ensures JumpsExact(n, script, max) <==> JumpsCovered(n, script, max)
  {
    hide JumpsExact, JumpsCovered;
    if JumpsCovered(n, script, max) {
      CoveredIsAlwaysInStep(n, script, max);
    }
    if JumpsExact(n, script, max) {
      InStepIsCovered(n, script, max);
    }
  }

  // ---- Covering alone is not enough ---------------------------------------------------------------

  lemma ThenAct(t: Tracked, acts: seq<Act>, act: Act, max: nat)
    requires AllNamed(t, acts, max) && Named(AfterActs(t, acts, max), act) && Kept(AfterActs(t, acts, max), max)
    ensures AllNamed(t, acts + [act], max)
    ensures AfterActs(t, acts + [act], max) == Next(AfterActs(t, acts, max), act, max)
  {
    assert (acts + [act])[..|acts|] == acts;
  }

  /** After an undo that was not covered, a covered undo can miss an edit too. */
  lemma CoveredUndoMisses(a: Page, a': Page, a'': Page, b: Page, b': Page)
    requires b != b'
    ensures var acts := [Recorded([a', b], "first", [], [1]), Recorded([a', b'], "second", [], [2]), Undo(1),
                         Recorded([a'', b'], "third", [], [1])];
            var t := AfterActs(Opened([a, b]), acts, 100);
            && AllNamed(Opened([a, b]), acts, 100)
            && Affected(t.h) == [[1, 2], [1], [1]] && t.h.position == 2 && Covered(Affected(t.h), 2, 2, 1)
            && |t.states| == 3 && t.states[1] == [a', b]
            && Gone(t.h, Back(t.h, 1), t.shown) == [a', b'] != t.states[1]
  {
    hide AllNamed, AfterActs, Next, Opened, Taken, Restored, TakenOf;
    var open, undo, last := Opened([a, b]), Undo(1), Recorded([a'', b'], "third", [], [1]);
    var two := [Recorded([a', b], "first", [], [1]), Recorded([a', b'], "second", [], [2])];
    var t2 := TwoRecorded(a, a', b, b');
    FirstPageRestored(a', b', a', b);
    var t3 := Next(t2, undo, 100);
    UndoneOnce(t2, 100);
    OpeningLists(a, b);
    ThenAct(open, two, undo, 100);
    ThenAct(open, two + [undo], last, 100);
    PushedEntries(t3, last, 100);
    assert two + [undo] + [last] == [two[0], two[1], undo, last];
    var t := Next(t3, last, 100);
    assert t.h.snapshots[1] == Taken([a', b], "first", [], [1]);
    FirstPageRestored(a'', b', a', b);
    ListTaken([a'', b'], "third", [], [1]);
    assert Affected(t.h) == [[1, 2], [1], [1]];
  }

  lemma FirstPageRestored(x: Page, y: Page, a: Page, b: Page)
    ensures var s := Taken([a, b], "first", [], [1]); s.affected == [1] && Restored([x, y], s) == [a, y]
  {
    assert Taken([a, b], "first", [], [1]).pages.Keys == {1};
  }

  lemma ListTaken(pages: seq<Page>, action: string, elements: seq<string>, affected: seq<int>)
    requires Positive(affected)
    ensures Taken(pages, action, elements, affected).affected == affected
  {
  }

  lemma OpeningLists(a: Page, b: Page)
    ensures var open := Opened([a, b]); |open.h.snapshots| == 1 && open.h.snapshots[0].affected == [1, 2]
  {
  }

  lemma UndoneOnce(t: Tracked, max: nat)
    requires Kept(t, max) && t.h.position > 0
    ensures var to := t.h.position - 1;
            var u := Next(t, Undo(1), max);
            Kept(u, max) && u == t.(h := t.h.(position := to), shown := Restored(t.shown, t.h.snapshots[to]))
  {
  }

  lemma TwoRecorded(a: Page, a': Page, b: Page, b': Page) returns (t: Tracked)
    ensures var acts := [Recorded([a', b], "first", [], [1]), Recorded([a', b'], "second", [], [2])];
            && AllNamed(Opened([a, b]), acts, 100) && t == AfterActs(Opened([a, b]), acts, 100) && Kept(t, 100)
            && t.h.snapshots == Opened([a, b]).h.snapshots
                                + [Taken([a', b], "first", [], [1]), Taken([a', b'], "second", [], [2])]
            && t.h.position == 2 && t.shown == [a', b'] && t.states == [[a, b], [a', b], [a', b']]
  {
    hide AllNamed, AfterActs;
    var open := Opened([a, b]);
    var first, second := Recorded([a', b], "first", [], [1]), Recorded([a', b'], "second", [], [2]);
    NothingActed(open, 100);
    OpenedIsKept([a, b], 100);
    ThenAct(open, [], first, 100);
    PushedEntries(open, first, 100);
    var t1 := Next(open, first, 100);
    ThenAct(open, [first], second, 100);
    PushedEntries(t1, second, 100);
    t := Next(t1, second, 100);
    assert [] + [first] == [first] && [first] + [second] == [first, second];
  }

  lemma NothingActed(t: Tracked, max: nat)
    ensures AllNamed(t, [], max) && AfterActs(t, [], max) == t
  {
  }
}
