/** Undo history: a bounded zipper of page snapshots, and when undo restores exactly. */
module History {
  import opened SceneGraph

  /** The stored pages, by number: the affected ones when a list was given, else all. */
  datatype Snapshot = Snapshot(action: string, pages: map<int, Page>, elements: seq<string>, affected: seq<int>)

  datatype Timeline = Timeline(snapshots: seq<Snapshot>, position: nat)

  predicate Valid(h: Timeline, max: nat) { h.position < |h.snapshots| <= max }

  predicate Positive(numbers: seq<int>) { forall i | 0 <= i < |numbers| :: numbers[i] >= 1 }

  function ToStore(pages: seq<Page>, affected: seq<int>): seq<int> {
    if affected != [] then affected else PageNumbers(|pages|)
  }

  function Stored(pages: seq<Page>, numbers: seq<int>): map<int, Page>
    requires Positive(numbers)
  {
    map p | p in numbers && 1 <= p <= |pages| :: pages[p - 1]
  }

  function Taken(pages: seq<Page>, action: string, elements: seq<string>, affected: seq<int>): Snapshot
    requires Positive(affected)
  {
    Snapshot(action, Stored(pages, ToStore(pages, affected)), elements, affected)
  }

  /** A snapshot written over pages: the pages it does not hold stay. */
  function Restored(pages: seq<Page>, s: Snapshot): (r: seq<Page>)
    ensures |r| == |pages|
    ensures forall i | 0 <= i < |pages| :: r[i] == if i + 1 in s.pages then s.pages[i + 1] else pages[i]
  {
    seq(|pages|, i requires 0 <= i < |pages| => if i + 1 in s.pages then s.pages[i + 1] else pages[i])
  }

  // ---- The operations ------------------------------------------------------------------

  function Pushed(h: Timeline, s: Snapshot, max: nat): Timeline
    requires Valid(h, max)
  {
    var longer := h.snapshots[..h.position + 1] + [s];
    if |longer| > max then Timeline(longer[1..], |longer| - 2) else Timeline(longer, |longer| - 1)
  }

  /** Where undo by a number of steps, possibly not positive, gets to. */
  function Back(h: Timeline, steps: int): nat {
    if steps <= 0 then h.position else if steps <= h.position then h.position - steps else 0
  }

  function Forth(h: Timeline, steps: int): nat
    requires h.position < |h.snapshots|
  {
    if steps <= 0 then h.position
    else if h.position + steps < |h.snapshots| then h.position + steps
    else |h.snapshots| - 1
  }

  /** The pages after going to a position: written only when it is another one. */
  function Gone(h: Timeline, to: nat, pages: seq<Page>): seq<Page>
    requires to < |h.snapshots|
  {
    if to == h.position then pages else Restored(pages, h.snapshots[to])
  }

  // ---- A zipper ------------------------------------------------------------------------------

  datatype Zipper = Zipper(past: seq<Snapshot>, present: Snapshot, future: seq<Snapshot>) {
    /** A new present: the future is lost, and the oldest past when there are too many. */
    function Push(s: Snapshot, max: nat): Zipper {
      var behind := past + [present];
      Zipper(if |behind| + 1 > max then behind[1..] else behind, s, [])
    }

    function Left(): Zipper {
      if past == [] then this else Zipper(past[..|past| - 1], past[|past| - 1], [present] + future)
    }

    function Right(): Zipper {
      if future == [] then this else Zipper(past + [present], future[0], future[1..])
    }

    function LeftBy(n: nat): Zipper
      decreases n
    {
      if n == 0 then this else Left().LeftBy(n - 1)
    }

    function RightBy(n: nat): Zipper
      decreases n
    {
      if n == 0 then this else Right().RightBy(n - 1)
    }
  }

  function AsZipper(h: Timeline): Zipper
    requires h.position < |h.snapshots|
  {
    Zipper(h.snapshots[..h.position], h.snapshots[h.position], h.snapshots[h.position + 1..])
  }

  /** Push drops the redo tail, and the oldest entry when the bound is passed. */
  lemma PushIsZipperPush(h: Timeline, s: Snapshot, max: nat)
    requires Valid(h, max)
    ensures Valid(Pushed(h, s, max), max) && AsZipper(Pushed(h, s, max)) == AsZipper(h).Push(s, max)
  {
    var behind := h.snapshots[..h.position + 1];
    assert behind == h.snapshots[..h.position] + [h.snapshots[h.position]];
    assert behind + [s] == (behind + [s])[..|behind|] + [s];
  }

  lemma LeftIsBackOne(h: Timeline)
    requires h.position < |h.snapshots|
    ensures AsZipper(h).Left() == AsZipper(h.(position := Back(h, 1)))
  {
    if h.position > 0 {
      var p := h.position - 1;
      assert h.snapshots[..h.position] == h.snapshots[..p] + [h.snapshots[p]];
      assert h.snapshots[h.position..] == [h.snapshots[h.position]] + h.snapshots[h.position + 1..];
    }
  }

  lemma RightIsForthOne(h: Timeline)
    requires h.position < |h.snapshots|
    ensures AsZipper(h).Right() == AsZipper(h.(position := Forth(h, 1)))
  {
    var p := h.position + 1;
    if p < |h.snapshots| {
      assert h.snapshots[..p] == h.snapshots[..h.position] + [h.snapshots[h.position]];
      assert h.snapshots[p..] == [h.snapshots[p]] + h.snapshots[p + 1..];
    }
  }

  lemma {:induction false} UndoIsLeft(h: Timeline, steps: nat)
    requires h.position < |h.snapshots|
    ensures AsZipper(h).LeftBy(steps) == AsZipper(h.(position := Back(h, steps)))
    decreases steps
  {
    if steps > 0 {
      LeftIsBackOne(h);
      UndoIsLeft(h.(position := Back(h, 1)), steps - 1);
    }
  }

  lemma {:induction false} RedoIsRight(h: Timeline, steps: nat)
    requires h.position < |h.snapshots|
    ensures AsZipper(h).RightBy(steps) == AsZipper(h.(position := Forth(h, steps)))
    decreases steps
  {
    if steps > 0 {
      RightIsForthOne(h);
      RedoIsRight(h.(position := Forth(h, 1)), steps - 1);
    }
  }

  // ---- When restoring is exact -------------------------------------------------------------------

  /** The snapshot holds every page of a document of n pages. */
  ghost predicate Full(s: Snapshot, n: nat) { forall p :: p in s.pages <==> 1 <= p <= n }

  ghost predicate AllFull(h: Timeline, n: nat) { forall i | 0 <= i < |h.snapshots| :: Full(h.snapshots[i], n) }

  ghost function StateOf(s: Snapshot, n: nat): seq<Page>
    requires Full(s, n)
  {
    seq(n, i requires 0 <= i < n => s.pages[i + 1])
  }

  /** The pages shown are those of the snapshot at the current position. */
  ghost predicate InSync(h: Timeline, pages: seq<Page>) {
    h.position < |h.snapshots| && Full(h.snapshots[h.position], |pages|)
    && pages == StateOf(h.snapshots[h.position], |pages|)
  }

  lemma FullRestores(s: Snapshot, pages: seq<Page>)
    requires Full(s, |pages|)
    ensures Restored(pages, s) == StateOf(s, |pages|)
  {
  }

  /** Undoing k steps and redoing them comes back to the position, and with full
      snapshots of as many pages as the document has, to the same pages exactly when no
      edit was left unrecorded. */
  lemma UndoThenRedo(h: Timeline, pages: seq<Page>, k: nat)
    requires 1 <= k <= h.position < |h.snapshots| && AllFull(h, |pages|)
    ensures var undone := h.(position := Back(h, k));
            var shown := Gone(h, undone.position, pages);
            var redone := undone.(position := Forth(undone, k));
            && undone.position == h.position - k && shown == StateOf(h.snapshots[h.position - k], |pages|)
            && redone == h && (Gone(undone, redone.position, shown) == pages <==> InSync(h, pages))
  {
    FullRestores(h.snapshots[h.position - k], pages);
    FullRestores(h.snapshots[h.position], StateOf(h.snapshots[h.position - k], |pages|));
  }

  /** With snapshots of the affected pages only, undo can leave an edit standing. */
  lemma PartialUndoMisses(a: Page, a': Page, b: Page, b': Page)
    requires b != b'
    ensures var start := Timeline([Taken([a, b], "open", [], [])], 0);
            var first := Pushed(start, Taken([a', b], "first", [], [1]), 100);
            var second := Pushed(first, Taken([a', b'], "second", [], [2]), 100);
            Gone(second, Back(second, 1), [a', b']) == [a', b'] != [a', b]
  {
    var first := Taken([a', b], "first", [], [1]);
    assert first.pages.Keys == {1};
    assert Restored([a', b'], first) == [a', b'];
    assert [a', b'][1] == b' && [a', b][1] == b;
  }

  /** No jump changes the number of pages, so a state of another number is never restored. */
  lemma PageCountStays(h: Timeline, to: nat, pages: seq<Page>, recorded: seq<Page>)
    requires to < |h.snapshots| && |recorded| != |pages|
    ensures |Gone(h, to, pages)| == |pages| && Gone(h, to, pages) != recorded
  {
  }
}
