/** Packing pieces into windows greedily, and why no other grouping needs fewer. */
module Packing {
  import opened Texts

  /** What packing gives from a window in progress on. */
  function PackFrom(current: string, pieces: seq<string>, max: nat, sep: string): seq<string>
    decreases |pieces|
  {
    if pieces == [] then (if current == "" then [] else [current])
    else if current == "" then PackFrom(pieces[0], pieces[1..], max, sep)
    else if |current + sep + pieces[0]| <= max then PackFrom(current + sep + pieces[0], pieces[1..], max, sep)
    else [current] + PackFrom(pieces[0], pieces[1..], max, sep)
  }

  function Pack(pieces: seq<string>, max: nat, sep: string): seq<string> { PackFrom("", pieces, max, sep) }

  predicate Fits(s: string, max: nat) { Tidy(s) && |s| <= max }

  lemma {:induction false} PackFromFits(current: string, pieces: seq<string>, max: nat, sep: string)
    requires current == "" || Fits(current, max)
    requires forall k | 0 <= k < |pieces| :: Fits(pieces[k], max)
    ensures forall k | 0 <= k < |PackFrom(current, pieces, max, sep)| ::
              Fits(PackFrom(current, pieces, max, sep)[k], max)
    decreases |pieces|
  {
    if pieces != [] {
      var p := pieces[0];
      if current == "" || |current + sep + p| > max {
        PackFromFits(p, pieces[1..], max, sep);
      } else {
        assert (current + sep + p)[|current + sep + p| - 1] == p[|p| - 1];
        PackFromFits(current + sep + p, pieces[1..], max, sep);
      }
    }
  }

  lemma {:induction false} PackKeepsWords(current: string, pieces: seq<string>, max: nat, sep: string)
    requires sep != "" && Blank(sep)
    ensures AllWords(PackFrom(current, pieces, max, sep)) == Words(current) + AllWords(pieces)
    decreases |pieces|
  {
    hide IsSpace, Words;
    BlankHasNoWords("");
    if pieces != [] {
      var p := pieces[0];
      if current != "" && |current + sep + p| <= max {
        CutSpaces(current, sep, p);
        PackKeepsWords(current + sep + p, pieces[1..], max, sep);
      } else {
        PackKeepsWords(p, pieces[1..], max, sep);
      }
    }
  }

  predicate At(piece: string, window: string, i: nat) {
    i + |piece| <= |window| && window[i..i + |piece|] == piece
  }

  ghost predicate Within(piece: string, window: string) {
    exists i: nat :: At(piece, window, i)
  }

  lemma WithinTrans(a: string, b: string, c: string)
    requires Within(a, b) && Within(b, c)
    ensures Within(a, c)
  {
    var i: nat :| At(a, b, i);
    var j: nat :| At(b, c, j);
    forall k: nat | k < |a|
      ensures c[j + i..j + i + |a|][k] == a[k]
    {
      assert c[j..j + |b|][i + k] == b[i + k] && b[i..i + |a|][k] == a[k];
    }
    assert At(a, c, j + i);
  }

  ghost predicate SomeHolds(windows: seq<string>, piece: string) {
    exists k :: 0 <= k < |windows| && Within(piece, windows[k])
  }

  /** No piece is ever cut by packing: it lies whole within one window. */
  lemma {:induction false} PackKeepsWhole(current: string, pieces: seq<string>, max: nat, sep: string)
    requires forall k | 0 <= k < |pieces| :: pieces[k] != ""
    ensures current != "" ==> SomeHolds(PackFrom(current, pieces, max, sep), current)
    ensures forall k | 0 <= k < |pieces| :: SomeHolds(PackFrom(current, pieces, max, sep), pieces[k])
    decreases |pieces|
  {
    var windows := PackFrom(current, pieces, max, sep);
    if pieces == [] {
      if current != "" {
        assert At(current, windows[0], 0);
      }
    } else {
      var p := pieces[0];
      var joined := current + sep + p;
      if current != "" && |joined| <= max {
        PackKeepsWhole(joined, pieces[1..], max, sep);
        var k :| 0 <= k < |windows| && Within(joined, windows[k]);
        assert At(current, joined, 0);
        assert At(p, joined, |current + sep|);
        WithinTrans(current, joined, windows[k]);
        WithinTrans(p, joined, windows[k]);
      } else {
        var rest := PackFrom(p, pieces[1..], max, sep);
        PackKeepsWhole(p, pieces[1..], max, sep);
        if current != "" {
          assert At(current, windows[0], 0);
          forall q | SomeHolds(rest, q)
            ensures SomeHolds(windows, q)
          {
            var k :| 0 <= k < |rest| && Within(q, rest[k]);
            assert windows[k + 1] == rest[k];
          }
        }
      }
      assert forall k | 0 < k < |pieces| :: pieces[k] == pieces[1..][k - 1];
    }
  }

  // ---- Packing is optimal ------------------------------------------------------------------

  function Join(group: seq<string>, sep: string): string
    requires group != []
  {
    if |group| == 1 then group[0] else group[0] + sep + Join(group[1..], sep)
  }

  function Concat(groups: seq<seq<string>>): seq<string> {
    if groups == [] then [] else groups[0] + Concat(groups[1..])
  }

  /** An order-preserving way of sharing the pieces out over windows that fit. */
  predicate Grouping(groups: seq<seq<string>>, pieces: seq<string>, max: nat, sep: string) {
    Concat(groups) == pieces && forall k | 0 <= k < |groups| :: groups[k] != [] && |Join(groups[k], sep)| <= max
  }

  /** A shorter window in progress never costs a window more; any window in progress
      costs at most one more than any other. */
  lemma {:induction false} StaysAhead(a: string, b: string, pieces: seq<string>, max: nat, sep: string)
    requires a != "" && b != "" && forall k | 0 <= k < |pieces| :: pieces[k] != ""
    ensures |PackFrom(a, pieces, max, sep)| <= |PackFrom(b, pieces, max, sep)| + 1
    ensures |a| <= |b| ==> |PackFrom(a, pieces, max, sep)| <= |PackFrom(b, pieces, max, sep)|
    decreases |pieces|
  {
    if pieces != [] {
      var p, rest := pieces[0], pieces[1..];
      var a', b' := if |a + sep + p| <= max then a + sep + p else p, if |b + sep + p| <= max then b + sep + p else p;
      StaysAhead(a', b', rest, max, sep);
      StaysAhead(p, b', rest, max, sep);
    }
  }

  lemma OneMoreAtMost(current: string, pieces: seq<string>, max: nat, sep: string)
    requires current != "" && forall k | 0 <= k < |pieces| :: pieces[k] != ""
    ensures |PackFrom(current, pieces, max, sep)| <= 1 + |Pack(pieces, max, sep)|
  {
    if pieces != [] {
      var p := pieces[0];
      if |current + sep + p| <= max {
        StaysAhead(current + sep + p, p, pieces[1..], max, sep);
      }
    }
  }

  /** A group that fits one window fills it without a break. */
  lemma {:induction false} GroupPacks(current: string, group: seq<string>, rest: seq<string>, max: nat, sep: string)
    requires current != "" && group != [] && |current + sep + Join(group, sep)| <= max
    ensures PackFrom(current, group + rest, max, sep) == PackFrom(current + sep + Join(group, sep), rest, max, sep)
    decreases |group|
  {
    assert (group + rest)[1..] == group[1..] + rest;
    var next := current + sep + group[0];
    if |group| == 1 {
      assert group[1..] + rest == rest;
    } else {
      assert next + sep + Join(group[1..], sep) == current + sep + Join(group, sep);
      GroupPacks(next, group[1..], rest, max, sep);
    }
  }

  /** Greedy packing uses the fewest windows of any order-preserving grouping that fits. */
  lemma {:induction false} PackIsOptimal(groups: seq<seq<string>>, pieces: seq<string>, max: nat, sep: string)
    requires Grouping(groups, pieces, max, sep) && forall k | 0 <= k < |pieces| :: pieces[k] != ""
    ensures |Pack(pieces, max, sep)| <= |groups|
    decreases |groups|
  {
    if groups != [] {
      var g, others := groups[0], Concat(groups[1..]);
      assert forall k | 0 <= k < |others| :: others[k] == pieces[|g| + k];
      PackIsOptimal(groups[1..], others, max, sep);
      assert pieces[0] == g[0] && pieces[1..] == g[1..] + others;
      if |g| == 1 {
        assert g[1..] + others == others;
      } else {
        GroupPacks(g[0], g[1..], others, max, sep);
      }
      JoinNonEmpty(g, sep);
      OneMoreAtMost(Join(g, sep), others, max, sep);
    }
  }

  lemma JoinNonEmpty(group: seq<string>, sep: string)
    requires group != [] && group[0] != ""
    ensures Join(group, sep) != ""
  {
  }

  function Grouped(open: seq<string>, pieces: seq<string>, max: nat, sep: string): seq<seq<string>>
    requires open != []
    decreases |pieces|
  {
    if pieces == [] then [open]
    else if |Join(open, sep) + sep + pieces[0]| <= max then Grouped(open + [pieces[0]], pieces[1..], max, sep)
    else [open] + Grouped([pieces[0]], pieces[1..], max, sep)
  }

  lemma {:induction false} JoinOneMore(group: seq<string>, p: string, sep: string)
    requires group != []
    ensures Join(group + [p], sep) == Join(group, sep) + sep + p
  {
    if |group| == 1 {
      assert (group + [p])[1..] == [p];
    } else {
      assert (group + [p])[1..] == group[1..] + [p];
      JoinOneMore(group[1..], p, sep);
      assert group[0] + sep + (Join(group[1..], sep) + sep + p) == group[0] + sep + Join(group[1..], sep) + sep + p;
    }
  }

  /** The windows are the groups, joined. */
  predicate Windows(windows: seq<string>, groups: seq<seq<string>>, sep: string) {
    |windows| == |groups| && forall k | 0 <= k < |groups| :: groups[k] != [] && windows[k] == Join(groups[k], sep)
  }

  lemma {:induction false} GroupedMeans(open: seq<string>, pieces: seq<string>, max: nat, sep: string)
    requires open != [] && Join(open, sep) != "" && |Join(open, sep)| <= max
    requires forall k | 0 <= k < |pieces| :: pieces[k] != "" && |pieces[k]| <= max
    ensures Grouping(Grouped(open, pieces, max, sep), open + pieces, max, sep)
    ensures Windows(PackFrom(Join(open, sep), pieces, max, sep), Grouped(open, pieces, max, sep), sep)
    decreases |pieces|
  {
    if pieces == [] {
      assert [open][1..] == [] && open + [] == open;
    } else {
      var p, rest := pieces[0], pieces[1..];
      if |Join(open, sep) + sep + p| <= max {
        JoinOneMore(open, p, sep);
        GroupedMeans(open + [p], rest, max, sep);
        assert open + [p] + rest == open + pieces;
      } else {
        GroupedMeans([p], rest, max, sep);
        var groups := Grouped([p], rest, max, sep);
        assert ([open] + groups)[1..] == groups && [p] + rest == pieces;
      }
    }
  }

  /** The fewest is attained: the windows of packing are such a grouping themselves. */
  lemma PackIsAGrouping(pieces: seq<string>, max: nat, sep: string)
    requires forall k | 0 <= k < |pieces| :: pieces[k] != "" && |pieces[k]| <= max
    ensures exists groups :: Grouping(groups, pieces, max, sep) && Windows(Pack(pieces, max, sep), groups, sep)
  {
    if pieces == [] {
      assert Grouping([], pieces, max, sep) && Windows(Pack(pieces, max, sep), [], sep);
    } else {
      var p, rest := pieces[0], pieces[1..];
      GroupedMeans([p], rest, max, sep);
      assert [p] + rest == pieces;
      assert Grouping(Grouped([p], rest, max, sep), pieces, max, sep);
    }
  }

  predicate Full(g: seq<string>, next: seq<string>, max: nat, sep: string) {
    g != [] && next != [] && |Join(g, sep) + sep + next[0]| > max
  }

  /** No window could have taken the first piece of the next one too. */
  ghost predicate Eager(groups: seq<seq<string>>, max: nat, sep: string) {
    forall j, k | 0 <= j < |groups| && 0 < k < |groups| && k == j + 1 :: Full(groups[j], groups[k], max, sep)
  }

  /** The windows are the pieces in order, joined as long as they fit: no function says how. */
  ghost predicate Packed(windows: seq<string>, pieces: seq<string>, max: nat, sep: string) {
    exists groups :: Grouping(groups, pieces, max, sep) && Windows(windows, groups, sep) && Eager(groups, max, sep)
  }

  lemma EagerCons(g: seq<string>, groups: seq<seq<string>>, max: nat, sep: string)
    requires Eager(groups, max, sep) && groups != [] && Full(g, groups[0], max, sep)
    ensures Eager([g] + groups, max, sep)
  {
    hide Full;
  }

  lemma EagerTail(groups: seq<seq<string>>, max: nat, sep: string)
    requires Eager(groups, max, sep) && groups != []
    ensures Eager(groups[1..], max, sep)
  {
    hide Full;
  }

  lemma {:induction false} GroupedEager(open: seq<string>, pieces: seq<string>, max: nat, sep: string)
    requires open != []
    ensures var groups := Grouped(open, pieces, max, sep);
            groups != [] && groups[0] != [] && groups[0][0] == open[0] && Eager(groups, max, sep)
    decreases |pieces|
  {
    hide Join, Eager;
    if pieces == [] {
      OneIsEager(open, max, sep);
    } else {
      var p, rest := pieces[0], pieces[1..];
      if |Join(open, sep) + sep + p| <= max {
        GroupedEager(open + [p], rest, max, sep);
      } else {
        GroupedEager([p], rest, max, sep);
        EagerCons(open, Grouped([p], rest, max, sep), max, sep);
      }
    }
  }

  lemma OneIsEager(g: seq<string>, max: nat, sep: string)
    ensures Eager([g], max, sep)
  {
  }

  /** An eager grouping packs to exactly the windows of the loop. */
  lemma {:induction false} EagerIsPack(windows: seq<string>, groups: seq<seq<string>>, pieces: seq<string>,
                                       max: nat, sep: string)
    requires Grouping(groups, pieces, max, sep) && Windows(windows, groups, sep) && Eager(groups, max, sep)
    requires forall k | 0 <= k < |pieces| :: pieces[k] != ""
    ensures windows == Pack(pieces, max, sep)
    decreases |groups|
  {
    hide Join;
    if groups != [] {
      var g, others := groups[0], Concat(groups[1..]);
      RestOfGrouping(windows, groups, pieces, max, sep);
      EagerIsPack(windows[1..], groups[1..], others, max, sep);
      FirstWindow(g, others, max, sep);
      assert windows == [windows[0]] + windows[1..];
    }
  }

  lemma RestOfGrouping(windows: seq<string>, groups: seq<seq<string>>, pieces: seq<string>, max: nat, sep: string)
    requires Grouping(groups, pieces, max, sep) && Windows(windows, groups, sep) && Eager(groups, max, sep)
    requires groups != [] && forall k | 0 <= k < |pieces| :: pieces[k] != ""
    ensures var others := Concat(groups[1..]);
            && pieces == groups[0] + others && groups[0] != [] && groups[0][0] != ""
            && Grouping(groups[1..], others, max, sep) && Windows(windows[1..], groups[1..], sep)
            && Eager(groups[1..], max, sep) && (forall k | 0 <= k < |others| :: others[k] != "")
            && |Join(groups[0], sep)| <= max && windows[0] == Join(groups[0], sep)
            && (others != [] ==> |Join(groups[0], sep) + sep + others[0]| > max)
  {
    hide Join;
    var others := Concat(groups[1..]);
    EagerTail(groups, max, sep);
    assert forall k | 0 <= k < |others| :: others[k] == pieces[|groups[0]| + k];
    assert pieces[0] == groups[0][0];
    if |groups| > 1 {
      assert groups[1..][0] == groups[1] && others[0] == groups[1][0];
    }
  }

  /** A full first window, and the rest packed. */
  lemma FirstWindow(g: seq<string>, others: seq<string>, max: nat, sep: string)
    requires g != [] && g[0] != "" && |Join(g, sep)| <= max
    requires others != [] ==> |Join(g, sep) + sep + others[0]| > max
    ensures Pack(g + others, max, sep) == [Join(g, sep)] + Pack(others, max, sep)
  {
    var pieces := g + others;
    assert pieces[0] == g[0] && pieces[1..] == g[1..] + others;
    JoinNonEmpty(g, sep);
    if |g| == 1 {
      assert g[1..] + others == others;
    } else {
      GroupPacks(g[0], g[1..], others, max, sep);
      assert g[0] + sep + Join(g[1..], sep) == Join(g, sep);
    }
    assert Pack(pieces, max, sep) == PackFrom(Join(g, sep), others, max, sep);
    FullWindow(Join(g, sep), others, max, sep);
  }

  lemma FullWindow(current: string, others: seq<string>, max: nat, sep: string)
    requires current != "" && (others != [] ==> |current + sep + others[0]| > max)
    ensures PackFrom(current, others, max, sep) == [current] + Pack(others, max, sep)
  {
  }

  /** Packing is the one list of windows of fitting pieces that joins them eagerly. */
  lemma PackedIffPack(windows: seq<string>, pieces: seq<string>, max: nat, sep: string)
    requires forall k | 0 <= k < |pieces| :: pieces[k] != "" && |pieces[k]| <= max
    ensures Packed(windows, pieces, max, sep) <==> windows == Pack(pieces, max, sep)
  {
    forall groups | Grouping(groups, pieces, max, sep) && Windows(windows, groups, sep) && Eager(groups, max, sep)
      ensures windows == Pack(pieces, max, sep)
    {
      EagerIsPack(windows, groups, pieces, max, sep);
    }
    if windows == Pack(pieces, max, sep) {
      if pieces == [] {
        assert Grouping([], pieces, max, sep) && Windows(windows, [], sep) && Eager([], max, sep);
      } else {
        var p, rest := pieces[0], pieces[1..];
        GroupedMeans([p], rest, max, sep);
        GroupedEager([p], rest, max, sep);
        assert [p] + rest == pieces;
      }
    }
  }
}
