/** The order of a least-recently-used cache, oldest first. */
module Lru {
  import opened Sequences

  function Minus(ids: seq<string>, id: string): (r: seq<string>)
    ensures |r| <= |ids| && id !in r && forall x :: x in r <==> x in ids && x != id
  {
    if ids == [] then [] else (if ids[0] == id then [] else [ids[0]]) + Minus(ids[1..], id)
  }

  function Touched(ids: seq<string>, id: string): seq<string> { Minus(ids, id) + [id] }

  /** The last n entries. */
  function Last(ids: seq<string>, n: nat): seq<string> { if |ids| <= n then ids else ids[|ids| - n..] }

  /** An entry is put in after the oldest have made room for it, so also when it is
      there already: the oldest goes then too. */
  function Put(ids: seq<string>, id: string, max: nat): seq<string>
    requires max >= 1
  {
    Touched(Last(ids, max - 1), id)
  }

  /** A lookup: a hit moves the entry to the end, a miss loads it. */
  function Looked(ids: seq<string>, id: string, max: nat): seq<string>
    requires max >= 1
  {
    if id in ids then Touched(ids, id) else Put(ids, id, max)
  }

  lemma {:induction false} MinusConcat(a: seq<string>, b: seq<string>, id: string)
    ensures Minus(a + b, id) == Minus(a, id) + Minus(b, id)
  {
    if a == [] {
      assert a + b == b;
    } else {
      assert (a + b)[0] == a[0] && (a + b)[1..] == a[1..] + b;
      MinusConcat(a[1..], b, id);
      var head := if a[0] == id then [] else [a[0]];
      assert head + (Minus(a[1..], id) + Minus(b, id)) == head + Minus(a[1..], id) + Minus(b, id);
    }
  }

  lemma {:induction false} MinusAbsent(ids: seq<string>, id: string)
    requires id !in ids
    ensures Minus(ids, id) == ids
  {
    if ids != [] {
      MinusAbsent(ids[1..], id);
    }
  }

  lemma {:induction false} MinusOne(ids: seq<string>, id: string)
    requires Distinct(ids)
    ensures Distinct(Minus(ids, id)) && (id in ids ==> |Minus(ids, id)| == |ids| - 1)
  {
    if ids != [] {
      MinusOne(ids[1..], id);
      assert ids[0] !in ids[1..];
      if ids[0] == id {
        MinusAbsent(ids[1..], id);
      }
    }
  }

  predicate Suffix(ids: seq<string>, all: seq<string>) {
    |ids| <= |all| && ids == all[|all| - |ids|..]
  }

  /** Whether a hit, a load or a new entry: what is cached stays the end of the order of
      last use. */
  lemma TouchedSuffix(ids: seq<string>, all: seq<string>, id: string)
    requires Suffix(ids, all)
    ensures Suffix(Minus(ids, id), Minus(all, id)) && Suffix(Touched(ids, id), Touched(all, id))
  {
    hide Minus;
    var older := all[..|all| - |ids|];
    assert all == older + ids;
    MinusConcat(older, ids, id);
    assert Touched(all, id) == Minus(older, id) + Touched(ids, id);
  }

  lemma PutSuffix(ids: seq<string>, all: seq<string>, id: string, max: nat)
    requires Suffix(ids, all) && max >= 1
    ensures Suffix(Put(ids, id, max), Touched(all, id))
  {
    hide Minus;
    TouchedSuffix(Last(ids, max - 1), all, id);
  }

  /** All ids of a trace of lookups, by their last occurrence. */
  function Recent(trace: seq<string>): seq<string> {
    if trace == [] then [] else Touched(Recent(trace[..|trace| - 1]), trace[|trace| - 1])
  }

  function After(ids: seq<string>, trace: seq<string>, max: nat): seq<string>
    requires max >= 1
  {
    if trace == [] then ids else Looked(After(ids, trace[..|trace| - 1], max), trace[|trace| - 1], max)
  }

  lemma {:induction false} RecentIsDistinct(trace: seq<string>)
    ensures Distinct(Recent(trace)) && forall id :: id in Recent(trace) <==> id in trace
  {
    if trace != [] {
      var init, last := trace[..|trace| - 1], trace[|trace| - 1];
      RecentIsDistinct(init);
      MinusOne(Recent(init), last);
      assert trace == init + [last];
    }
  }

  lemma LastOfConcat(a: seq<string>, b: seq<string>, n: nat)
    requires |b| >= n || a == []
    ensures Last(a + b, n) == Last(b, n)
  {
    if a == [] {
      assert a + b == b;
    }
  }

  lemma Hit(older: seq<string>, kept: seq<string>, id: string, max: nat)
    requires max >= 1 && Distinct(older + kept) && id in kept && |kept| <= max && (|kept| == max || older == [])
    ensures Touched(kept, id) == Last(Touched(older + kept, id), max)
  {
    forall i | 0 <= i < |older|
      ensures older[i] != id
    {
      var j :| 0 <= j < |kept| && kept[j] == id;
      assert (older + kept)[i] != (older + kept)[|older| + j];
    }
    MinusConcat(older, kept, id);
    MinusAbsent(older, id);
    assert Distinct(kept) by {
      assert forall i | 0 <= i < |kept| :: kept[i] == (older + kept)[|older| + i];
    }
    MinusOne(kept, id);
    assert Touched(older + kept, id) == older + Touched(kept, id);
    LastOfConcat(older, Touched(kept, id), max);
  }

  lemma Miss(older: seq<string>, kept: seq<string>, id: string, max: nat)
    requires max >= 1 && id !in kept && |kept| <= max && (|kept| == max || older == [])
    ensures Put(kept, id, max) == Last(Touched(older + kept, id), max)
  {
    hide Minus;
    var newer := Last(kept, max - 1);
    assert forall x | x in newer :: x in kept;
    MinusAbsent(newer, id);
    MinusConcat(older, kept, id);
    MinusAbsent(kept, id);
    assert Touched(older + kept, id) == Minus(older, id) + (kept + [id]);
    LastOfConcat(Minus(older, id), kept + [id], max);
  }

  /** One lookup on the last max entries of a longer order gives the last max entries
      of that order after the lookup. */
  lemma LookedIsLast(all: seq<string>, id: string, max: nat)
    requires max >= 1 && Distinct(all)
    ensures Looked(Last(all, max), id, max) == Last(Touched(all, id), max)
  {
    hide Touched, Put, Distinct;
    var kept := Last(all, max);
    var older := all[..|all| - |kept|];
    assert all == older + kept;
    if id in kept {
      Hit(older, kept, id, max);
    } else {
      Miss(older, kept, id, max);
    }
  }

  /** The cache holds exactly the most recently looked-up ids, in the order of their
      last lookup: as many as fit. */
  lemma {:induction false} HoldsTheMostRecent(trace: seq<string>, max: nat)
    requires max >= 1
    ensures After([], trace, max) == Last(Recent(trace), max)
  {
    if trace != [] {
      var init, last := trace[..|trace| - 1], trace[|trace| - 1];
      HoldsTheMostRecent(init, max);
      RecentIsDistinct(init);
      LookedIsLast(Recent(init), last, max);
    }
  }
}
