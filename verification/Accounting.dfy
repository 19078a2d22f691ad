/** What each storage transaction does to the books, and the conservation law:
    in every run, every counter equals the recount over the documents it holds. */
module Accounting {
  import opened Wrappers
  import opened Ledgers

  // ---- The attribution rule -----------------------------------------------

  /** adjust_document_storage: a charge records the counter it goes to; every
      other move goes to the recorded one. None: no such organization, rollback. */
  ghost function Adjusted(l: Ledger, id: string, d: Delta, charged: Option<string>): Option<Ledger>
    requires id in l.documents
  {
    var doc := if d.documents > 0 then l.documents[id].(tenant := charged) else l.documents[id];
    var m := l.(documents := l.documents[id := doc]);
    if d == Delta(0, 0) then Some(m)
    else if Movable(m, doc.Holder()) then Some(Moved(m, doc.Holder(), d))
    else None
  }

  ghost function Charging(doc: Document): Delta { Delta(doc.Bytes(), 1) }

  ghost function Freeing(doc: Document): Delta { Delta(0 - doc.Bytes(), -1) }

  /** Each column moves by the delta, and stops at zero. */
  predicate MovedBy(before: Usage, d: Delta, after: Usage) {
    && (before.bytes + d.bytes >= 0 ==> after.bytes == before.bytes + d.bytes)
    && (before.bytes + d.bytes < 0 ==> after.bytes == 0)
    && (before.documents + d.documents >= 0 ==> after.documents == before.documents + d.documents)
    && (before.documents + d.documents < 0 ==> after.documents == 0)
  }

  /** In the columns: an entering document gets the charged organization recorded; the
      counter recorded on the document, and no other, moves; a missing organization is a
      failure and a missing personal row is opened. */
  lemma AdjustedMeans(l: Ledger, id: string, d: Delta, charged: Option<string>)
    requires id in l.documents && d != Delta(0, 0)
    ensures var doc := l.documents[id];
            var tenant := if d.documents > 0 then charged else doc.tenant;
            match Adjusted(l, id, d, charged)
            case None => tenant.Some? && tenant.value !in l.tenants
            case Some(m) =>
              && m.documents.Keys == l.documents.Keys && m.documents[id] == doc.(tenant := tenant)
              && (forall k | k in l.documents && k != id :: m.documents[k] == l.documents[k])
              && match tenant
                 case Some(x) =>
                   && x in l.tenants && m.quotas == l.quotas && m.tenants.Keys == l.tenants.Keys
                   && (forall y | y in l.tenants && y != x :: m.tenants[y] == l.tenants[y])
                   && m.tenants[x] == l.tenants[x].(usage := m.tenants[x].usage)
                   && MovedBy(l.tenants[x].usage, d, m.tenants[x].usage)
                 case None =>
                   && m.tenants == l.tenants && m.quotas.Keys == l.quotas.Keys + {doc.owner}
                   && (forall u | u in l.quotas && u != doc.owner :: m.quotas[u] == l.quotas[u])
                   && (doc.owner in l.quotas ==>
                         m.quotas[doc.owner] == l.quotas[doc.owner].(usage := m.quotas[doc.owner].usage))
                   && (doc.owner !in l.quotas ==> m.quotas[doc.owner].subscription.None?)
                   && MovedBy(if doc.owner in l.quotas then l.quotas[doc.owner].usage else ZERO, d,
                              m.quotas[doc.owner].usage)
  {
  }

  // ---- Bulk moves ---------------------------------------------------------

  /** What a transaction frees: an amount, from a counter. */
  type Frees = seq<(Counter, Usage)>

  ghost function Sum(frees: Frees, c: Counter): Usage {
    if frees == [] then ZERO
    else
      var (e, u) := frees[|frees| - 1];
      Sum(frees[..|frees| - 1], c).Plus(if e == c then u else ZERO)
  }

  ghost predicate Drainable(l: Ledger, frees: Frees) {
    forall i | 0 <= i < |frees| :: Movable(l, frees[i].0) && frees[i].1.documents > 0
  }

  /** The amounts freed one after the other. */
  ghost function Drained(l: Ledger, frees: Frees): (m: Ledger)
    requires Drainable(l, frees)
    ensures m.tenants.Keys == l.tenants.Keys
    decreases |frees|
  {
    if frees == [] then l
    else
      var (c, u) := frees[|frees| - 1];
      Moved(Drained(l, frees[..|frees| - 1]), c, Negative(u))
  }

  ghost function Negative(u: Usage): Delta { Delta(0 - u.bytes, 0 - u.documents) }

  ghost function PersonalUsers(frees: Frees): set<string> {
    set i | 0 <= i < |frees| && frees[i].0.Personal? :: frees[i].0.user
  }

  /** One amount per document. */
  ghost function OneByOne(docs: seq<Document>): Frees {
    seq(|docs|, i requires 0 <= i < |docs| => (docs[i].Holder(), docs[i].Charge()))
  }

  ghost predicate Releasable(l: Ledger, docs: seq<Document>) {
    && (forall d | d in docs :: !d.isDeleted)
    && (forall d | d in docs :: Movable(l, d.Holder()))
  }

  /** Everything the books say after the documents were freed, in whatever grouping. */
  ghost predicate Settled(l: Ledger, docs: seq<Document>, m: Ledger) {
    && m.documents == l.documents
    && SameRows(l, m)
    && (DistinctIds(l) ==> DistinctIds(m))
    && (forall c :: Recorded(m, c) == Recorded(l, c).Less(Total(docs, c)))
    && m.quotas.Keys == l.quotas.Keys + PersonalOwners(docs)
  }

  ghost function PersonalOwners(docs: seq<Document>): set<string> {
    set d | d in docs && d.tenant.None? :: d.owner
  }

  /** The two books agree on every counter and on which rows exist; rows opened on
      the way may have drawn their ids in another order. */
  ghost predicate SameBooks(a: Ledger, b: Ledger) {
    && a.documents == b.documents
    && a.tenants == b.tenants
    && a.quotas.Keys == b.quotas.Keys
    && (forall u | u in a.quotas :: a.quotas[u].(id := 0) == b.quotas[u].(id := 0))
  }

  /** The documents attributed to organizations that disappear, as they become. */
  function Handed(docs: Documents, tenants: set<string>): Documents {
    map k | k in docs && docs[k].tenant.Some? && docs[k].tenant.value in tenants :: docs[k].(tenant := None)
  }

  /** A handed-over document loses its organization and nothing else. */
  lemma HandedMeans(l: Ledger, tenants: set<string>, m: Ledger)
    requires HandedOver(l, tenants, m)
    ensures m.documents.Keys == l.documents.Keys
    ensures forall k | k in l.documents ::
              var was, doc := l.documents[k], m.documents[k];
              if was.tenant.Some? && was.tenant.value in tenants
              then doc.tenant.None? && doc.owner == was.owner && doc.size == was.size && doc.thumbnail == was.thumbnail
                   && doc.isDeleted == was.isDeleted && doc.deletedAt == was.deletedAt
              else doc == was
  {
  }

  ghost function ActiveOwners(docs: Documents): set<string> {
    set k | k in docs && !docs[k].isDeleted :: docs[k].owner
  }

  ghost predicate HandedOver(l: Ledger, tenants: set<string>, m: Ledger) {
    && m.documents == l.documents + Handed(l.documents, tenants)
    && m.tenants == l.tenants
    && SameRows(l, m)
    && (DistinctIds(l) ==> DistinctIds(m))
    && (forall u :: Recorded(m, Personal(u)) ==
                    Recorded(l, Personal(u)).Plus(Tally(Handed(l.documents, tenants), Personal(u))))
    && m.quotas.Keys == l.quotas.Keys + ActiveOwners(Handed(l.documents, tenants))
  }

  predicate Expired(d: Document, cutoff: int) {
    d.isDeleted && d.deletedAt.Some? && d.deletedAt.value < cutoff
  }

  ghost function Purged(l: Ledger, cutoff: int): Ledger {
    l.(documents := map k | k in l.documents && !Expired(l.documents[k], cutoff) :: l.documents[k])
  }

  /** Every counter set to its recount; nothing else changes. */
  ghost predicate Recounted(l: Ledger, m: Ledger) {
    && m.documents == l.documents
    && SameRows(l, m)
    && (DistinctIds(l) ==> DistinctIds(m))
    && (forall c :: Movable(l, c) ==> Recorded(m, c) == Tally(l.documents, c))
  }

  // ---- Lemmas: one document, one move -------------------------------------

  ghost function Written(docs: Documents, k: string, d: Option<Document>): Documents {
    if d.Some? then docs[k := d.value] else docs - {k}
  }

  ghost function WeightAt(docs: Documents, k: string, c: Counter): Usage {
    if k in docs then docs[k].Weight(c) else ZERO
  }

  /** The write of row k changes what it weighs on counter e by the move, if e is the counter moved. */
  ghost predicate Paired(docs: Documents, k: string, d: Option<Document>, c: Counter, move: Delta, e: Counter) {
    var v := WeightAt(Written(docs, k, d), k, e);
    var w := WeightAt(docs, k, e);
    if e == c then v.bytes == w.bytes + move.bytes && v.documents == w.documents + move.documents else v == w
  }

  /** A document write paired with the move of its weight keeps the books balanced,
      and the clamp at zero never bites. */
  lemma PairedWrite(l: Ledger, k: string, d: Option<Document>, c: Counter, move: Delta)
    requires Balanced(l) && Movable(l, c)
    requires forall e :: Paired(l.documents, k, d, c, move, e)
    ensures Balanced(Moved(l, c, move).(documents := Written(l.documents, k, d)))
    ensures Recorded(l, c).bytes + move.bytes >= 0 && Recorded(l, c).documents + move.documents >= 0
  {
    hide Tally, Moved, Written, WeightAt, Paired;
    MovedOnly(l, c, move);
    WrittenRecount(l.documents, k, d, c, move, c);
    forall e
      ensures Recorded(Moved(l, c, move), e) == Tally(Written(l.documents, k, d), e)
    {
      WrittenRecount(l.documents, k, d, c, move, e);
    }
  }

  /** How far a counter is off its recount. */
  ghost function Offset(l: Ledger, c: Counter): Delta {
    Delta(Recorded(l, c).bytes - Tally(l.documents, c).bytes,
          Recorded(l, c).documents - Tally(l.documents, c).documents)
  }

  /** From any books, drifted or not, a document write paired with its move leaves every
      other counter as far off as it was; the counter moved is left so exactly when the
      clamp does not bite. */
  lemma OffsetKept(l: Ledger, k: string, d: Option<Document>, c: Counter, move: Delta)
    requires Movable(l, c)
    requires forall e :: Paired(l.documents, k, d, c, move, e)
    ensures var m := Moved(l, c, move).(documents := Written(l.documents, k, d));
            && (forall e | e != c :: Offset(m, e) == Offset(l, e))
            && (Offset(m, c) == Offset(l, c) <==>
                 Recorded(l, c).bytes + move.bytes >= 0 && Recorded(l, c).documents + move.documents >= 0)
  {
    hide Tally, Moved, Written, WeightAt, Paired;
    var m := Moved(l, c, move).(documents := Written(l.documents, k, d));
    MovedOnly(l, c, move);
    DocumentsApart(l, Moved(l, c, move), Written(l.documents, k, d));
    WrittenRecount(l.documents, k, d, c, move, c);
    forall e | e != c
      ensures Offset(m, e) == Offset(l, e)
    {
      WrittenRecount(l.documents, k, d, c, move, e);
    }
  }

  lemma WrittenRecount(docs: Documents, k: string, d: Option<Document>, c: Counter, move: Delta, e: Counter)
    requires Paired(docs, k, d, c, move, e)
    ensures e == c ==> Tally(docs, e).bytes + move.bytes >= 0 && Tally(docs, e).documents + move.documents >= 0
    ensures Tally(Written(docs, k, d), e) == if e == c then Tally(docs, e).Move(move) else Tally(docs, e)
  {
    hide Tally, Written, WeightAt;
    WrittenTally(docs, k, d, e);
  }

  lemma WrittenTally(docs: Documents, k: string, d: Option<Document>, c: Counter)
    ensures Tally(docs, c) == Tally(docs - {k}, c).Plus(WeightAt(docs, k, c))
    ensures Tally(Written(docs, k, d), c) == Tally(docs - {k}, c).Plus(WeightAt(Written(docs, k, d), k, c))
  {
    hide Tally;
    PlusLaws(Tally(docs - {k}, c), ZERO, ZERO);
    if k in docs {
      TallyRemove(docs, c, k);
    } else {
      assert docs - {k} == docs;
    }
    if d.Some? {
      TallyWrite(docs, c, k, d.value);
    }
  }

  // ---- Lemmas: many documents, one move per counter -------------------------

  /** Rewriting the documents touches no counter and no row of the other tables. */
  lemma DocumentsApart(l: Ledger, m: Ledger, documents: Documents)
    ensures var n := m.(documents := documents);
            && SameRows(l, n) == SameRows(l, m)
            && DistinctIds(n) == DistinctIds(m)
            && forall c :: Recorded(n, c) == Recorded(m, c)
  {
  }

  /** Freeing amounts takes their sum off each counter, clamped once. */
  lemma {:induction false} DrainedLowers(l: Ledger, frees: Frees)
    requires Drainable(l, frees)
    ensures Lowered(l, frees, Drained(l, frees))
    decreases |frees|
  {
    if frees != [] {
      var front, last := frees[..|frees| - 1], frees[|frees| - 1];
      assert frees == front + [last];
      DrainedLowers(l, front);
      LoweredStep(l, front, Drained(l, front), last.0, last.1);
    } else {
      assert forall c :: Sum(frees, c) == ZERO;
    }
  }

  ghost predicate Lowered(l: Ledger, frees: Frees, m: Ledger) {
    && m.documents == l.documents
    && SameRows(l, m)
    && (DistinctIds(l) ==> DistinctIds(m))
    && (forall c :: Recorded(m, c) == Recorded(l, c).Less(Sum(frees, c)))
    && m.quotas.Keys == l.quotas.Keys + PersonalUsers(frees)
  }

  lemma LoweredStep(l: Ledger, front: Frees, m: Ledger, c: Counter, u: Usage)
    requires Lowered(l, front, m) && Movable(m, c) && u.documents > 0
    ensures Lowered(l, front + [(c, u)], Moved(m, c, Negative(u)))
  {
    hide Moved, Sum, SameRows, DistinctIds;
    var frees := front + [(c, u)];
    var n := Moved(m, c, Negative(u));
    MovedOnly(m, c, Negative(u));
    SameRowsTrans(l, m, n);
    PersonalUsersLast(front, c, u);
    forall e
      ensures Recorded(n, e) == Recorded(l, e).Less(Sum(frees, e))
    {
      assert Sum(frees, e) == Sum(front, e).Plus(if e == c then u else ZERO) by { SumLast(front, c, u, e); }
      assert Recorded(m, e) == Recorded(l, e).Less(Sum(front, e));
    }
  }

  lemma PersonalUsersLast(front: Frees, c: Counter, u: Usage)
    ensures PersonalUsers(front + [(c, u)]) == PersonalUsers(front) + if c.Personal? then {c.user} else {}
  {
    var frees := front + [(c, u)];
    assert frees[|front|] == (c, u);
    assert forall i | 0 <= i < |front| :: frees[i] == front[i];
  }

  lemma SumLast(front: Frees, c: Counter, u: Usage, e: Counter)
    ensures Sum(front + [(c, u)], e) == Sum(front, e).Plus(if e == c then u else ZERO)
  {
    assert (front + [(c, u)])[..|front|] == front;
  }

  lemma {:induction false} OneByOneSum(docs: seq<Document>, c: Counter)
    requires forall d | d in docs :: !d.isDeleted
    ensures Sum(OneByOne(docs), c) == Total(docs, c)
  {
    if docs != [] {
      var front, last := docs[..|docs| - 1], docs[|docs| - 1];
      assert last in docs;
      OneByOneSum(front, c);
      assert OneByOne(docs) == OneByOne(front) + [(last.Holder(), last.Charge())];
      SumLast(OneByOne(front), last.Holder(), last.Charge(), c);
    }
  }

  /** The reference: adjust_document_storage(doc, -size, -1), once per document. */
  lemma OneByOneSettles(l: Ledger, docs: seq<Document>)
    requires Releasable(l, docs)
    ensures Drainable(l, OneByOne(docs)) && Settled(l, docs, Drained(l, OneByOne(docs)))
  {
    hide Sum, Drained;
    DrainedLowers(l, OneByOne(docs));
    forall c
      ensures Sum(OneByOne(docs), c) == Total(docs, c)
    {
      OneByOneSum(docs, c);
    }
    assert forall i | 0 <= i < |docs| :: OneByOne(docs)[i].0 == docs[i].Holder();
    assert PersonalUsers(OneByOne(docs)) == PersonalOwners(docs);
  }

  /** The grouping and the order of the moves do not matter, even where the clamp
      bites or a quota row is missing: any two ways to free the same documents
      leave the same books. */
  lemma SettledUnique(l: Ledger, docs: seq<Document>, m: Ledger, docs': seq<Document>, m': Ledger)
    requires multiset(docs) == multiset(docs')
    requires Settled(l, docs, m) && Settled(l, docs', m')
    ensures SameBooks(m, m')
  {
    forall c
      ensures Recorded(m, c) == Recorded(m', c)
    {
      TotalPermutes(docs, docs', c);
    }
    assert forall d :: d in docs <==> d in multiset(docs);
    assert forall d :: d in docs' <==> d in multiset(docs');
    forall u | u in m.quotas
      ensures m.quotas[u].(id := 0) == m'.quotas[u].(id := 0)
    {
      assert Recorded(m, Personal(u)) == Recorded(m', Personal(u));
    }
    forall t | t in m.tenants
      ensures m.tenants[t] == m'.tenants[t]
    {
      assert Recorded(m, Organization(t)) == Recorded(m', Organization(t));
    }
  }

  /** A bulk release leaves the same books as freeing the same documents one by one
      in any order, for any starting counters. */
  lemma BulkEqualsOneByOne(l: Ledger, docs: seq<Document>, m: Ledger, order: seq<Document>)
    requires Settled(l, docs, m) && Releasable(l, order) && multiset(docs) == multiset(order)
    ensures Drainable(l, OneByOne(order)) && SameBooks(m, Drained(l, OneByOne(order)))
  {
    hide Drained, Total;
    OneByOneSettles(l, order);
    SettledUnique(l, docs, m, order, Drained(l, OneByOne(order)));
  }

  lemma {:induction false} TotalTakeOut(docs: seq<Document>, i: nat, c: Counter)
    requires i < |docs|
    ensures Total(docs, c) == Total(docs[..i] + docs[i + 1..], c).Plus(docs[i].Weight(c))
    decreases |docs|
  {
    hide Usage.Plus;
    var n := |docs| - 1;
    if i == n {
      assert docs[..i] + docs[i + 1..] == docs[..n];
    } else {
      TotalTakeOut(docs[..n], i, c);
      TakeOutBeforeLast(docs, i);
      PlusSwap(Total(docs[..n][..i] + docs[..n][i + 1..], c), docs[i].Weight(c), docs[n].Weight(c));
    }
  }

  lemma TakeOutBeforeLast(docs: seq<Document>, i: nat)
    requires i < |docs| - 1
    ensures var n, rest := |docs| - 1, docs[..i] + docs[i + 1..];
            |rest| == n && rest[..n - 1] == docs[..n][..i] + docs[..n][i + 1..] && rest[n - 1] == docs[n]
  {
  }

  lemma PlusSwap(x: Usage, y: Usage, z: Usage)
    ensures x.Plus(y).Plus(z) == x.Plus(z).Plus(y)
  {
  }

  /** The last of one list, and where a permutation of it has it. */
  lemma SameWithoutLast(a: seq<Document>, b: seq<Document>) returns (i: nat)
    requires multiset(a) == multiset(b) && a != []
    ensures i < |b| && b[i] == a[|a| - 1] && multiset(a[..|a| - 1]) == multiset(b[..i] + b[i + 1..])
  {
    var n := |a| - 1;
    assert a == a[..n] + [a[n]];
    assert a[n] in multiset(b);
    i :| 0 <= i < |b| && b[i] == a[n];
    assert b == b[..i] + [b[i]] + b[i + 1..];
    assert multiset(a[..n]) == multiset(a) - multiset{a[n]};
    assert multiset(b[..i] + b[i + 1..]) == multiset(b) - multiset{b[i]};
  }

  lemma {:induction false} TotalPermutes(a: seq<Document>, b: seq<Document>, c: Counter)
    requires multiset(a) == multiset(b)
    ensures Total(a, c) == Total(b, c)
    decreases |a|
  {
    if a == [] {
      assert |multiset(b)| == 0;
    } else {
      hide Usage.Plus;
      var i := SameWithoutLast(a, b);
      TotalPermutes(a[..|a| - 1], b[..i] + b[i + 1..], c);
      TotalTakeOut(b, i, c);
    }
  }

  /** The rows of a table, in the order of their ids. */
  ghost function Rows(docs: Documents, ids: seq<string>): seq<Document>
    requires forall k | k in ids :: k in docs
  {
    seq(|ids|, i requires 0 <= i < |ids| => docs[ids[i]])
  }

  ghost predicate Enumerates(ids: seq<string>, docs: Documents) {
    && (forall k :: k in ids <==> k in docs)
    && (forall i, j | 0 <= i < j < |ids| :: ids[i] != ids[j])
  }

  lemma {:induction false} RowsTotal(docs: Documents, ids: seq<string>, c: Counter)
    requires Enumerates(ids, docs)
    ensures Total(Rows(docs, ids), c) == Tally(docs, c)
    decreases |ids|
  {
    hide Tally;
    if ids == [] {
      assert docs == map[];
      TallyWeightless(docs, c);
    } else {
      var n := |ids| - 1;
      var front, last := ids[..n], ids[n];
      assert Rows(docs, ids)[..n] == Rows(docs - {last}, front);
      RowsTotal(docs - {last}, front, c);
      TallyRemove(docs, c, last);
    }
  }

  ghost function Part(docs: Documents, ids: set<string>): Documents {
    map k | k in docs && k in ids :: docs[k]
  }

  /** Rows that weigh nothing can be left out of the recount. */
  lemma TallyIgnores(docs: Documents, kept: Documents, c: Counter)
    requires forall k | k in kept :: k in docs && docs[k] == kept[k]
    requires forall k | k in docs && k !in kept :: docs[k].Weight(c) == ZERO
    ensures Tally(docs, c) == Tally(kept, c)
  {
    hide Tally;
    TallySplit(docs, kept, docs - kept.Keys, c);
    TallyWeightless(docs - kept.Keys, c);
    PlusLaws(Tally(kept, c), ZERO, ZERO);
  }

  /** Replacing rows by others takes the old rows out of the recount and puts the new ones in. */
  lemma TallyReplace(docs: Documents, rows: Documents, c: Counter)
    requires rows.Keys <= docs.Keys
    ensures Tally(docs, c) == Tally(docs - rows.Keys, c).Plus(Tally(Part(docs, rows.Keys), c))
    ensures Tally(docs + rows, c) == Tally(docs - rows.Keys, c).Plus(Tally(rows, c))
  {
    hide Tally;
    TallySplit(docs, docs - rows.Keys, Part(docs, rows.Keys), c);
    TallySplit(docs + rows, docs - rows.Keys, rows, c);
  }

  /** The documents handed over leave the recount of the vanishing organizations
      and enter their owners'; every other recount stays. */
  lemma HandedTally(docs: Documents, tenants: set<string>, c: Counter)
    ensures var handed := Handed(docs, tenants);
            Tally(docs + handed, c) ==
            match c
            case Personal(u) => Tally(docs, c).Plus(Tally(handed, c))
            case Organization(t) => if t in tenants then ZERO else Tally(docs, c)
  {
    hide Tally;
    var handed := Handed(docs, tenants);
    var rest := docs - handed.Keys;
    TallyReplace(docs, handed, c);
    PlusLaws(Tally(rest, c), ZERO, ZERO);
    if c.Organization? {
      TallyWeightless(handed, c);
    }
    if c.Organization? && c.tenant in tenants {
      TallyWeightless(rest, c);
    } else {
      TallyWeightless(Part(docs, handed.Keys), c);
    }
  }

  /** Handing documents over re-balances every counter but those of the vanishing
      organizations, which keep counting documents they no longer hold. */
  lemma HandedOverBalance(l: Ledger, tenants: set<string>, m: Ledger, c: Counter)
    requires Balanced(l) && HandedOver(l, tenants, m)
    ensures if c.Organization? && c.tenant in tenants
            then Tally(m.documents, c) == ZERO && Recorded(m, c) == Tally(l.documents, c)
            else Recorded(m, c) == Tally(m.documents, c)
  {
    hide Tally, Handed;
    HandedTally(l.documents, tenants, c);
    if c.Organization? {
      assert Recorded(m, c) == Recorded(l, c);
    } else {
      assert c == Personal(c.user);
    }
  }

  /** Once the organizations' rows are gone too, the books are sound again. */
  lemma HandOverThenDrop(l: Ledger, tenants: set<string>, m: Ledger)
    requires Sound(l) && HandedOver(l, tenants, m)
    ensures forall k | k in m.documents && m.documents[k].tenant.Some? :: m.documents[k].tenant.value !in tenants
    ensures Sound(m.(tenants := m.tenants - tenants))
  {
    hide Tally, Balanced;
    DroppedBalance(l, tenants, m);
  }

  lemma DroppedBalance(l: Ledger, tenants: set<string>, m: Ledger)
    requires Sound(l) && HandedOver(l, tenants, m)
    ensures Balanced(m.(tenants := m.tenants - tenants))
  {
    hide Tally, Handed, HandedOver;
    var n := m.(tenants := m.tenants - tenants);
    forall c
      ensures Recorded(n, c) == Tally(n.documents, c)
    {
      HandedOverBalance(l, tenants, m, c);
      assert c.Personal? || c.tenant !in tenants ==> Recorded(n, c) == Recorded(m, c);
    }
  }

  /** The trash purge frees nothing: its documents were freed when they were trashed. */
  lemma PurgeKeepsBalance(l: Ledger, cutoff: int)
    requires Sound(l)
    ensures Sound(Purged(l, cutoff))
  {
    hide Tally;
    var kept := Purged(l, cutoff).documents;
    forall c
      ensures Tally(kept, c) == Tally(l.documents, c)
    {
      TallyIgnores(l.documents, kept, c);
    }
    assert forall c :: Recorded(Purged(l, cutoff), c) == Recorded(l, c);
  }
}
