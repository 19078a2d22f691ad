/** Recomputing the counters from the documents they count. */
module Reconciliation {
  import opened Ledgers
  import opened Accounting
  import opened Databases
  import opened QuotaService

  /** A counter whose stored value differs from its documents. */
  datatype Drift = Drift(counter: Counter, stored: Usage, actual: Usage, rowMissing: bool)

  ghost predicate Drifts(l: Ledger, c: Counter) {
    Recorded(l, c) != Tally(l.documents, c)
  }

  ghost predicate Describes(l: Ledger, d: Drift) {
    && Drifts(l, d.counter)
    && d.stored == Recorded(l, d.counter)
    && d.actual == Tally(l.documents, d.counter)
    && (d.rowMissing <==> d.counter.Personal? && d.counter.user !in l.quotas)
  }

  ghost predicate Names(drifts: seq<Drift>, c: Counter) {
    exists i :: 0 <= i < |drifts| && drifts[i].counter == c
  }

  /** The report covers exactly the drifting counters among these, once each. */
  ghost predicate Reports(l: Ledger, candidates: iset<Counter>, drifts: seq<Drift>) {
    && (forall i | 0 <= i < |drifts| :: Describes(l, drifts[i]) && drifts[i].counter in candidates)
    && (forall i, j | 0 <= i < j < |drifts| :: drifts[i].counter != drifts[j].counter)
    && (forall c | c in candidates && Drifts(l, c) :: Names(drifts, c))
  }

  ghost const PERSONAL: iset<Counter> := iset c: Counter | c.Personal?
  ghost const ORGANIZATIONS: iset<Counter> := iset c: Counter | c.Organization?
  ghost const EVERY_COUNTER: iset<Counter> := iset c: Counter | true

  function RowMissing(l: Ledger, c: Counter): bool { c.Personal? && c.user !in l.quotas }

  /** Compares each candidate's stored value with its recount. */
  method Compare(l: Ledger, candidates: set<Counter>, actual: map<Counter, Usage>) returns (drifts: seq<Drift>)
    requires Sums(l.documents, actual)
    ensures Reports(l, (iset c | c in candidates), drifts)
  {
    drifts := [];
    var pending := candidates;
    while pending != {}
      invariant pending <= candidates
      invariant Reports(l, (iset c | c in candidates && c !in pending), drifts)
    {
      hide Tally;
      var c :| c in pending;
      pending := pending - {c};
      ghost var before := drifts;
      if Recorded(l, c) != At(actual, c) {
        drifts := drifts + [Drift(c, Recorded(l, c), At(actual, c), RowMissing(l, c))];
        assert drifts[|drifts| - 1].counter == c;
      }
      NamesGrow(before, drifts);
    }
  }

  lemma NamesGrow(before: seq<Drift>, after: seq<Drift>)
    requires before <= after
    ensures forall c :: Names(before, c) ==> Names(after, c)
  {
  }

  /** Personal quotas: every user with a quota row or an unattributed active document. */
  method PersonalDrifts(l: Ledger) returns (drifts: seq<Drift>)
    ensures Reports(l, PERSONAL, drifts)
  {
    var actual := SumByCounter(l.documents);
    var stored := set u | u in l.quotas :: Personal(u);
    var counted := set c | c in actual && c.Personal?;
    drifts := Compare(l, stored + counted, actual);
    hide Tally;
    forall c: Counter | c.Personal? && c !in stored + counted
      ensures !Drifts(l, c)
    {
      assert c == Personal(c.user) && At(actual, c) == ZERO;
    }
  }

  /** Organizations: every row; an attributed document always has one. */
  method TenantDrifts(l: Ledger) returns (drifts: seq<Drift>)
    requires Attributed(l)
    ensures Reports(l, ORGANIZATIONS, drifts)
  {
    hide Tally;
    var actual := SumByCounter(l.documents);
    var stored := set t | t in l.tenants :: Organization(t);
    drifts := Compare(l, stored, actual);
    forall c: Counter | c.Organization? && c !in stored
      ensures !Drifts(l, c)
    {
      assert c == Organization(c.tenant);
      TallyWeightless(l.documents, c);
    }
  }

  /** The row with this value: created when missing. */
  function Overwritten(l: Ledger, c: Counter, u: Usage): Ledger
    requires c.Organization? ==> c.tenant in l.tenants
  {
    match c
    case Organization(t) => l.(tenants := l.tenants[t := l.tenants[t].(usage := u)])
    case Personal(v) =>
      if v in l.quotas then l.(quotas := l.quotas[v := l.quotas[v].(usage := u)])
      else l.(quotas := l.quotas[v := FreeQuota(l.nextId, u)], nextId := l.nextId + 1)
  }

  /** An absolute write: doing it again changes nothing. */
  method Correct(db: Database, d: Drift)
    requires Movable(db.tables.ledger, d.counter)
    modifies db
    ensures db.tables == old(db.tables).(ledger := db.tables.ledger)
    ensures SetTo(old(db.tables.ledger), d.counter, d.actual, db.tables.ledger)
    ensures Overwritten(db.tables.ledger, d.counter, d.actual) == db.tables.ledger
  {
    OverwrittenSets(db.tables.ledger, d.counter, d.actual);
    db.tables := db.tables.(ledger := Overwritten(db.tables.ledger, d.counter, d.actual));
  }

  lemma OverwrittenSets(l: Ledger, c: Counter, u: Usage)
    requires Movable(l, c)
    ensures SetTo(l, c, u, Overwritten(l, c, u))
    ensures Overwritten(Overwritten(l, c, u), c, u) == Overwritten(l, c, u)
  {
    var m := Overwritten(l, c, u);
    match c {
      case Organization(t) => assert m.tenants[t := m.tenants[t].(usage := u)] == m.tenants;
      case Personal(v) => assert m.quotas[v := m.quotas[v].(usage := u)] == m.quotas;
    }
  }

  ghost predicate SetTo(l: Ledger, c: Counter, u: Usage, m: Ledger) {
    && m.documents == l.documents
    && SameRows(l, m)
    && (DistinctIds(l) ==> DistinctIds(m))
    && (forall e :: Recorded(m, e) == if e == c then u else Recorded(l, e))
  }

  ghost predicate CorrectedBy(l: Ledger, drifts: seq<Drift>, m: Ledger) {
    && m.documents == l.documents
    && SameRows(l, m)
    && (DistinctIds(l) ==> DistinctIds(m))
    && (forall c :: Recorded(m, c) == if Names(drifts, c) then Tally(l.documents, c) else Recorded(l, c))
  }

  lemma CorrectedStep(l: Ledger, drifts: seq<Drift>, m: Ledger, d: Drift, n: Ledger)
    requires CorrectedBy(l, drifts, m) && d.actual == Tally(l.documents, d.counter)
    requires SetTo(m, d.counter, d.actual, n)
    ensures CorrectedBy(l, drifts + [d], n)
  {
    hide Tally, Recorded, SameRows, DistinctIds;
    SameRowsTrans(l, m, n);
    NamesGrow(drifts, drifts + [d]);
    assert (drifts + [d])[|drifts|] == d;
    forall c
      ensures Names(drifts + [d], c) <==> Names(drifts, c) || c == d.counter
    {
    }
  }

  /** Compares every storage counter with its documents; fixes them when told to. */
  method ReconcileStorageCounters(db: Database, apply: bool) returns (drifts: seq<Drift>)
    requires Attributed(db.tables.ledger)
    modifies db
    ensures Reports(old(db.tables.ledger), EVERY_COUNTER, drifts)
    ensures !apply ==> db.tables == old(db.tables)
    ensures apply ==> db.tables == old(db.tables).(ledger := db.tables.ledger)
                      && Recounted(old(db.tables.ledger), db.tables.ledger)
  {
    ghost var l := db.tables.ledger;
    var personal := PersonalDrifts(db.tables.ledger);
    var tenants := TenantDrifts(db.tables.ledger);
    drifts := personal + tenants;
    JoinReports(l, personal, tenants);
    if apply {
      ApplyCorrections(db, drifts);
      CorrectedRecounts(l, drifts, db.tables.ledger);
    }
  }

  method ApplyCorrections(db: Database, drifts: seq<Drift>)
    requires Attributed(db.tables.ledger)
    requires forall i | 0 <= i < |drifts| :: Describes(db.tables.ledger, drifts[i])
    modifies db
    ensures db.tables == old(db.tables).(ledger := db.tables.ledger)
    ensures CorrectedBy(old(db.tables.ledger), drifts, db.tables.ledger)
  {
    ghost var l := db.tables.ledger;
    NothingCorrected(l);
    var i := 0;
    while i < |drifts|
      invariant 0 <= i <= |drifts|
      invariant db.tables == old(db.tables).(ledger := db.tables.ledger)
      invariant CorrectedBy(l, drifts[..i], db.tables.ledger)
    {
      hide Tally, CorrectedBy, SetTo, Attributed;
      ghost var m := db.tables.ledger;
      StillMovable(l, drifts[..i], m, drifts[i]);
      Correct(db, drifts[i]);
      CorrectedStep(l, drifts[..i], m, drifts[i], db.tables.ledger);
      assert drifts[..i + 1] == drifts[..i] + [drifts[i]];
      i := i + 1;
    }
    assert drifts[..i] == drifts;
  }

  lemma NothingCorrected(l: Ledger)
    ensures CorrectedBy(l, [], l)
  {
    assert forall c :: !Names([], c);
  }

  lemma StillMovable(l: Ledger, drifts: seq<Drift>, m: Ledger, d: Drift)
    requires CorrectedBy(l, drifts, m) && Attributed(l) && Describes(l, d)
    ensures Movable(m, d.counter)
  {
    if !Movable(l, d.counter) {
      TallyWeightless(l.documents, d.counter);
    }
  }

  lemma JoinReports(l: Ledger, personal: seq<Drift>, tenants: seq<Drift>)
    requires Reports(l, PERSONAL, personal)
    requires Reports(l, ORGANIZATIONS, tenants)
    ensures Reports(l, EVERY_COUNTER, personal + tenants)
  {
    hide Describes, Drifts;
    var drifts := personal + tenants;
    forall c
      ensures Names(personal, c) || Names(tenants, c) ==> Names(drifts, c)
    {
      if Names(personal, c) {
        var i :| 0 <= i < |personal| && personal[i].counter == c;
        assert drifts[i].counter == c;
      } else if Names(tenants, c) {
        var i :| 0 <= i < |tenants| && tenants[i].counter == c;
        assert drifts[|personal| + i].counter == c;
      }
    }
  }

  lemma CorrectedRecounts(l: Ledger, drifts: seq<Drift>, m: Ledger)
    requires Reports(l, EVERY_COUNTER, drifts) && CorrectedBy(l, drifts, m)
    ensures Recounted(l, m)
  {
    hide Tally, Recorded;
    forall c
      ensures Recorded(m, c) == Tally(l.documents, c)
    {
      assert c in EVERY_COUNTER;
    }
  }

  /** On balanced books there is nothing to report, and only then: a second run finds nothing. */
  lemma NothingToReport(l: Ledger, drifts: seq<Drift>)
    requires Reports(l, EVERY_COUNTER, drifts)
    ensures drifts == [] <==> Balanced(l)
  {
    hide Tally, Recorded;
    if drifts != [] {
      assert Describes(l, drifts[0]);
    } else {
      forall c
        ensures Recorded(l, c) == Tally(l.documents, c)
      {
        assert c in EVERY_COUNTER && !Names(drifts, c);
      }
    }
  }

  /** From any drifted counters, one applied run leaves sound books and the next finds nothing. */
  lemma SecondRunFindsNothing(l: Ledger, m: Ledger, again: seq<Drift>)
    requires Attributed(l) && Recounted(l, m) && Reports(m, EVERY_COUNTER, again)
    ensures Balanced(m) && again == []
  {
    hide Tally, Recorded;
    forall c
      ensures Recorded(m, c) == Tally(m.documents, c)
    {
      if !Movable(l, c) {
        UncountedOrganization(l, m, c);
      }
    }
    NothingToReport(m, again);
  }

  lemma UncountedOrganization(l: Ledger, m: Ledger, c: Counter)
    requires Attributed(l) && SameRows(l, m) && m.documents == l.documents && !Movable(l, c)
    ensures Recorded(m, c) == Tally(m.documents, c)
  {
    TallyWeightless(m.documents, c);
  }
}
