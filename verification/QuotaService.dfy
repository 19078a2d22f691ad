/** The quota service: the statements that move counters, in the caller's transaction. */
module QuotaService {
  import opened Wrappers
  import opened Ledgers
  import opened Accounting
  import opened Databases

  /** What the caller may already have loaded about the owner. */
  datatype EffectiveLimits = EffectiveLimits(isTenantBased: bool, tenantId: Option<string>)

  // ---- Which counter a charge goes to ---------------------------------------

  predicate Counting(t: Tables, quotaId: nat, tenant: string) {
    && (tenant, quotaId) in t.members && t.members[(tenant, quotaId)].isActive
    && tenant in t.ledger.tenants && t.ledger.tenants[tenant].status == Active
  }

  function Rank(r: Role): nat {
    match r
    case Owner => 0
    case Admin => 1
    case Manager => 2
    case Plain => 3
    case Viewer => 4
  }

  function RoleIn(t: Tables, quotaId: nat, tenant: string): nat {
    if (tenant, quotaId) in t.members then Rank(t.members[(tenant, quotaId)].role) else 5
  }

  /** Owners come before admins, admins before managers, managers before members, and
      viewers last. */
  predicate NotAfter(a: Role, b: Role) {
    match a
    case Owner => true
    case Admin => !b.Owner?
    case Manager => !b.Owner? && !b.Admin?
    case Plain => b.Plain? || b.Viewer?
    case Viewer => b.Viewer?
  }

  /** The rule: an active membership of an active organization, one on a tenant plan
      if there is any, and the highest role among those. */
  ghost predicate ChargesTo(t: Tables, owner: string, charged: Option<string>) {
    var organizations := t.ledger.tenants;
    match charged
    case None =>
      owner in t.ledger.quotas ==>
        forall k | k in t.members && k.1 == t.ledger.quotas[owner].id && t.members[k].isActive
                   && k.0 in organizations :: organizations[k.0].status != Active
    case Some(best) =>
      && owner in t.ledger.quotas
      && var k := (best, t.ledger.quotas[owner].id);
      && k in t.members && t.members[k].isActive && best in organizations && organizations[best].status == Active
      && forall j | j in t.members && j.1 == k.1 && t.members[j].isActive
                    && j.0 in organizations && organizations[j.0].status == Active ::
           || (organizations[best].onTenantPlan && !organizations[j.0].onTenantPlan)
           || (organizations[best].onTenantPlan == organizations[j.0].onTenantPlan
               && NotAfter(t.members[k].role, t.members[j].role))
  }

  /** SELECT ... ORDER BY role: the active memberships of active organizations, highest role first. */
  method ActiveMemberships(t: Tables, quotaId: nat) returns (rows: seq<string>)
    ensures forall x :: x in rows <==>
              (x, quotaId) in t.members && t.members[(x, quotaId)].isActive
              && x in t.ledger.tenants && t.ledger.tenants[x].status == Active
    ensures forall i | 0 <= i < |rows| :: rows[i] in rows
    ensures forall i, j | 0 <= i < j < |rows| ::
              NotAfter(t.members[(rows[i], quotaId)].role, t.members[(rows[j], quotaId)].role)
  {
    rows := [];
    var pending := set x | x in t.ledger.tenants && Counting(t, quotaId, x);
    while pending != {}
      invariant forall x | x in pending :: Counting(t, quotaId, x)
      invariant forall i | 0 <= i < |rows| :: Counting(t, quotaId, rows[i])
      invariant forall x | Counting(t, quotaId, x) :: x in rows || x in pending
      invariant forall i, j | 0 <= i < j < |rows| :: RoleIn(t, quotaId, rows[i]) <= RoleIn(t, quotaId, rows[j])
    {
      var x :| x in pending;
      pending := pending - {x};
      ghost var before := rows;
      rows := Ranked(t, quotaId, rows, x);
      assert forall i | 0 <= i < |rows| :: rows[i] in rows;
      assert forall i | 0 <= i < |before| :: before[i] in before;
    }
  }

  /** Inserts where the order by role asks for it. */
  method Ranked(t: Tables, quotaId: nat, rows: seq<string>, x: string) returns (longer: seq<string>)
    requires forall i, j | 0 <= i < j < |rows| :: RoleIn(t, quotaId, rows[i]) <= RoleIn(t, quotaId, rows[j])
    ensures forall y :: y in longer <==> y in rows || y == x
    ensures forall i, j | 0 <= i < j < |longer| :: RoleIn(t, quotaId, longer[i]) <= RoleIn(t, quotaId, longer[j])
  {
    hide RoleIn;
    var i := 0;
    while i < |rows| && RoleIn(t, quotaId, rows[i]) <= RoleIn(t, quotaId, x)
      invariant 0 <= i <= |rows|
      invariant forall j | 0 <= j < i :: RoleIn(t, quotaId, rows[j]) <= RoleIn(t, quotaId, x)
    {
      i := i + 1;
    }
    longer := rows[..i] + [x] + rows[i..];
    assert rows == rows[..i] + rows[i..];
  }

  method CountingTenantId(t: Tables, owner: string) returns (charged: Option<string>)
    ensures ChargesTo(t, owner, charged)
  {
    if owner !in t.ledger.quotas {
      return None;
    }
    var id := t.ledger.quotas[owner].id;
    var rows := ActiveMemberships(t, id);
    if rows == [] {
      assert forall k | k in t.members && k.1 == id :: k == (k.0, id) && k.0 !in rows;
      return None;
    }
    var i := 0;
    while i < |rows|
      invariant 0 <= i <= |rows|
      invariant forall j | 0 <= j < i :: !t.ledger.tenants[rows[j]].onTenantPlan
    {
      if t.ledger.tenants[rows[i]].onTenantPlan {
        FirstIsBest(t, owner, rows, i);
        return Some(rows[i]);
      }
      i := i + 1;
    }
    FirstIsBest(t, owner, rows, 0);
    return Some(rows[0]);
  }

  /** Of rows in role order, the first on a tenant plan, or else the first, is charged. */
  lemma FirstIsBest(t: Tables, owner: string, rows: seq<string>, i: nat)
    requires owner in t.ledger.quotas && i < |rows|
    requires var id := t.ledger.quotas[owner].id;
             && (forall x :: x in rows <==> (x, id) in t.members && t.members[(x, id)].isActive
                                            && x in t.ledger.tenants && t.ledger.tenants[x].status == Active)
             && (forall j | 0 <= j < |rows| :: rows[j] in rows)
             && forall j, k | 0 <= j < k < |rows| ::
                  NotAfter(t.members[(rows[j], id)].role, t.members[(rows[k], id)].role)
    requires if t.ledger.tenants[rows[i]].onTenantPlan
             then forall j | 0 <= j < i :: !t.ledger.tenants[rows[j]].onTenantPlan
             else i == 0 && forall j | 0 <= j < |rows| :: !t.ledger.tenants[rows[j]].onTenantPlan
    ensures ChargesTo(t, owner, Some(rows[i]))
  {
    var id := t.ledger.quotas[owner].id;
    forall k | k in t.members && k.1 == id && t.members[k].isActive
               && k.0 in t.ledger.tenants && t.ledger.tenants[k.0].status == Active
      ensures exists j :: 0 <= j < |rows| && rows[j] == k.0
    {
      assert k == (k.0, id) && k.0 in rows;
    }
  }

  // ---- Counter moves ----------------------------------------------------------

  /** The upsert opens a missing row even for a zero delta, which its callers never pass. */
  method IncrementUserStorage(db: Database, user: string, d: Delta)
    modifies db
    ensures db.tables == old(db.tables).(ledger := db.tables.ledger) && user in db.tables.ledger.quotas
    ensures d != Delta(0, 0) || user in old(db.tables.ledger.quotas) ==>
              db.tables.ledger == Moved(old(db.tables.ledger), Personal(user), d)
    ensures d == Delta(0, 0) && user !in old(db.tables.ledger.quotas) ==>
              var l := old(db.tables.ledger);
              db.tables.ledger == l.(quotas := l.quotas[user := FreeQuota(l.nextId, ZERO)], nextId := l.nextId + 1)
  {
    var l := db.tables.ledger;
    if user in l.quotas {
      var q := l.quotas[user];
      assert l.quotas[user := q] == l.quotas;
      l := l.(quotas := l.quotas[user := q.(usage := q.usage.Move(d))]);
    } else {
      var inserted := Usage(AtLeastZero(d.bytes), AtLeastZero(d.documents));
      l := l.(quotas := l.quotas[user := FreeQuota(l.nextId, inserted)], nextId := l.nextId + 1);
    }
    db.tables := db.tables.(ledger := l);
  }

  /** Fails, and updates no row, when the organization does not exist. */
  method IncrementTenantStorage(db: Database, tenant: string, d: Delta) returns (ok: bool)
    modifies db
    ensures ok <==> tenant in old(db.tables.ledger.tenants)
    ensures db.tables == if !ok then old(db.tables)
                         else old(db.tables).(ledger := Moved(old(db.tables.ledger), Organization(tenant), d))
  {
    var l := db.tables.ledger;
    ok := tenant in l.tenants;
    if ok {
      var row := l.tenants[tenant];
      assert l.tenants[tenant := row] == l.tenants;
      db.tables := db.tables.(ledger := l.(tenants := l.tenants[tenant := row.(usage := row.usage.Move(d))]));
    }
  }

  function HolderOf(owner: string, tenant: Option<string>): Counter {
    if tenant.Some? then Organization(tenant.value) else Personal(owner)
  }

  method MoveCounter(db: Database, owner: string, tenant: Option<string>, d: Delta) returns (ok: bool)
    modifies db
    ensures ok <==> d == Delta(0, 0) || Movable(old(db.tables.ledger), HolderOf(owner, tenant))
    ensures db.tables == if !ok || d == Delta(0, 0) then old(db.tables)
                         else old(db.tables).(ledger := Moved(old(db.tables.ledger), HolderOf(owner, tenant), d))
  {
    ok := true;
    if d == Delta(0, 0) {
      return;
    }
    if tenant.Some? {
      ok := IncrementTenantStorage(db, tenant.value, d);
    } else {
      IncrementUserStorage(db, owner, d);
    }
  }

  /** Where a charge goes: what the caller loaded, or the rule as of now. */
  method CounterToCharge(t: Tables, owner: string, limits: Option<EffectiveLimits>) returns (tenant: Option<string>)
    ensures limits.None? ==> ChargesTo(t, owner, tenant)
    ensures limits.Some? ==> tenant == if limits.value.isTenantBased then limits.value.tenantId else None
  {
    if limits.Some? {
      tenant := if limits.value.isTenantBased then limits.value.tenantId else None;
    } else {
      tenant := CountingTenantId(t, owner);
    }
  }

  /** The single place for the attribution rule. On failure the caller rolls back. */
  method AdjustDocumentStorage(db: Database, id: string, d: Delta, limits: Option<EffectiveLimits>)
    returns (ok: bool, ghost charged: Option<string>)
    requires id in db.tables.ledger.documents
    modifies db
    ensures d.documents > 0 && limits.None? ==>
              ChargesTo(old(db.tables), old(db.tables.ledger.documents)[id].owner, charged)
    ensures d.documents > 0 && limits.Some? ==>
              charged == if limits.value.isTenantBased then limits.value.tenantId else None
    ensures ok <==> Adjusted(old(db.tables.ledger), id, d, charged).Some?
    ensures ok ==> db.tables == old(db.tables).(ledger := Adjusted(old(db.tables.ledger), id, d, charged).value)
  {
    hide Moved, Adjusted, ChargesTo;
    var doc := db.tables.ledger.documents[id];
    charged := None;
    var tenant := doc.tenant;
    if d.documents > 0 {
      tenant := CounterToCharge(db.tables, doc.owner, limits);
      charged := tenant;
      RecordAttribution(db, id, tenant);
    }
    AdjustedByHolder(old(db.tables.ledger), id, d, charged);
    ok := MoveCounter(db, doc.owner, tenant, d);
  }

  lemma AdjustedByHolder(l: Ledger, id: string, d: Delta, charged: Option<string>)
    requires id in l.documents
    ensures var doc := l.documents[id];
            var tenant := if d.documents > 0 then charged else doc.tenant;
            var m := if d.documents > 0 then l.(documents := l.documents[id := doc.(tenant := tenant)]) else l;
            var holder := HolderOf(doc.owner, tenant);
            Adjusted(l, id, d, charged) ==
            if d == Delta(0, 0) then Some(m) else if Movable(m, holder) then Some(Moved(m, holder, d)) else None
  {
    var doc := l.documents[id];
    assert l.documents[id := doc] == l.documents;
  }

  method RecordAttribution(db: Database, id: string, tenant: Option<string>)
    requires id in db.tables.ledger.documents
    modifies db
    ensures db.tables == old(db.tables).(ledger := old(db.tables.ledger).(documents :=
              old(db.tables.ledger.documents)[id := old(db.tables.ledger.documents)[id].(tenant := tenant)]))
  {
    var l := db.tables.ledger;
    db.tables := db.tables.(ledger := l.(documents := l.documents[id := l.documents[id].(tenant := tenant)]));
  }

  // ---- Bulk release -------------------------------------------------------------

  /** The grouping key of a document to free. */
  type Key = (string, Option<string>)

  function KeyOf(d: Document): Key { (d.owner, d.tenant) }

  ghost function Groups(order: seq<Key>, freed: map<Key, Usage>): Frees
    requires forall k | k in order :: k in freed
  {
    seq(|order|, i requires 0 <= i < |order| => (HolderOf(order[i].0, order[i].1), freed[order[i]]))
  }

  ghost predicate Grouped(documents: seq<Document>, order: seq<Key>, freed: map<Key, Usage>) {
    && (forall k :: k in order <==> k in freed)
    && (forall i, j | 0 <= i < j < |order| :: order[i] != order[j])
    && (forall k | k in freed :: freed[k].documents > 0)
    && (forall d | d in documents :: KeyOf(d) in freed)
    && (forall k | k in freed :: exists d :: d in documents && KeyOf(d) == k)
    && (forall c :: Sum(Groups(order, freed), c) == Total(documents, c))
  }

  /** The first loop: one entry per (owner, recorded organization), in order of appearance. */
  method GroupByCounter(documents: seq<Document>) returns (order: seq<Key>, freed: map<Key, Usage>)
    requires forall d | d in documents :: !d.isDeleted
    ensures Grouped(documents, order, freed)
    ensures forall k :: k in order <==> k in freed
    ensures forall k | k in freed :: freed[k].documents > 0
    ensures forall k | k in freed :: exists d :: d in documents && KeyOf(d) == k
  {
    order, freed := [], map[];
    var i := 0;
    while i < |documents|
      invariant 0 <= i <= |documents|
      invariant Grouped(documents[..i], order, freed)
    {
      var d := documents[i];
      var k := KeyOf(d);
      ghost var order0, freed0 := order, freed;
      var so := if k in freed then freed[k] else ZERO;
      if k !in freed {
        order := order + [k];
      }
      freed := freed[k := so.Plus(d.Charge())];
      GroupedStep(documents[..i], order0, freed0, d);
      assert documents[..i + 1] == documents[..i] + [d];
      i := i + 1;
    }
    assert documents[..i] == documents;
  }

  lemma GroupedStep(documents: seq<Document>, order: seq<Key>, freed: map<Key, Usage>, d: Document)
    requires Grouped(documents, order, freed) && !d.isDeleted
    ensures var k := KeyOf(d);
            var so := if k in freed then freed[k] else ZERO;
            Grouped(documents + [d], if k in freed then order else order + [k], freed[k := so.Plus(d.Charge())])
  {
    hide Sum, Total, Groups;
    var k := KeyOf(d);
    var so := if k in freed then freed[k] else ZERO;
    var order' := if k in freed then order else order + [k];
    var freed' := freed[k := so.Plus(d.Charge())];
    assert d in documents + [d];
    forall j | j in freed'
      ensures exists x :: x in documents + [d] && KeyOf(x) == j
    {
      if j != k {
        var x :| x in documents && KeyOf(x) == j;
        assert x in documents + [d];
      }
    }
    forall c
      ensures Sum(Groups(order', freed'), c) == Total(documents + [d], c)
    {
      TotalLast(documents, d, c);
      GroupSumStep(order, freed, d, c);
    }
  }

  lemma GroupSumStep(order: seq<Key>, freed: map<Key, Usage>, d: Document, c: Counter)
    requires !d.isDeleted && forall j | j in order :: j in freed
    requires KeyOf(d) in freed ==> KeyOf(d) in order
    requires forall i, j | 0 <= i < j < |order| :: order[i] != order[j]
    ensures var k := KeyOf(d);
            var so := if k in freed then freed[k] else ZERO;
            Sum(Groups(if k in freed then order else order + [k], freed[k := so.Plus(d.Charge())]), c) ==
            Sum(Groups(order, freed), c).Plus(d.Weight(c))
  {
    hide Sum, Groups;
    if KeyOf(d) in freed {
      KnownGroupGrows(order, freed, d, c);
    } else {
      ZeroPlus(d.Charge());
      NewGroupGrows(order, freed, d, c);
    }
  }

  lemma ZeroPlus(u: Usage)
    ensures ZERO.Plus(u) == u
  {
  }

  lemma KnownGroupGrows(order: seq<Key>, freed: map<Key, Usage>, d: Document, c: Counter)
    requires KeyOf(d) in order && !d.isDeleted && forall j | j in order :: j in freed
    requires forall i, j | 0 <= i < j < |order| :: order[i] != order[j]
    ensures Sum(Groups(order, freed[KeyOf(d) := freed[KeyOf(d)].Plus(d.Charge())]), c) ==
            Sum(Groups(order, freed), c).Plus(d.Weight(c))
  {
    hide Sum, Groups;
    var k := KeyOf(d);
    var p :| 0 <= p < |order| && order[p] == k;
    GroupReplaced(order, freed, p, k, freed[k].Plus(d.Charge()));
    SumGrows(Groups(order, freed), p, d.Charge(), c);
  }

  lemma NewGroupGrows(order: seq<Key>, freed: map<Key, Usage>, d: Document, c: Counter)
    requires KeyOf(d) !in order && !d.isDeleted && forall j | j in order :: j in freed
    ensures Sum(Groups(order + [KeyOf(d)], freed[KeyOf(d) := d.Charge()]), c) ==
            Sum(Groups(order, freed), c).Plus(d.Weight(c))
  {
    hide Sum, Groups;
    GroupAppended(order, freed, KeyOf(d), d.Charge());
    SumLast(Groups(order, freed), d.Holder(), d.Charge(), c);
  }

  lemma GroupReplaced(order: seq<Key>, freed: map<Key, Usage>, p: nat, k: Key, u: Usage)
    requires p < |order| && order[p] == k && forall j | j in order :: j in freed
    requires forall i, j | 0 <= i < j < |order| :: order[i] != order[j]
    ensures |Groups(order, freed)| == |order| && Groups(order, freed)[p] == (HolderOf(k.0, k.1), freed[k])
    ensures Groups(order, freed[k := u]) == Groups(order, freed)[p := (HolderOf(k.0, k.1), u)]
  {
  }

  lemma GroupAppended(order: seq<Key>, freed: map<Key, Usage>, k: Key, u: Usage)
    requires k !in order && forall j | j in order :: j in freed
    ensures Groups(order + [k], freed[k := u]) == Groups(order, freed) + [(HolderOf(k.0, k.1), u)]
  {
  }

  lemma TotalLast(documents: seq<Document>, d: Document, c: Counter)
    ensures Total(documents + [d], c) == Total(documents, c).Plus(d.Weight(c))
  {
    assert (documents + [d])[..|documents|] == documents;
  }

  lemma {:induction false} SumGrows(frees: Frees, p: nat, u: Usage, c: Counter)
    requires p < |frees|
    ensures Sum(frees[p := (frees[p].0, frees[p].1.Plus(u))], c) ==
            Sum(frees, c).Plus(if frees[p].0 == c then u else ZERO)
  {
    var n := |frees| - 1;
    var front, e, w := frees[..n], frees[n].0, frees[n].1;
    var grown := frees[p := (frees[p].0, frees[p].1.Plus(u))];
    if p == n {
      assert grown == front + [(e, w.Plus(u))] && frees == front + [(e, w)];
      SumLast(front, e, w, c);
      SumLast(front, e, w.Plus(u), c);
      PlusLaws(Sum(front, c), w, u);
    } else {
      var front' := front[p := (front[p].0, front[p].1.Plus(u))];
      assert grown == front' + [(e, w)] && frees == front + [(e, w)];
      SumGrows(front, p, u, c);
      SumLast(front, e, w, c);
      SumLast(front', e, w, c);
      PlusSwap(Sum(front, c), if frees[p].0 == c then u else ZERO, if e == c then w else ZERO);
    }
  }

  /** Bulk form: one move per counter. Fails when an organization does not exist;
      the caller then rolls back. */
  method ReleaseDocuments(db: Database, documents: seq<Document>) returns (ok: bool)
    requires forall d | d in documents :: !d.isDeleted
    modifies db
    ensures ok <==> Releasable(old(db.tables.ledger), documents)
    ensures ok ==> db.tables == old(db.tables).(ledger := db.tables.ledger)
    ensures ok ==> Settled(old(db.tables.ledger), documents, db.tables.ledger)
  {
    hide Drained, Moved, Grouped, Settled;
    var order, freed := GroupByCounter(documents);
    ghost var l, groups := db.tables.ledger, Groups(order, freed);
    DrainedNone(l);
    var i := 0;
    while i < |order|
      invariant 0 <= i <= |order|
      invariant Drainable(l, groups[..i])
      invariant db.tables == old(db.tables).(ledger := db.tables.ledger)
      invariant db.tables.ledger == Drained(l, groups[..i])
    {
      var k := order[i];
      ok := MoveCounter(db, k.0, k.1, Delta(0 - freed[k].bytes, 0 - freed[k].documents));
      if !ok {
        return;
      }
      DrainedStep(l, groups, i);
      i := i + 1;
    }
    assert groups[..i] == groups;
    GroupsSettle(l, documents, order, freed);
    ok := true;
  }

  lemma DrainedNone(l: Ledger)
    ensures Drained(l, []) == l
  {
  }

  lemma DrainedStep(l: Ledger, frees: Frees, i: nat)
    requires i < |frees| && Drainable(l, frees[..i]) && Movable(l, frees[i].0) && frees[i].1.documents > 0
    ensures Drainable(l, frees[..i + 1])
    ensures Drained(l, frees[..i + 1]) == Moved(Drained(l, frees[..i]), frees[i].0, Negative(frees[i].1))
  {
    assert frees[..i + 1][..i] == frees[..i];
  }

  /** Moving each counter once by its group settles the books as if document by document. */
  lemma GroupsSettle(l: Ledger, documents: seq<Document>, order: seq<Key>, freed: map<Key, Usage>)
    requires Grouped(documents, order, freed) && (forall d | d in documents :: !d.isDeleted)
    requires Drainable(l, Groups(order, freed))
    ensures Releasable(l, documents) && Settled(l, documents, Drained(l, Groups(order, freed)))
  {
    hide Sum, Total, Drained;
    var groups := Groups(order, freed);
    DrainedLowers(l, groups);
    forall d | d in documents
      ensures Movable(l, d.Holder())
      ensures exists i :: 0 <= i < |groups| && groups[i].0 == d.Holder()
    {
      var i :| 0 <= i < |order| && order[i] == KeyOf(d);
      assert groups[i].0 == d.Holder();
    }
    GroupedUsers(documents, order, freed);
  }

  lemma GroupedUsers(documents: seq<Document>, order: seq<Key>, freed: map<Key, Usage>)
    requires Grouped(documents, order, freed)
    ensures PersonalUsers(Groups(order, freed)) == PersonalOwners(documents)
  {
    hide Sum, Total;
    var groups := Groups(order, freed);
    forall u | u in PersonalUsers(groups)
      ensures u in PersonalOwners(documents)
    {
      var i :| 0 <= i < |groups| && groups[i].0 == Personal(u);
      assert order[i] in freed;
      var d :| d in documents && KeyOf(d) == order[i];
    }
    forall u | u in PersonalOwners(documents)
      ensures u in PersonalUsers(groups)
    {
      var d :| d in documents && d.tenant.None? && d.owner == u;
      var i :| 0 <= i < |order| && order[i] == KeyOf(d);
      assert groups[i].0 == Personal(u);
    }
  }

  // ---- Sums by counter --------------------------------------------------------------

  ghost predicate HeldBySome(rows: Documents, c: Counter) {
    exists k :: k in rows && !rows[k].isDeleted && rows[k].Holder() == c
  }

  /** SELECT holder, SUM(size), COUNT(*) over the active rows, GROUP BY holder. */
  ghost predicate Sums(rows: Documents, sums: map<Counter, Usage>) {
    && (forall c :: c in sums <==> HeldBySome(rows, c))
    && (forall c | c in sums :: sums[c].documents > 0)
    && (forall c :: Tally(rows, c) == At(sums, c))
  }

  function At(sums: map<Counter, Usage>, c: Counter): Usage {
    if c in sums then sums[c] else ZERO
  }

  method SumByCounter(rows: Documents) returns (sums: map<Counter, Usage>)
    ensures Sums(rows, sums)
  {
    sums := map[];
    var pending := rows.Keys;
    ghost var done: Documents := map[];
    NoSums();
    while pending != {}
      invariant pending <= rows.Keys && done == rows - pending
      invariant Sums(done, sums)
    {
      hide Sums;
      var k :| k in pending;
      pending := pending - {k};
      var d := rows[k];
      ghost var was := sums;
      if !d.isDeleted {
        sums := sums[d.Holder() := At(sums, d.Holder()).Plus(d.Charge())];
      }
      SumsStep(done, k, d, was, sums);
      assert rows - pending == done[k := d];
      done := done[k := d];
    }
    assert done == rows;
  }

  lemma NoSums()
    ensures Sums(map[], map[])
  {
  }

  ghost function Summed(was: map<Counter, Usage>, d: Document): map<Counter, Usage> {
    if d.isDeleted then was else was[d.Holder() := At(was, d.Holder()).Plus(d.Charge())]
  }

  lemma SumsStep(done: Documents, k: string, d: Document, was: map<Counter, Usage>, now: map<Counter, Usage>)
    requires k !in done && Sums(done, was) && now == Summed(was, d)
    ensures Sums(done[k := d], now)
  {
    hide Tally, HeldBySome;
    forall c
      ensures Tally(done[k := d], c) == At(now, c)
      ensures c in now <==> HeldBySome(done[k := d], c)
    {
      TallyNewRow(done, c, k, d);
      SummedAt(was, d, c);
      HeldStep(done, k, d, c);
    }
  }

  lemma HeldStep(done: Documents, k: string, d: Document, c: Counter)
    requires k !in done
    ensures HeldBySome(done[k := d], c) <==> HeldBySome(done, c) || (!d.isDeleted && d.Holder() == c)
  {
    var next := done[k := d];
    if HeldBySome(done, c) {
      var j :| j in done && !done[j].isDeleted && done[j].Holder() == c;
      assert j in next && next[j] == done[j];
    }
    assert next[k] == d;
  }

  lemma SummedAt(was: map<Counter, Usage>, d: Document, c: Counter)
    ensures At(Summed(was, d), c) == At(was, c).Plus(d.Weight(c))
  {
    hide Usage.Plus;
    PlusLaws(At(was, c), ZERO, ZERO);
    if !d.isDeleted && d.Holder() == c {
      assert d.Weight(c) == d.Charge();
    } else {
      assert d.Weight(c) == ZERO;
    }
  }

  lemma TallyNewRow(done: Documents, c: Counter, k: string, d: Document)
    requires k !in done
    ensures Tally(done[k := d], c) == Tally(done, c).Plus(d.Weight(c))
  {
    hide Tally;
    TallyWrite(done, c, k, d);
    assert done - {k} == done;
  }

  // ---- Before organizations go ----------------------------------------------------

  /** Documents charged to organizations about to disappear move to their owners'
      personal quotas; active or trashed, none points at the organizations any more. */
  method HandOverTenantDocuments(db: Database, ids: set<string>)
    modifies db
    ensures db.tables == old(db.tables).(ledger := db.tables.ledger)
    ensures HandedOver(old(db.tables.ledger), ids, db.tables.ledger)
  {
    ghost var l := db.tables.ledger;
    var handed := Handed(db.tables.ledger.documents, ids);
    var charged := SumByCounter(handed);
    var pending := charged.Keys;
    ghost var done: set<Counter> := {};
    AllPersonal(handed, charged);
    TakenNone(l, charged);
    while pending != {}
      invariant done !! pending && done + pending == charged.Keys
      invariant db.tables == old(db.tables).(ledger := db.tables.ledger)
      invariant Taken(l, charged, done, db.tables.ledger)
      decreases pending
    {
      hide Taken, Sums, Moved;
      var c :| c in pending;
      pending := pending - {c};
      TakenStep(l, charged, done, db.tables.ledger, c);
      IncrementUserStorage(db, c.user, Delta(charged[c].bytes, charged[c].documents));
      done := done + {c};
    }
    assert done == charged.Keys;
    TakenAll(l, ids, charged, db.tables.ledger);
    db.tables := db.tables.(ledger := db.tables.ledger.(documents := db.tables.ledger.documents + handed));
  }

  lemma AllPersonal(handed: Documents, charged: map<Counter, Usage>)
    requires Sums(handed, charged) && forall k | k in handed :: handed[k].tenant.None?
    ensures forall c | c in charged :: c.Personal? && charged[c].documents > 0
  {
  }

  ghost function Users(counters: set<Counter>): set<string> {
    set c | c in counters && c.Personal? :: c.user
  }

  /** These personal quotas have taken over what was charged to them. */
  ghost predicate Taken(l: Ledger, charged: map<Counter, Usage>, counters: set<Counter>, m: Ledger) {
    && counters <= charged.Keys && (forall c | c in charged :: c.Personal? && charged[c].documents > 0)
    && m.documents == l.documents && m.tenants == l.tenants
    && SameRows(l, m)
    && (DistinctIds(l) ==> DistinctIds(m))
    && (forall c :: Recorded(m, c) == if c in counters then Recorded(l, c).Plus(charged[c]) else Recorded(l, c))
    && m.quotas.Keys == l.quotas.Keys + Users(counters)
  }

  lemma TakenNone(l: Ledger, charged: map<Counter, Usage>)
    requires forall c | c in charged :: c.Personal? && charged[c].documents > 0
    ensures Taken(l, charged, {}, l)
  {
  }

  lemma TakenStep(l: Ledger, charged: map<Counter, Usage>, counters: set<Counter>, m: Ledger, c: Counter)
    requires Taken(l, charged, counters, m) && c in charged && c !in counters
    ensures c.Personal?
    ensures var d := Delta(charged[c].bytes, charged[c].documents);
            d != Delta(0, 0) && Taken(l, charged, counters + {c}, Moved(m, c, d))
  {
    hide Moved, SameRows, DistinctIds, Recorded;
    var d := Delta(charged[c].bytes, charged[c].documents);
    MovedOnly(m, c, d);
    SameRowsTrans(l, m, Moved(m, c, d));
    PersonalMoveTenants(m, c.user, d);
    assert c == Personal(c.user);
    assert Users(counters + {c}) == Users(counters) + {c.user};
    forall e
      ensures Recorded(Moved(m, c, d), e) ==
              if e in counters + {c} then Recorded(l, e).Plus(charged[e]) else Recorded(l, e)
    {
      assert Recorded(m, e) == if e in counters then Recorded(l, e).Plus(charged[e]) else Recorded(l, e);
    }
  }

  lemma PersonalMoveTenants(l: Ledger, u: string, d: Delta)
    ensures Moved(l, Personal(u), d).tenants == l.tenants
  {
  }

  lemma TakenAll(l: Ledger, ids: set<string>, charged: map<Counter, Usage>, m: Ledger)
    requires Sums(Handed(l.documents, ids), charged) && Taken(l, charged, charged.Keys, m)
    ensures HandedOver(l, ids, m.(documents := m.documents + Handed(l.documents, ids)))
  {
    hide Tally, Recorded, SameRows, DistinctIds;
    var handed := Handed(l.documents, ids);
    DocumentsApart(l, m, m.documents + handed);
    var n := m.(documents := m.documents + handed);
    forall u
      ensures Recorded(n, Personal(u)) == Recorded(l, Personal(u)).Plus(Tally(handed, Personal(u)))
    {
      TakenOf(l, handed, charged, m, u);
    }
    ChargedUsers(handed, charged);
  }

  lemma ChargedUsers(handed: Documents, charged: map<Counter, Usage>)
    requires Sums(handed, charged) && forall k | k in handed :: handed[k].tenant.None?
    ensures Users(charged.Keys) == ActiveOwners(handed)
  {
    forall u | u in ActiveOwners(handed)
      ensures u in Users(charged.Keys)
    {
      var k :| k in handed && !handed[k].isDeleted && handed[k].owner == u;
      assert HeldBySome(handed, handed[k].Holder());
    }
  }

  lemma TakenOf(l: Ledger, handed: Documents, charged: map<Counter, Usage>, m: Ledger, u: string)
    requires Sums(handed, charged) && Taken(l, charged, charged.Keys, m)
    ensures Recorded(m, Personal(u)) == Recorded(l, Personal(u)).Plus(Tally(handed, Personal(u)))
  {
    hide Tally, SameRows, DistinctIds, Recorded, Usage.Plus;
    assert Tally(handed, Personal(u)) == At(charged, Personal(u));
    PlusLaws(Recorded(l, Personal(u)), ZERO, ZERO);
  }
}
