/** The storage books: the documents, the counters that must equal a recount over
    them, and the counter moves every document write goes through. */
module Ledgers {
  import opened Wrappers

  /** A stored counter: bytes used and number of documents. */
  datatype Usage = Usage(bytes: nat, documents: nat) {
    function Plus(u: Usage): Usage {
      Usage(bytes + u.bytes, documents + u.documents)
    }

    function Less(u: Usage): Usage {
      Move(Delta(0 - u.bytes, 0 - u.documents))
    }

    /** GREATEST(0, column + delta), column by column. */
    function Move(d: Delta): Usage {
      Usage(AtLeastZero(bytes + d.bytes), AtLeastZero(documents + d.documents))
    }
  }

  datatype Delta = Delta(bytes: int, documents: int)

  const ZERO := Usage(0, 0)

  function AtLeastZero(n: int): nat { if n < 0 then 0 else n }

  /** The two kinds of storage counter: a user's own quota, or an organization's. */
  datatype Counter = Personal(user: string) | Organization(tenant: string)

  /** A row of stored_documents, with the columns the accounting reads. */
  datatype Document = Document(
    owner: string,
    tenant: Option<string>,
    size: Option<nat>,
    thumbnail: Option<string>,
    isDeleted: bool,
    deletedAt: Option<int>
  ) {
    function Bytes(): nat { if size.Some? then size.value else 0 }

    function Charge(): Usage { Usage(Bytes(), 1) }

    /** The counter recorded on the document. */
    function Holder(): Counter {
      if tenant.Some? then Organization(tenant.value) else Personal(owner)
    }

    /** What the document contributes to a recount of counter c. */
    function Weight(c: Counter): Usage {
      if !isDeleted && Holder() == c then Charge() else ZERO
    }
  }

  type Documents = map<string, Document>

  /** A user_quotas row. Ids come from a counter: only their distinctness matters. */
  datatype Quota = Quota(
    id: nat,
    email: Option<string>,
    subscription: Option<string>,
    subscriptionStatus: string,
    cancelAtPeriodEnd: Option<bool>,
    usage: Usage
  )

  datatype TenantStatus = Active | Suspended | Trial | Cancelled

  datatype Tenant = Tenant(
    status: TenantStatus,
    onTenantPlan: bool,
    subscription: Option<string>,
    usage: Usage
  )

  datatype Ledger = Ledger(
    documents: Documents,
    quotas: map<string, Quota>,
    tenants: map<string, Tenant>,
    nextId: nat
  )

  function FreeQuota(id: nat, usage: Usage): Quota {
    Quota(id, None, None, "none", Some(false), usage)
  }

  /** The stored value of a counter; a missing row counts nothing. */
  function Recorded(l: Ledger, c: Counter): Usage {
    match c
    case Personal(u) => if u in l.quotas then l.quotas[u].usage else ZERO
    case Organization(t) => if t in l.tenants then l.tenants[t].usage else ZERO
  }

  ghost function Pick(keys: set<string>): (k: string)
    requires keys != {}
    ensures k in keys
  {
    var k :| k in keys;
    k
  }

  /** The recount: the sum of what every document contributes to counter c. */
  ghost function Tally(docs: Documents, c: Counter): Usage
    decreases docs.Keys
  {
    if docs.Keys == {} then ZERO
    else
      var k := Pick(docs.Keys);
      assert (docs - {k}).Keys == docs.Keys - {k};
      Tally(docs - {k}, c).Plus(docs[k].Weight(c))
  }

  ghost predicate Balanced(l: Ledger) {
    forall c :: Recorded(l, c) == Tally(l.documents, c)
  }

  /** Every attributed document, active or trashed, points at an existing organization. */
  ghost predicate Attributed(l: Ledger) {
    forall k | k in l.documents && l.documents[k].tenant.Some? :: l.documents[k].tenant.value in l.tenants
  }

  ghost predicate DistinctIds(l: Ledger) {
    && (forall u | u in l.quotas :: l.quotas[u].id < l.nextId)
    && (forall u, v | u in l.quotas && v in l.quotas && l.quotas[u].id == l.quotas[v].id :: u == v)
  }

  ghost predicate Sound(l: Ledger) {
    Balanced(l) && Attributed(l) && DistinctIds(l)
  }

  lemma PlusLaws(x: Usage, y: Usage, z: Usage)
    ensures x.Plus(ZERO) == x && x.Plus(y) == y.Plus(x) && x.Plus(y).Plus(z) == x.Plus(y.Plus(z))
  {
  }

  // ---- Recounts -----------------------------------------------------------

  lemma RemoveTwo(docs: Documents, j: string, k: string)
    requires j in docs && k in docs && j != k
    ensures docs - {j} - {k} == docs - {k} - {j}
    ensures (docs - {j}).Keys < docs.Keys && (docs - {k}).Keys < docs.Keys
    ensures k in docs - {j} && (docs - {j})[k] == docs[k]
    ensures j in docs - {k} && (docs - {k})[j] == docs[j]
  {
    assert j !in (docs - {j}).Keys && k !in (docs - {k}).Keys;
  }

  lemma {:induction false} TallyRemove(docs: Documents, c: Counter, k: string)
    requires k in docs
    ensures Tally(docs, c) == Tally(docs - {k}, c).Plus(docs[k].Weight(c))
    decreases docs.Keys
  {
    var j := Pick(docs.Keys);
    if j != k {
      RemoveTwo(docs, j, k);
      TallyRemove(docs - {j}, c, k);
      TallyRemove(docs - {k}, c, j);
    }
  }

  /** Writing a row moves the recount by what it weighs now, minus what it weighed. */
  lemma TallyWrite(docs: Documents, c: Counter, k: string, d: Document)
    ensures Tally(docs[k := d], c) == Tally(docs - {k}, c).Plus(d.Weight(c))
  {
    TallyRemove(docs[k := d], c, k);
    assert docs[k := d] - {k} == docs - {k};
  }

  /** The rows of u, split in two. */
  ghost predicate Split(u: Documents, a: Documents, b: Documents) {
    && a.Keys !! b.Keys && u.Keys == a.Keys + b.Keys
    && (forall k | k in a :: u[k] == a[k])
    && (forall k | k in b :: u[k] == b[k])
  }

  lemma SplitWithout(u: Documents, a: Documents, b: Documents, k: string)
    requires Split(u, a, b) && k in b
    ensures Split(u - {k}, a, b - {k}) && (b - {k}).Keys < b.Keys
  {
    assert k !in (b - {k}).Keys;
  }

  lemma {:induction false} TallySplit(u: Documents, a: Documents, b: Documents, c: Counter)
    requires Split(u, a, b)
    ensures Tally(u, c) == Tally(a, c).Plus(Tally(b, c))
    decreases b.Keys
  {
    if b.Keys == {} {
      assert u == a;
      PlusLaws(Tally(a, c), ZERO, ZERO);
    } else {
      var k := Pick(b.Keys);
      SplitWithout(u, a, b, k);
      TallySplit(u - {k}, a, b - {k}, c);
      TallyRemove(u, c, k);
      PlusLaws(Tally(a, c), Tally(b - {k}, c), b[k].Weight(c));
    }
  }

  lemma {:induction false} TallyWeightless(docs: Documents, c: Counter)
    requires forall k | k in docs :: docs[k].Weight(c) == ZERO
    ensures Tally(docs, c) == ZERO
    decreases docs.Keys
  {
    if docs.Keys == {} {
      assert docs == map[];
    } else {
      var k := Pick(docs.Keys);
      var rest := docs - {k};
      assert rest.Keys == docs.Keys - {k};
      TallyWeightless(rest, c);
      TallyRemove(docs, c, k);
    }
  }

  /** The recount over documents listed one by one. */
  ghost function Total(docs: seq<Document>, c: Counter): Usage {
    if docs == [] then ZERO else Total(docs[..|docs| - 1], c).Plus(docs[|docs| - 1].Weight(c))
  }

  // ---- Counter moves ------------------------------------------------------

  ghost predicate Movable(l: Ledger, c: Counter) {
    c.Organization? ==> c.tenant in l.tenants
  }

  /** One counter moved by a delta: an upsert of the personal row, or an update of the organization. */
  ghost function Moved(l: Ledger, c: Counter, d: Delta): Ledger
    requires Movable(l, c)
  {
    if d == Delta(0, 0) then l
    else match c
      case Organization(t) => l.(tenants := l.tenants[t := l.tenants[t].(usage := l.tenants[t].usage.Move(d))])
      case Personal(u) =>
        if u in l.quotas then l.(quotas := l.quotas[u := l.quotas[u].(usage := l.quotas[u].usage.Move(d))])
        else l.(quotas := l.quotas[u := FreeQuota(l.nextId, ZERO.Move(d))], nextId := l.nextId + 1)
  }

  /** Nothing but usages changes in rows that existed; rows that appear are empty free-plan rows. */
  ghost predicate SameRows(a: Ledger, b: Ledger) {
    && a.nextId <= b.nextId
    && a.tenants.Keys == b.tenants.Keys
    && (forall t | t in a.tenants :: b.tenants[t] == a.tenants[t].(usage := b.tenants[t].usage))
    && a.quotas.Keys <= b.quotas.Keys
    && (forall u | u in a.quotas :: b.quotas[u] == a.quotas[u].(usage := b.quotas[u].usage))
    && (forall u | u in b.quotas && u !in a.quotas ::
          a.nextId <= b.quotas[u].id && b.quotas[u] == FreeQuota(b.quotas[u].id, b.quotas[u].usage))
  }

  /** A move reaches exactly the counter it names, and leaves every other one alone. */
  lemma MovedOnly(l: Ledger, c: Counter, d: Delta)
    requires Movable(l, c)
    ensures SameRows(l, Moved(l, c, d)) && Moved(l, c, d).documents == l.documents
    ensures forall e :: Recorded(Moved(l, c, d), e) == if e == c then Recorded(l, c).Move(d) else Recorded(l, e)
    ensures DistinctIds(l) ==> DistinctIds(Moved(l, c, d))
    ensures Moved(l, c, d).quotas.Keys ==
            l.quotas.Keys + if c.Personal? && d != Delta(0, 0) then {c.user} else {}
  {
    hide Moved, SameRows, DistinctIds;
    MovedRecorded(l, c, d);
    MovedRows(l, c, d);
    MovedIds(l, c, d);
  }

  lemma MovedRecorded(l: Ledger, c: Counter, d: Delta)
    requires Movable(l, c)
    ensures forall e :: Recorded(Moved(l, c, d), e) == if e == c then Recorded(l, c).Move(d) else Recorded(l, e)
  {
  }

  lemma MovedRows(l: Ledger, c: Counter, d: Delta)
    requires Movable(l, c)
    ensures SameRows(l, Moved(l, c, d)) && Moved(l, c, d).documents == l.documents
    ensures Moved(l, c, d).quotas.Keys ==
            l.quotas.Keys + if c.Personal? && d != Delta(0, 0) then {c.user} else {}
  {
  }

  lemma MovedIds(l: Ledger, c: Counter, d: Delta)
    requires Movable(l, c)
    ensures DistinctIds(l) ==> DistinctIds(Moved(l, c, d))
  {
  }

  lemma SameRowsTrans(a: Ledger, b: Ledger, c: Ledger)
    requires SameRows(a, b) && SameRows(b, c)
    ensures SameRows(a, c)
  {
  }
}
