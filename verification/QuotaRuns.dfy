/** Runs of storage transactions. A transaction commits or leaves the books as they
    were; membership never appears, because a charge may go to any counter and
    every later move goes to the recorded one. */
module QuotaRuns {
  import opened Wrappers
  import opened Ledgers
  import opened Accounting

  datatype Event =
    | Enter(id: string, owner: string, size: Option<nat>, charged: Option<string>)  // upload, duplicate
    | Restore(id: string, charged: Option<string>)
    | Trash(id: string, at: int)
    | Resize(id: string, newSize: nat)                                                 // new version, revert
    | Delete(id: string)                                                            // permanent delete
    | TrashMany(ids: seq<string>, at: int)                                          // folder cascade
    | PurgeTrash(cutoff: int)
    | DropTenants(tenants: set<string>)
    | EraseUser(user: string, doomed: set<string>, active: seq<string>)
    | Reconcile
    | OpenQuota(user: string)
    | OpenTenant(id: string, tenant: Tenant)
    | Administer                                                                    // plans, status, billing, email

  /** The transactions on one document: its row, and the paired counter move. */
  ghost function Applied(l: Ledger, e: Event): Option<Ledger> {
    match e
    case Enter(id, owner, size, charged) =>
      if id in l.documents then None
      else
        var doc := Document(owner, None, size, None, false, None);
        Adjusted(l.(documents := l.documents[id := doc]), id, Charging(doc), charged)
    case Restore(id, charged) =>
      if id !in l.documents || !l.documents[id].isDeleted then None
      else
        var doc := l.documents[id].(isDeleted := false, deletedAt := None);
        Adjusted(l.(documents := l.documents[id := doc]), id, Charging(doc), charged)
    case Trash(id, at) =>
      if id !in l.documents || l.documents[id].isDeleted then None
      else
        var doc := l.documents[id].(isDeleted := true, deletedAt := Some(at));
        Adjusted(l.(documents := l.documents[id := doc]), id, Freeing(doc), None)
    case Resize(id, size) =>
      if id !in l.documents then None
      else
        var was := l.documents[id];
        var m := l.(documents := l.documents[id := was.(size := Some(size))]);
        if was.isDeleted then Some(m) else Adjusted(m, id, Delta(size - was.Bytes(), 0), None)
    case Delete(id) =>
      if id !in l.documents then None
      else
        var was := l.documents[id];
        var m := if was.isDeleted then Some(l) else Adjusted(l, id, Freeing(was), None);
        if m.None? then None else Some(m.value.(documents := m.value.documents - {id}))
    case _ => None
  }

  ghost function Trashed(docs: Documents, ids: seq<string>, at: int): Documents
    requires forall k | k in ids :: k in docs
  {
    map k | k in ids :: docs[k].(isDeleted := true, deletedAt := Some(at))
  }

  /** The documents with these ids, all active, were freed and leave the active set as rows. */
  ghost predicate FreedAs(l: Ledger, ids: seq<string>, documents: Documents, freed: Ledger, m: Ledger) {
    && (forall k | k in ids :: k in l.documents && !l.documents[k].isDeleted)
    && (forall i, j | 0 <= i < j < |ids| :: ids[i] != ids[j])
    && Settled(l, Rows(l.documents, ids), freed)
    && m == freed.(documents := documents)
  }

  ghost predicate OwnedBy(l: Ledger, ids: seq<string>, user: string) {
    forall k :: k in ids <==> k in l.documents && l.documents[k].owner == user && !l.documents[k].isDeleted
  }

  ghost function NotOwned(docs: Documents, user: string): Documents {
    map k | k in docs && docs[k].owner != user :: docs[k]
  }

  /** An account erasure, as the books see it: the user's active documents are
      freed, all their documents go, the doomed organizations hand theirs over and
      go, and the personal quota goes last. */
  ghost predicate Forgot(l: Ledger, user: string, doomed: set<string>, active: seq<string>, m: Ledger) {
    OwnedBy(l, active, user)
    && exists freed, left, handed ::
      && FreedAs(l, active, NotOwned(l.documents, user), freed, left)
      && HandedOver(left, doomed, handed)
      && m == handed.(tenants := handed.tenants - doomed, quotas := handed.quotas - {user})
  }

  ghost predicate Administered(l: Ledger, m: Ledger) {
    && m.documents == l.documents && m.nextId == l.nextId
    && m.tenants.Keys == l.tenants.Keys && m.quotas.Keys == l.quotas.Keys
    && (forall t | t in l.tenants :: m.tenants[t].usage == l.tenants[t].usage)
    && (forall u | u in l.quotas :: m.quotas[u].usage == l.quotas[u].usage && m.quotas[u].id == l.quotas[u].id)
  }

  ghost predicate Committed(l: Ledger, e: Event, m: Ledger) {
    match e
    case TrashMany(ids, at) =>
      (forall k | k in ids :: k in l.documents)
      && exists freed :: FreedAs(l, ids, l.documents + Trashed(l.documents, ids, at), freed, m)
    case PurgeTrash(cutoff) => m == Purged(l, cutoff)
    case DropTenants(tenants) =>
      exists handed :: HandedOver(l, tenants, handed) && m == handed.(tenants := handed.tenants - tenants)
    case EraseUser(user, doomed, active) => Forgot(l, user, doomed, active, m)
    case Reconcile => Recounted(l, m)
    case OpenQuota(user) =>
      user !in l.quotas && m == l.(quotas := l.quotas[user := FreeQuota(l.nextId, ZERO)], nextId := l.nextId + 1)
    case OpenTenant(id, tenant) =>
      id !in l.tenants && m == l.(tenants := l.tenants[id := tenant.(usage := ZERO)])
    case Administer => Administered(l, m)
    case _ => Applied(l, e) == Some(m)
  }

  ghost predicate Step(l: Ledger, e: Event, m: Ledger) {
    m == l || Committed(l, e, m)
  }

  /** states[0] is where the run starts; states[i + 1] is what the i-th transaction left. */
  ghost predicate Run(states: seq<Ledger>, events: seq<Event>) {
    |states| == |events| + 1
    && forall i | 0 <= i < |events| :: Step(states[i], events[i], states[i + 1])
  }

  // ---- Every transaction keeps the books sound ------------------------------

  lemma PairedSound(l: Ledger, k: string, d: Option<Document>, c: Counter, move: Delta)
    requires Sound(l) && Movable(l, c)
    requires d.Some? && d.value.tenant.Some? ==> d.value.tenant.value in l.tenants
    requires forall e :: Paired(l.documents, k, d, c, move, e)
    ensures Sound(Moved(l, c, move).(documents := Written(l.documents, k, d)))
  {
    hide Tally, Moved, Paired;
    PairedWrite(l, k, d, c, move);
    MovedOnly(l, c, move);
  }

  lemma EnteringSound(l: Ledger, id: string, doc: Document, charged: Option<string>)
    requires Sound(l) && !doc.isDeleted
    requires id in l.documents ==> l.documents[id].isDeleted
    ensures var m := Adjusted(l.(documents := l.documents[id := doc]), id, Charging(doc), charged);
            m.Some? ==> Sound(m.value) && m.value.documents[id].tenant == charged
  {
    hide Tally;
    var row := doc.(tenant := charged);
    var n := l.(documents := l.documents[id := row]);
    assert l.documents[id := doc][id := row] == l.documents[id := row];
    if Movable(l, row.Holder()) {
      assert Moved(n, row.Holder(), Charging(doc)) ==
             Moved(l, row.Holder(), Charging(doc)).(documents := Written(l.documents, id, Some(row)));
      PairedSound(l, id, Some(row), row.Holder(), Charging(doc));
    }
  }

  lemma LeavingSound(l: Ledger, id: string, row: Option<Document>)
    requires Sound(l) && id in l.documents && !l.documents[id].isDeleted
    requires row.Some? ==> row.value.isDeleted && row.value.Holder() == l.documents[id].Holder()
                           && row.value.tenant == l.documents[id].tenant
    ensures var was := l.documents[id];
            Movable(l, was.Holder())
            && Sound(Moved(l, was.Holder(), Freeing(was)).(documents := Written(l.documents, id, row)))
  {
    hide Tally;
    var was := l.documents[id];
    PairedSound(l, id, row, was.Holder(), Freeing(was));
  }

  lemma ResizeSound(l: Ledger, id: string, size: nat)
    requires Sound(l) && id in l.documents
    ensures var was := l.documents[id];
            var row := was.(size := Some(size));
            var move := if was.isDeleted then Delta(0, 0) else Delta(size - was.Bytes(), 0);
            Movable(l, was.Holder())
            && Sound(Moved(l, was.Holder(), move).(documents := Written(l.documents, id, Some(row))))
  {
    hide Tally, Moved, Balanced, DistinctIds;
    var was := l.documents[id];
    var row := was.(size := Some(size));
    var move := if was.isDeleted then Delta(0, 0) else Delta(size - was.Bytes(), 0);
    PairedSound(l, id, Some(row), was.Holder(), move);
  }

  lemma TrashedSound(l: Ledger, e: Event)
    requires Sound(l) && e.Trash?
    ensures Applied(l, e).Some? ==> Sound(Applied(l, e).value)
  {
    hide Tally, Balanced;
    if e.id in l.documents && !l.documents[e.id].isDeleted {
      var row := l.documents[e.id].(isDeleted := true, deletedAt := Some(e.at));
      LeavingSound(l, e.id, Some(row));
      assert l.documents[e.id := row][e.id := row] == l.documents[e.id := row];
    }
  }

  lemma ResizedSound(l: Ledger, e: Event)
    requires Sound(l) && e.Resize?
    ensures Applied(l, e).Some? ==> Sound(Applied(l, e).value)
  {
    hide Tally, Balanced;
    if e.id in l.documents {
      ResizeSound(l, e.id, e.newSize);
      var row := l.documents[e.id].(size := Some(e.newSize));
      assert l.documents[e.id := row][e.id := row] == l.documents[e.id := row];
    }
  }

  lemma DeletedSound(l: Ledger, e: Event)
    requires Sound(l) && e.Delete?
    ensures Applied(l, e).Some? ==> Sound(Applied(l, e).value)
  {
    hide Tally, Balanced;
    if e.id in l.documents {
      if l.documents[e.id].isDeleted {
        DroppedTrashSound(l, e.id);
      } else {
        LeavingSound(l, e.id, None);
        assert l.documents[e.id := l.documents[e.id]] == l.documents;
      }
    }
  }

  lemma AppliedSound(l: Ledger, e: Event)
    requires Sound(l)
    ensures Applied(l, e).Some? ==> Sound(Applied(l, e).value)
  {
    hide Tally, Balanced;
    match e
    case Enter(id, owner, size, charged) =>
      if id !in l.documents {
        EnteringSound(l, id, Document(owner, None, size, None, false, None), charged);
      }
    case Restore(id, charged) =>
      if id in l.documents && l.documents[id].isDeleted {
        EnteringSound(l, id, l.documents[id].(isDeleted := false, deletedAt := None), charged);
      }
    case Trash(_, _) => TrashedSound(l, e);
    case Resize(_, _) => ResizedSound(l, e);
    case Delete(_) => DeletedSound(l, e);
    case _ =>
  }

  lemma DroppedTrashSound(l: Ledger, id: string)
    requires Sound(l) && id in l.documents && l.documents[id].isDeleted
    ensures Sound(l.(documents := l.documents - {id}))
  {
    hide Tally;
    forall c
      ensures Tally(l.documents - {id}, c) == Tally(l.documents, c)
    {
      TallyIgnores(l.documents, l.documents - {id}, c);
    }
    assert forall c :: Recorded(l.(documents := l.documents - {id}), c) == Recorded(l, c);
  }

  /** Freed documents weigh nothing, or are gone, in the rows written with the move;
      every other row is kept, unless it weighed nothing. */
  ghost predicate Retired(docs: Documents, ids: seq<string>, documents: Documents) {
    && (forall k | k in docs && k !in ids :: if k in documents then documents[k] == docs[k] else docs[k].isDeleted)
    && (forall k | k in documents :: k in docs && documents[k].tenant == docs[k].tenant)
    && (forall k | k in documents && k in ids :: documents[k].isDeleted)
  }

  lemma FreedSound(l: Ledger, ids: seq<string>, documents: Documents, freed: Ledger, m: Ledger)
    requires Sound(l) && FreedAs(l, ids, documents, freed, m) && Retired(l.documents, ids, documents)
    ensures Sound(m)
  {
    hide Tally, Rows, Total;
    forall c
      ensures Recorded(m, c) == Tally(m.documents, c)
    {
      assert Recorded(m, c) == Recorded(freed, c) == Recorded(l, c).Less(Total(Rows(l.documents, ids), c));
      RetiredTally(l.documents, ids, documents, c);
    }
  }

  lemma RetiredTally(docs: Documents, ids: seq<string>, documents: Documents, c: Counter)
    requires forall k | k in ids :: k in docs
    requires forall i, j | 0 <= i < j < |ids| :: ids[i] != ids[j]
    requires Retired(docs, ids, documents)
    ensures Tally(docs, c).Less(Total(Rows(docs, ids), c)) == Tally(documents, c)
  {
    hide Tally, Rows, Total, Part, Retired;
    var keys := set k | k in ids;
    RetiredParts(docs, ids, documents);
    RowsOfPart(docs, ids);
    RowsTotal(Part(docs, keys), ids, c);
    TallySplit(docs, docs - keys, Part(docs, keys), c);
    FreedTally(docs - keys, documents, keys, c);
    LessPlus(Tally(docs - keys, c), Tally(Part(docs, keys), c));
  }

  lemma RetiredParts(docs: Documents, ids: seq<string>, documents: Documents)
    requires (forall k | k in ids :: k in docs) && (forall i, j | 0 <= i < j < |ids| :: ids[i] != ids[j])
    requires Retired(docs, ids, documents)
    ensures var keys := set k | k in ids;
            var rest := docs - keys;
            && Enumerates(ids, Part(docs, keys)) && Split(docs, rest, Part(docs, keys)) && rest.Keys !! keys
            && (forall k | k in rest :: if k in documents then documents[k] == rest[k] else rest[k].isDeleted)
            && (forall k | k in documents :: k in rest || (k in keys && documents[k].isDeleted))
  {
  }

  lemma LessPlus(u: Usage, v: Usage)
    ensures u.Plus(v).Less(v) == u
  {
  }

  lemma RowsOfPart(docs: Documents, ids: seq<string>)
    requires forall k | k in ids :: k in docs
    ensures Rows(docs, ids) == Rows(Part(docs, set k | k in ids), ids)
  {
  }

  lemma FreedTally(rest: Documents, documents: Documents, keys: set<string>, c: Counter)
    requires rest.Keys !! keys
    requires forall k | k in rest :: if k in documents then documents[k] == rest[k] else rest[k].isDeleted
    requires forall k | k in documents :: k in rest || (k in keys && documents[k].isDeleted)
    ensures Tally(documents, c) == Tally(rest, c)
  {
    hide Tally;
    var common := Part(rest, documents.Keys);
    TallyIgnores(rest, common, c);
    TallyIgnores(documents, common, c);
  }

  lemma ForgotSound(l: Ledger, user: string, doomed: set<string>, active: seq<string>, m: Ledger)
    requires Sound(l) && Forgot(l, user, doomed, active, m)
    ensures Sound(m)
  {
    hide Tally, HandedOver, Balanced;
    var freed, left, handed :|
      && FreedAs(l, active, NotOwned(l.documents, user), freed, left)
      && HandedOver(left, doomed, handed)
      && m == handed.(tenants := handed.tenants - doomed, quotas := handed.quotas - {user});
    FreedSound(l, active, NotOwned(l.documents, user), freed, left);
    HandOverThenDrop(left, doomed, handed);
    var dropped := handed.(tenants := handed.tenants - doomed);
    NoDocumentsOf(left, doomed, handed, user);
    QuotaRemoved(dropped, user);
  }

  lemma NoDocumentsOf(left: Ledger, doomed: set<string>, handed: Ledger, user: string)
    requires HandedOver(left, doomed, handed)
    requires forall k | k in left.documents :: left.documents[k].owner != user
    ensures forall k | k in handed.documents :: handed.documents[k].owner != user
  {
  }

  /** A quota row may go once its user owns no document. */
  lemma QuotaRemoved(l: Ledger, user: string)
    requires Sound(l)
    requires forall k | k in l.documents :: l.documents[k].owner != user
    ensures Sound(l.(quotas := l.quotas - {user}))
  {
    hide Tally;
    var m := l.(quotas := l.quotas - {user});
    TallyWeightless(l.documents, Personal(user));
    forall c
      ensures Recorded(m, c) == Tally(m.documents, c)
    {
      assert c != Personal(user) ==> Recorded(m, c) == Recorded(l, c);
    }
  }

  lemma RecountedSound(l: Ledger, m: Ledger)
    requires Attributed(l) && DistinctIds(l) && Recounted(l, m)
    ensures Sound(m)
  {
    hide Tally;
    forall c
      ensures Recorded(m, c) == Tally(m.documents, c)
    {
      if !Movable(l, c) {
        TallyWeightless(l.documents, c);
      }
    }
  }

  lemma OpenedSound(l: Ledger, e: Event, m: Ledger)
    requires Sound(l) && Committed(l, e, m) && (e.OpenQuota? || e.OpenTenant? || e.Administer?)
    ensures Sound(m)
  {
    hide Tally;
    assert forall c :: Recorded(m, c) == Recorded(l, c);
  }

  lemma StepSound(l: Ledger, e: Event, m: Ledger)
    requires Sound(l) && Step(l, e, m)
    ensures Sound(m)
  {
    hide Tally, Sound, HandedOver, Forgot, Recounted, Settled, Applied;
    if m != l {
      match e
      case TrashMany(ids, at) =>
        var documents := l.documents + Trashed(l.documents, ids, at);
        var freed :| FreedAs(l, ids, documents, freed, m);
        FreedSound(l, ids, documents, freed, m);
      case PurgeTrash(cutoff) =>
        PurgeKeepsBalance(l, cutoff);
      case DropTenants(tenants) =>
        var handed :| HandedOver(l, tenants, handed) && m == handed.(tenants := handed.tenants - tenants);
        HandOverThenDrop(l, tenants, handed);
      case EraseUser(user, doomed, active) =>
        ForgotSound(l, user, doomed, active, m);
      case Reconcile =>
        SoundFacts(l);
        RecountedSound(l, m);
      case OpenQuota(_) => OpenedSound(l, e, m);
      case OpenTenant(_, _) => OpenedSound(l, e, m);
      case Administer => OpenedSound(l, e, m);
      case _ =>
        AppliedSound(l, e);
    }
  }

  lemma SoundFacts(l: Ledger)
    requires Sound(l)
    ensures Attributed(l) && DistinctIds(l)
  {
  }

  /** The conservation law: in every run from sound books, after every transaction,
      each personal counter equals the recount over its owner's active documents
      without attribution, and each organization's the recount over the active
      documents attributed to it. */
  lemma {:induction false} RunSound(states: seq<Ledger>, events: seq<Event>)
    requires Run(states, events) && Sound(states[0])
    ensures forall i | 0 <= i < |states| :: Sound(states[i])
    decreases |events|
  {
    hide Sound, Step;
    if events != [] {
      var n := |events| - 1;
      assert forall i | 0 <= i < n :: Step(states[i], events[i], states[i + 1]);
      RunSound(states[..n + 1], events[..n]);
      assert states[n] == states[..n + 1][n];
      StepSound(states[n], events[n], states[n + 1]);
    }
  }

  /** On sound books the clamp at zero alters no result: a counter always holds at
      least what the documents about to be freed from it weigh. */
  lemma ClampNeverBites(l: Ledger, ids: seq<string>, c: Counter)
    requires Sound(l)
    requires forall k | k in ids :: k in l.documents && !l.documents[k].isDeleted
    requires forall i, j | 0 <= i < j < |ids| :: ids[i] != ids[j]
    ensures Total(Rows(l.documents, ids), c).bytes <= Recorded(l, c).bytes
    ensures Total(Rows(l.documents, ids), c).documents <= Recorded(l, c).documents
  {
    hide Tally, Rows;
    var keys := set k | k in ids;
    RowsOfPart(l.documents, ids);
    RowsTotal(Part(l.documents, keys), ids, c);
    TallySplit(l.documents, l.documents - keys, Part(l.documents, keys), c);
  }

  /** The empty installation is sound, so the law is not vacuous. */
  lemma EmptySound()
    ensures Sound(Ledger(map[], map[], map[], 0))
  {
    var l := Ledger(map[], map[], map[], 0);
    forall c
      ensures Recorded(l, c) == Tally(l.documents, c)
    {
      TallyWeightless(l.documents, c);
    }
  }
}
