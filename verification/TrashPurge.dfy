/** The daily purge: documents trashed before the cutoff go in batches of at most 200,
    rows first, files after. */
module TrashPurge {
  import opened Wrappers
  import opened Ledgers
  import opened Accounting
  import opened Databases
  import AccountErasure

  const BATCH := 200

  function Overdues(t: Tables, cutoff: int): set<string> {
    set k | k in t.ledger.documents && Expired(t.ledger.documents[k], cutoff)
  }

  function VersionFiles(t: Tables, ids: set<string>): set<string> {
    set k | k in t.versions && t.versions[k].document in ids && t.versions[k].filePath != "" :: t.versions[k].filePath
  }

  function Thumbnails(t: Tables, ids: set<string>): set<string> {
    set k | k in ids && k in t.ledger.documents && t.ledger.documents[k].thumbnail.Some?
            && t.ledger.documents[k].thumbnail.value != "" :: t.ledger.documents[k].thumbnail.value
  }

  /** Every file recorded for the given documents. */
  function Files(t: Tables, ids: set<string>): set<string> { VersionFiles(t, ids) + Thumbnails(t, ids) }

  // ---- Deleting in batches is deleting at once ---------------------------------------

  lemma UnlinkTwice<T>(r: Option<T>, a: set<T>, b: set<T>)
    ensures Unlink(Unlink(r, a), b) == Unlink(r, a + b)
  {
  }

  function Invitations(t: Tables, ids: set<string>): set<nat> {
    set k | k in t.shareInvitations && t.shareInvitations[k].document in ids
  }

  lemma InvitationsTwice(t: Tables, a: set<string>, b: set<string>)
    ensures Invitations(t, a) + Invitations(DeleteDocuments(t, a), b) == Invitations(t, a + b)
  {
  }

  lemma SharesTwice(t: Tables, a: set<string>, b: set<string>)
    ensures DeleteDocuments(DeleteDocuments(t, a), b).shares == DeleteDocuments(t, a + b).shares
  {
    var u := DeleteDocuments(t, a);
    var x, y := DeleteDocuments(u, b), DeleteDocuments(t, a + b);
    InvitationsTwice(t, a, b);
    forall k | k in y.shares
      ensures k in x.shares && x.shares[k] == y.shares[k]
    {
      UnlinkTwice(t.shares[k].invitation, Invitations(t, a), Invitations(u, b));
    }
    assert x.shares.Keys == y.shares.Keys;
  }

  lemma NotificationsTwice(t: Tables, a: set<string>, b: set<string>)
    ensures DeleteDocuments(DeleteDocuments(t, a), b).notifications == DeleteDocuments(t, a + b).notifications
  {
    var u := DeleteDocuments(t, a);
    var x, y := DeleteDocuments(u, b), DeleteDocuments(t, a + b);
    InvitationsTwice(t, a, b);
    forall k | k in y.notifications
      ensures k in x.notifications && x.notifications[k] == y.notifications[k]
    {
      UnlinkTwice(t.notifications[k].invitation, Invitations(t, a), Invitations(u, b));
    }
    assert x.notifications.Keys == y.notifications.Keys;
  }

  lemma LedgerTwice(t: Tables, a: set<string>, b: set<string>)
    ensures DeleteDocuments(DeleteDocuments(t, a), b).ledger == DeleteDocuments(t, a + b).ledger
  {
    assert t.ledger.documents - a - b == t.ledger.documents - (a + b);
  }

  lemma ShareInvitationsTwice(t: Tables, a: set<string>, b: set<string>)
    ensures DeleteDocuments(DeleteDocuments(t, a), b).shareInvitations == DeleteDocuments(t, a + b).shareInvitations
  {
    hide DeleteDocuments;
    InvitationsTwice(t, a, b);
    InvitationsGo(t, a);
    InvitationsGo(DeleteDocuments(t, a), b);
    InvitationsGo(t, a + b);
    var ia, ib := Invitations(t, a), Invitations(DeleteDocuments(t, a), b);
    assert t.shareInvitations - ia - ib == t.shareInvitations - (ia + ib);
  }

  lemma InvitationsGo(t: Tables, ids: set<string>)
    ensures DeleteDocuments(t, ids).shareInvitations == t.shareInvitations - Invitations(t, ids)
  {
  }

  lemma VersionsTwice(t: Tables, a: set<string>, b: set<string>)
    ensures DeleteDocuments(DeleteDocuments(t, a), b).versions == DeleteDocuments(t, a + b).versions
  {
    KeptVersionsTwice(t.versions, a, b);
    var u := DeleteDocuments(t, a);
    assert u.versions == KeptVersions(t.versions, a);
    assert DeleteDocuments(u, b).versions == KeptVersions(u.versions, b);
    assert DeleteDocuments(t, a + b).versions == KeptVersions(t.versions, a + b);
  }

  function KeptVersions(rows: map<nat, Version>, ids: set<string>): map<nat, Version> {
    map k | k in rows && rows[k].document !in ids :: rows[k]
  }

  lemma KeptVersionsTwice(rows: map<nat, Version>, a: set<string>, b: set<string>)
    ensures KeptVersions(KeptVersions(rows, a), b) == KeptVersions(rows, a + b)
  {
  }

  lemma LinksTwice(t: Tables, a: set<string>, b: set<string>)
    ensures DeleteDocuments(DeleteDocuments(t, a), b).links == DeleteDocuments(t, a + b).links
  {
    KeptLinksTwice(t.links, a, b);
    var u := DeleteDocuments(t, a);
    assert u.links == KeptLinks(t.links, a);
    assert DeleteDocuments(u, b).links == KeptLinks(u.links, b);
    assert DeleteDocuments(t, a + b).links == KeptLinks(t.links, a + b);
  }

  function KeptLinks(rows: map<nat, Link>, ids: set<string>): map<nat, Link> {
    map k | k in rows && rows[k].document !in ids :: rows[k]
  }

  lemma KeptLinksTwice(rows: map<nat, Link>, a: set<string>, b: set<string>)
    ensures KeptLinks(KeptLinks(rows, a), b) == KeptLinks(rows, a + b)
  {
  }

  lemma LogsTwice(t: Tables, a: set<string>, b: set<string>)
    ensures DeleteDocuments(DeleteDocuments(t, a), b).logs == DeleteDocuments(t, a + b).logs
  {
    KeptLogsTwice(t.logs, a, b);
    var u := DeleteDocuments(t, a);
    assert u.logs == KeptLogs(t.logs, a);
    assert DeleteDocuments(u, b).logs == KeptLogs(u.logs, b);
    assert DeleteDocuments(t, a + b).logs == KeptLogs(t.logs, a + b);
  }

  function KeptLogs(logs: map<nat, Log>, ids: set<string>): map<nat, Log> {
    map k | k in logs && !Refers(logs[k].document, ids) :: logs[k]
  }

  lemma KeptLogsTwice(logs: map<nat, Log>, a: set<string>, b: set<string>)
    ensures KeptLogs(KeptLogs(logs, a), b) == KeptLogs(logs, a + b)
  {
  }

  lemma OthersTwice(t: Tables, a: set<string>, b: set<string>)
    ensures var x, y := DeleteDocuments(DeleteDocuments(t, a), b), DeleteDocuments(t, a + b);
            x.members == y.members && x.invitations == y.invitations && x.activities == y.activities
              && x.users == y.users
  {
  }

  lemma DeleteTwice(t: Tables, a: set<string>, b: set<string>)
    ensures DeleteDocuments(DeleteDocuments(t, a), b) == DeleteDocuments(t, a + b)
  {
    hide DeleteDocuments;
    SharesTwice(t, a, b);
    NotificationsTwice(t, a, b);
    LedgerTwice(t, a, b);
    ShareInvitationsTwice(t, a, b);
    VersionsTwice(t, a, b);
    LinksTwice(t, a, b);
    LogsTwice(t, a, b);
    OthersTwice(t, a, b);
  }

  lemma DeleteNothing(t: Tables)
    ensures DeleteDocuments(t, {}) == t
  {
    var u := DeleteDocuments(t, {});
    assert (set k | k in t.shareInvitations && t.shareInvitations[k].document in {}) == {};
    assert u.shares == t.shares && u.notifications == t.notifications && u.logs == t.logs;
    assert u.versions == t.versions && u.links == t.links && u.shareInvitations == t.shareInvitations;
    assert u.ledger.documents == t.ledger.documents;
  }

  /** What the batches so far recorded, and what is left, make up the whole. */
  lemma FilesAfter(t: Tables, gone: set<string>, batch: set<string>)
    requires gone !! batch
    ensures Files(DeleteDocuments(t, gone), batch) + Files(t, gone) == Files(t, gone + batch)
  {
    hide DeleteDocuments, VersionFiles, Thumbnails;
    VersionFilesAfter(t, gone, batch);
    ThumbnailsAfter(t, gone, batch);
  }

  lemma VersionFilesAfter(t: Tables, gone: set<string>, batch: set<string>)
    requires gone !! batch
    ensures VersionFiles(DeleteDocuments(t, gone), batch) + VersionFiles(t, gone) == VersionFiles(t, gone + batch)
  {
    var u := DeleteDocuments(t, gone);
    assert forall k :: k in u.versions && u.versions[k].document in batch <==>
                       k in t.versions && t.versions[k].document in batch;
    assert VersionFiles(u, batch) == VersionFiles(t, batch);
  }

  lemma ThumbnailsAfter(t: Tables, gone: set<string>, batch: set<string>)
    requires gone !! batch
    ensures Thumbnails(DeleteDocuments(t, gone), batch) + Thumbnails(t, gone) == Thumbnails(t, gone + batch)
  {
    assert Thumbnails(DeleteDocuments(t, gone), batch) == Thumbnails(t, batch);
  }

  // ---- The batches ---------------------------------------------------------------------

  method SelectOverdue(t: Tables, cutoff: int) returns (batch: set<string>)
    ensures batch <= Overdues(t, cutoff) && |batch| <= BATCH
    ensures batch == {} <==> Overdues(t, cutoff) == {}
    ensures |batch| < BATCH ==> batch == Overdues(t, cutoff)
  {
    hide Overdues;
    var left := Overdues(t, cutoff);
    batch := {};
    while left != {} && |batch| < BATCH
      invariant batch !! left && batch + left == Overdues(t, cutoff) && |batch| <= BATCH
      invariant batch == {} ==> left == Overdues(t, cutoff)
    {
      var k :| k in left;
      batch, left := batch + {k}, left - {k};
    }
  }

  /** Best effort: a file whose deletion fails is skipped, and may be left. */
  method DeleteFiles(store: AccountErasure.ObjectStore, keys: set<string>)
    returns (deleted: nat, ghost missed: set<string>)
    modifies store
    ensures missed <= keys && deleted == |keys| - |missed|
    ensures old(store.objects) - keys <= store.objects <= old(store.objects) - (keys - missed)
  {
    var pending := keys;
    deleted, missed := 0, {};
    while pending != {}
      invariant pending <= keys && missed <= keys - pending
      invariant old(store.objects) - (keys - pending) <= store.objects
      invariant store.objects <= old(store.objects) - (keys - pending - missed)
      invariant deleted + |missed| + |pending| == |keys|
    {
      var key :| key in pending;
      var ok, n := store.DeleteWhere({key});
      if ok {
        deleted := deleted + 1;
      } else {
        missed := missed + {key};
      }
      pending := pending - {key};
    }
  }

  /** One transaction: the rows of a batch go, and the files they recorded are noted. */
  method DeleteBatch(db: Database, cutoff: int, t: Tables, ghost gone: set<string>)
    returns (committed: bool, batch: set<string>, keys: set<string>)
    requires db.tables == DeleteDocuments(t, gone) && gone <= Overdues(t, cutoff)
    modifies db
    ensures batch <= Overdues(t, cutoff) - gone && |batch| <= BATCH
    ensures batch == {} <==> gone == Overdues(t, cutoff)
    ensures committed ==> db.tables == DeleteDocuments(t, gone + batch)
    ensures !committed ==> db.tables == old(db.tables)
    ensures keys + Files(t, gone) == Files(t, gone + batch)
  {
    hide DeleteDocuments, Files;
    OverduesAfter(t, cutoff, gone);
    batch := SelectOverdue(db.tables, cutoff);
    keys := Files(db.tables, batch);
    FilesAfter(t, gone, batch);
    DeleteTwice(t, gone, batch);
    committed := *;
    if committed {
      db.tables := DeleteDocuments(db.tables, batch);
    }
  }

  /** `ok` is false when the database failed: the batches committed before stand,
      and the job is retried. */
  method Purge(db: Database, store: AccountErasure.ObjectStore, cutoff: int)
    returns (ok: bool, purged: nat, deleted: nat, ghost gone: set<string>, ghost missed: set<string>)
    modifies db, store
    ensures gone <= Overdues(old(db.tables), cutoff) && purged == |gone|
    ensures ok ==> gone == Overdues(old(db.tables), cutoff)
    ensures db.tables == DeleteDocuments(old(db.tables), gone)
    ensures missed <= Files(old(db.tables), gone)
    ensures old(store.objects) - Files(old(db.tables), gone) <= store.objects
    ensures store.objects <= old(store.objects) - (Files(old(db.tables), gone) - missed)
  {
    ok, purged, deleted, gone, missed := true, 0, 0, {}, {};
    hide DeleteDocuments, Files, Overdues, Swept;
    var t := db.tables;
    DeleteNothing(t);
    NoFiles(t);
    SweptNothing(store.objects);
    while true
      invariant gone <= Overdues(t, cutoff) && purged == |gone|
      invariant db.tables == DeleteDocuments(t, gone)
      invariant Swept(old(store.objects), store.objects, Files(t, gone), missed)
      decreases |Overdues(t, cutoff) - gone|
    {
      var committed, batch, keys := DeleteBatch(db, cutoff, t, gone);
      if batch == {} || !committed {
        ok := batch == {};
        SweptMeans(old(store.objects), store.objects, Files(t, gone), missed);
        return;
      }
      Fewer(Overdues(t, cutoff), gone, batch);
      var n;
      n, missed := SweepFiles(store, keys, old(store.objects), Files(t, gone), missed);
      purged, deleted, gone := purged + |batch|, deleted + n, gone + batch;
    }
  }

  /** The files of a committed batch go. */
  method SweepFiles(store: AccountErasure.ObjectStore, keys: set<string>, ghost all: set<string>,
                    ghost files: set<string>, ghost missed: set<string>)
    returns (deleted: nat, ghost left: set<string>)
    requires Swept(all, store.objects, files, missed)
    modifies store
    ensures Swept(all, store.objects, keys + files, left)
  {
    ghost var before := store.objects;
    deleted, left := DeleteFiles(store, keys);
    hide Swept;
    SweptOn(all, before, store.objects, files, missed, keys, left);
    left := missed + left;
  }

  /** Of all objects, none but these files are gone, and of these files only the missed are left. */
  ghost predicate Swept(all: set<string>, objects: set<string>, files: set<string>, missed: set<string>) {
    missed <= files && all - files <= objects <= all - (files - missed)
  }

  lemma NoFiles(t: Tables)
    ensures Files(t, {}) == {}
  {
  }

  lemma SweptNothing(all: set<string>)
    ensures Swept(all, all, {}, {})
  {
  }

  lemma SweptMeans(all: set<string>, objects: set<string>, files: set<string>, missed: set<string>)
    requires Swept(all, objects, files, missed)
    ensures missed <= files && all - files <= objects <= all - (files - missed)
  {
  }

  lemma SweptOn(all: set<string>, before: set<string>, after: set<string>,
                files: set<string>, missed: set<string>, keys: set<string>, failed: set<string>)
    requires Swept(all, before, files, missed) && failed <= keys
    requires before - keys <= after <= before - (keys - failed)
    ensures Swept(all, after, keys + files, missed + failed)
  {
  }

  lemma Fewer<T>(all: set<T>, gone: set<T>, batch: set<T>)
    requires gone <= all && batch <= all - gone
    ensures |gone + batch| == |gone| + |batch|
    ensures |all - (gone + batch)| == |all - gone| - |batch|
  {
    assert all - gone == all - (gone + batch) + batch;
  }

  lemma OverduesAfter(t: Tables, cutoff: int, gone: set<string>)
    ensures Overdues(DeleteDocuments(t, gone), cutoff) == Overdues(t, cutoff) - gone
  {
  }

  // ---- What a purge, complete or cut short, keeps --------------------------------------

  /** No counter needs touching, no foreign key dangles, and no document still active
      or trashed later than the cutoff is lost; a complete purge is the ledger step
      the accounting runs are made of. */
  lemma PurgeIsSafe(t: Tables, cutoff: int, gone: set<string>)
    requires Referential(t) && Sound(t.ledger) && gone <= Overdues(t, cutoff)
    ensures Referential(DeleteDocuments(t, gone)) && Sound(DeleteDocuments(t, gone).ledger)
    ensures forall k | k in t.ledger.documents ::
              var doc := t.ledger.documents[k];
              !doc.isDeleted || doc.deletedAt.None? || doc.deletedAt.value >= cutoff ==>
                k in DeleteDocuments(t, gone).ledger.documents && DeleteDocuments(t, gone).ledger.documents[k] == doc
    ensures gone == Overdues(t, cutoff) ==>
              && DeleteDocuments(t, gone).ledger == Purged(t.ledger, cutoff)
              && forall k | k in DeleteDocuments(t, gone).ledger.documents ::
                   var doc := t.ledger.documents[k];
                   !doc.isDeleted || doc.deletedAt.None? || doc.deletedAt.value >= cutoff
  {
    DeleteStaysReferential(t, gone);
    WeightlessGone(t.ledger, gone);
    assert gone == Overdues(t, cutoff) ==>
        t.ledger.documents - gone == Purged(t.ledger, cutoff).documents;
  }

  /** Besides the documents exactly their own rows go; every other row stays as it was, but
      for references to invitations that went. */
  lemma PurgeSpares(t: Tables, gone: set<string>)
    ensures var m := DeleteDocuments(t, gone);
            && (forall k :: k in m.versions <==> k in t.versions && t.versions[k].document !in gone)
            && (forall k | k in m.versions :: m.versions[k] == t.versions[k])
            && (forall k :: k in m.links <==> k in t.links && t.links[k].document !in gone)
            && (forall k | k in m.links :: m.links[k] == t.links[k])
            && (forall k :: k in m.logs <==>
                  k in t.logs && !(t.logs[k].document.Some? && t.logs[k].document.value in gone))
            && (forall k | k in m.logs :: m.logs[k] == t.logs[k])
            && (forall k :: k in m.shareInvitations <==>
                  k in t.shareInvitations && t.shareInvitations[k].document !in gone)
            && (forall k | k in m.shareInvitations :: m.shareInvitations[k] == t.shareInvitations[k])
            && m.members == t.members && m.invitations == t.invitations && m.activities == t.activities
            && m.users == t.users && m.ledger == t.ledger.(documents := m.ledger.documents)
  {
  }

  /** The reference to an invitation is lost exactly with the invitation. */
  predicate Unlinked(before: Option<nat>, t: Tables, m: Tables, after: Option<nat>) {
    after == if before.Some? && before.value in t.shareInvitations && before.value !in m.shareInvitations
             then None else before
  }

  lemma PurgeSparesShares(t: Tables, gone: set<string>)
    ensures var m := DeleteDocuments(t, gone);
            && (forall k :: k in m.shares <==> k in t.shares && t.shares[k].document !in gone)
            && (forall k | k in m.shares ::
                  m.shares[k] == t.shares[k].(invitation := m.shares[k].invitation)
                  && Unlinked(t.shares[k].invitation, t, m, m.shares[k].invitation))
            && (forall k :: k in m.notifications <==>
                  k in t.notifications
                  && !(t.notifications[k].document.Some? && t.notifications[k].document.value in gone))
            && (forall k | k in m.notifications ::
                  m.notifications[k] == t.notifications[k].(invitation := m.notifications[k].invitation)
                  && Unlinked(t.notifications[k].invitation, t, m, m.notifications[k].invitation))
  {
  }

  /** The files that go are those of all versions of the documents, and their thumbnails. */
  lemma FilesMeans(t: Tables, ids: set<string>, key: string)
    ensures key in Files(t, ids) <==>
            key != ""
            && (|| (exists v :: v in t.versions && t.versions[v].document in ids && t.versions[v].filePath == key)
                || (exists k :: k in ids && k in t.ledger.documents && t.ledger.documents[k].thumbnail == Some(key)))
  {
  }

  lemma DeleteStaysReferential(t: Tables, gone: set<string>)
    requires Referential(t)
    ensures Referential(DeleteDocuments(t, gone))
  {
    hide DeleteDocuments, Referential;
    SharesStayReferential(t, gone);
    RowsStayReferential(t, gone);
    JoinReferential(t, gone);
  }

  ghost predicate SharesRefer(t: Tables) {
    && (forall k | k in t.shares ::
          t.shares[k].document in t.ledger.documents
          && (t.shares[k].invitation.Some? ==> t.shares[k].invitation.value in t.shareInvitations))
    && (forall k | k in t.notifications ::
          (t.notifications[k].document.Some? ==> t.notifications[k].document.value in t.ledger.documents)
          && (t.notifications[k].invitation.Some? ==> t.notifications[k].invitation.value in t.shareInvitations))
  }

  ghost predicate RowsRefer(t: Tables) {
    && (forall k | k in t.links :: t.links[k].document in t.ledger.documents)
    && (forall k | k in t.versions :: t.versions[k].document in t.ledger.documents)
    && (forall k | k in t.shareInvitations :: t.shareInvitations[k].document in t.ledger.documents)
    && (forall k | k in t.logs :: t.logs[k].document.Some? ==> t.logs[k].document.value in t.ledger.documents)
  }

  lemma SharesStayReferential(t: Tables, gone: set<string>)
    requires Referential(t)
    ensures SharesRefer(DeleteDocuments(t, gone))
  {
  }

  lemma RowsStayReferential(t: Tables, gone: set<string>)
    requires Referential(t)
    ensures RowsRefer(DeleteDocuments(t, gone))
  {
  }

  /** The tables a document deletion does not touch refer as before. */
  lemma JoinReferential(t: Tables, gone: set<string>)
    requires Referential(t) && SharesRefer(DeleteDocuments(t, gone)) && RowsRefer(DeleteDocuments(t, gone))
    ensures Referential(DeleteDocuments(t, gone))
  {
    hide QuotaIds;
    SameQuotaIds(t.ledger, DeleteDocuments(t, gone).ledger);
  }

  lemma SameQuotaIds(l: Ledger, m: Ledger)
    requires l.quotas == m.quotas
    ensures QuotaIds(l) == QuotaIds(m)
  {
  }

  /** Trashed documents weigh nothing, so dropping any of them leaves every recount as it was. */
  lemma WeightlessGone(l: Ledger, gone: set<string>)
    requires Sound(l) && forall k | k in gone && k in l.documents :: l.documents[k].isDeleted
    ensures Sound(l.(documents := l.documents - gone))
  {
    hide Tally;
    var kept := l.documents - gone;
    var m := l.(documents := kept);
    forall c
      ensures Tally(kept, c) == Tally(l.documents, c)
    {
      TallyIgnores(l.documents, kept, c);
    }
    assert forall c :: Recorded(m, c) == Recorded(l, c);
  }

  /** A purge that was cut short and run again reaches the state of one that was not. */
  lemma RetriedPurge(t: Tables, cutoff: int, gone: set<string>)
    requires gone <= Overdues(t, cutoff)
    ensures var u := DeleteDocuments(t, gone);
            DeleteDocuments(u, Overdues(u, cutoff)) == DeleteDocuments(t, Overdues(t, cutoff))
  {
    OverduesAfter(t, cutoff, gone);
    DeleteTwice(t, gone, Overdues(t, cutoff) - gone);
    assert gone + (Overdues(t, cutoff) - gone) == Overdues(t, cutoff);
  }
}
