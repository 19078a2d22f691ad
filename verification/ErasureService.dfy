/** The erasure transaction: its statements, in order, inside the caller's transaction. */
module ErasureService {
  import opened Wrappers
  import opened Ledgers
  import opened Accounting
  import opened QuotaRuns
  import opened Databases
  import opened QuotaService
  import opened Erasure

  /** What one erasure did, row counts only. */
  datatype Report = Report(
    // deleted
    collaborationSessions: nat, elementLocks: nat, asyncJobs: nat, shareNotifications: nat, documentShares: nat,
    shareInvitations: nat, storedDocuments: nat, activityLogs: nat, tenants: nat, tenantInvitations: nat,
    tenantDocuments: nat, tenantMembers: nat, userQuotas: nat, users: nat,
    // anonymized
    maskedVersions: nat, maskedShares: nat, maskedLogs: nat, relinkedDocuments: nat
  )

  const NOTHING := Report(0, 0, 0, 0, 0, 0, 0, 0, 0, 0, 0, 0, 0, 0, 0, 0, 0, 0)

  /** The user's active documents, as the SELECT lists them. */
  method ListActive(docs: Documents, user: string) returns (ids: seq<string>)
    ensures forall k :: k in ids <==> k in docs && docs[k].owner == user && !docs[k].isDeleted
    ensures forall i, j | 0 <= i < j < |ids| :: ids[i] != ids[j]
  {
    ids := [];
    var wanted := set k | k in docs && docs[k].owner == user && !docs[k].isDeleted;
    var pending := wanted;
    while pending != {}
      invariant pending <= wanted
      invariant forall k :: k in ids <==> k in wanted && k !in pending
      invariant forall i, j | 0 <= i < j < |ids| :: ids[i] != ids[j]
    {
      var k :| k in pending;
      pending := pending - {k};
      ids := ids + [k];
    }
  }

  /** The active documents leave the counter recorded on each of them. */
  method ReleaseOwned(db: Database, user: string) returns (ghost active: seq<string>)
    requires Attributed(db.tables.ledger)
    modifies db
    ensures db.tables == old(db.tables).(ledger := db.tables.ledger)
    ensures OwnedBy(old(db.tables.ledger), active, user)
    ensures forall i, j | 0 <= i < j < |active| :: active[i] != active[j]
    ensures Settled(old(db.tables.ledger), Rows(old(db.tables.ledger.documents), active), db.tables.ledger)
    ensures db.tables.ledger.documents == old(db.tables.ledger.documents)
  {
    var docs := db.tables.ledger.documents;
    var ids := ListActive(docs, user);
    var rows := seq(|ids|, i requires 0 <= i < |ids| => docs[ids[i]]);
    active := ids;
    assert rows == Rows(docs, ids);
    var ok := ReleaseDocuments(db, rows);
  }

  // ---- Statements on the sharing tables -----------------------------------------

  function ActivitiesOf(rows: map<nat, Activity>, kind: Kind, user: string, owned: set<string>): set<nat> {
    set k | k in rows && rows[k].kind == kind && (rows[k].user == user || Refers(rows[k].document, owned))
  }

  method EraseActivities(db: Database, who: Identity, owned: set<string>, report: Report) returns (r: Report)
    modifies db
    ensures db.tables == old(db.tables).(activities := KeptActivities(old(db.tables.activities), who.user, owned))
    ensures var rows := old(db.tables.activities);
            r == report.(collaborationSessions := |ActivitiesOf(rows, SessionRow, who.user, owned)|,
                         elementLocks := |ActivitiesOf(rows, LockRow, who.user, owned)|,
                         asyncJobs := |ActivitiesOf(rows, JobRow, who.user, owned)|)
    ensures db.tables.activities == old(db.tables.activities) && report == NOTHING ==> r == NOTHING
  {
    var rows := db.tables.activities;
    var gone := set k | k in rows && (rows[k].user == who.user || Refers(rows[k].document, owned));
    var sessions := set k | k in gone && rows[k].kind.SessionRow?;
    var locks := set k | k in gone && rows[k].kind.LockRow?;
    var jobs := set k | k in gone && rows[k].kind.JobRow?;
    assert sessions == ActivitiesOf(rows, SessionRow, who.user, owned)
           && locks == ActivitiesOf(rows, LockRow, who.user, owned);
    assert jobs == ActivitiesOf(rows, JobRow, who.user, owned);
    r := report.(collaborationSessions := |sessions|, elementLocks := |locks|, asyncJobs := |jobs|);
    db.tables := db.tables.(activities := rows - gone);
    assert db.tables.activities == KeptActivities(rows, who.user, owned);
    assert db.tables.activities == rows ==> gone == {} by {
      assert (rows - gone).Keys == rows.Keys - gone;
    }
  }

  function MaskedVersions(rows: map<nat, Version>, user: string): map<nat, Version> {
    map k | k in rows :: rows[k].(createdBy := Mask(rows[k].createdBy, user))
  }

  function MaskedShares(rows: map<nat, Share>, user: string): map<nat, Share> {
    map k | k in rows :: rows[k].(createdBy := Mask(rows[k].createdBy, user),
                                  revokedBy := MaskOption(rows[k].revokedBy, user))
  }

  function MaskedLogs(rows: map<nat, Log>, user: string): map<nat, Log> {
    map k | k in rows :: MaskLog(rows[k], user)
  }

  /** The rows each statement on grants touches, in statement order. */
  datatype Grants = Grants(notes: set<nat>, shares: set<nat>, invitations: set<nat>, versions: set<nat>,
                           created: set<nat>, revoked: set<nat>)

  function GrantsOf(t: Tables, who: Identity): Grants {
    var shares := set k | k in t.shares && t.shares[k].sharedWith == Some(who.user);
    Grants((set k | k in t.notifications && t.notifications[k].user == who.user),
           shares,
           (set k | k in t.shareInvitations && NamesInvitation(t.shareInvitations[k], who)),
           (set k | k in t.versions && t.versions[k].createdBy == who.user),
           (set k | k in t.shares && k !in shares && t.shares[k].createdBy == who.user),
           (set k | k in t.shares && k !in shares && t.shares[k].revokedBy == Some(who.user)))
  }

  /** Notifications, shares and invitations addressed to the user; the user's footprint on others' rows. */
  method EraseGrants(db: Database, who: Identity, report: Report) returns (r: Report)
    modifies db
    ensures db.tables == GrantsErased(old(db.tables), who)
    ensures var g := GrantsOf(old(db.tables), who);
            r == report.(shareNotifications := |g.notes|, documentShares := |g.shares|,
                         shareInvitations := |g.invitations|,
                         maskedVersions := |g.versions|, maskedShares := |g.created| + |g.revoked|)
    ensures NoTrace(old(db.tables), who) && report == NOTHING ==> r == NOTHING
  {
    hide NoTrace, MaskedVersions, MaskedShares, DeleteShareInvitations;
    var g := GrantsOf(db.tables, who);
    NoGrants(db.tables, who);
    r := report.(shareNotifications := |g.notes|, documentShares := |g.shares|,
                 shareInvitations := |g.invitations|, maskedVersions := |g.versions|,
                 maskedShares := |g.created| + |g.revoked|);
    db.tables := db.tables.(notifications := db.tables.notifications - g.notes);
    db.tables := db.tables.(shares := db.tables.shares - g.shares);
    db.tables := DeleteShareInvitations(db.tables, g.invitations);
    db.tables := db.tables.(versions := MaskedVersions(db.tables.versions, who.user));
    db.tables := db.tables.(shares := MaskedShares(db.tables.shares, who.user));
  }

  lemma NoGrants(t: Tables, who: Identity)
    ensures NoTrace(t, who) ==> GrantsOf(t, who) == Grants({}, {}, {}, {}, {}, {})
  {
  }

  function GrantsErased(t: Tables, who: Identity): Tables {
    var g := GrantsOf(t, who);
    var u := DeleteShareInvitations(t.(notifications := t.notifications - g.notes, shares := t.shares - g.shares),
                                    g.invitations);
    u.(versions := MaskedVersions(u.versions, who.user), shares := MaskedShares(u.shares, who.user))
  }

  function PersonalLogs(logs: map<nat, Log>, user: string): set<nat> {
    set k | k in logs && PurelyPersonal(logs[k], user)
  }

  /** The user's log rows tied to a document or an organization. */
  function SharedLogs(logs: map<nat, Log>, user: string): set<nat> {
    set k | k in logs && logs[k].user == user && !PurelyPersonal(logs[k], user)
  }

  method EraseLogs(db: Database, who: Identity, report: Report) returns (r: Report)
    modifies db
    ensures db.tables == LogsErased(old(db.tables), who.user)
    ensures r == report.(activityLogs := |PersonalLogs(old(db.tables.logs), who.user)|,
                         maskedLogs := |SharedLogs(old(db.tables.logs), who.user)|)
    ensures NoTrace(old(db.tables), who) && report == NOTHING ==> r == NOTHING
  {
    var t := db.tables;
    var gone := PersonalLogs(t.logs, who.user);
    var masked := SharedLogs(t.logs, who.user);
    r := report.(activityLogs := |gone|, maskedLogs := |masked|);
    db.tables := db.tables.(logs := db.tables.logs - gone);
    db.tables := db.tables.(logs := MaskedLogs(db.tables.logs, who.user));
    if NoTrace(t, who) {
      assert gone == {} && masked == {};
    }
  }

  function LogsErased(t: Tables, user: string): Tables {
    t.(logs := MaskedLogs(t.logs - PersonalLogs(t.logs, user), user))
  }

  function KeptActivities(rows: map<nat, Activity>, user: string, owned: set<string>): map<nat, Activity> {
    map k | k in rows && rows[k].user != user && !Refers(rows[k].document, owned) :: rows[k]
  }

  /** The statements on the sharing tables, in order. */
  function SharingDone(t: Tables, who: Identity): Tables {
    var owned := Owned(t, who.user);
    var a := t.(activities := KeptActivities(t.activities, who.user, owned));
    LogsErased(DeleteDocuments(GrantsErased(a, who), owned), who.user)
  }

  lemma SharingDoneErases(t: Tables, who: Identity)
    ensures SharingErased(t, who, SharingDone(t, who))
  {
    InvitationsDone(t, who);
    SharesDone(t, who);
    NotificationsDone(t, who);
    VersionsDone(t, who);
    LogsDone(t, who);
    ActivitiesDone(t, who);
    hide SharingDone, KeptInvitations;
  }

  lemma VersionsDone(t: Tables, who: Identity)
    ensures SharingDone(t, who).versions ==
            map k | k in t.versions && t.versions[k].document !in Owned(t, who.user) ::
              t.versions[k].(createdBy := Mask(t.versions[k].createdBy, who.user))
  {
  }

  lemma LogsDone(t: Tables, who: Identity)
    ensures SharingDone(t, who).logs ==
            map k | k in t.logs && !PurelyPersonal(t.logs[k], who.user)
              && !Refers(t.logs[k].document, Owned(t, who.user)) ::
              MaskLog(t.logs[k], who.user)
  {
  }

  lemma ActivitiesDone(t: Tables, who: Identity)
    ensures SharingDone(t, who).activities ==
            map k | k in t.activities && t.activities[k].user != who.user
                    && !Refers(t.activities[k].document, Owned(t, who.user)) :: t.activities[k]
  {
  }

  lemma InvitationsDone(t: Tables, who: Identity)
    ensures SharingDone(t, who).shareInvitations == KeptInvitations(t, who, Owned(t, who.user))
  {
  }

  lemma SharesDone(t: Tables, who: Identity)
    ensures var m := SharingDone(t, who);
            var gone := t.shareInvitations.Keys - m.shareInvitations.Keys;
            m.shares == map k | k in t.shares && t.shares[k].sharedWith != Some(who.user)
                              && t.shares[k].document !in Owned(t, who.user) ::
                          t.shares[k].(createdBy := Mask(t.shares[k].createdBy, who.user),
                                       revokedBy := MaskOption(t.shares[k].revokedBy, who.user),
                                       invitation := Unlink(t.shares[k].invitation, gone))
  {
    InvitationsDone(t, who);
    ShareRows(t, who);
    forall k | k in SharingDone(t, who).shares
      ensures SharingDone(t, who).shares[k] ==
              t.shares[k].(createdBy := Mask(t.shares[k].createdBy, who.user),
                           revokedBy := MaskOption(t.shares[k].revokedBy, who.user),
                           invitation := Unlink(t.shares[k].invitation,
                                                t.shareInvitations.Keys - SharingDone(t, who).shareInvitations.Keys))
    {
      ShareRow(t, who, k);
    }
    hide SharingDone;
  }

  lemma ShareRows(t: Tables, who: Identity)
    ensures SharingDone(t, who).shares.Keys ==
            set k | k in t.shares && t.shares[k].sharedWith != Some(who.user)
                    && t.shares[k].document !in Owned(t, who.user)
  {
  }

  lemma ShareRow(t: Tables, who: Identity, k: nat)
    requires k in SharingDone(t, who).shares
    ensures k in t.shares
    ensures SharingDone(t, who).shares[k] ==
            t.shares[k].(createdBy := Mask(t.shares[k].createdBy, who.user),
                         revokedBy := MaskOption(t.shares[k].revokedBy, who.user),
                         invitation := Unlink(t.shares[k].invitation,
                                              t.shareInvitations.Keys - SharingDone(t, who).shareInvitations.Keys))
  {
    InvitationsDone(t, who);
  }

  lemma NotificationsDone(t: Tables, who: Identity)
    ensures var m := SharingDone(t, who);
            var gone := t.shareInvitations.Keys - m.shareInvitations.Keys;
            m.notifications == map k | k in t.notifications && t.notifications[k].user != who.user
                                     && !Refers(t.notifications[k].document, Owned(t, who.user)) ::
                                 t.notifications[k].(invitation := Unlink(t.notifications[k].invitation, gone))
  {
    InvitationsDone(t, who);
  }

  // ---- Statements on the tenancy tables -------------------------------------------

  /** SELECT the organization's other owner ORDER BY joined_at LIMIT 1. */
  method FindFirstOwner(members: Members, ids: set<nat>, tenant: string) returns (seat: Option<nat>)
    ensures seat.None? ==> !HasOwner(members, ids, tenant)
    ensures seat.Some? ==> FirstOwner(members, ids, tenant, seat.value)
  {
    seat := None;
    var pending := set k | k in members && OwnerSeat(members, ids, tenant, k.1) && k.0 == tenant;
    ghost var all := pending;
    assert forall s: nat :: OwnerSeat(members, ids, tenant, s) <==> (tenant, s) in all;
    while pending != {}
      invariant pending <= all
      invariant seat.None? ==> pending == all
      invariant seat.Some? ==> OwnerSeat(members, ids, tenant, seat.value)
                               && forall s | (tenant, s) in all && (tenant, s) !in pending ::
                                    members[(tenant, seat.value)].joinedAt <= members[(tenant, s)].joinedAt
    {
      var k :| k in pending;
      pending := pending - {k};
      if seat.None? || members[k].joinedAt < members[(tenant, seat.value)].joinedAt {
        seat := Some(k.1);
      }
    }
  }

  function AddedBy(links: map<nat, Link>, ids: set<nat>): set<nat> {
    set k | k in links && links[k].addedBy in ids
  }

  /** The links of these ids are passed on or gone, the others as they were. */
  ghost predicate RelinkedSo(links: map<nat, Link>, members: Members, ids: set<nat>, done: set<nat>, m: map<nat, Link>)
  {
    && (forall k :: k in m <==> k in links && (k in done ==> HasOwner(members, ids, links[k].tenant)))
    && forall k | k in m ::
         if k in done
         then m[k] == links[k].(addedBy := m[k].addedBy) && FirstOwner(members, ids, links[k].tenant, m[k].addedBy)
         else m[k] == links[k]
  }

  lemma RelinkedOne(links: map<nat, Link>, members: Members, ids: set<nat>, done: set<nat>, m: map<nat, Link>, k: nat,
                    seat: Option<nat>)
    requires RelinkedSo(links, members, ids, done, m) && k in links && k !in done
    requires if seat.Some? then FirstOwner(members, ids, links[k].tenant, seat.value)
             else !HasOwner(members, ids, links[k].tenant)
    ensures k in m && m[k] == links[k]
    ensures RelinkedSo(links, members, ids, done + {k},
                       if seat.Some? then m[k := links[k].(addedBy := seat.value)] else m - {k})
  {
    hide OwnerSeat;
    assert seat.Some? ==> HasOwner(members, ids, links[k].tenant) by {
      if seat.Some? {
        SeatIsOwner(members, ids, links[k].tenant, seat.value);
      }
    }
  }

  lemma SeatIsOwner(members: Members, ids: set<nat>, tenant: string, seat: nat)
    requires FirstOwner(members, ids, tenant, seat)
    ensures HasOwner(members, ids, tenant)
  {
  }

  /** Each link the user added passes to the organization's owner, or goes without one. */
  method ReassignLinks(links: map<nat, Link>, members: Members, ids: set<nat>)
    returns (m: map<nat, Link>, reassigned: nat, removed: nat)
    ensures Relinked(links, members, ids, m)
    ensures removed == |links| - |m| && reassigned + removed == |AddedBy(links, ids)|
    ensures (forall k | k in links :: links[k].addedBy !in ids) ==> reassigned == removed == 0
  {
    hide RelinkedSo, HasOwner, FirstOwner, Relinked;
    m, reassigned, removed := links, 0, 0;
    var pending := AddedBy(links, ids);
    ghost var all := pending;
    RelinkedNone(links, members, ids);
    assert all - pending == {};
    while pending != {}
      invariant pending <= all && reassigned + removed + |pending| == |all| && removed == |links| - |m|
      invariant RelinkedSo(links, members, ids, all - pending, m)
    {
      var k :| k in pending;
      var seat := FindFirstOwner(members, ids, links[k].tenant);
      ghost var before := m;
      RelinkedOne(links, members, ids, all - pending, m, k, seat);
      if seat.None? {
        m := m - {k};
        removed := removed + 1;
      } else {
        m := m[k := links[k].(addedBy := seat.value)];
        reassigned := reassigned + 1;
      }
      Fewer(before, k, m);
      assert all - (pending - {k}) == all - pending + {k};
      pending := pending - {k};
    }
    assert all - pending == all;
    RelinkedAll(links, members, ids, m);
  }

  lemma RelinkedNone(links: map<nat, Link>, members: Members, ids: set<nat>)
    ensures RelinkedSo(links, members, ids, {}, links)
  {
  }

  lemma RelinkedAll(links: map<nat, Link>, members: Members, ids: set<nat>, m: map<nat, Link>)
    requires RelinkedSo(links, members, ids, AddedBy(links, ids), m)
    ensures Relinked(links, members, ids, m)
  {
  }

  lemma Fewer(before: map<nat, Link>, k: nat, m: map<nat, Link>)
    requires k in before
    ensures m == before - {k} ==> |m| == |before| - 1
    ensures k in m && m == before[k := m[k]] ==> |m| == |before|
  {
    assert |before| == |before.Keys| && |m| == |m.Keys|;
    if m == before - {k} {
      assert m.Keys == before.Keys - {k};
    }
    if k in m && m == before[k := m[k]] {
      assert m.Keys == before.Keys;
    }
  }

  function LinksOutside(links: map<nat, Link>, doomed: set<string>): map<nat, Link> {
    map k | k in links && links[k].tenant !in doomed :: links[k]
  }

  lemma CountGone<K, V>(before: map<K, V>, gone: set<K>, after: map<K, V>)
    requires gone <= before.Keys && after.Keys == before.Keys - gone
    ensures |gone| == |before| - |after|
  {
    assert before.Keys == after.Keys + gone;
    assert |before| == |before.Keys| && |after| == |after.Keys|;
  }

  function MembersOutside(members: Members, doomed: set<string>): Members {
    map k | k in members && k.0 !in doomed :: members[k]
  }

  function InvitationsOutside(invitations: map<nat, TenantInvitation>, doomed: set<string>)
    : map<nat, TenantInvitation> {
    map k | k in invitations && invitations[k].tenant !in doomed :: invitations[k]
  }

  /** Nothing but the books and the tenancy tables. */
  ghost predicate OnlyTenancy(t: Tables, m: Tables) {
    m == t.(ledger := m.ledger, members := m.members, links := m.links, invitations := m.invitations)
  }

  ghost predicate TenantsDropped(l: Ledger, doomed: set<string>, m: Ledger) {
    exists handed :: HandedOver(l, doomed, handed) && m == handed.(tenants := handed.tenants - doomed)
  }

  /** Former members' documents move to their owners' quotas; then the organizations go. */
  method DropTenants(db: Database, doomed: set<string>) returns (deleted: nat)
    modifies db
    ensures OnlyTenancy(old(db.tables), db.tables)
    ensures TenantsDropped(old(db.tables.ledger), doomed, db.tables.ledger)
    ensures db.tables.members == MembersOutside(old(db.tables.members), doomed)
    ensures db.tables.links == LinksOutside(old(db.tables.links), doomed)
    ensures db.tables.invitations == InvitationsOutside(old(db.tables.invitations), doomed)
    ensures deleted == |old(db.tables.ledger.tenants)| - |db.tables.ledger.tenants|
    ensures doomed == {} ==> deleted == 0
  {
    var gone := set x | x in doomed && x in db.tables.ledger.tenants;
    deleted := |gone|;
    HandOverTenantDocuments(db, doomed);
    HandedReferences(old(db.tables.ledger), doomed, db.tables.ledger);
    hide HandedOver;
    var result := DeleteTenants(db.tables, doomed);
    db.tables := result.value;
    CountGone(old(db.tables.ledger.tenants), gone, db.tables.ledger.tenants);
  }

  lemma HandedReferences(l: Ledger, doomed: set<string>, m: Ledger)
    requires HandedOver(l, doomed, m)
    ensures forall k | k in m.documents :: !Refers(m.documents[k].tenant, doomed)
  {
  }

  method EraseTenancy(db: Database, who: Identity, doomed: set<string>, report: Report) returns (r: Report)
    modifies db
    ensures OnlyTenancy(old(db.tables), db.tables)
    ensures TenantsDropped(old(db.tables.ledger), doomed, db.tables.ledger)
    ensures db.tables.members == map k | k in old(db.tables.members) && k.0 !in doomed && k.1 !in who.quotaIds ::
                                   old(db.tables.members)[k]
    ensures db.tables.invitations == map k | k in old(db.tables.invitations)
                                             && old(db.tables.invitations)[k].tenant !in doomed
                                             && !NamesTenantInvitation(old(db.tables.invitations)[k], who) ::
                                       old(db.tables.invitations)[k]
    ensures Relinked(LinksOutside(old(db.tables.links), doomed), old(db.tables.members), who.quotaIds, db.tables.links)
    ensures var t, m := old(db.tables), db.tables;
            && r.tenants == |t.ledger.tenants| - |m.ledger.tenants|
            && r.tenantMembers == |MembersOutside(t.members, doomed)| - |m.members|
            && r.tenantInvitations == |InvitationsOutside(t.invitations, doomed)| - |m.invitations|
            && r.tenantDocuments == |LinksOutside(t.links, doomed)| - |m.links|
            && r.relinkedDocuments + r.tenantDocuments == |AddedBy(LinksOutside(t.links, doomed), who.quotaIds)|
    ensures NoTrace(old(db.tables), who) && doomed == {} && report == NOTHING ==> r == NOTHING
  {
    hide TenantsDropped, HandedOver, NoTrace, MembersOutside, InvitationsOutside, LinksOutside, Relinked, AddedBy,
      NamesTenantInvitation;
    var tenants := DropTenants(db, doomed);
    var t := db.tables;
    TenancyRows(old(db.tables), t, who, doomed);
    var invitations := set k | k in t.invitations && NamesTenantInvitation(t.invitations[k], who);
    db.tables := db.tables.(invitations := t.invitations - invitations);
    var links, reassigned, removed := ReassignLinks(t.links, t.members, who.quotaIds);
    OutsideMeans(old(db.tables), doomed);
    SameOwners(old(db.tables.members), doomed, t.members, who.quotaIds, t.links, links);
    var members := set k | k in t.members && k.1 in who.quotaIds;
    assert NoTrace(old(db.tables), who) ==> invitations == {} && members == {};
    db.tables := db.tables.(links := links, members := t.members - members);
    CountGone(t.invitations, invitations, db.tables.invitations);
    CountGone(t.members, members, db.tables.members);
    r := report.(tenants := tenants, tenantInvitations := |invitations|, tenantDocuments := removed,
                 tenantMembers := |members|, relinkedDocuments := reassigned);
  }

  lemma OutsideMeans(t: Tables, doomed: set<string>)
    ensures MembersOutside(t.members, doomed) == map k | k in t.members && k.0 !in doomed :: t.members[k]
    ensures forall k | k in LinksOutside(t.links, doomed) :: LinksOutside(t.links, doomed)[k].tenant !in doomed
  {
  }

  /** What the deletion of the organizations leaves, less the user's rows. */
  lemma TenancyRows(before: Tables, t: Tables, who: Identity, doomed: set<string>)
    requires t.members == MembersOutside(before.members, doomed)
    requires t.invitations == InvitationsOutside(before.invitations, doomed)
    requires t.links == LinksOutside(before.links, doomed)
    ensures t.members - (set k | k in t.members && k.1 in who.quotaIds)
            == map k | k in before.members && k.0 !in doomed && k.1 !in who.quotaIds :: before.members[k]
    ensures t.invitations - (set k | k in t.invitations && NamesTenantInvitation(t.invitations[k], who))
            == map k | k in before.invitations && before.invitations[k].tenant !in doomed
                       && !NamesTenantInvitation(before.invitations[k], who) :: before.invitations[k]
    ensures NoTrace(before, who)
            ==> && (forall k | k in t.members :: k.1 !in who.quotaIds)
                && (forall k | k in t.invitations :: !NamesTenantInvitation(t.invitations[k], who))
                && (forall k | k in t.links :: t.links[k].addedBy !in who.quotaIds)
  {
    hide NamesTenantInvitation;
  }

  /** In an organization that stays, the owners are those it had before the others went. */
  lemma SameOwners(before: Members, doomed: set<string>, after: Members, ids: set<nat>, links: map<nat, Link>,
                   m: map<nat, Link>)
    requires after == map k | k in before && k.0 !in doomed :: before[k]
    requires Relinked(links, after, ids, m) && forall k | k in links :: links[k].tenant !in doomed
    ensures Relinked(links, before, ids, m)
  {
    forall k, seat | k in links
      ensures OwnerSeat(before, ids, links[k].tenant, seat) <==> OwnerSeat(after, ids, links[k].tenant, seat)
    {
    }
    forall k | k in links
      ensures HasOwner(before, ids, links[k].tenant) <==> HasOwner(after, ids, links[k].tenant)
    {
      if HasOwner(before, ids, links[k].tenant) {
        var seat :| OwnerSeat(before, ids, links[k].tenant, seat);
        assert OwnerSeat(after, ids, links[k].tenant, seat);
      }
    }
  }

  // ---- The whole transaction ------------------------------------------------------

  /** Refused while another row names the quota. */
  method EraseQuota(db: Database, who: Identity) returns (ok: bool, deleted: nat)
    modifies db
    ensures var t := old(db.tables);
            && (ok <==> !(who.user in t.ledger.quotas && NamesQuota(t, t.ledger.quotas[who.user].id)))
            && db.tables == if ok then t.(ledger := t.ledger.(quotas := t.ledger.quotas - {who.user})) else t
    ensures deleted == if ok && who.user in old(db.tables.ledger.quotas) then 1 else 0
  {
    var result := DeleteQuota(db.tables, who.user);
    ok := result.Some?;
    deleted := if ok && who.user in db.tables.ledger.quotas then 1 else 0;
    if ok {
      db.tables := result.value;
    }
  }

  /** The states the transaction goes through: documents freed, sharing and documents
      erased, tenancy erased. */
  ghost predicate Stages(t: Tables, who: Identity, doomed: set<string>, active: seq<string>,
                         t1: Tables, t2: Tables, t3: Tables) {
    && t1 == t.(ledger := t1.ledger)
    && OwnedBy(t.ledger, active, who.user)
    && (forall i, j | 0 <= i < j < |active| :: active[i] != active[j])
    && Settled(t.ledger, Rows(t.ledger.documents, active), t1.ledger)
    && t2 == SharingDone(t1, who)
    && OnlyTenancy(t2, t3)
    && TenantsDropped(t2.ledger, doomed, t3.ledger)
    && t3.members == (map k | k in t2.members && k.0 !in doomed && k.1 !in who.quotaIds :: t2.members[k])
    && t3.invitations == (map k | k in t2.invitations && t2.invitations[k].tenant !in doomed
                                  && !NamesTenantInvitation(t2.invitations[k], who) :: t2.invitations[k])
    && Relinked(LinksOutside(t2.links, doomed), t2.members, who.quotaIds, t3.links)
  }

  /** What SharingDone leaves of the other tables. */
  lemma SharingDoneRest(t: Tables, who: Identity)
    ensures var m, owned := SharingDone(t, who), Owned(t, who.user);
            && m.ledger == t.ledger.(documents := NotOwned(t.ledger.documents, who.user))
            && m.members == t.members && m.invitations == t.invitations && m.users == t.users
            && m.links == (map k | k in t.links && t.links[k].document !in owned :: t.links[k])
  {
    assert t.ledger.documents - Owned(t, who.user) == NotOwned(t.ledger.documents, who.user);
  }

  /** No row names the user's quota once the tenancy statements ran, so its row may go: an
      id that was loaded was scrubbed, a row opened on the way is nowhere named. */
  lemma QuotaUnnamed(t: Tables, who: Identity, doomed: set<string>, active: seq<string>,
                     t1: Tables, t2: Tables, t3: Tables)
    requires LoadIdentity(t, who.user).quotaIds <= who.quotaIds && Referential(t) && DistinctIds(t.ledger)
    requires Stages(t, who, doomed, active, t1, t2, t3)
    ensures who.user in t3.ledger.quotas ==> !NamesQuota(t3, t3.ledger.quotas[who.user].id)
  {
    hide SharingDone, Settled, HandedOver, Referential, Relinked;
    SharingDoneRest(t1, who);
    QuotaRow(t.ledger, Rows(t.ledger.documents, active), t1.ledger, t2.ledger, doomed, t3.ledger, who.user);
    OldReferences(t);
    RelinkedAdders(LinksOutside(t2.links, doomed), t2.members, who.quotaIds, t3.links, t.ledger.nextId);
  }

  lemma RelinkedAdders(links: map<nat, Link>, members: Members, ids: set<nat>, m: map<nat, Link>, bound: nat)
    requires Relinked(links, members, ids, m)
    requires (forall k | k in members :: k.1 < bound) && forall k | k in links :: links[k].addedBy < bound
    ensures forall k | k in m :: m[k].addedBy !in ids && m[k].addedBy < bound
  {
    forall k | k in m
      ensures m[k].addedBy !in ids && m[k].addedBy < bound
    {
      if links[k].addedBy in ids {
        assert (links[k].tenant, m[k].addedBy) in members;
      }
    }
  }

  lemma OldReferences(t: Tables)
    requires Referential(t) && DistinctIds(t.ledger)
    ensures forall k | k in t.members :: k.1 < t.ledger.nextId
    ensures forall k | k in t.links :: t.links[k].addedBy < t.ledger.nextId
    ensures forall k | k in t.invitations ::
              t.invitations[k].invitedBy < t.ledger.nextId
              && (t.invitations[k].acceptedBy.Some? ==> t.invitations[k].acceptedBy.value < t.ledger.nextId)
  {
  }

  /** The user's quota row at the end: the one they had, or one opened on the way. */
  lemma QuotaRow(l: Ledger, rows: seq<Document>, l1: Ledger, l2: Ledger, doomed: set<string>, l3: Ledger, user: string)
    requires Settled(l, rows, l1) && TenantsDropped(l2, doomed, l3) && l2 == l1.(documents := l2.documents)
    ensures user in l3.quotas ==>
              if user in l.quotas then l3.quotas[user].id == l.quotas[user].id else l3.quotas[user].id >= l.nextId
    ensures user in l.quotas ==> user in l3.quotas
  {
    hide HandedOver, Settled, SameRows;
    var handed :| HandedOver(l2, doomed, handed) && l3 == handed.(tenants := handed.tenants - doomed);
    HandedRowIds(l2, doomed, handed);
    SettledRowIds(l, rows, l1);
  }

  lemma HandedRowIds(l: Ledger, doomed: set<string>, m: Ledger)
    requires HandedOver(l, doomed, m)
    ensures l.nextId <= m.nextId
    ensures forall u | u in m.quotas ::
              if u in l.quotas then m.quotas[u].id == l.quotas[u].id else m.quotas[u].id >= l.nextId
    ensures forall u | u in l.quotas :: u in m.quotas
  {
  }

  lemma SettledRowIds(l: Ledger, rows: seq<Document>, m: Ledger)
    requires Settled(l, rows, m)
    ensures l.nextId <= m.nextId && m.documents == l.documents
    ensures forall u | u in m.quotas ::
              if u in l.quotas then m.quotas[u].id == l.quotas[u].id else m.quotas[u].id >= l.nextId
    ensures forall u | u in l.quotas :: u in m.quotas
  {
  }

  /** Statement by statement, the transaction leaves exactly the erased tables. */
  lemma RowsErased(t: Tables, who: Identity, doomed: set<string>, active: seq<string>,
                   t1: Tables, t2: Tables, t3: Tables, m: Tables)
    requires Stages(t, who, doomed, active, t1, t2, t3)
    requires who.user in t3.ledger.quotas ==> !NamesQuota(t3, t3.ledger.quotas[who.user].id)
    requires m == t3.(ledger := t3.ledger.(quotas := t3.ledger.quotas - {who.user}), users := t3.users - {who.user})
    ensures Erased(t, who, doomed, m)
  {
    hide SharingDone, Settled, TenantsDropped, Relinked, SharingErased, Forgot, TenancyErased, NamesQuota;
    SharingDoneRest(t1, who);
    SettledRowIds(t.ledger, Rows(t.ledger.documents, active), t1.ledger);
    BooksForgot(t.ledger, who.user, doomed, active, t1.ledger, t2.ledger, t3.ledger);
    SharingDoneErases(t1, who);
    SharingSame(t1, who, t2, t, m);
    TenancyDone(t, who, doomed, active, t1, t2, t3, m);
    QuotaRow(t.ledger, Rows(t.ledger.documents, active), t1.ledger, t2.ledger, doomed, t3.ledger, who.user);
    SameReferences(t3, m);
  }

  lemma SameReferences(a: Tables, b: Tables)
    requires a.members == b.members && a.links == b.links && a.invitations == b.invitations
    ensures forall id :: NamesQuota(a, id) <==> NamesQuota(b, id)
  {
  }

  lemma TenancyDone(t: Tables, who: Identity, doomed: set<string>, active: seq<string>,
                    t1: Tables, t2: Tables, t3: Tables, m: Tables)
    requires Stages(t, who, doomed, active, t1, t2, t3) && t1.ledger.documents == t.ledger.documents
    requires m.members == t3.members && m.invitations == t3.invitations && m.links == t3.links
    ensures TenancyErased(t, who, doomed, m)
  {
    hide SharingDone, Settled, TenantsDropped, Relinked;
    SharingDoneRest(t1, who);
    assert KeptLinks(t, Owned(t, who.user), doomed) == LinksOutside(t2.links, doomed);
  }

  lemma BooksForgot(l: Ledger, user: string, doomed: set<string>, active: seq<string>, l1: Ledger, l2: Ledger,
                    l3: Ledger)
    requires OwnedBy(l, active, user)
    requires forall i, j | 0 <= i < j < |active| :: active[i] != active[j]
    requires Settled(l, Rows(l.documents, active), l1) && TenantsDropped(l2, doomed, l3)
    requires l2 == l1.(documents := NotOwned(l.documents, user))
    ensures Forgot(l, user, doomed, active, l3.(quotas := l3.quotas - {user}))
  {
    hide Settled, HandedOver;
    var handed :| HandedOver(l2, doomed, handed) && l3 == handed.(tenants := handed.tenants - doomed);
    assert FreedAs(l, active, NotOwned(l.documents, user), l1, l2);
  }

  lemma SharingSame(t1: Tables, who: Identity, t2: Tables, t: Tables, m: Tables)
    requires SharingErased(t1, who, t2)
    requires Owned(t, who.user) == Owned(t1, who.user)
    requires t.shareInvitations == t1.shareInvitations && m.shareInvitations == t2.shareInvitations
    requires t.versions == t1.versions && m.versions == t2.versions
    requires t.shares == t1.shares && m.shares == t2.shares
    requires t.notifications == t1.notifications && m.notifications == t2.notifications
    requires t.logs == t1.logs && m.logs == t2.logs
    requires t.activities == t1.activities && m.activities == t2.activities
    ensures SharingErased(t, who, m)
  {
  }

  lemma HeadIsIn(s: seq<string>)
    ensures s == [] || s[0] in s
  {
  }

  /** A run on a user already erased finds nothing to release... */
  lemma NothingOwned(t: Tables, who: Identity, active: seq<string>, t1: Tables)
    requires OwnedBy(t.ledger, active, who.user) && t1 == t.(ledger := t1.ledger)
    requires Settled(t.ledger, Rows(t.ledger.documents, active), t1.ledger)
    ensures NoTrace(t, who) ==> Owned(t, who.user) == {} && NoTrace(t1, who)
  {
    if NoTrace(t, who) {
      HeadIsIn(active);
      assert PersonalOwners(Rows(t.ledger.documents, active)) == {};
    }
  }

  /** ... and nothing at any statement. */
  lemma NothingLeft(t: Tables, who: Identity, t1: Tables, a: Tables, g: Tables, d: Tables)
    requires NoTrace(t1, who) && t1 == t.(ledger := t1.ledger)
    requires a == t1.(activities := KeptActivities(t1.activities, who.user, {}))
    requires g == GrantsErased(a, who) && d == DeleteDocuments(g, {})
    ensures a.activities == t1.activities && NoTrace(a, who) && NoTrace(d, who)
  {
    hide GrantsErased, DeleteDocuments;
    assert NoTrace(a, who);
    GrantsKeepNoTrace(a, who);
    DeletedKeepsNoTrace(g, who);
  }

  lemma GrantsKeepNoTrace(t: Tables, who: Identity)
    requires NoTrace(t, who)
    ensures NoTrace(GrantsErased(t, who), who)
  {
    hide NoTrace;
    NoGrants(t, who);
    GrantsKeepTables(t, who);
    GrantedRows(t, who);
    SameNoTrace(t, GrantsErased(t, who), who);
  }

  lemma GrantsKeepTables(t: Tables, who: Identity)
    ensures var m := GrantsErased(t, who);
            && m.ledger == t.ledger && m.members == t.members && m.links == t.links && m.invitations == t.invitations
            && m.users == t.users && m.logs == t.logs && m.activities == t.activities
  {
  }

  lemma GrantedRows(t: Tables, who: Identity)
    requires GrantsOf(t, who) == Grants({}, {}, {}, {}, {}, {}) && NoTrace(t, who)
    ensures var m := GrantsErased(t, who);
            && (forall k | k in m.versions :: m.versions[k].createdBy != who.user)
            && (forall k | k in m.shares ::
                  m.shares[k].sharedWith != Some(who.user) && m.shares[k].createdBy != who.user
                  && m.shares[k].revokedBy != Some(who.user))
            && (forall k | k in m.shareInvitations :: !NamesInvitation(m.shareInvitations[k], who))
            && (forall k | k in m.notifications :: m.notifications[k].user != who.user)
  {
    hide NamesInvitation, NamesTenantInvitation, GrantsOf;
  }

  lemma SameNoTrace(t: Tables, m: Tables, who: Identity)
    requires NoTrace(t, who)
    requires m.ledger == t.ledger && m.members == t.members && m.links == t.links && m.invitations == t.invitations
             && m.users == t.users && m.logs == t.logs && m.activities == t.activities
    requires forall k | k in m.versions :: m.versions[k].createdBy != who.user
    requires forall k | k in m.shares :: m.shares[k].sharedWith != Some(who.user) && m.shares[k].createdBy != who.user
                                         && m.shares[k].revokedBy != Some(who.user)
    requires forall k | k in m.shareInvitations :: !NamesInvitation(m.shareInvitations[k], who)
    requires forall k | k in m.notifications :: m.notifications[k].user != who.user
    ensures NoTrace(m, who)
  {
  }

  lemma DeletedKeepsNoTrace(t: Tables, who: Identity)
    requires NoTrace(t, who)
    ensures NoTrace(DeleteDocuments(t, {}), who)
  {
  }

  lemma LogsKeepNoTrace(t: Tables, who: Identity)
    requires NoTrace(t, who)
    ensures NoTrace(LogsErased(t, who.user), who)
  {
  }

  /** No quota row is opened when nothing is freed and no organization goes. */
  lemma NoQuotaOpened(l: Ledger, active: seq<string>, l1: Ledger, l2: Ledger, doomed: set<string>, l3: Ledger,
                      user: string)
    requires doomed == {}
    requires OwnedBy(l, active, user) && forall k | k in l.documents :: l.documents[k].owner != user
    requires Settled(l, Rows(l.documents, active), l1)
    requires l2 == l1.(documents := l2.documents) && TenantsDropped(l2, doomed, l3)
    ensures l1.quotas.Keys == l.quotas.Keys && l3.quotas.Keys == l.quotas.Keys
  {
    hide HandedOver;
    HeadIsIn(active);
    var handed :| HandedOver(l2, doomed, handed) && l3 == handed.(tenants := handed.tenants - doomed);
    HandedKeys(l2, doomed, handed);
  }

  lemma HandedKeys(l: Ledger, doomed: set<string>, m: Ledger)
    requires HandedOver(l, doomed, m) && doomed == {}
    ensures m.quotas.Keys == l.quotas.Keys
  {
  }

  /** The statements in order. Only the last can be refused, and only when the user has a
      quota row that is not among those loaded. */
  method EraseRows(db: Database, who: Identity, doomed: set<string>) returns (ok: bool, report: Report)
    requires Referential(db.tables) && DistinctIds(db.tables.ledger)
    modifies db
    ensures LoadIdentity(old(db.tables), who.user).quotaIds <= who.quotaIds ==> ok
    ensures ok ==> Erased(old(db.tables), who, doomed, db.tables)
    ensures NoTrace(old(db.tables), who) && doomed == {} ==> ok && report == NOTHING
  {
    hide Forgot, SharingErased, TenancyErased, Settled, HandedOver, NoTrace, Relinked, NamesQuota, TenantsDropped,
      Erased, GrantsErased, DeleteDocuments, LogsErased, KeptActivities;
    ghost var t := db.tables;
    var owned := Owned(db.tables, who.user);
    ghost var active := ReleaseOwned(db, who.user);
    ghost var t1 := db.tables;
    NothingOwned(t, who, active, t1);
    assert Owned(t1, who.user) == owned;
    report := EraseActivities(db, who, owned, NOTHING);
    ghost var a := db.tables;
    report := EraseGrants(db, who, report);
    ghost var g := db.tables;
    report := report.(storedDocuments := |owned|);
    db.tables := DeleteDocuments(db.tables, owned);
    ghost var d := db.tables;
    if NoTrace(t, who) {
      NothingLeft(t, who, t1, a, g, d);
    }
    report := EraseLogs(db, who, report);
    ghost var t2 := db.tables;
    assert t2 == SharingDone(t1, who);
    report := EraseTenancy(db, who, doomed, report);
    ghost var t3 := db.tables;
    if NoTrace(t, who) && doomed == {} {
      LogsKeepNoTrace(d, who);
      SharingDoneRest(t1, who);
      NoQuotaOpened(t.ledger, active, t1.ledger, t2.ledger, doomed, t3.ledger, who.user);
    }
    if LoadIdentity(t, who.user).quotaIds <= who.quotaIds {
      QuotaUnnamed(t, who, doomed, active, t1, t2, t3);
    }
    var quotas;
    ok, quotas := EraseQuota(db, who);
    if !ok {
      return;
    }
    report := report.(userQuotas := quotas, users := if who.user in db.tables.users then 1 else 0);
    db.tables := db.tables.(users := db.tables.users - {who.user});
    RowsErased(t, who, doomed, active, t1, t2, t3, db.tables);
  }
}
