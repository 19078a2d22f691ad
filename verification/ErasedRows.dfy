/** What an erasure leaves of every table, in its columns: which rows stay, and which of
    their values change. */
module ErasedRows {
  import opened Wrappers
  import opened Ledgers
  import opened Accounting
  import opened QuotaRuns
  import opened Databases
  import opened Erasure
  import opened ErasureService
  import Texts

  /** The document is the user's. */
  predicate OfUser(t: Tables, document: string, user: string) {
    document in t.ledger.documents && t.ledger.documents[document].owner == user
  }

  // ---- The identity -------------------------------------------------------------------------

  /** Upper-case letters become lower case, and nothing else changes. */
  lemma LowerMeans(s: string, i: nat)
    requires i < |s|
    ensures |Lower(s)| == |s|
    ensures if 'A' <= s[i] <= 'Z' then 'a' <= Lower(s)[i] <= 'z' && Lower(s)[i] - 'a' == s[i] - 'A'
            else Lower(s)[i] == s[i]
  {
  }

  /** The addresses of the account and of its quota row, trimmed and in lower case, and the
      row's id. */
  lemma IdentityMeans(t: Tables, user: string, address: string)
    ensures var who := LoadIdentity(t, user);
            && who.user == user
            && (address in who.emails <==>
                 || (user in t.users && t.users[user].Some? && t.users[user].value != ""
                     && Lower(Texts.Strip(t.users[user].value)) == address)
                 || (user in t.ledger.quotas && t.ledger.quotas[user].email.Some?
                     && t.ledger.quotas[user].email.value != ""
                     && Lower(Texts.Strip(t.ledger.quotas[user].email.value)) == address))
            && forall id :: id in who.quotaIds <==> user in t.ledger.quotas && t.ledger.quotas[user].id == id
  {
  }

  // ---- Documents and their rows ---------------------------------------------------------------

  /** Exactly the user's documents go; one that was counted on a doomed organization keeps
      all but that. */
  lemma DocumentsLeft(t: Tables, who: Identity, doomed: set<string>, m: Tables)
    requires Erased(t, who, doomed, m)
    ensures forall k :: k in m.ledger.documents <==> k in t.ledger.documents && !OfUser(t, k, who.user)
    ensures forall k | k in m.ledger.documents ::
              var was, doc := t.ledger.documents[k], m.ledger.documents[k];
              && doc.owner == was.owner && doc.size == was.size && doc.thumbnail == was.thumbnail
              && doc.isDeleted == was.isDeleted && doc.deletedAt == was.deletedAt
              && doc.tenant == if was.tenant.Some? && was.tenant.value in doomed then None else was.tenant
  {
    hide SharingErased, TenancyErased, Settled, SameRows;
    var l := t.ledger;
    var active :| Forgot(l, who.user, doomed, active, m.ledger);
    var freed, left, handed :|
      && FreedAs(l, active, NotOwned(l.documents, who.user), freed, left)
      && HandedOver(left, doomed, handed)
      && m.ledger == handed.(tenants := handed.tenants - doomed, quotas := handed.quotas - {who.user});
    HandedMeans(left, doomed, handed);
  }

  /** Organizations go exactly when doomed, quota rows and identities exactly when the user's. */
  lemma AccountsLeft(t: Tables, who: Identity, doomed: set<string>, m: Tables)
    requires Erased(t, who, doomed, m)
    ensures forall x :: x in m.ledger.tenants <==> x in t.ledger.tenants && x !in doomed
    ensures forall x | x in m.ledger.tenants ::
              m.ledger.tenants[x] == t.ledger.tenants[x].(usage := m.ledger.tenants[x].usage)
    ensures who.user !in m.ledger.quotas
    ensures forall u | u in t.ledger.quotas && u != who.user ::
              u in m.ledger.quotas && m.ledger.quotas[u] == t.ledger.quotas[u].(usage := m.ledger.quotas[u].usage)
    ensures forall u :: u in m.users <==> u in t.users && u != who.user
    ensures forall u | u in m.users :: m.users[u] == t.users[u]
  {
    hide SharingErased, TenancyErased, Settled, SameRows, HandedOver;
    var l := t.ledger;
    var active :| Forgot(l, who.user, doomed, active, m.ledger);
    var freed, left, handed :|
      && FreedAs(l, active, NotOwned(l.documents, who.user), freed, left)
      && HandedOver(left, doomed, handed)
      && m.ledger == handed.(tenants := handed.tenants - doomed, quotas := handed.quotas - {who.user});
    FreedRows(l, active, NotOwned(l.documents, who.user), freed, left);
    HandedRows(left, doomed, handed);
    SameRowsTrans(l, left, handed);
    RowsBut(l, handed);
  }

  lemma RowsBut(a: Ledger, b: Ledger)
    requires SameRows(a, b)
    ensures b.tenants.Keys == a.tenants.Keys && a.quotas.Keys <= b.quotas.Keys
    ensures forall x | x in a.tenants :: b.tenants[x] == a.tenants[x].(usage := b.tenants[x].usage)
    ensures forall u | u in a.quotas :: b.quotas[u] == a.quotas[u].(usage := b.quotas[u].usage)
  {
  }

  /** Versions stay with other users' documents, and lose the user as their creator. */
  lemma VersionsLeft(t: Tables, who: Identity, m: Tables)
    requires SharingErased(t, who, m)
    ensures forall k :: k in m.versions <==> k in t.versions && !OfUser(t, t.versions[k].document, who.user)
    ensures forall k | k in m.versions ::
              && m.versions[k].document == t.versions[k].document && m.versions[k].filePath == t.versions[k].filePath
              && m.versions[k].createdBy
                 == if t.versions[k].createdBy == who.user then ERASED_USER else t.versions[k].createdBy
  {
  }

  /** Activity rows go exactly when they are the user's or on the user's documents. */
  lemma ActivitiesLeft(t: Tables, who: Identity, m: Tables)
    requires SharingErased(t, who, m)
    ensures forall k :: k in m.activities <==>
              k in t.activities && t.activities[k].user != who.user
              && !(t.activities[k].document.Some? && OfUser(t, t.activities[k].document.value, who.user))
    ensures forall k | k in m.activities :: m.activities[k] == t.activities[k]
  {
  }

  /** A log row goes exactly when it is on a document of the user's, or the user's and on
      nothing. Of the user's rows that stay the actor is gone, column by column; every
      other row stays as it was. */
  lemma LogsLeft(t: Tables, who: Identity, m: Tables)
    requires SharingErased(t, who, m)
    ensures forall k :: k in m.logs <==>
              && k in t.logs
              && !(t.logs[k].document.Some? && OfUser(t, t.logs[k].document.value, who.user))
              && !(t.logs[k].user == who.user && t.logs[k].document.None? && t.logs[k].tenant.None?)
    ensures forall k | k in m.logs && t.logs[k].user == who.user ::
              && m.logs[k].user == ERASED_USER
              && m.logs[k].actor.email.None? && m.logs[k].actor.name.None?
              && m.logs[k].actor.address.None? && m.logs[k].actor.agent.None?
              && m.logs[k].document == t.logs[k].document && m.logs[k].tenant == t.logs[k].tenant
    ensures forall k | k in m.logs && t.logs[k].user != who.user :: m.logs[k] == t.logs[k]
  {
  }

  // ---- Shares -----------------------------------------------------------------------------------

  /** Share invitations go exactly when they are on the user's documents, or sent by or to
      the user, by id or by one of the addresses in any case. */
  lemma InvitationsLeft(t: Tables, who: Identity, m: Tables)
    requires SharingErased(t, who, m)
    ensures forall k :: k in m.shareInvitations <==>
              k in t.shareInvitations
              && var i := t.shareInvitations[k];
                 i.inviter != who.user && i.invitee != Some(who.user) && Lower(i.inviteeEmail) !in who.emails
                 && !OfUser(t, i.document, who.user)
    ensures forall k | k in m.shareInvitations :: m.shareInvitations[k] == t.shareInvitations[k]
  {
  }

  /** An optional reference to an invitation stays exactly as long as the invitation does. */
  predicate Unlinked(before: Option<nat>, t: Tables, m: Tables, after: Option<nat>) {
    after == if before.Some? && before.value in t.shareInvitations && before.value !in m.shareInvitations
             then None else before
  }

  /** Shares go exactly when they are with the user or on the user's documents; the others
      lose the user as creator or revoker, and invitations that are gone. */
  lemma SharesLeft(t: Tables, who: Identity, m: Tables)
    requires SharingErased(t, who, m)
    ensures forall k :: k in m.shares <==>
              k in t.shares && t.shares[k].sharedWith != Some(who.user) && !OfUser(t, t.shares[k].document, who.user)
    ensures forall k | k in m.shares ::
              var was, share := t.shares[k], m.shares[k];
              && share.document == was.document && share.sharedWith == was.sharedWith
              && share.createdBy == (if was.createdBy == who.user then ERASED_USER else was.createdBy)
              && share.revokedBy == (if was.revokedBy == Some(who.user) then Some(ERASED_USER) else was.revokedBy)
              && Unlinked(was.invitation, t, m, share.invitation)
  {
  }

  lemma NotificationsLeft(t: Tables, who: Identity, m: Tables)
    requires SharingErased(t, who, m)
    ensures forall k :: k in m.notifications <==>
              k in t.notifications && t.notifications[k].user != who.user
              && !(t.notifications[k].document.Some? && OfUser(t, t.notifications[k].document.value, who.user))
    ensures forall k | k in m.notifications ::
              && m.notifications[k].user == t.notifications[k].user
              && m.notifications[k].document == t.notifications[k].document
              && Unlinked(t.notifications[k].invitation, t, m, m.notifications[k].invitation)
  {
  }

  // ---- Organizations ------------------------------------------------------------------------------

  lemma MembersLeft(t: Tables, who: Identity, doomed: set<string>, m: Tables)
    requires TenancyErased(t, who, doomed, m)
    ensures forall k :: k in m.members <==> k in t.members && k.0 !in doomed && k.1 !in who.quotaIds
    ensures forall k | k in m.members :: m.members[k] == t.members[k]
    ensures forall k :: k in m.invitations <==>
              k in t.invitations
              && var i := t.invitations[k];
                 i.tenant !in doomed && i.invitedBy !in who.quotaIds && Lower(i.email) !in who.emails
                 && !(i.acceptedBy.Some? && i.acceptedBy.value in who.quotaIds)
    ensures forall k | k in m.invitations :: m.invitations[k] == t.invitations[k]
  {
  }

  /** The membership row makes somebody else owner of the organization. */
  predicate OtherOwner(t: Tables, ids: set<nat>, tenant: string, k: (string, nat)) {
    k in t.members && k.0 == tenant && k.1 !in ids && t.members[k].role.Owner?
  }

  /** A link goes with the user's document or a doomed organization, and otherwise exactly
      when the user added it and nobody else owns the organization. It keeps its adder, or
      gets the owner who joined first. */
  lemma LinksLeft(t: Tables, who: Identity, doomed: set<string>, m: Tables)
    requires TenancyErased(t, who, doomed, m)
    ensures forall k :: k in m.links <==>
              && k in t.links && !OfUser(t, t.links[k].document, who.user) && t.links[k].tenant !in doomed
              && (t.links[k].addedBy in who.quotaIds ==>
                    exists j :: OtherOwner(t, who.quotaIds, t.links[k].tenant, j))
    ensures forall k | k in m.links ::
              && m.links[k].tenant == t.links[k].tenant && m.links[k].document == t.links[k].document
              && (t.links[k].addedBy !in who.quotaIds ==> m.links[k].addedBy == t.links[k].addedBy)
              && (t.links[k].addedBy in who.quotaIds ==>
                    var first := (t.links[k].tenant, m.links[k].addedBy);
                    && OtherOwner(t, who.quotaIds, t.links[k].tenant, first)
                    && forall j | OtherOwner(t, who.quotaIds, t.links[k].tenant, j) ::
                         t.members[first].joinedAt <= t.members[j].joinedAt)
  {
    forall tenant
      ensures HasOwner(t.members, who.quotaIds, tenant) <==> exists j :: OtherOwner(t, who.quotaIds, tenant, j)
    {
      if HasOwner(t.members, who.quotaIds, tenant) {
        var seat :| OwnerSeat(t.members, who.quotaIds, tenant, seat);
        assert OtherOwner(t, who.quotaIds, tenant, (tenant, seat));
      }
      forall j | OtherOwner(t, who.quotaIds, tenant, j)
        ensures OwnerSeat(t.members, who.quotaIds, tenant, j.1)
      {
        assert j == (tenant, j.1);
      }
    }
    forall k, j | k in m.links && t.links[k].addedBy in who.quotaIds
                  && OtherOwner(t, who.quotaIds, t.links[k].tenant, j)
      ensures OwnerSeat(t.members, who.quotaIds, t.links[k].tenant, j.1)
    {
      assert j == (t.links[k].tenant, j.1);
    }
  }

  // ---- The report's counts -----------------------------------------------------------------------

  /** The report counts the rows its statements removed ... */
  lemma GrantsRemoved(t: Tables, who: Identity)
    ensures var g, m := GrantsOf(t, who), GrantsErased(t, who);
            && |g.notes| == |t.notifications| - |m.notifications|
            && |g.shares| == |t.shares| - |m.shares|
            && |g.invitations| == |t.shareInvitations| - |m.shareInvitations|
  {
    var g, m := GrantsOf(t, who), GrantsErased(t, who);
    GrantKeys(t, who);
    hide GrantsOf, GrantsErased;
    CountGone(t.notifications, g.notes, m.notifications);
    CountGone(t.shares, g.shares, m.shares);
    CountGone(t.shareInvitations, g.invitations, m.shareInvitations);
  }

  lemma GrantKeys(t: Tables, who: Identity)
    ensures var g, m := GrantsOf(t, who), GrantsErased(t, who);
            && g.notes <= t.notifications.Keys && m.notifications.Keys == t.notifications.Keys - g.notes
            && g.shares <= t.shares.Keys && m.shares.Keys == t.shares.Keys - g.shares
            && g.invitations <= t.shareInvitations.Keys
            && m.shareInvitations.Keys == t.shareInvitations.Keys - g.invitations
  {
    hide NamesInvitation, Mask, MaskOption, Unlink;
  }

  /** ... and those whose column they changed. */
  lemma GrantsMasked(t: Tables, who: Identity)
    requires who.user != ERASED_USER
    ensures var g, m := GrantsOf(t, who), GrantsErased(t, who);
            && g.versions == (set k | k in m.versions && m.versions[k].createdBy != t.versions[k].createdBy)
            && g.created == (set k | k in m.shares && m.shares[k].createdBy != t.shares[k].createdBy)
            && g.revoked == (set k | k in m.shares && m.shares[k].revokedBy != t.shares[k].revokedBy)
  {
    hide NamesInvitation, Unlink;
  }

  lemma LogsCounted(t: Tables, user: string)
    requires user != ERASED_USER
    ensures var m := LogsErased(t, user);
            && |PersonalLogs(t.logs, user)| == |t.logs| - |m.logs|
            && SharedLogs(t.logs, user) == (set k | k in m.logs && m.logs[k].user != t.logs[k].user)
  {
    CountGone(t.logs, PersonalLogs(t.logs, user), LogsErased(t, user).logs);
  }

  /** Kind by kind, the activity rows counted are those that went. */
  lemma ActivitiesCounted(rows: map<nat, Activity>, kind: Kind, user: string, owned: set<string>)
    ensures ActivitiesOf(rows, kind, user, owned)
            == set k | k in rows && k !in KeptActivities(rows, user, owned) && rows[k].kind == kind
  {
  }
}
