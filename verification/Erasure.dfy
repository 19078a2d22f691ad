/** Complete account erasure: the rows. One transaction removes everything a user
    owns and strips their identity from what other users keep. */
module Erasure {
  import opened Wrappers
  import opened Ledgers
  import opened Accounting
  import opened QuotaRuns
  import opened Databases
  import Texts

  /** Replaces an erased user's id wherever another user's row must keep a value. */
  const ERASED_USER := "erased-user"

  const NOBODY := Actor(None, None, None, None)

  const BILLING_STATUSES := {"active", "trialing", "past_due", "unpaid", "incomplete"}

  datatype Identity = Identity(user: string, emails: set<string>, quotaIds: set<nat>)

  /** Lower case, letters of ASCII only. */
  function Lower(s: string): string {
    seq(|s|, i requires 0 <= i < |s| => if 'A' <= s[i] <= 'Z' then (s[i] as int + 32) as char else s[i])
  }

  function AddressOf(e: Option<string>): set<string> {
    if e.Some? && e.value != "" then {Lower(Texts.Strip(e.value))} else {}
  }

  function LoadIdentity(t: Tables, user: string): Identity {
    Identity(user,
             (if user in t.users then AddressOf(t.users[user]) else {})
             + (if user in t.ledger.quotas then AddressOf(t.ledger.quotas[user].email) else {}),
             if user in t.ledger.quotas then {t.ledger.quotas[user].id} else {})
  }

  // ---- Pre-checks ---------------------------------------------------------------

  predicate HasOthers(t: Tables, ids: set<nat>, tenant: string) {
    exists k | k in t.members :: k.0 == tenant && k.1 !in ids
  }

  ghost predicate SoleMember(t: Tables, ids: set<nat>, tenant: string) {
    (exists k :: k in t.members && k.0 == tenant && k.1 in ids) && !HasOthers(t, ids, tenant)
  }

  ghost predicate OwnsShared(t: Tables, ids: set<nat>, tenant: string) {
    (exists k :: k in t.members && k.0 == tenant && k.1 in ids && t.members[k].role == Owner)
      && HasOthers(t, ids, tenant)
  }

  datatype Plan = Blocked(tenants: set<string>) | Doomed(tenants: set<string>)

  /** Refuses when an owned organization has other members; lists those to delete. */
  method PlanTenants(t: Tables, identity: Identity) returns (plan: Plan)
    ensures plan.Blocked? ==> plan.tenants != {}
                              && forall x :: x in plan.tenants <==> OwnsShared(t, identity.quotaIds, x)
    ensures plan.Doomed? ==> (forall x :: !OwnsShared(t, identity.quotaIds, x))
                             && forall x :: x in plan.tenants <==> SoleMember(t, identity.quotaIds, x)
  {
    var blocked, sole: set<string> := {}, {};
    var pending := set k | k in t.members && k.1 in identity.quotaIds;
    ghost var all := pending;
    while pending != {}
      invariant pending <= all
      invariant forall x ::
                  x in sole <==> !HasOthers(t, identity.quotaIds, x) && exists k :: k in all - pending && k.0 == x
      invariant forall x :: x in blocked <==>
                            HasOthers(t, identity.quotaIds, x)
                            && exists k :: k in all - pending && k.0 == x && t.members[k].role == Owner
    {
      hide HasOthers;
      var k :| k in pending;
      ghost var seen := all - pending;
      pending := pending - {k};
      assert all - pending == seen + {k};
      if !HasOthers(t, identity.quotaIds, k.0) {
        sole := sole + {k.0};
      } else if t.members[k].role == Owner {
        blocked := blocked + {k.0};
      }
    }
    plan := if blocked != {} then Blocked(blocked) else Doomed(sole);
  }

  predicate Billed(q: Quota) {
    q.subscription.Some? && q.subscriptionStatus in BILLING_STATUSES && q.cancelAtPeriodEnd != Some(true)
  }

  predicate StillSubscribed(t: Tables, user: string, doomed: set<string>) {
    || (user in t.ledger.quotas && Billed(t.ledger.quotas[user]))
    || (exists x | x in doomed :: x in t.ledger.tenants && t.ledger.tenants[x].subscription.Some?
                                  && t.ledger.tenants[x].status != Cancelled)
  }

  // ---- What an erasure leaves, table by table -----------------------------------

  function Owned(t: Tables, user: string): set<string> {
    set k | k in t.ledger.documents && t.ledger.documents[k].owner == user
  }

  function Mask(name: string, user: string): string {
    if name == user then ERASED_USER else name
  }

  function MaskOption(name: Option<string>, user: string): Option<string> {
    if name == Some(user) then Some(ERASED_USER) else name
  }

  function MaskLog(log: Log, user: string): Log {
    if log.user == user then log.(user := ERASED_USER, actor := NOBODY) else log
  }

  predicate NamesInvitation(i: ShareInvitation, who: Identity) {
    i.inviter == who.user || i.invitee == Some(who.user) || Lower(i.inviteeEmail) in who.emails
  }

  predicate NamesTenantInvitation(i: TenantInvitation, who: Identity) {
    i.invitedBy in who.quotaIds || Refers(i.acceptedBy, who.quotaIds) || Lower(i.email) in who.emails
  }

  predicate PurelyPersonal(log: Log, user: string) {
    log.user == user && log.document.None? && log.tenant.None?
  }

  predicate OwnerSeat(members: Members, ids: set<nat>, tenant: string, seat: nat) {
    (tenant, seat) in members && members[(tenant, seat)].role == Owner && seat !in ids
  }

  /** The organization's owner who joined first, the erased user aside. */
  ghost predicate FirstOwner(members: Members, ids: set<nat>, tenant: string, seat: nat) {
    && OwnerSeat(members, ids, tenant, seat)
    && forall other | OwnerSeat(members, ids, tenant, other) ::
         members[(tenant, seat)].joinedAt <= members[(tenant, other)].joinedAt
  }

  ghost predicate HasOwner(members: Members, ids: set<nat>, tenant: string) {
    exists seat :: OwnerSeat(members, ids, tenant, seat)
  }

  /** Surviving links keep their adder, or pass to an owner; without an owner the link goes. */
  ghost predicate Relinked(links: map<nat, Link>, members: Members, ids: set<nat>, m: map<nat, Link>) {
    && (forall k :: k in m <==> k in links && (links[k].addedBy in ids ==> HasOwner(members, ids, links[k].tenant)))
    && (forall k | k in m ::
          if links[k].addedBy in ids
          then m[k] == links[k].(addedBy := m[k].addedBy) && FirstOwner(members, ids, links[k].tenant, m[k].addedBy)
          else m[k] == links[k])
  }

  function KeptLinks(t: Tables, owned: set<string>, doomed: set<string>): map<nat, Link> {
    map k | k in t.links && t.links[k].document !in owned && t.links[k].tenant !in doomed :: t.links[k]
  }

  function KeptInvitations(t: Tables, who: Identity, owned: set<string>): map<nat, ShareInvitation> {
    map k | k in t.shareInvitations && !NamesInvitation(t.shareInvitations[k], who)
            && t.shareInvitations[k].document !in owned :: t.shareInvitations[k]
  }

  /** Everything but the ledger and the tenancy tables. */
  ghost predicate SharingErased(t: Tables, who: Identity, m: Tables) {
    var user, owned := who.user, Owned(t, who.user);
    var gone := t.shareInvitations.Keys - m.shareInvitations.Keys;
    && m.shareInvitations == KeptInvitations(t, who, owned)
    && m.versions == (map k | k in t.versions && t.versions[k].document !in owned ::
                        t.versions[k].(createdBy := Mask(t.versions[k].createdBy, user)))
    && m.shares == (map k | k in t.shares && t.shares[k].sharedWith != Some(user) && t.shares[k].document !in owned ::
                      t.shares[k].(createdBy := Mask(t.shares[k].createdBy, user),
                                   revokedBy := MaskOption(t.shares[k].revokedBy, user),
                                   invitation := Unlink(t.shares[k].invitation, gone)))
    && m.notifications == (map k | k in t.notifications && t.notifications[k].user != user
                                   && !Refers(t.notifications[k].document, owned) ::
                             t.notifications[k].(invitation := Unlink(t.notifications[k].invitation, gone)))
    && m.logs == (map k | k in t.logs && !PurelyPersonal(t.logs[k], user) && !Refers(t.logs[k].document, owned) ::
                    MaskLog(t.logs[k], user))
    && m.activities == (map k | k in t.activities && t.activities[k].user != user
                                && !Refers(t.activities[k].document, owned) :: t.activities[k])
  }

  ghost predicate TenancyErased(t: Tables, who: Identity, doomed: set<string>, m: Tables) {
    && m.members == (map k | k in t.members && k.0 !in doomed && k.1 !in who.quotaIds :: t.members[k])
    && m.invitations == (map k | k in t.invitations && t.invitations[k].tenant !in doomed
                                 && !NamesTenantInvitation(t.invitations[k], who) :: t.invitations[k])
    && Relinked(KeptLinks(t, Owned(t, who.user), doomed), t.members, who.quotaIds, m.links)
  }

  /** The identity was loaded before the transaction; the user's quota row of now may be
      another, and goes only if nothing names it. */
  ghost predicate Erased(t: Tables, who: Identity, doomed: set<string>, m: Tables) {
    var user := who.user;
    && (exists active :: Forgot(t.ledger, user, doomed, active, m.ledger))
    && SharingErased(t, who, m)
    && TenancyErased(t, who, doomed, m)
    && m.users == t.users - {user}
    && (user in t.ledger.quotas ==> !NamesQuota(m, t.ledger.quotas[user].id))
  }

  /** The identity, with the quota row the user has now. */
  function WithQuota(t: Tables, who: Identity): Identity {
    who.(quotaIds := who.quotaIds + LoadIdentity(t, who.user).quotaIds)
  }

  // ---- No trace, no dangling reference ------------------------------------------

  /** No row names the user: not by id, not through a quota id, not by address. */
  ghost predicate NoTrace(m: Tables, who: Identity) {
    var user := who.user;
    && user !in m.users && user !in m.ledger.quotas
    && (forall k | k in m.ledger.documents :: m.ledger.documents[k].owner != user)
    && (forall k | k in m.members :: k.1 !in who.quotaIds)
    && (forall k | k in m.links :: m.links[k].addedBy !in who.quotaIds)
    && (forall k | k in m.invitations :: !NamesTenantInvitation(m.invitations[k], who))
    && (forall k | k in m.versions :: m.versions[k].createdBy != user)
    && (forall k | k in m.shares :: m.shares[k].sharedWith != Some(user) && m.shares[k].createdBy != user
                                    && m.shares[k].revokedBy != Some(user))
    && (forall k | k in m.shareInvitations :: !NamesInvitation(m.shareInvitations[k], who))
    && (forall k | k in m.notifications :: m.notifications[k].user != user)
    && (forall k | k in m.logs :: m.logs[k].user != user)
    && (forall k | k in m.activities :: m.activities[k].user != user)
  }

  lemma ErasedLeavesNoTrace(t: Tables, who: Identity, doomed: set<string>, m: Tables)
    requires who.user != ERASED_USER && Erased(t, who, doomed, m)
    ensures NoTrace(m, WithQuota(t, who))
    ensures forall k | k in m.logs && k in t.logs && t.logs[k].user == who.user ::
              m.logs[k].actor.email.None? && m.logs[k].actor.name.None? && m.logs[k].actor.address.None?
              && m.logs[k].actor.agent.None?
  {
    hide Forgot, SharingErased, TenancyErased;
    var active :| Forgot(t.ledger, who.user, doomed, active, m.ledger);
    ForgotRows(t, who.user, doomed, active, m.ledger);
    SharingNoTrace(t, who, m);
    TenancyNoTrace(t, who, doomed, m);
    assert forall i: ShareInvitation :: NamesInvitation(i, WithQuota(t, who)) <==> NamesInvitation(i, who);
  }

  lemma SharingNoTrace(t: Tables, who: Identity, m: Tables)
    requires who.user != ERASED_USER && SharingErased(t, who, m)
    ensures forall k | k in m.versions :: m.versions[k].createdBy != who.user
    ensures forall k | k in m.shares :: m.shares[k].sharedWith != Some(who.user) && m.shares[k].createdBy != who.user
                                        && m.shares[k].revokedBy != Some(who.user)
    ensures forall k | k in m.shareInvitations :: !NamesInvitation(m.shareInvitations[k], who)
    ensures forall k | k in m.notifications :: m.notifications[k].user != who.user
    ensures forall k | k in m.logs :: m.logs[k].user != who.user
    ensures forall k | k in m.logs && k in t.logs && t.logs[k].user == who.user ::
              m.logs[k].actor.email.None? && m.logs[k].actor.name.None? && m.logs[k].actor.address.None?
              && m.logs[k].actor.agent.None?
    ensures forall k | k in m.activities :: m.activities[k].user != who.user
  {
  }

  lemma TenancyNoTrace(t: Tables, who: Identity, doomed: set<string>, m: Tables)
    requires TenancyErased(t, who, doomed, m)
    ensures forall k | k in m.members :: k.1 !in who.quotaIds
    ensures forall k | k in m.links :: m.links[k].addedBy !in who.quotaIds
    ensures forall k | k in m.invitations :: !NamesTenantInvitation(m.invitations[k], who)
  {
  }

  /** Which rows of the books an erasure leaves. */
  lemma ForgotRows(t: Tables, user: string, doomed: set<string>, active: seq<string>, m: Ledger)
    requires Forgot(t.ledger, user, doomed, active, m)
    ensures user !in m.quotas && m.tenants.Keys == t.ledger.tenants.Keys - doomed
    ensures forall u | u in t.ledger.quotas && u != user :: u in m.quotas && m.quotas[u].id == t.ledger.quotas[u].id
    ensures m.documents.Keys == t.ledger.documents.Keys - Owned(t, user)
    ensures forall k | k in m.documents :: m.documents[k].owner != user
    ensures Attributed(t.ledger) ==> Attributed(m)
  {
    hide FreedAs, HandedOver, SameRows;
    var l := t.ledger;
    var freed, left, handed :|
      && FreedAs(l, active, NotOwned(l.documents, user), freed, left)
      && HandedOver(left, doomed, handed)
      && m == handed.(tenants := handed.tenants - doomed, quotas := handed.quotas - {user});
    FreedRows(l, active, NotOwned(l.documents, user), freed, left);
    HandedRows(left, doomed, handed);
    RowIds(l, left);
    RowIds(left, handed);
    OwnedRows(t, user, left.documents, handed.documents);
  }

  lemma OwnedRows(t: Tables, user: string, left: Documents, handed: Documents)
    requires left == NotOwned(t.ledger.documents, user)
    requires handed.Keys == left.Keys && forall k | k in handed :: handed[k].owner == left[k].owner
    ensures handed.Keys == t.ledger.documents.Keys - Owned(t, user)
    ensures forall k | k in handed ::
              k in t.ledger.documents && left[k] == t.ledger.documents[k] && handed[k].owner != user
  {
  }

  lemma RowIds(l: Ledger, m: Ledger)
    requires SameRows(l, m)
    ensures m.tenants.Keys == l.tenants.Keys
    ensures forall u | u in l.quotas :: u in m.quotas && m.quotas[u].id == l.quotas[u].id
  {
  }

  lemma FreedRows(l: Ledger, ids: seq<string>, documents: Documents, freed: Ledger, m: Ledger)
    requires FreedAs(l, ids, documents, freed, m)
    ensures SameRows(l, m) && m.documents == documents
  {
  }

  lemma HandedRows(l: Ledger, tenants: set<string>, m: Ledger)
    requires HandedOver(l, tenants, m)
    ensures SameRows(l, m) && m.documents.Keys == l.documents.Keys
    ensures forall k | k in m.documents :: m.documents[k].owner == l.documents[k].owner
    ensures forall k | k in m.documents && m.documents[k].tenant.Some? ::
              m.documents[k].tenant == l.documents[k].tenant && m.documents[k].tenant.value !in tenants
  {
  }

  lemma ErasedStaysReferential(t: Tables, who: Identity, doomed: set<string>, m: Tables)
    requires Referential(t) && Erased(t, who, doomed, m)
    ensures Referential(m)
  {
    hide Forgot, SharingErased, TenancyErased, QuotaIds, NamesQuota;
    var active :| Forgot(t.ledger, who.user, doomed, active, m.ledger);
    ForgotRows(t, who.user, doomed, active, m.ledger);
    SurvivingQuotas(t, who, m);
    SharingReferential(t, who, m);
    TenancyReferential(t, who, doomed, m);
  }

  lemma SurvivingQuotas(t: Tables, who: Identity, m: Tables)
    requires forall u | u in t.ledger.quotas && u != who.user ::
               u in m.ledger.quotas && m.ledger.quotas[u].id == t.ledger.quotas[u].id
    ensures forall q | q in QuotaIds(t.ledger) && q !in LoadIdentity(t, who.user).quotaIds :: q in QuotaIds(m.ledger)
  {
    forall q | q in QuotaIds(t.ledger) && q !in LoadIdentity(t, who.user).quotaIds
      ensures q in QuotaIds(m.ledger)
    {
      var u :| u in t.ledger.quotas && t.ledger.quotas[u].id == q;
      assert u in m.ledger.quotas && m.ledger.quotas[u].id == q;
    }
  }

  lemma SharingReferential(t: Tables, who: Identity, m: Tables)
    requires Referential(t) && SharingErased(t, who, m)
    requires m.ledger.documents.Keys == t.ledger.documents.Keys - Owned(t, who.user)
    ensures forall k | k in m.versions :: m.versions[k].document in m.ledger.documents
    ensures forall k | k in m.shareInvitations :: m.shareInvitations[k].document in m.ledger.documents
    ensures forall k | k in m.shares ::
              m.shares[k].document in m.ledger.documents
              && (m.shares[k].invitation.Some? ==> m.shares[k].invitation.value in m.shareInvitations)
    ensures forall k | k in m.notifications ::
              (m.notifications[k].document.Some? ==> m.notifications[k].document.value in m.ledger.documents)
              && (m.notifications[k].invitation.Some? ==> m.notifications[k].invitation.value in m.shareInvitations)
    ensures forall k | k in m.logs :: m.logs[k].document.Some? ==> m.logs[k].document.value in m.ledger.documents
  {
  }

  lemma TenancyReferential(t: Tables, who: Identity, doomed: set<string>, m: Tables)
    requires Referential(t) && TenancyErased(t, who, doomed, m)
    requires m.ledger.documents.Keys == t.ledger.documents.Keys - Owned(t, who.user)
    requires m.ledger.tenants.Keys == t.ledger.tenants.Keys - doomed
    requires forall q | q in QuotaIds(t.ledger) && q !in LoadIdentity(t, who.user).quotaIds :: q in QuotaIds(m.ledger)
    requires who.user in t.ledger.quotas ==> !NamesQuota(m, t.ledger.quotas[who.user].id)
    ensures forall k | k in m.members :: k.0 in m.ledger.tenants && k.1 in QuotaIds(m.ledger)
    ensures forall k | k in m.links ::
              m.links[k].tenant in m.ledger.tenants && m.links[k].document in m.ledger.documents
              && m.links[k].addedBy in QuotaIds(m.ledger)
    ensures forall k | k in m.invitations ::
              m.invitations[k].tenant in m.ledger.tenants && m.invitations[k].invitedBy in QuotaIds(m.ledger)
              && (m.invitations[k].acceptedBy.Some? ==> m.invitations[k].acceptedBy.value in QuotaIds(m.ledger))
  {
    hide QuotaIds, NamesQuota, TenancyErased, Referential;
    MembersReferential(t, who, doomed, m);
    LinksReferential(t, who, doomed, m);
    InvitationsReferential(t, who, doomed, m);
  }

  lemma MembersReferential(t: Tables, who: Identity, doomed: set<string>, m: Tables)
    requires Referential(t) && TenancyErased(t, who, doomed, m)
    requires m.ledger.documents.Keys == t.ledger.documents.Keys - Owned(t, who.user)
    requires m.ledger.tenants.Keys == t.ledger.tenants.Keys - doomed
    requires forall q | q in QuotaIds(t.ledger) && q !in LoadIdentity(t, who.user).quotaIds :: q in QuotaIds(m.ledger)
    requires who.user in t.ledger.quotas ==> !NamesQuota(m, t.ledger.quotas[who.user].id)
    ensures forall k | k in m.members :: k.0 in m.ledger.tenants && k.1 in QuotaIds(m.ledger)
  {
    hide QuotaIds;
  }

  lemma InvitationsReferential(t: Tables, who: Identity, doomed: set<string>, m: Tables)
    requires Referential(t) && TenancyErased(t, who, doomed, m)
    requires m.ledger.documents.Keys == t.ledger.documents.Keys - Owned(t, who.user)
    requires m.ledger.tenants.Keys == t.ledger.tenants.Keys - doomed
    requires forall q | q in QuotaIds(t.ledger) && q !in LoadIdentity(t, who.user).quotaIds :: q in QuotaIds(m.ledger)
    requires who.user in t.ledger.quotas ==> !NamesQuota(m, t.ledger.quotas[who.user].id)
    ensures forall k | k in m.invitations ::
              m.invitations[k].tenant in m.ledger.tenants && m.invitations[k].invitedBy in QuotaIds(m.ledger)
              && (m.invitations[k].acceptedBy.Some? ==> m.invitations[k].acceptedBy.value in QuotaIds(m.ledger))
  {
    hide QuotaIds;
  }

  lemma LinksReferential(t: Tables, who: Identity, doomed: set<string>, m: Tables)
    requires Referential(t) && TenancyErased(t, who, doomed, m)
    requires m.ledger.documents.Keys == t.ledger.documents.Keys - Owned(t, who.user)
    requires m.ledger.tenants.Keys == t.ledger.tenants.Keys - doomed
    requires forall q | q in QuotaIds(t.ledger) && q !in LoadIdentity(t, who.user).quotaIds :: q in QuotaIds(m.ledger)
    requires who.user in t.ledger.quotas ==> !NamesQuota(m, t.ledger.quotas[who.user].id)
    ensures forall k | k in m.links ::
              m.links[k].tenant in m.ledger.tenants && m.links[k].document in m.ledger.documents
              && m.links[k].addedBy in QuotaIds(m.ledger)
  {
    hide QuotaIds;
    forall k | k in m.links
      ensures m.links[k].addedBy in QuotaIds(m.ledger)
    {
      var link := t.links[k];
      if link.addedBy in who.quotaIds {
        assert (link.tenant, m.links[k].addedBy) in t.members;
      }
    }
  }

  /** The storage counters of every surviving user and organization stay exact. */
  lemma ErasedKeepsBooks(t: Tables, who: Identity, doomed: set<string>, m: Tables)
    requires Sound(t.ledger) && Erased(t, who, doomed, m)
    ensures Sound(m.ledger)
  {
    hide Sound;
    var active :| Forgot(t.ledger, who.user, doomed, active, m.ledger);
    ForgotSound(t.ledger, who.user, doomed, active, m.ledger);
  }
}
