/** The tables, and the DELETE statements with the foreign-key actions the models declare. */
module Databases {
  import opened Wrappers
  import opened Ledgers

  datatype Role = Owner | Admin | Manager | Plain | Viewer

  datatype Member = Member(role: Role, isActive: bool, joinedAt: int)

  /** tenant_members, keyed by (tenant, quota id): the pair is unique. */
  type Members = map<(string, nat), Member>

  /** tenant_documents: a document shared with an organization. */
  datatype Link = Link(tenant: string, document: string, addedBy: nat)

  datatype TenantInvitation = TenantInvitation(tenant: string, email: string, invitedBy: nat, acceptedBy: Option<nat>)

  datatype Version = Version(document: string, createdBy: string, filePath: string)

  datatype Share = Share(
    document: string,
    sharedWith: Option<string>,
    createdBy: string,
    revokedBy: Option<string>,
    invitation: Option<nat>
  )

  datatype ShareInvitation = ShareInvitation(
    document: string,
    inviter: string,
    inviteeEmail: string,
    invitee: Option<string>
  )

  datatype Notification = Notification(user: string, document: Option<string>, invitation: Option<nat>)

  /** The columns of an audit entry that identify its actor beyond the user id. */
  datatype Actor = Actor(email: Option<string>, name: Option<string>, address: Option<string>, agent: Option<string>)

  datatype Log = Log(user: string, actor: Actor, document: Option<string>, tenant: Option<string>)

  /** Collaboration sessions, element locks and jobs: three tables of one shape. */
  datatype Kind = SessionRow | LockRow | JobRow

  datatype Activity = Activity(kind: Kind, user: string, document: Option<string>)

  datatype Tables = Tables(
    ledger: Ledger,
    members: Members,
    links: map<nat, Link>,
    invitations: map<nat, TenantInvitation>,
    versions: map<nat, Version>,
    shares: map<nat, Share>,
    shareInvitations: map<nat, ShareInvitation>,
    notifications: map<nat, Notification>,
    logs: map<nat, Log>,
    activities: map<nat, Activity>,
    users: map<string, Option<string>>
  )

  ghost function QuotaIds(l: Ledger): set<nat> {
    set u | u in l.quotas :: l.quotas[u].id
  }

  predicate Refers<T(==)>(reference: Option<T>, keys: set<T>) {
    reference.Some? && reference.value in keys
  }

  function Unlink<T(==)>(reference: Option<T>, keys: set<T>): Option<T> {
    if Refers(reference, keys) then None else reference
  }

  /** Every foreign key points at an existing row. */
  ghost predicate Referential(t: Tables) {
    var tenants, documents, quotas := t.ledger.tenants, t.ledger.documents, QuotaIds(t.ledger);
    && Attributed(t.ledger)
    && (forall k | k in t.members :: k.0 in tenants && k.1 in quotas)
    && (forall k | k in t.links ::
          t.links[k].tenant in tenants && t.links[k].document in documents && t.links[k].addedBy in quotas)
    && (forall k | k in t.invitations ::
          t.invitations[k].tenant in tenants && t.invitations[k].invitedBy in quotas
          && (t.invitations[k].acceptedBy.Some? ==> t.invitations[k].acceptedBy.value in quotas))
    && (forall k | k in t.versions :: t.versions[k].document in documents)
    && (forall k | k in t.shareInvitations :: t.shareInvitations[k].document in documents)
    && (forall k | k in t.shares ::
          t.shares[k].document in documents
          && (t.shares[k].invitation.Some? ==> t.shares[k].invitation.value in t.shareInvitations))
    && (forall k | k in t.notifications ::
          (t.notifications[k].document.Some? ==> t.notifications[k].document.value in documents)
          && (t.notifications[k].invitation.Some? ==> t.notifications[k].invitation.value in t.shareInvitations))
    && (forall k | k in t.logs :: t.logs[k].document.Some? ==> t.logs[k].document.value in documents)
  }

  // ---- DELETE statements, with the foreign-key actions -----------------------

  /** document_share_invitations: shares and notifications are unlinked (SET NULL). */
  function DeleteShareInvitations(t: Tables, ids: set<nat>): Tables {
    t.(shareInvitations := t.shareInvitations - ids,
       shares := map k | k in t.shares :: t.shares[k].(invitation := Unlink(t.shares[k].invitation, ids)),
       notifications :=
         map k | k in t.notifications :: t.notifications[k].(invitation := Unlink(t.notifications[k].invitation, ids)))
  }

  /** stored_documents: everything that hangs from a document goes with it (CASCADE). */
  function DeleteDocuments(t: Tables, ids: set<string>): Tables {
    var u := DeleteShareInvitations(t, set k | k in t.shareInvitations && t.shareInvitations[k].document in ids);
    u.(ledger := u.ledger.(documents := u.ledger.documents - ids),
       versions := map k | k in u.versions && u.versions[k].document !in ids :: u.versions[k],
       links := map k | k in u.links && u.links[k].document !in ids :: u.links[k],
       logs := map k | k in u.logs && !Refers(u.logs[k].document, ids) :: u.logs[k],
       shares := map k | k in u.shares && u.shares[k].document !in ids :: u.shares[k],
       notifications := map k | k in u.notifications && !Refers(u.notifications[k].document, ids) :: u.notifications[k])
  }

  /** tenants: refused while a document points at one of them (RESTRICT),
      else members, links and invitations go with it (CASCADE). */
  function DeleteTenants(t: Tables, ids: set<string>): Option<Tables> {
    if exists k | k in t.ledger.documents :: Refers(t.ledger.documents[k].tenant, ids) then None
    else Some(t.(ledger := t.ledger.(tenants := t.ledger.tenants - ids),
                 members := map k | k in t.members && k.0 !in ids :: t.members[k],
                 links := map k | k in t.links && t.links[k].tenant !in ids :: t.links[k],
                 invitations := map k | k in t.invitations && t.invitations[k].tenant !in ids :: t.invitations[k]))
  }

  predicate NamesQuota(t: Tables, id: nat) {
    || (exists k | k in t.members :: k.1 == id)
    || (exists k | k in t.links :: t.links[k].addedBy == id)
    || (exists k | k in t.invitations :: t.invitations[k].invitedBy == id || t.invitations[k].acceptedBy == Some(id))
  }

  /** user_quotas: refused while a membership, link or invitation names the row (NO ACTION). */
  function DeleteQuota(t: Tables, user: string): Option<Tables> {
    if user in t.ledger.quotas && NamesQuota(t, t.ledger.quotas[user].id) then None
    else Some(t.(ledger := t.ledger.(quotas := t.ledger.quotas - {user})))
  }

  /** The database as one transaction sees it: statements update it in place. */
  class Database {
    var tables: Tables

    constructor (tables: Tables)
      ensures this.tables == tables
    {
      this.tables := tables;
    }
  }
}
