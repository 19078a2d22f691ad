/** Account erasure end to end: pre-checks, object storage first, then one database
    transaction. A failure anywhere leaves the database as it was. */
module AccountErasure {
  import Paths
  import opened Wrappers
  import opened Ledgers
  import QuotaRuns
  import opened Databases
  import opened Erasure
  import opened ErasureService

  // ---- Object storage ---------------------------------------------------------

  function DocumentsPrefix(user: string): string { "documents/" + user + "/" }

  function ThumbnailsPrefix(user: string): string { "thumbnails/" + user + "/" }

  predicate UnderPrefix(user: string, key: string) {
    DocumentsPrefix(user) <= key || ThumbnailsPrefix(user) <= key
  }

  /** Every object key the user's documents record: all versions and thumbnails. */
  function RecordedKeys(t: Tables, user: string): set<string> {
    (set k | k in t.versions && t.versions[k].document in Owned(t, user) && t.versions[k].filePath != "" ::
       t.versions[k].filePath)
    + (set k | k in Owned(t, user) && t.ledger.documents[k].thumbnail.Some?
      && t.ledger.documents[k].thumbnail.value != "" ::
         t.ledger.documents[k].thumbnail.value)
  }

  predicate Targeted(t: Tables, user: string, key: string) {
    UnderPrefix(user, key) || key in RecordedKeys(t, user)
  }

  function Remaining(t: Tables, user: string, objects: set<string>): set<string> {
    set key | key in objects && !Targeted(t, user, key)
  }

  /** The objects that go: those under the two prefixes, the files of all versions of the
      user's documents, and their thumbnails. */
  lemma RemainingMeans(t: Tables, user: string, objects: set<string>, key: string)
    ensures key in objects && key !in Remaining(t, user, objects) <==>
            key in objects
            && (|| "documents/" + user + "/" <= key
                || "thumbnails/" + user + "/" <= key
                || (key != "" && exists v :: v in t.versions && t.versions[v].filePath == key
                                             && t.versions[v].document in t.ledger.documents
                                             && t.ledger.documents[t.versions[v].document].owner == user)
                || (key != "" && exists k :: k in t.ledger.documents && t.ledger.documents[k].owner == user
                                             && t.ledger.documents[k].thumbnail == Some(key)))
  {
  }

  lemma IdUnderPrefix(head: string, id: string, key: string)
    requires '/' !in id && head + id + "/" <= key
    ensures Paths.UpToSlash(key[|head|..]) == id
  {
    var p := head + id + "/";
    assert key == p + key[|p|..];
    assert key[|head|..] == id + "/" + key[|p|..];
    Paths.ReadsBack(id, key[|p|..]);
  }

  /** Two slash-free user ids never share a key under their prefixes. */
  lemma PrefixesApart(u: string, v: string, key: string)
    requires '/' !in u && '/' !in v && UnderPrefix(u, key) && UnderPrefix(v, key)
    ensures u == v
  {
    var head := if key[0] == 'd' then "documents/" else "thumbnails/";
    assert |head| == if key[0] == 'd' then 10 else 11;
    IdUnderPrefix(head, u, key);
    IdUnderPrefix(head, v, key);
  }

  /** Why an id with a slash is refused: its prefix can lie inside another user's. */
  lemma SlashedPrefixInside(u: string, v: string)
    ensures DocumentsPrefix(u) <= DocumentsPrefix(u + "/" + v)
  {
    var a, b := DocumentsPrefix(u), DocumentsPrefix(u + "/" + v);
    assert b == a + v + "/";
  }

  class ObjectStore {
    var objects: set<string>

    /** A failure can strike after some of the objects are gone. */
    method DeleteWhere(keys: set<string>) returns (ok: bool, deleted: nat)
      modifies this
      ensures ok ==> objects == old(objects) - keys && deleted == |old(objects) * keys|
      ensures !ok ==> old(objects) - keys <= objects <= old(objects)
    {
      ok, deleted := *, 0;
      if ok {
        deleted := |objects * keys|;
        objects := objects - keys;
      } else {
        var struck :| struck <= keys;
        objects := objects - struck;
      }
    }

    method DeletePrefix(prefix: string) returns (ok: bool, deleted: nat)
      modifies this
      ensures ok ==> objects == (set k | k in old(objects) && !(prefix <= k))
      ensures !ok ==> (set k | k in old(objects) && !(prefix <= k)) <= objects <= old(objects)
      ensures ok && (forall k | k in old(objects) :: !(prefix <= k)) ==> deleted == 0
    {
      var under := set k | k in objects && prefix <= k;
      ok, deleted := DeleteWhere(under);
      assert old(objects) - under == set k | k in old(objects) && !(prefix <= k);
      assert (forall k | k in old(objects) :: !(prefix <= k)) ==> old(objects) * under == {};
    }
  }

  /** Prefixes first, then the recorded keys outside them. Raises at the first failure. */
  method DeleteObjects(store: ObjectStore, t: Tables, user: string) returns (ok: bool, deleted: nat)
    modifies store
    ensures ok ==> store.objects == Remaining(t, user, old(store.objects))
    ensures !ok ==> Remaining(t, user, old(store.objects)) <= store.objects <= old(store.objects)
    ensures ok && Remaining(t, user, old(store.objects)) == old(store.objects) ==> deleted == 0
  {
    var n;
    ok, deleted := store.DeletePrefix(DocumentsPrefix(user));
    if !ok {
      return;
    }
    ok, n := store.DeletePrefix(ThumbnailsPrefix(user));
    deleted := deleted + n;
    if !ok {
      return;
    }
    var stray := set k | k in RecordedKeys(t, user) && !UnderPrefix(user, k);
    assert forall k :: k in store.objects <==> k in old(store.objects) && !UnderPrefix(user, k);
    assert store.objects - stray == Remaining(t, user, old(store.objects));
    assert stray == {} ==> store.objects - stray == store.objects;
    if stray != {} {
      ok, n := store.DeleteWhere(stray);
      deleted := deleted + n;
      assert Remaining(t, user, old(store.objects)) == old(store.objects) ==> old(store.objects) * stray == {};
    }
  }

  // ---- The erasure --------------------------------------------------------------

  datatype Outcome =
    | ErasedAccount(report: Report, objects: nat)
    | InvalidUser
    | TransferRequired(tenants: set<string>)
    | SubscriptionRunning
    | StorageFailed
    | DatabaseFailed

  predicate ValidTarget(user: string) {
    user != "" && '/' !in user && user != ERASED_USER
  }

  ghost predicate OnesAlone(t: Tables, ids: set<nat>, tenants: set<string>) {
    forall x :: x in tenants <==> SoleMember(t, ids, x)
  }

  /** The organizations that go with the user: those they are the only member of. */
  ghost predicate Planned(t: Tables, who: Identity, doomed: set<string>) {
    && (forall x :: !OwnsShared(t, who.quotaIds, x))
    && OnesAlone(t, who.quotaIds, doomed)
    && !StillSubscribed(t, who.user, doomed)
  }

  ghost predicate Blocked(t: Tables, who: Identity) {
    forall doomed :: !Planned(t, who, doomed)
  }

  /** The refusal a check of these tables gives. */
  ghost predicate Refuses(t: Tables, who: Identity, outcome: Outcome) {
    match outcome
    case TransferRequired(tenants) => tenants != {} && forall x :: x in tenants <==> OwnsShared(t, who.quotaIds, x)
    case SubscriptionRunning =>
      && (forall x :: !OwnsShared(t, who.quotaIds, x))
      && exists doomed :: OnesAlone(t, who.quotaIds, doomed) && StillSubscribed(t, who.user, doomed)
    case _ => false
  }

  lemma SameAlone(t: Tables, ids: set<nat>, a: set<string>, b: set<string>)
    requires OnesAlone(t, ids, a) && OnesAlone(t, ids, b)
    ensures a == b
  {
    hide SoleMember;
  }

  lemma RefusedIsBlocked(t: Tables, who: Identity, outcome: Outcome)
    requires Refuses(t, who, outcome)
    ensures Blocked(t, who)
  {
    hide OwnsShared, StillSubscribed, OnesAlone;
    if outcome.SubscriptionRunning? {
      var doomed :| OnesAlone(t, who.quotaIds, doomed) && StillSubscribed(t, who.user, doomed);
      forall other
        ensures !Planned(t, who, other)
      {
        if Planned(t, who, other) {
          SameAlone(t, who.quotaIds, doomed, other);
        }
      }
    }
  }

  /** Read-only: the outcome that refuses, or the organizations that go. */
  method PreCheck(t: Tables, who: Identity) returns (refusal: Option<Outcome>, doomed: set<string>)
    ensures refusal.None? ==> Planned(t, who, doomed)
    ensures refusal.Some? ==> Refuses(t, who, refusal.value) && Blocked(t, who)
                              && (refusal.value.TransferRequired? || refusal.value.SubscriptionRunning?)
  {
    hide StillSubscribed;
    var plan := PlanTenants(t, who);
    doomed := plan.tenants;
    if plan.Blocked? {
      refusal := Some(TransferRequired(plan.tenants));
    } else if StillSubscribed(t, who.user, doomed) {
      assert OnesAlone(t, who.quotaIds, doomed);
      refusal := Some(SubscriptionRunning);
    } else {
      refusal := None;
    }
    if refusal.Some? {
      RefusedIsBlocked(t, who, refusal.value);
    }
  }

  /** The identity and the recorded keys are of the tables t; the rows are erased from the
      tables that other transactions had left by then. */
  ghost predicate Succeeded(t: Tables, others: Tables, objects: set<string>, user: string, t': Tables,
                            objects': set<string>) {
    && objects' == Remaining(t, user, objects)
    && exists doomed ::
         Planned(others, LoadIdentity(t, user), doomed) && Erased(others, LoadIdentity(t, user), doomed, t')
  }

  /** A failed attempt: no row changed but by others, and only targeted objects can be gone. */
  ghost predicate Attempted(t: Tables, others: Tables, objects: set<string>, user: string, t': Tables,
                            objects': set<string>) {
    t' == others && Remaining(t, user, objects) <= objects' <= objects
  }

  /** What each outcome leaves. The deletion of objects is not begun exactly when the user
      is no valid target or the first check refuses; a refusal by the second check comes
      after the objects went. */
  ghost predicate Ended(t: Tables, others: Tables, objects: set<string>, user: string,
                        t': Tables, objects': set<string>, outcome: Outcome) {
    var who := LoadIdentity(t, user);
    if !ValidTarget(user) then outcome.InvalidUser? && t' == t && objects' == objects
    else if Blocked(t, who) then Refuses(t, who, outcome) && t' == t && objects' == objects
    else match outcome
      case InvalidUser => false
      case StorageFailed => Attempted(t, others, objects, user, t', objects')
      case DatabaseFailed => !Blocked(others, who) && t' == others && objects' == Remaining(t, user, objects)
      case ErasedAccount(_, _) =>
        && !Blocked(others, who) && Succeeded(t, others, objects, user, t', objects')
        && NoTrace(t', WithQuota(others, who)) && Referential(t') && Sound(t'.ledger)
      case _ =>
        && Blocked(others, who) && Refuses(others, who, outcome) && t' == others
        && objects' == Remaining(t, user, objects)
  }

  /** Other transactions run while the objects are deleted, and leave the tables `others`. */
  method Erase(db: Database, store: ObjectStore, user: string, others: Tables) returns (outcome: Outcome)
    requires Referential(db.tables) && Sound(db.tables.ledger) && Referential(others) && Sound(others.ledger)
    modifies db, store
    ensures Ended(old(db.tables), others, old(store.objects), user, db.tables, store.objects, outcome)
    ensures outcome.InvalidUser? <==> user == "" || '/' in user || user == "erased-user"
    ensures outcome.ErasedAccount? && NoTrace(others, LoadIdentity(old(db.tables), user))
            && Remaining(old(db.tables), user, old(store.objects)) == old(store.objects) ==>
              outcome == ErasedAccount(NOTHING, 0)
  {
    hide Erased, NoTrace, Sound, Referential, OwnsShared, StillSubscribed, OnesAlone, Refuses;
    if user == "" || '/' in user || user == ERASED_USER {
      return InvalidUser;
    }
    var t := db.tables;
    var who := LoadIdentity(t, user);
    var refusal, doomed := PreCheck(db.tables, who);
    if refusal.Some? {
      return refusal.value;
    }
    assert !Blocked(t, who);
    var ok, objects := DeleteObjects(store, db.tables, user);
    db.tables := others;
    if !ok {
      return StorageFailed;
    }
    // The blockers are re-read inside the transaction, for the identity loaded before.
    refusal, doomed := PreCheck(db.tables, who);
    if refusal.Some? {
      return refusal.value;
    }
    QuotaRuns.SoundFacts(others.ledger);
    NothingDoomed(others, who, doomed);
    var report;
    ok, report := EraseRows(db, who, doomed);
    var committed := *;
    if !ok || !committed {
      db.tables := others;
      return DatabaseFailed;
    }
    ErasedLeavesNoTrace(others, who, doomed, db.tables);
    ErasedStaysReferential(others, who, doomed, db.tables);
    ErasedKeepsBooks(others, who, doomed, db.tables);
    // Without concurrent uploads the second sweep of the prefixes finds nothing.
    var swept, m := store.DeletePrefix(DocumentsPrefix(user));
    var swept', n := store.DeletePrefix(ThumbnailsPrefix(user));
    assert store.objects == Remaining(t, user, old(store.objects));
    objects := objects + (if swept then m else 0) + if swept' then n else 0;
    outcome := ErasedAccount(report, objects);
  }

  lemma NothingDoomed(t: Tables, who: Identity, doomed: set<string>)
    requires Planned(t, who, doomed)
    ensures NoTrace(t, who) ==> doomed == {}
  {
    if NoTrace(t, who) {
      assert forall x :: !SoleMember(t, who.quotaIds, x);
    }
  }

  /** The membership row makes the user owner of an organization with another member. */
  predicate OwnsWith(t: Tables, ids: set<nat>, k: (string, nat), j: (string, nat)) {
    && k in t.members && k.1 in ids && t.members[k].role.Owner?
    && j in t.members && j.0 == k.0 && j.1 !in ids
  }

  /** The membership row is of an organization that goes with the user and is still billed. */
  predicate BilledAlone(t: Tables, ids: set<nat>, k: (string, nat)) {
    && k in t.members && k.1 in ids && (forall j | j in t.members && j.0 == k.0 :: j.1 in ids)
    && k.0 in t.ledger.tenants && t.ledger.tenants[k.0].subscription.Some? && !t.ledger.tenants[k.0].status.Cancelled?
  }

  predicate StillBilled(q: Quota) {
    && q.subscription.Some? && q.cancelAtPeriodEnd != Some(true)
    && (q.subscriptionStatus == "active" || q.subscriptionStatus == "trialing" || q.subscriptionStatus == "past_due"
        || q.subscriptionStatus == "unpaid" || q.subscriptionStatus == "incomplete")
  }

  /** The erasure is refused exactly for an owner of a shared organization, a personal
      subscription that still bills, or one of an organization that would go. */
  lemma BlockedMeans(t: Tables, who: Identity)
    ensures Blocked(t, who) <==>
            || (exists k, j :: OwnsWith(t, who.quotaIds, k, j))
            || (who.user in t.ledger.quotas && StillBilled(t.ledger.quotas[who.user]))
            || (exists k :: BilledAlone(t, who.quotaIds, k))
  {
    hide StillSubscribed, OwnsWith, BilledAlone, SoleMember, OwnsShared;
    var alone := set k | k in t.members && SoleMember(t, who.quotaIds, k.0) :: k.0;
    forall x
      ensures x in alone <==> SoleMember(t, who.quotaIds, x)
    {
      SoleHasRow(t, who.quotaIds, x);
    }
    assert OnesAlone(t, who.quotaIds, alone);
    forall doomed | OnesAlone(t, who.quotaIds, doomed)
      ensures doomed == alone
    {
      SameAlone(t, who.quotaIds, doomed, alone);
    }
    SharedMeans(t, who.quotaIds);
    SubscribedMeans(t, who, alone);
    assert Blocked(t, who) <==> !Planned(t, who, alone);
  }

  /** The organizations that go are those with a membership of the user and none of anybody
      else. */
  lemma PlannedMeans(t: Tables, who: Identity, doomed: set<string>)
    requires Planned(t, who, doomed)
    ensures forall x :: x in doomed <==>
              (exists k :: k in t.members && k.0 == x && k.1 in who.quotaIds)
              && forall k | k in t.members && k.0 == x :: k.1 in who.quotaIds
  {
    hide OwnsShared, StillSubscribed;
  }

  lemma SoleHasRow(t: Tables, ids: set<nat>, tenant: string)
    ensures SoleMember(t, ids, tenant) ==> exists k :: k in t.members && k.0 == tenant
  {
  }

  lemma SharedMeans(t: Tables, ids: set<nat>)
    ensures (exists x :: OwnsShared(t, ids, x)) <==> exists k, j :: OwnsWith(t, ids, k, j)
  {
    if k, j :| OwnsWith(t, ids, k, j) {
      assert OwnsShared(t, ids, k.0);
    }
    if x :| OwnsShared(t, ids, x) {
      var k :| k in t.members && k.0 == x && k.1 in ids && t.members[k].role == Owner;
      var j :| j in t.members && j.0 == x && j.1 !in ids;
      assert OwnsWith(t, ids, k, j);
    }
  }

  lemma SubscribedMeans(t: Tables, who: Identity, alone: set<string>)
    requires OnesAlone(t, who.quotaIds, alone)
    ensures StillSubscribed(t, who.user, alone) <==>
            || (who.user in t.ledger.quotas && StillBilled(t.ledger.quotas[who.user]))
            || (exists k :: BilledAlone(t, who.quotaIds, k))
  {
    if k :| BilledAlone(t, who.quotaIds, k) {
      assert SoleMember(t, who.quotaIds, k.0) && k.0 in alone;
    }
    if x :| x in alone && x in t.ledger.tenants && t.ledger.tenants[x].subscription.Some?
            && t.ledger.tenants[x].status != Cancelled {
      assert SoleMember(t, who.quotaIds, x);
      var k :| k in t.members && k.0 == x && k.1 in who.quotaIds;
      assert BilledAlone(t, who.quotaIds, k);
    }
  }

  // ---- Retries --------------------------------------------------------------------

  /** One attempt: the tables and objects it starts from, what others made of the tables
      meanwhile, and what it leaves. */
  datatype Attempt = Attempt(before: Tables, others: Tables, objects: set<string>, after: Tables, left: set<string>)

  /** Failed attempts followed by a success. Others may change the tables in any way during
      and between attempts. */
  ghost predicate Retried(attempts: seq<Attempt>, user: string) {
    && attempts != []
    && (forall i | 0 <= i < |attempts| - 1 :: attempts[i + 1].objects == attempts[i].left)
    && (forall i | 0 <= i < |attempts| - 1 ::
          var a := attempts[i]; Attempted(a.before, a.others, a.objects, user, a.after, a.left))
    && var z := attempts[|attempts| - 1]; Succeeded(z.before, z.others, z.objects, user, z.after, z.left)
  }

  /** The key was the user's, by the tables of one of the attempts. */
  ghost predicate TargetedOnce(attempts: seq<Attempt>, user: string, key: string) {
    exists i :: 0 <= i < |attempts| && Targeted(attempts[i].before, user, key)
  }

  /** Retrying after any number of failures, wherever they struck, erases the user's rows
      from the tables as others left them, and of the objects takes none that was not the
      user's and leaves none that is. */
  lemma {:induction false} RetriesConverge(attempts: seq<Attempt>, user: string)
    requires Retried(attempts, user)
    ensures var a, z := attempts[0], attempts[|attempts| - 1];
            && (exists doomed :: Erased(z.others, LoadIdentity(z.before, user), doomed, z.after))
            && z.left <= Remaining(z.before, user, a.objects)
            && forall key | key in a.objects && key !in z.left :: TargetedOnce(attempts, user, key)
    decreases |attempts|
  {
    hide Erased, Planned, Targeted;
    var a, z := attempts[0], attempts[|attempts| - 1];
    if |attempts| == 1 {
      assert forall key | key in a.objects && key !in z.left :: Targeted(attempts[0].before, user, key);
    } else {
      var rest := attempts[1..];
      assert forall i | 0 <= i < |rest| :: rest[i] == attempts[i + 1];
      RestRetried(attempts, user);
      RetriesConverge(rest, user);
      forall key | key in a.objects && key !in z.left
        ensures TargetedOnce(attempts, user, key)
      {
        if key in a.left {
          var i :| 0 <= i < |rest| && Targeted(rest[i].before, user, key);
          assert Targeted(attempts[i + 1].before, user, key);
        } else {
          assert Targeted(attempts[0].before, user, key);
        }
      }
    }
  }

  lemma RestRetried(attempts: seq<Attempt>, user: string)
    requires Retried(attempts, user) && |attempts| > 1
    ensures Retried(attempts[1..], user)
    ensures Remaining(attempts[0].before, user, attempts[0].objects) <= attempts[0].left <= attempts[0].objects
    ensures attempts[1].objects == attempts[0].left
  {
    hide Succeeded, Remaining;
    var rest := attempts[1..];
    forall i | 0 <= i < |rest| - 1
      ensures rest[i + 1].objects == rest[i].left
      ensures Attempted(rest[i].before, rest[i].others, rest[i].objects, user, rest[i].after, rest[i].left)
    {
      assert rest[i] == attempts[i + 1] && rest[i + 1] == attempts[i + 2];
    }
  }

  /** When nobody else writes, the retries end in a state the undisturbed erasure reaches:
      same rows, same objects. */
  lemma UndisturbedRetries(attempts: seq<Attempt>, user: string, t: Tables)
    requires Retried(attempts, user)
    requires forall i | 0 <= i < |attempts| :: attempts[i].before == t && attempts[i].others == t
    ensures var z := attempts[|attempts| - 1]; Succeeded(t, t, attempts[0].objects, user, z.after, z.left)
  {
    hide Erased, Planned, Targeted;
    var a, z := attempts[0], attempts[|attempts| - 1];
    RetriesConverge(attempts, user);
    forall key | key in a.objects && key !in z.left
      ensures Targeted(t, user, key)
    {
      var i :| 0 <= i < |attempts| && Targeted(attempts[i].before, user, key);
    }
    assert z.left == Remaining(t, user, a.objects);
  }

  /** No row names the user, by any identity the tables give. */
  ghost predicate Traceless(t: Tables, user: string) {
    NoTrace(t, LoadIdentity(t, user))
  }

  /** An erased account is traceless for any later run too, so that run reports nothing. */
  lemma ErasedAgainIsTraceless(who: Identity, t': Tables)
    requires NoTrace(t', who)
    ensures Traceless(t', who.user) && RecordedKeys(t', who.user) == {}
  {
    assert LoadIdentity(t', who.user) == Identity(who.user, {}, {});
    assert Owned(t', who.user) == {};
  }

  /** Of a user who had rows all along, the rows are gone exactly after a success, and with
      them every object that was the user's; an object left whose row others left too still
      has its row. */
  lemma ObjectsNeverOutliveRows(t: Tables, others: Tables, objects: set<string>, user: string,
                                t': Tables, objects': set<string>, outcome: Outcome)
    requires Ended(t, others, objects, user, t', objects', outcome)
    requires !Traceless(t, user) && !Traceless(others, user)
    ensures Traceless(t', user) <==> outcome.ErasedAccount?
    ensures Traceless(t', user) ==> forall key | key in objects' :: !Targeted(t, user, key)
    ensures forall key | key in objects' && Targeted(t, user, key) && key in RecordedKeys(t, user)
                         && key in RecordedKeys(others, user) :: key in RecordedKeys(t', user)
  {
    hide Erased, Planned, NoTrace, Referential, Sound, RecordedKeys;
    if outcome.ErasedAccount? {
      ErasedAgainIsTraceless(WithQuota(others, LoadIdentity(t, user)), t');
    }
  }
}
