/**
 Stored Kerberos identities over serial runs. The only assumption is that no two usernames share an AD name
 or an object SID among the creates that were recorded; a create that meets any other account is part of the
 run, and refused.
 */
module IdentityRuns {
  import opened Wrappers
  import opened Text
  import opened Schema
  import opened Invariants
  import opened DateText
  import opened Transactions
  import opened PortAllocator
  import opened Planner
  import opened CreateTransaction
  import opened KerberosIdentity
  import opened Fleets
  import opened ContainerCreate
  import opened ContainerDelete
  import opened ExpiredCleanup
  import opened SerialRuns

  // ---------- The upsert, where accounts are not shared ----------

  /** Every stored identity is keyed by the username of the user it points at. */
  ghost predicate RowsPoint(db: Tables) {
    forall u :: u in db.identities ==>
      && db.identities[u].ad.username == u
      && db.identities[u].userId.Some? && db.identities[u].userId.value in db.users
      && db.users[db.identities[u].userId.value].username == u
  }

  /** No other username's row has the record's AD name or object SID. */
  ghost predicate Apart(db: Tables, record: AdIdentity) {
    && Text.Free(record.adUsername, '@')
    && forall u :: u in db.identities && u != record.username ==>
         && Text.Free(db.identities[u].ad.adUsername, '@')
         && db.identities[u].ad.adUsername != record.adUsername && db.identities[u].ad.objectSid != record.objectSid
  }

  /**
   Two users whose accounts AD tells apart never collide: the records of two creates share a key of the
   identity table if and only if AD reported one object SID, or one account name in one realm, for both, or
   both belong to one user. Equal domain SIDs and NetBIOS names do no harm.
   */
  lemma AccountsConflictExactly(db: Tables, r: Planner.Request, p: Planner.Plan, m: Metadata, owner: Option<int>,
      r': Planner.Request, p': Planner.Plan, m': Metadata, owner': Option<int>)
    requires BuildIdentity(r, p, m).Some? && BuildIdentity(r', p', m').Some? && r.username != r'.username
    requires Text.Free(m.adUsername, '@') && Text.Free(m'.adUsername, '@')
    requires r.username in db.identities && db.identities[r.username] == IdentityRow(owner, BuildIdentity(r, p, m).value)
    ensures r.username in IdentityConflicts(db, IdentityRow(owner', BuildIdentity(r', p', m').value))
            <==> || m.objectSid == m'.objectSid || (m.adUsername == m'.adUsername && m.realm == m'.realm)
                 || (owner.Some? && owner == owner')
  {
    hide BuildIdentity;
    BuiltNamesThePlan(r, p, m);
    BuiltNamesThePlan(r', p', m');
    SamePrincipal(BuildIdentity(r, p, m).value, BuildIdentity(r', p', m').value);
  }

  lemma SamePrincipal(a: AdIdentity, b: AdIdentity)
    requires Text.Free(a.adUsername, '@') && Text.Free(b.adUsername, '@')
    ensures Principal(a) == Principal(b) <==> a.adUsername == b.adUsername && a.realm == b.realm
  {
    SplitOnceAppend(a.adUsername, '@', a.realm);
    SplitOnceAppend(b.adUsername, '@', b.realm);
    assert Principal(a) == a.adUsername + ['@'] + a.realm && Principal(b) == b.adUsername + ['@'] + b.realm;
  }

  /** The record can only collide with its own user's row. */
  lemma OnlyOwnConflict(db: Tables, record: AdIdentity)
    requires RowsPoint(db) && Apart(db, record)
    ensures IdentityConflicts(db, IdentityRow(OwnerOnRecord(db, record.username), record))
            == if record.username in db.identities then {record.username} else {}
  {
    UserIdSubqueryFinds(db, record.username);
    var row := IdentityRow(OwnerOnRecord(db, record.username), record);
    forall u | u in IdentityConflicts(db, row) ensures u == record.username {
      if u != record.username {
        SamePrincipal(db.identities[u].ad, record);
      }
    }
  }

  lemma UnsharedFits(db: Tables, record: AdIdentity)
    requires RowsPoint(db) && Apart(db, record)
    ensures RecordFits(db, record)
  {
    OnlyOwnConflict(db, record);
  }

  /** With unshared accounts the upsert touches the user's own row and no other. */
  lemma UpsertsOwnRow(db: Tables, record: AdIdentity)
    requires RowsPoint(db) && Apart(db, record) && UniqueUsernames(db) && HasUser(db, record.username)
    ensures var owner := OwnerOnRecord(db, record.username);
            && owner.Some? && owner.value in db.users && db.users[owner.value].username == record.username
            && ExecUpsertIdentity(db, record) == Ok(db.(identities := db.identities[record.username := IdentityRow(owner, record)]))
  {
    SubqueryFindsTheUser(db, record.username);
    OnlyOwnConflict(db, record);
  }

  /**
   With unshared accounts the planner's guards alone make the schema accept a Kerberos create too: no id,
   group, user, identity, port or container statement violates a key.
   */
  lemma KerberosGuardsSuffice(db: Tables, r: Planner.Request, look: Lookups, facts: Facts, p: Planner.Plan,
      record: AdIdentity, containerId: string, auto: int)
    requires Valid(db) && UniqueUsernames(db) && FreshFrom(db, auto) && ContainerIdFree(db, containerId)
    requires PlannedFrom(db, r, look, facts, p) && DistinctHosts(r.fixedPorts) && p.source in {New, StorageHome}
    requires record.username == r.username && RowsPoint(db) && Apart(db, record)
    ensures CreateTxn(db, r, p, Some(record), containerId, auto).Ok?
  {
    hide PlannedFrom, Valid;
    GuardsSuffice(db, r, look, facts, p, Some(record), containerId, auto);
    UnsharedFits(db, record);
  }

  /** The upsert depends on users and identities only. */
  lemma UpsertReads(a: Tables, b: Tables, record: AdIdentity)
    requires a.users == b.users && a.identities == b.identities
    ensures ExecUpsertIdentity(a, record).Ok? <==> ExecUpsertIdentity(b, record).Ok?
    ensures ExecUpsertIdentity(a, record).Ok? ==>
      ExecUpsertIdentity(a, record).value.identities == ExecUpsertIdentity(b, record).value.identities
  {
    SubqueryReadsUsers(a, b, record.username);
    var row := IdentityRow(OwnerOnRecord(a, record.username), record);
    assert IdentityConflicts(a, row) == IdentityConflicts(b, row);
  }

  lemma GrownPoints(db: Tables, db': Tables)
    requires RowsPoint(db) && Grows(db, db') && db'.identities == db.identities
    ensures RowsPoint(db')
  {
    forall u | u in db'.identities
      ensures db'.identities[u].userId.Some? && db'.identities[u].userId.value in db'.users
      ensures db'.users[db'.identities[u].userId.value].username == u
    {
      var owner := db.identities[u].userId.value;
      assert owner in db.users && owner in db'.users;
    }
  }

  // ---------- What a step does to the identities ----------

  /** A create that recorded an identity. */
  predicate Records(s: Step) {
    s.CreateStep? && s.result.Created? && !s.r.noDbRecord && s.r.kerberos && s.identity.Some?
  }

  /** The table with the record as its user's row, beside a user with the recorded uid. */
  ghost predicate WritesOwnRow(db: Tables, db': Tables, record: AdIdentity) {
    exists owner :: WritesRowOf(db, db', record, owner)
  }

  ghost predicate WritesRowOf(db: Tables, db': Tables, record: AdIdentity, owner: int) {
    && owner in db'.users && db'.users[owner].username == record.username && db'.users[owner].uid == record.uidNumber
    && db'.identities == db.identities[record.username := IdentityRow(Some(owner), record)]
  }

  /** A committed create writes its own user's row, or none. */
  lemma CommittedIdentities(w: World, w': World, s: Step)
    requires s.CreateStep? && ParseDate(s.r.expiration).Some? && PlannedFrom(w.db, s.r, s.look, s.facts, s.p)
    requires UniqueUsernames(w.db) && FreshFrom(w.db, w.auto) && s.result.Created? && !s.r.noDbRecord
    requires CreateTxn(w.db, s.r, s.p, s.identity, s.result.containerId, w.auto) == Ok(w'.db)
    requires Records(s) ==> IdentityOf(w.db, s.r, s.p, s.identity.value) && RowsPoint(w.db) && Apart(w.db, s.identity.value)
    ensures Grows(w.db, w'.db)
    ensures if Records(s) then WritesOwnRow(w.db, w'.db, s.identity.value) else w'.db.identities == w.db.identities
  {
    hide PlannedFrom, ExecAll, CreateStatements, CreateTxn, AgreesWithStored, ExecUpsertIdentity, RowsPoint, Apart;
    var id := s.result.containerId;
    PlannedNamesTheUser(w.db, s.r, s.look, s.facts, s.p);
    OwnerIsAsPlanned(w.db, s.r, s.p, s.identity, id, w.auto);
    assert forall i :: i in w'.db.users && w'.db.users[i].username == s.r.username ==> w'.db.users[i].uid == s.p.uid;
    CreateRecords(w.db, s.r, s.p, s.identity, id, w.auto);
    IdentitiesAfterCreate(w.db, s.r, s.p, s.identity, id, w.auto);
    if Records(s) {
      var record := s.identity.value;
      var ids := ExecAll(w.db, IdStatements(s.r, s.p), w.auto).value;
      var middle := w'.db.(identities := w.db.identities);
      GrownPoints(w.db, middle);
      assert Apart(middle, record) by {
        ApartReads(w.db, middle, record);
      }
      UpsertReads(ids, middle, record);
      UpsertsOwnRow(middle, record);
      var owner := OwnerOnRecord(middle, record.username);
      assert owner.value in w'.db.users && w'.db.users[owner.value].username == s.r.username;
      assert WritesRowOf(w.db, w'.db, record, owner.value);
    }
  }

  lemma ApartReads(a: Tables, b: Tables, record: AdIdentity)
    requires Apart(a, record) && a.identities == b.identities
    ensures Apart(b, record)
  {
  }

  // ---------- The invariant ----------

  /** The username each AD name and each object SID belongs to. */
  datatype Owners = Owners(ofName: map<string, string>, ofSid: map<string, string>)

  predicate Owns(o: Owners, username: string, ad: AdIdentity) {
    && ad.adUsername in o.ofName && o.ofName[ad.adUsername] == username
    && ad.objectSid in o.ofSid && o.ofSid[ad.objectSid] == username
  }

  /** What a recorded create may not do is share its account with another username. */
  predicate Unshared(o: Owners, s: Step) {
    Records(s) ==> Owns(o, s.r.username, s.identity.value)
  }

  /** A stored identity belongs to its username, points at that user, and carries the user's uid. */
  ghost predicate IdentityOwned(o: Owners, db: Tables, u: string)
    requires u in db.identities
  {
    var row := db.identities[u];
    && row.ad.username == u && Owns(o, u, row.ad) && Text.Free(row.ad.adUsername, '@')
    && row.userId.Some? && row.userId.value in db.users
    && db.users[row.userId.value].username == u && db.users[row.userId.value].uid == row.ad.uidNumber
  }

  ghost predicate IdentitiesOwned(o: Owners, db: Tables) {
    forall u :: u in db.identities ==> IdentityOwned(o, db, u)
  }

  lemma OwnedPoint(o: Owners, db: Tables)
    requires IdentitiesOwned(o, db)
    ensures RowsPoint(db)
  {
    forall u | u in db.identities
      ensures db.identities[u].ad.username == u && db.identities[u].userId.Some?
      ensures db.identities[u].userId.value in db.users && db.users[db.identities[u].userId.value].username == u
    {
      assert IdentityOwned(o, db, u);
    }
  }

  lemma OwnedApart(o: Owners, db: Tables, record: AdIdentity)
    requires IdentitiesOwned(o, db) && Owns(o, record.username, record) && Text.Free(record.adUsername, '@')
    ensures Apart(db, record)
  {
    forall u | u in db.identities && u != record.username
      ensures Text.Free(db.identities[u].ad.adUsername, '@')
      ensures db.identities[u].ad.adUsername != record.adUsername && db.identities[u].ad.objectSid != record.objectSid
    {
      assert IdentityOwned(o, db, u);
    }
  }

  /** `validate_identity_name` keeps `@` out of AD names. */
  lemma PlannedNameFree(db: Tables, r: Planner.Request, look: Lookups, facts: Facts, p: Planner.Plan)
    requires PlannedFrom(db, r, look, facts, p) && r.kerberos
    ensures Text.Free(p.adUsername, '@')
  {
    assert IdentityName(p.adUsername);
    forall i | 0 <= i < |p.adUsername| ensures p.adUsername[i] != '@' {
      assert IsNameChar(p.adUsername[i]);
    }
  }

  lemma SameUsersOwned(o: Owners, db: Tables, db': Tables)
    requires IdentitiesOwned(o, db) && db'.identities == db.identities
    requires forall i :: i in db.users ==>
      i in db'.users && db'.users[i].uid == db.users[i].uid && db'.users[i].username == db.users[i].username
    ensures IdentitiesOwned(o, db')
  {
    forall u | u in db'.identities ensures IdentityOwned(o, db', u) {
      assert IdentityOwned(o, db, u);
      var owner := db.identities[u].userId.value;
      assert owner in db.users && owner in db'.users;
    }
  }

  lemma OwnRowOwned(o: Owners, db: Tables, db': Tables, record: AdIdentity)
    requires IdentitiesOwned(o, db) && Grows(db, db') && WritesOwnRow(db, db', record)
    requires Owns(o, record.username, record) && Text.Free(record.adUsername, '@')
    ensures IdentitiesOwned(o, db')
  {
    SameUsersOwned(o, db, db'.(identities := db.identities));
    forall u | u in db'.identities ensures IdentityOwned(o, db', u) {
      if u != record.username {
        assert u in db.identities && IdentityOwned(o, db'.(identities := db.identities), u);
      }
    }
  }

  // ---------- A differing account is refused ----------

  /** Preparation has compared the record with the stored row. */
  lemma StartedWasValidated(c: Config, w: World, s: Step, w': World)
    requires s.CreateStep? && Takes(c, w, s, w') && (s.result.Created? || s.result.Failed?) && s.r.kerberos
    ensures s.identity.Some? && IdentityOf(w.db, s.r, s.p, s.identity.value)
  {
    hide PlannedFrom, CreateTxn, IdentityOf, Undone, OnlyInstalled;
  }

  /** Once all stored fields are set, validation passes only the account on record. */
  lemma OnlyStoredAgrees(db: Tables, current: AdIdentity)
    requires RowsPoint(db) && AgreesWithStored(db, current)
    requires current.username in db.identities && AllSet(db.identities[current.username].ad)
    ensures current == db.identities[current.username].ad
  {
    var u := current.username;
    assert u in IdentityKeys(db, u);
    UserIdSubqueryFinds(db, u);
    forall v | v in IdentityKeys(db, u) ensures v == u {
    }
    SetFieldsAreFixed(db.identities[u].ad, current);
  }

  /**
   A Kerberos create for a user whose stored fields are all set gets as far as `docker run` only if AD reports
   exactly the stored account; any difference raises before, and the tables stay as they were.
   */
  lemma DifferingAccountIsRefused(o: Owners, c: Config, w: World, s: Step, w': World)
    requires s.CreateStep? && Takes(c, w, s, w') && s.r.kerberos && IdentitiesOwned(o, w.db)
    requires s.r.username in w.db.identities && AllSet(w.db.identities[s.r.username].ad)
    ensures s.result.Created? || s.result.Failed? ==> s.identity == Some(w.db.identities[s.r.username].ad)
    ensures s.identity != Some(w.db.identities[s.r.username].ad) ==>
      w'.db == w.db && forall v :: At(w'.hosts, v).containers == At(w.hosts, v).containers
  {
    hide PlannedFrom, CreateTxn, IdentitiesOwned, AllSet, AgreesWithStored;
    if s.result.Created? || s.result.Failed? {
      StartedWasValidated(c, w, s, w');
      OwnedPoint(o, w.db);
      OnlyStoredAgrees(w.db, s.identity.value);
    } else {
      NotStarted(c, w, s, w');
    }
  }

  lemma NotStarted(c: Config, w: World, s: Step, w': World)
    requires s.CreateStep? && Takes(c, w, s, w') && (s.result.DryRun? || s.result.Rejected?)
    ensures w'.db == w.db && forall v :: At(w'.hosts, v).containers == At(w.hosts, v).containers
  {
    hide PlannedFrom, CreateTxn, Prepared;
  }

  // ---------- Every run ----------

  lemma StepKeepsSound(c: Config, w: World, s: Step, w': World)
    requires Takes(c, w, s, w') && Sound(w)
    ensures Sound(w')
  {
    hide RemoteEffect, OnlyDropped, Released, Sound;
    if s.CreateStep? {
      CreateKeepsSound(c, w, s, w');
    } else {
      StepShrinks(c, w, s, w');
      ReleaseKeepsSound(w, w', s.k.row, if s.DeleteStep? then s.outcome.Deleted? else s.released);
    }
  }

  lemma StepIdentities(o: Owners, c: Config, w: World, s: Step, w': World)
    requires Takes(c, w, s, w') && Unshared(o, s) && Sound(w) && IdentitiesOwned(o, w.db)
    ensures IdentitiesOwned(o, w'.db)
    ensures forall u :: u in w.db.identities && AllSet(w.db.identities[u].ad) ==>
      u in w'.db.identities && w'.db.identities[u].ad == w.db.identities[u].ad
  {
    hide PlannedFrom, CreateTxn, Undone, OnlyInstalled, Valid, IdentitiesOwned, AgreesWithStored, AllSet;
    if s.CreateStep? && s.result.Created? && !s.r.noDbRecord {
      if Records(s) {
        RecordedApart(o, c, w, s, w');
      }
      CommittedIdentities(w, w', s);
      if Records(s) {
        OwnRowOwned(o, w.db, w'.db, s.identity.value);
        if s.r.username in w.db.identities && AllSet(w.db.identities[s.r.username].ad) {
          OnlyStoredAgrees(w.db, s.identity.value);
        }
      } else {
        SameUsersOwned(o, w.db, w'.db);
      }
    } else {
      SameUsersOwned(o, w.db, w'.db);
    }
  }

  lemma RecordedApart(o: Owners, c: Config, w: World, s: Step, w': World)
    requires Takes(c, w, s, w') && Records(s) && Unshared(o, s) && IdentitiesOwned(o, w.db)
    ensures IdentityOf(w.db, s.r, s.p, s.identity.value) && RowsPoint(w.db) && Apart(w.db, s.identity.value)
    ensures Text.Free(s.identity.value.adUsername, '@')
  {
    hide PlannedFrom, CreateEffect, IdentitiesOwned, Apart;
    StartedWasValidated(c, w, s, w');
    PlannedNameFree(w.db, s.r, s.look, s.facts, s.p);
    OwnedPoint(o, w.db);
    OwnedApart(o, w.db, s.identity.value);
  }

  /** Runs from a sound start in which no two usernames' recorded creates share an account. */
  ghost predicate UnsharedRun(o: Owners, c: Config, ws: seq<World>, ss: seq<Step>) {
    && IsRun(c, ws, ss) && Sound(ws[0]) && IdentitiesOwned(o, ws[0].db)
    && forall k :: 0 <= k < |ss| ==> Unshared(o, ss[k])
  }

  lemma {:induction false} RunsKeepIdentities(o: Owners, c: Config, ws: seq<World>, ss: seq<Step>, i: nat)
    requires UnsharedRun(o, c, ws, ss) && i < |ws|
    ensures Sound(ws[i]) && IdentitiesOwned(o, ws[i].db)
    decreases i
  {
    hide Sound, IdentitiesOwned, Takes, Unshared;
    if i > 0 {
      RunsKeepIdentities(o, c, ws, ss, i - 1);
      assert Takes(c, ws[i - 1], ss[i - 1], ws[i - 1 + 1]);
      StepKeepsSound(c, ws[i - 1], ss[i - 1], ws[i]);
      StepIdentities(o, c, ws[i - 1], ss[i - 1], ws[i]);
    }
  }

  /**
   Once all stored fields of a user are set, nothing in any later part of the run changes its SIDs, realm, AD name
   or numbers, whatever AD reported to the creates in between.
   */
  lemma {:induction false} IdentitiesAreStable(o: Owners, c: Config, ws: seq<World>, ss: seq<Step>, i: nat, j: nat, u: string)
    requires UnsharedRun(o, c, ws, ss) && i <= j < |ws|
    requires u in ws[i].db.identities && AllSet(ws[i].db.identities[u].ad)
    ensures u in ws[j].db.identities && ws[j].db.identities[u].ad == ws[i].db.identities[u].ad
    decreases j
  {
    hide Sound, IdentitiesOwned, Takes, Unshared, AllSet;
    if i < j {
      IdentitiesAreStable(o, c, ws, ss, i, j - 1, u);
      RunsKeepIdentities(o, c, ws, ss, j - 1);
      assert Takes(c, ws[j - 1], ss[j - 1], ws[j - 1 + 1]);
      StepIdentities(o, c, ws[j - 1], ss[j - 1], ws[j]);
    }
  }

  /** At every quiescent point the stored uid number is the uid of the user, though creates chose uids freely. */
  lemma StoredUidIsTheUsers(o: Owners, c: Config, ws: seq<World>, ss: seq<Step>, i: nat, u: string)
    requires UnsharedRun(o, c, ws, ss) && i < |ws| && u in ws[i].db.identities
    ensures forall k :: k in ws[i].db.users && ws[i].db.users[k].username == u ==>
      ws[i].db.users[k].uid == ws[i].db.identities[u].ad.uidNumber
  {
    hide Takes, Valid, Unshared;
    RunsKeepIdentities(o, c, ws, ss, i);
    var db := ws[i].db;
    assert IdentityOwned(o, db, u);
    forall k | k in db.users && db.users[k].username == u ensures db.users[k].uid == db.identities[u].ad.uidNumber {
      assert k == db.identities[u].userId.value;
    }
  }

  /** And, where compensations worked, it is the uid every recorded container of that user was started with. */
  lemma ContainersRunAsStored(o: Owners, c: Config, ws: seq<World>, ss: seq<Step>, i: nat, u: string, server: Server, name: string)
    requires UnsharedRun(o, c, ws, ss) && i < |ws| && u in ws[i].db.identities
    requires NoOrphans(ws[0].db, ws[0].hosts) && forall k :: 0 <= k < |ss| ==> Compensated(ss[k])
    requires name in At(ws[i].hosts, server).containers
    requires var x := At(ws[i].hosts, server).containers[name]; x.recorded && x.username == u
    ensures At(ws[i].hosts, server).containers[name].uid == ws[i].db.identities[u].ad.uidNumber
  {
    hide Takes, Sound, Unshared, IdentitiesOwned;
    StoredUidIsTheUsers(o, c, ws, ss, i, u);
    RunsLeaveNoOrphans(c, ws, ss, i);
    var row :| Backs(ws[i].db, row, server, name, At(ws[i].hosts, server).containers[name]);
    var owner := ws[i].db.containers[row].userId.value;
    assert owner in ws[i].db.users && ws[i].db.users[owner].username == u;
  }

  /** The assumption is needed: a second username takes over the first one's row if and only if they share an account. */
  lemma SharedAccountMovesTheRow(db: Tables, record: AdIdentity, first: string)
    requires first in db.identities && first != record.username && record.username !in db.identities
    requires UniqueUsernames(db) && HasUser(db, record.username)
    requires forall u :: u in db.identities && u != first ==>
      && Principal(db.identities[u].ad) != Principal(record) && db.identities[u].ad.objectSid != record.objectSid
      && UserIdSubquery(db, record.username) != Ok(db.identities[u].userId)
    ensures var done := ExecUpsertIdentity(db, record);
            done.Ok? && (record.username !in done.value.identities
                         <==> Principal(db.identities[first].ad) == Principal(record)
                              || db.identities[first].ad.objectSid == record.objectSid
                              || UserIdSubquery(db, record.username) == Ok(db.identities[first].userId))
  {
    SubqueryFindsTheUser(db, record.username);
    var row := IdentityRow(UserIdSubquery(db, record.username).value, record);
    var conflicts := IdentityConflicts(db, row);
    assert conflicts <= {first};
    if first in conflicts {
      assert conflicts == {first};
    } else {
      assert conflicts == {};
    }
  }
}
