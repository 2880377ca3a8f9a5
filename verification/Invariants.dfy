/** The keys of nfs_mysql/init.sql as one invariant over the seven tables, kept by every statement. */
module Invariants {
  import opened Wrappers
  import opened Schema

  // ---------- Unique keys ----------

  ghost predicate UniqueUids(db: Tables) {
    forall i, j :: i in db.users && j in db.users && db.users[i].uid == db.users[j].uid ==> i == j
  }

  ghost predicate UniqueGids(db: Tables) {
    forall g, h :: g in db.groups && h in db.groups && db.groups[g].gid == db.groups[h].gid ==> g == h
  }

  ghost predicate UniqueContainerIds(db: Tables) {
    forall c, d :: c in db.containers && d in db.containers && c != d ==>
      db.containers[c].containerId != db.containers[d].containerId
  }

  ghost predicate UniqueIdentities(db: Tables) {
    && (forall u :: u in db.identities ==> db.identities[u].ad.username == u)
    && (forall u, v :: u in db.identities && v in db.identities && u != v ==>
          && Principal(db.identities[u].ad) != Principal(db.identities[v].ad)
          && db.identities[u].ad.objectSid != db.identities[v].ad.objectSid
          && (db.identities[u].userId.Some? ==> db.identities[u].userId != db.identities[v].userId))
  }

  // ---------- Foreign keys ----------

  ghost predicate IdsReserved(db: Tables) {
    Uids(db) <= db.usedIds && Gids(db) <= db.usedIds
  }

  ghost predicate PrimaryGroupsExist(db: Tables) {
    PrimaryGids(db) <= Gids(db)
  }

  ghost predicate MembershipsPoint(db: Tables) {
    forall m :: m in db.memberships ==> m.0 in Uids(db) && m.1 in Gids(db)
  }

  ghost predicate OwnersExist(db: Tables) {
    && (forall c :: c in db.containers && db.containers[c].userId.Some? ==> db.containers[c].userId.value in db.users)
    && (forall u :: u in db.identities && db.identities[u].userId.Some? ==> db.identities[u].userId.value in db.users)
    && (forall p :: p in db.ports && db.ports[p].owner.Some? ==> db.ports[p].owner.value in db.containers)
  }

  ghost predicate Valid(db: Tables) {
    && UniqueUids(db) && UniqueGids(db) && UniqueContainerIds(db) && UniqueIdentities(db)
    && IdsReserved(db) && PrimaryGroupsExist(db) && MembershipsPoint(db) && OwnersExist(db)
  }

  /** Not enforced by the schema; kept by every statement, though not by interleaved transactions. */
  ghost predicate UniqueUsernames(db: Tables) {
    forall i, j :: i in db.users && j in db.users && db.users[i].username == db.users[j].username ==> i == j
  }

  // ---------- Every statement keeps the invariant ----------

  /** A users table keeping every uid of `db` at the same id still lists them all. */
  lemma UidsMonotone(db: Tables, db': Tables)
    requires forall i :: i in db.users ==> i in db'.users && db'.users[i].uid == db.users[i].uid
    ensures Uids(db) <= Uids(db')
  {
    forall v | v in Uids(db) ensures v in Uids(db') {
      var i :| i in db.users && db.users[i].uid == v;
      assert db'.users[i].uid == v;
    }
  }

  lemma GidsMonotone(db: Tables, db': Tables, except: set<int>)
    requires forall g :: g in db.groups && db.groups[g].gid !in except ==> g in db'.groups && db'.groups[g] == db.groups[g]
    ensures Gids(db) - except <= Gids(db')
  {
    forall v | v in Gids(db) - except ensures v in Gids(db') {
      var g :| g in db.groups && db.groups[g].gid == v;
      assert db'.groups[g].gid == v;
    }
  }

  lemma UserIdSubqueryFinds(db: Tables, username: string)
    ensures var r := UserIdSubquery(db, username);
            r.Ok? && r.value.Some? ==> r.value.value in db.users && db.users[r.value.value].username == username
  {
    var ids := IdsNamed(db, {username});
    if |ids| == 1 {
      assert TheOnly(ids) in ids;
    }
  }

  lemma UniqueSubquery(db: Tables, username: string)
    requires UniqueUsernames(db)
    ensures UserIdSubquery(db, username).Ok?
  {
    var ids := IdsNamed(db, {username});
    if |ids| > 0 {
      var i := AnElement(ids);
      forall j | j in ids ensures j == i {
        assert db.users[j].username == db.users[i].username;
      }
      assert ids == {i};
    }
  }

  lemma UpsertIdentityKeepsKeys(db: Tables, record: AdIdentity)
    requires Valid(db) && ExecUpsertIdentity(db, record).Ok?
    ensures Valid(ExecUpsertIdentity(db, record).value)
  {
    UserIdSubqueryFinds(db, record.username);
    var row := IdentityRow(UserIdSubquery(db, record.username).value, record);
    var conflicts := IdentityConflicts(db, row);
    var db' := ExecUpsertIdentity(db, record).value;
    assert db'.users == db.users && db'.groups == db.groups;
    var u := if |conflicts| == 1 then TheOnly(conflicts) else record.username;
    assert conflicts <= {u};
    forall v | v in db.identities && v != u
      ensures Principal(db.identities[v].ad) != Principal(row.ad) && db.identities[v].ad.objectSid != row.ad.objectSid
      ensures row.userId.Some? ==> db.identities[v].userId != row.userId
    {
      assert v !in conflicts;
    }
    var row' := IdentityRow(row.userId, record.(username := u));
    assert db' == db.(identities := db.identities[u := row']);
    IdentityWriteKeepsKeys(db, u, row');
  }

  lemma IdentityWriteKeepsKeys(db: Tables, u: string, row: IdentityRow)
    requires Valid(db) && row.ad.username == u
    requires row.userId.Some? ==> row.userId.value in db.users
    requires forall v :: v in db.identities && v != u ==>
      && Principal(db.identities[v].ad) != Principal(row.ad)
      && db.identities[v].ad.objectSid != row.ad.objectSid
      && (row.userId.Some? ==> db.identities[v].userId != row.userId)
    ensures Valid(db.(identities := db.identities[u := row]))
  {
  }

  /** A user table with the same uids and primary groups that exist breaks no key. */
  lemma UsersWithSameUidsKeepKeys(db: Tables, db': Tables)
    requires Valid(db) && db' == db.(users := db'.users) && db'.users.Keys == db.users.Keys
    requires forall i :: i in db.users ==> db'.users[i].uid == db.users[i].uid
    requires forall i :: i in db.users && db'.users[i].gid.Some? && db'.users[i] != db.users[i] ==> db'.users[i].gid.value in Gids(db)
    ensures Valid(db')
  {
    assert Gids(db') == Gids(db);
    assert Uids(db') == Uids(db);
    forall i | i in db'.users && db'.users[i].gid.Some? ensures db'.users[i].gid.value in Gids(db') {
      assert db.users[i].gid.Some? ==> db.users[i].gid.value in PrimaryGids(db);
    }
  }

  lemma UpsertUserKeepsKeys(db: Tables, s: Statement, auto: int)
    requires s.UpsertUser? && Valid(db) && ExecUpsertUser(db, s, auto).Ok?
    ensures Valid(ExecUpsertUser(db, s, auto).value)
  {
    var db' := ExecUpsertUser(db, s, auto).value;
    if HasUser(db, s.username) {
      forall i | i in db.users && db'.users[i] != db.users[i] ensures s.uid in Uids(db) {
        assert db.users[i].uid == s.uid;
      }
      UsersWithSameUidsKeepKeys(db, db');
    } else {
      InsertUserKeepsKeys(db, s, auto);
    }
  }

  lemma InsertUserKeepsKeys(db: Tables, s: Statement, auto: int)
    requires s.UpsertUser? && Valid(db) && !HasUser(db, s.username) && ExecUpsertUser(db, s, auto).Ok?
    ensures Valid(ExecUpsertUser(db, s, auto).value)
  {
    var db' := ExecUpsertUser(db, s, auto).value;
    assert Gids(db') == Gids(db);
    assert db'.users[auto].uid == s.uid;
    UidsMonotone(db, db');
    assert Uids(db') == Uids(db) + {s.uid};
  }

  lemma SetPrimaryGroupKeepsKeys(db: Tables, s: Statement, auto: int)
    requires s.SetPrimaryGroup? && Valid(db) && Exec(db, s, auto).Ok?
    ensures Valid(Exec(db, s, auto).value)
  {
    var db' := Exec(db, s, auto).value;
    forall i | i in db.users && db'.users[i] != db.users[i] ensures HasUser(db, s.username) {
      assert db.users[i].username == s.username;
    }
    UsersWithSameUidsKeepKeys(db, db');
  }

  lemma InsertGroupKeepsKeys(db: Tables, s: Statement, auto: int)
    requires s.InsertGroup? && Valid(db) && Exec(db, s, auto).Ok?
    ensures Valid(Exec(db, s, auto).value)
  {
    var db' := Exec(db, s, auto).value;
    assert Uids(db') == Uids(db) && PrimaryGids(db') == PrimaryGids(db);
    assert db'.groups[auto].gid == s.gid;
    GidsMonotone(db, db', {});
    assert Gids(db') == Gids(db) + {s.gid};
  }

  lemma InsertContainerKeepsKeys(db: Tables, s: Statement, auto: int)
    requires s.InsertContainer? && Valid(db) && ExecInsertContainer(db, s, auto).Ok?
    ensures Valid(ExecInsertContainer(db, s, auto).value)
  {
    UserIdSubqueryFinds(db, s.username);
    RowsOfOthersKeepKeys(db, ExecInsertContainer(db, s, auto).value);
  }

  /** When neither users nor groups change, only what the changed tables point at is at stake. */
  lemma RowsOfOthersKeepKeys(db: Tables, db': Tables)
    requires Valid(db) && db'.users == db.users && db'.groups == db.groups && db'.identities == db.identities
    requires db.usedIds <= db'.usedIds && UniqueContainerIds(db') && MembershipsPoint(db') && OwnersExist(db')
    ensures Valid(db')
  {
    assert Uids(db') == Uids(db) && Gids(db') == Gids(db) && PrimaryGids(db') == PrimaryGids(db);
  }

  /** Inserts and updates that touch neither users nor groups. */
  lemma OtherInsertsKeepKeys(db: Tables, s: Statement, auto: int)
    requires s.ReserveId? || s.InsertPort? || s.AttachPorts? || s.InsertMembership?
    requires Valid(db) && Exec(db, s, auto).Ok?
    ensures Valid(Exec(db, s, auto).value)
  {
    var db' := Exec(db, s, auto).value;
    assert Uids(db') == Uids(db) && Gids(db') == Gids(db);
    if s.AttachPorts? {
      forall p | p in db'.ports && db'.ports[p].owner.Some? ensures db'.ports[p].owner.value in db.containers {
        assert p in s.ports ==> p in s.ports * db.ports.Keys;
      }
    }
    RowsOfOthersKeepKeys(db, db');
  }

  lemma ContainerUpdatesKeepKeys(db: Tables, s: Statement, auto: int)
    requires s.MarkDeleted? || s.UpdateExpiration?
    requires Valid(db) && Exec(db, s, auto).Ok?
    ensures Valid(Exec(db, s, auto).value)
  {
    hide UniqueIdentities, IdsReserved, PrimaryGroupsExist;
    RowsOfOthersKeepKeys(db, Exec(db, s, auto).value);
  }

  lemma RowDeletesKeepKeys(db: Tables, s: Statement, auto: int)
    requires s.DeletePorts? || s.DeletePortsOfUsers? || s.DeleteContainersOfUsers?
    requires Valid(db) && Exec(db, s, auto).Ok?
    ensures Valid(Exec(db, s, auto).value)
  {
    hide UniqueIdentities, IdsReserved, PrimaryGroupsExist;
    RowsOfOthersKeepKeys(db, Exec(db, s, auto).value);
  }

  lemma MembershipDeletesKeepKeys(db: Tables, s: Statement, auto: int)
    requires s.DeleteMembership? || s.DeleteGroupMemberships?
    requires Valid(db) && Exec(db, s, auto).Ok?
    ensures Valid(Exec(db, s, auto).value)
  {
    var db' := Exec(db, s, auto).value;
    assert Uids(db') == Uids(db) && Gids(db') == Gids(db);
    RowsOfOthersKeepKeys(db, db');
  }

  lemma GroupDeletesKeepKeys(db: Tables, s: Statement, auto: int)
    requires s.DeleteGroup? || s.DeleteUnusedGroups?
    requires Valid(db) && Exec(db, s, auto).Ok?
    ensures Valid(Exec(db, s, auto).value)
  {
    var db' := Exec(db, s, auto).value;
    var doomed := if s.DeleteGroup? then {s.gid} else s.gids - PrimaryGids(db);
    assert Uids(db') == Uids(db) && PrimaryGids(db') == PrimaryGids(db);
    GidsMonotone(db, db', doomed);
    assert Gids(db') == Gids(db) - doomed;
  }

  lemma IdDeletesKeepKeys(db: Tables, s: Statement, auto: int)
    requires s.DeleteUnusedIds? && Valid(db) && Exec(db, s, auto).Ok?
    ensures Valid(Exec(db, s, auto).value)
  {
    var db' := Exec(db, s, auto).value;
    assert Uids(db') == Uids(db) && PrimaryGids(db') == PrimaryGids(db) && Gids(db') == Gids(db);
    forall v | v in Uids(db) ensures v in db'.usedIds {
      assert v !in Uids(db) * (s.ids - Gids(db));
    }
  }

  lemma UserDeletesKeepKeys(db: Tables, s: Statement, auto: int)
    requires s.DeleteUsers? && Valid(db) && Exec(db, s, auto).Ok?
    ensures Valid(Exec(db, s, auto).value)
  {
    var db' := Exec(db, s, auto).value;
    var ids := IdsNamed(db, s.usernames);
    assert Gids(db') == Gids(db) && Uids(db') <= Uids(db) && PrimaryGids(db') <= PrimaryGids(db);
    forall m | m in db.memberships ensures m.0 in Uids(db') {
      var i :| i in db.users && db.users[i].uid == m.0;
      assert i !in ids;
      assert i in db'.users && db'.users[i].uid == m.0;
    }
  }

  /** No statement the program issues can break a primary, unique or foreign key. */
  lemma ExecKeepsValid(db: Tables, s: Statement, auto: int)
    requires Valid(db) && Exec(db, s, auto).Ok?
    ensures Valid(Exec(db, s, auto).value)
  {
    match s
    case UpsertUser(_, _, _, _) => UpsertUserKeepsKeys(db, s, auto);
    case UpsertIdentity(record) => UpsertIdentityKeepsKeys(db, record);
    case SetPrimaryGroup(_, _) => SetPrimaryGroupKeepsKeys(db, s, auto);
    case InsertGroup(_, _) => InsertGroupKeepsKeys(db, s, auto);
    case InsertContainer(_, _, _, _, _) => InsertContainerKeepsKeys(db, s, auto);
    case DeleteGroup(_) => GroupDeletesKeepKeys(db, s, auto);
    case DeleteUnusedGroups(_) => GroupDeletesKeepKeys(db, s, auto);
    case DeleteUsers(_) => UserDeletesKeepKeys(db, s, auto);
    case DeleteUnusedIds(_) => IdDeletesKeepKeys(db, s, auto);
    case ReserveId(_) => OtherInsertsKeepKeys(db, s, auto);
    case InsertPort(_, _) => OtherInsertsKeepKeys(db, s, auto);
    case AttachPorts(_, _) => OtherInsertsKeepKeys(db, s, auto);
    case InsertMembership(_, _) => OtherInsertsKeepKeys(db, s, auto);
    case DeleteMembership(_, _) => MembershipDeletesKeepKeys(db, s, auto);
    case DeleteGroupMemberships(_) => MembershipDeletesKeepKeys(db, s, auto);
    case MarkDeleted(_) => ContainerUpdatesKeepKeys(db, s, auto);
    case UpdateExpiration(_, _) => ContainerUpdatesKeepKeys(db, s, auto);
    case _ => RowDeletesKeepKeys(db, s, auto);
  }

  lemma {:induction false} ExecAllKeepsValid(db: Tables, ss: seq<Statement>, auto: int)
    requires Valid(db) && ExecAll(db, ss, auto).Ok?
    ensures Valid(ExecAll(db, ss, auto).value)
    decreases |ss|
  {
    if ss != [] {
      ExecKeepsValid(db, ss[0], auto);
      ExecAllKeepsValid(Exec(db, ss[0], auto).value, ss[1..], auto + 1);
    }
  }
}
