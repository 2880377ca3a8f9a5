/** maintenance/delete_user.py: removing users, their containers, ports, private groups and ids in one transaction. */
module UserDeletion {
  import opened Wrappers
  import opened Schema
  import opened Invariants
  import opened Repositories
  import opened Transactions

  /** The primary gids and the uids read before the transaction; a gid of 0 is skipped. */
  function GidsOf(db: Tables, usernames: set<string>): set<int> {
    set i | i in IdsNamed(db, usernames) && db.users[i].gid.Some? && db.users[i].gid.value != 0 :: db.users[i].gid.value
  }

  function UidsOf(db: Tables, usernames: set<string>): set<int> {
    set i | i in IdsNamed(db, usernames) :: db.users[i].uid
  }

  function DeletionStatements(usernames: set<string>, gids: set<int>, uids: set<int>, dropGroups: bool,
      dropIds: bool): seq<Statement> {
    [DeletePortsOfUsers(usernames), DeleteContainersOfUsers(usernames), DeleteUsers(usernames)]
    + (if dropGroups && gids != {} then [DeleteUnusedGroups(gids)] else [])
    + (if dropIds && uids != {} then [DeleteUnusedIds(uids)] else [])
  }

  function DeletionTxn(db: Tables, usernames: set<string>, dropGroups: bool, dropIds: bool, auto: int): SqlResult {
    ExecAll(db, DeletionStatements(usernames, GidsOf(db, usernames), UidsOf(db, usernames), dropGroups, dropIds), auto)
  }

  // ---------- The script ----------

  /** Either the whole deletion is committed or nothing is. */
  method DeleteUsersScript(repo: Repository, usernames: set<string>, confirmed: bool, dropGroups: bool, dropIds: bool)
    returns (deleted: bool)
    requires !repo.inTransaction
    modifies repo
    ensures deleted ==> confirmed && IdsNamed(old(repo.committed), usernames) != {}
    ensures deleted ==> DeletionTxn(old(repo.committed), usernames, dropGroups, dropIds, old(repo.autoIncrement)) == Ok(repo.committed)
    ensures !deleted ==> repo.committed == old(repo.committed)
    ensures deleted || repo.faultless ==> !repo.inTransaction
    ensures repo.faultless ==>
      (deleted <==> confirmed && IdsNamed(old(repo.committed), usernames) != {}
                    && DeletionTxn(old(repo.committed), usernames, dropGroups, dropIds, old(repo.autoIncrement)).Ok?)
    ensures deleted && Valid(old(repo.committed)) ==>
      OnlyNamedGone(old(repo.committed), usernames, dropGroups, dropIds, repo.committed)
    ensures repo.faultless && Valid(old(repo.committed)) ==>
      (deleted <==> confirmed && (exists i :: Named(old(repo.committed), usernames, i))
                    && !Holds(old(repo.committed), usernames, dropGroups))
  {
    hide Valid, OnlyNamedGone, Holds, ExecAll, DeletionStatements;
    if Valid(repo.committed) {
      DeletionExactly(repo.committed, usernames, dropGroups, dropIds, repo.autoIncrement);
    }
    assert IdsNamed(repo.committed, usernames) != {} <==> exists i :: Named(repo.committed, usernames, i) by {
      NamedExist(repo.committed, usernames);
    }
    var read, db := repo.Read();
    if read.Raised? || IdsNamed(db, usernames) == {} {
      return false;
    }
    if !confirmed {
      return false;
    }
    var began := repo.Begin();
    if began.Raised? {
      return false;
    }
    var statements := DeletionStatements(usernames, GidsOf(db, usernames), UidsOf(db, usernames), dropGroups, dropIds);
    var executed := ExecuteAll(repo, statements);
    if executed.Done? {
      var committed := repo.Commit();
      if committed.Done? {
        return true;
      }
    }
    var _ := repo.Rollback();
    return false;
  }

  lemma NamedExist(db: Tables, usernames: set<string>)
    ensures IdsNamed(db, usernames) != {} <==> exists i :: Named(db, usernames, i)
  {
    if |IdsNamed(db, usernames)| > 0 {
      var i := AnElement(IdsNamed(db, usernames));
      assert Named(db, usernames, i);
    }
    if i :| Named(db, usernames, i) {
      assert i in IdsNamed(db, usernames);
    }
  }

  // ---------- What it does ----------

  /** A membership or identity row that names one of the users. */
  ghost predicate HeldByOtherRows(db: Tables, usernames: set<string>) {
    || (exists m :: m in db.memberships && m.0 in UidsOf(db, usernames))
    || (exists u :: u in db.identities && db.identities[u].userId.Some? && db.identities[u].userId.value in IdsNamed(db, usernames))
  }

  /** The private groups that go unless groups are kept: primary to a deleted user and to nobody else. */
  function DoomedGids(db: Tables, usernames: set<string>, dropGroups: bool): set<int> {
    if dropGroups then GidsOf(db, usernames) - PrimaryGids(db.(users := db.users - IdsNamed(db, usernames))) else {}
  }

  ghost predicate GroupsHeld(db: Tables, usernames: set<string>, dropGroups: bool) {
    exists m :: m in db.memberships && m.1 in DoomedGids(db, usernames, dropGroups)
  }

  /** The tables after the first statement, which empties the users' containers of ports. */
  function WithoutPorts(db: Tables, usernames: set<string>): Tables {
    var rows := ContainersOfUsers(db, usernames);
    db.(ports := map p | p in db.ports && !(db.ports[p].owner.Some? && db.ports[p].owner.value in rows) :: db.ports[p])
  }

  /** The tables without the users, their containers and those containers' ports. */
  function WithoutUsers(db: Tables, usernames: set<string>): Tables {
    WithoutPorts(db, usernames).(containers := db.containers - ContainersOfUsers(db, usernames),
                                 users := db.users - IdsNamed(db, usernames))
  }

  lemma ContainersStage(db: Tables, usernames: set<string>, auto: int)
    ensures Exec(db, DeletePortsOfUsers(usernames), auto) == Ok(WithoutPorts(db, usernames))
    ensures Exec(WithoutPorts(db, usernames), DeleteContainersOfUsers(usernames), auto + 1)
         == Ok(WithoutPorts(db, usernames).(containers := db.containers - ContainersOfUsers(db, usernames)))
  {
    var db1 := WithoutPorts(db, usernames);
    assert IdsNamed(db1, usernames) == IdsNamed(db, usernames);
    assert ContainersOfUsers(db1, usernames) == ContainersOfUsers(db, usernames);
  }

  lemma UsersStage(db: Tables, usernames: set<string>, auto: int)
    ensures var done := ExecAll(db, [DeletePortsOfUsers(usernames), DeleteContainersOfUsers(usernames), DeleteUsers(usernames)], auto);
            && (done.Ok? <==> !HeldByOtherRows(db, usernames))
            && (done.Ok? ==> done.value == WithoutUsers(db, usernames))
  {
    hide ExecUpsertUser, ExecUpsertIdentity, ExecInsertContainer, UsersReferenced, HeldByOtherRows, ContainersOfUsers;
    var one, two, three := DeletePortsOfUsers(usernames), DeleteContainersOfUsers(usernames), DeleteUsers(usernames);
    assert [one, two, three][1..] == [two, three] && [two, three][1..] == [three];
    ContainersStage(db, usernames, auto);
    var db2 := WithoutPorts(db, usernames).(containers := db.containers - ContainersOfUsers(db, usernames));
    assert IdsNamed(db2, usernames) == IdsNamed(db, usernames);
    ReferencesLeft(db, db2, usernames);
    ExecAllOne(db2, three, auto + 2);
  }

  lemma ReferencesLeft(db: Tables, db2: Tables, usernames: set<string>)
    requires db2.users == db.users && db2.memberships == db.memberships && db2.identities == db.identities
    requires db2.containers == db.containers - ContainersOfUsers(db, usernames)
    ensures UsersReferenced(db2, IdsNamed(db, usernames)) <==> HeldByOtherRows(db, usernames)
  {
    var ids := IdsNamed(db, usernames);
    forall m | m in db.memberships
      ensures (exists i :: i in ids && i in db.users && db.users[i].uid == m.0) <==> m.0 in UidsOf(db, usernames)
    {
    }
    forall c | c in db2.containers ensures !(db2.containers[c].userId.Some? && db2.containers[c].userId.value in ids) {
      assert c !in ContainersOfUsers(db, usernames);
    }
  }

  function WithoutGroups(db: Tables, gids: set<int>): Tables {
    db.(groups := map g | g in db.groups && db.groups[g].gid !in gids :: db.groups[g])
  }

  /** The tables without the users and, unless groups are kept, without their private groups. */
  function WithoutUsersAndGroups(db: Tables, usernames: set<string>, dropGroups: bool): Tables {
    WithoutGroups(WithoutUsers(db, usernames), DoomedGids(db, usernames, dropGroups))
  }

  lemma GroupsPart(db: Tables, usernames: set<string>, dropGroups: bool, auto: int)
    requires Valid(db)
    ensures var gids := GidsOf(db, usernames);
            var done := ExecAll(WithoutUsers(db, usernames),
                                if dropGroups && gids != {} then [DeleteUnusedGroups(gids)] else [], auto);
            && (done.Ok? <==> !GroupsHeld(db, usernames, dropGroups))
            && (done.Ok? ==> done.value == WithoutUsersAndGroups(db, usernames, dropGroups))
  {
    var db3, gids := WithoutUsers(db, usernames), GidsOf(db, usernames);
    assert PrimaryGids(db3) == PrimaryGids(db.(users := db.users - IdsNamed(db, usernames)));
    if dropGroups && gids != {} {
      ExecAllOne(db3, DeleteUnusedGroups(gids), auto);
    } else {
      assert WithoutGroups(db3, {}).groups == db3.groups;
    }
  }

  /** The ids that go unless ids are kept: those no group of `db` uses as gid. */
  function WithoutIds(db: Tables, uids: set<int>, dropIds: bool): Tables {
    if dropIds then db.(usedIds := db.usedIds - (uids - Gids(db))) else db
  }

  lemma IdsPart(db: Tables, uids: set<int>, dropIds: bool, auto: int)
    requires Uids(db) !! uids
    ensures ExecAll(db, if dropIds && uids != {} then [DeleteUnusedIds(uids)] else [], auto)
            == Ok(WithoutIds(db, uids, dropIds))
  {
    if dropIds && uids != {} {
      ExecAllOne(db, DeleteUnusedIds(uids), auto);
    } else {
      assert db.usedIds - ({} - Gids(db)) == db.usedIds;
    }
  }

  function AfterDeletion(db: Tables, usernames: set<string>, dropGroups: bool, dropIds: bool): Tables {
    WithoutIds(WithoutUsersAndGroups(db, usernames, dropGroups), UidsOf(db, usernames), dropIds)
  }

  lemma RemainingUids(db: Tables, usernames: set<string>)
    requires Valid(db)
    ensures Uids(WithoutUsers(db, usernames)) !! UidsOf(db, usernames)
  {
    var db3 := WithoutUsers(db, usernames);
    forall i | i in db3.users ensures db3.users[i].uid !in UidsOf(db, usernames) {
      assert i in db.users && i !in IdsNamed(db, usernames);
    }
  }

  lemma DeletionRuns(db: Tables, usernames: set<string>, dropGroups: bool, dropIds: bool, auto: int)
    requires Valid(db)
    ensures var done := DeletionTxn(db, usernames, dropGroups, dropIds, auto);
            && (done.Ok? <==> !HeldByOtherRows(db, usernames) && !GroupsHeld(db, usernames, dropGroups))
            && (done.Ok? ==> done.value == AfterDeletion(db, usernames, dropGroups, dropIds))
  {
    hide Exec, Valid, HeldByOtherRows, GroupsHeld, UidsOf, GidsOf, WithoutUsers, DoomedGids;
    var gids, uids := GidsOf(db, usernames), UidsOf(db, usernames);
    var three := [DeletePortsOfUsers(usernames), DeleteContainersOfUsers(usernames), DeleteUsers(usernames)];
    var groups := if dropGroups && gids != {} then [DeleteUnusedGroups(gids)] else [];
    var ids := if dropIds && uids != {} then [DeleteUnusedIds(uids)] else [];
    assert DeletionStatements(usernames, gids, uids, dropGroups, dropIds) == three + groups + ids;
    ExecAllAppend(db, three + groups, ids, auto);
    ExecAllAppend(db, three, groups, auto);
    UsersStage(db, usernames, auto);
    GroupsPart(db, usernames, dropGroups, auto + 3);
    if !HeldByOtherRows(db, usernames) && !GroupsHeld(db, usernames, dropGroups) {
      var rest := WithoutUsersAndGroups(db, usernames, dropGroups);
      RemainingUids(db, usernames);
      assert rest.users == WithoutUsers(db, usernames).users;
      assert Uids(rest) == Uids(WithoutUsers(db, usernames));
      IdsPart(rest, uids, dropIds, auto + 3 + |groups|);
    }
  }

  lemma AfterDeletionGids(db: Tables, usernames: set<string>, dropGroups: bool, dropIds: bool)
    requires Valid(db)
    ensures var after := AfterDeletion(db, usernames, dropGroups, dropIds);
            && Gids(after) == Gids(db) - DoomedGids(db, usernames, dropGroups)
            && PrimaryGids(after) == PrimaryGids(db.(users := db.users - IdsNamed(db, usernames)))
  {
    GidsMonotone(db, AfterDeletion(db, usernames, dropGroups, dropIds), DoomedGids(db, usernames, dropGroups));
  }

  // ---------- Exactly what goes, row by row ----------

  ghost predicate Named(db: Tables, usernames: set<string>, i: int) {
    i in db.users && db.users[i].username in usernames
  }

  /** The container's owner is one of the users. */
  ghost predicate OwnedByNamed(db: Tables, usernames: set<string>, c: int) {
    c in db.containers && exists i :: Named(db, usernames, i) && db.containers[c].userId == Some(i)
  }

  /** Primary group of one of the users (0 is no group) and of nobody who stays. */
  ghost predicate PrivateToNamed(db: Tables, usernames: set<string>, gid: int) {
    && gid != 0 && (exists i :: Named(db, usernames, i) && db.users[i].gid == Some(gid))
    && forall i :: i in db.users && db.users[i].gid == Some(gid) ==> Named(db, usernames, i)
  }

  ghost predicate UidOfNamed(db: Tables, usernames: set<string>, uid: int) {
    exists i :: Named(db, usernames, i) && db.users[i].uid == uid
  }

  /** A row the schema would leave dangling: a membership or an identity of one of the users, a membership of a group that goes. */
  ghost predicate Holds(db: Tables, usernames: set<string>, dropGroups: bool) {
    || (exists m :: m in db.memberships && UidOfNamed(db, usernames, m.0))
    || (exists u, i :: u in db.identities && Named(db, usernames, i) && db.identities[u].userId == Some(i))
    || (dropGroups && exists m :: m in db.memberships && PrivateToNamed(db, usernames, m.1))
  }

  /** Of every table exactly the rows that are the users', and of what stays every row as it was. */
  ghost predicate OnlyNamedGone(db: Tables, usernames: set<string>, dropGroups: bool, dropIds: bool, db': Tables) {
    && (forall i :: i in db'.users <==> i in db.users && !Named(db, usernames, i))
    && (forall i :: i in db'.users ==> db'.users[i] == db.users[i])
    && (forall c :: c in db'.containers <==> c in db.containers && !OwnedByNamed(db, usernames, c))
    && (forall c :: c in db'.containers ==> db'.containers[c] == db.containers[c])
    && (forall p :: p in db'.ports <==>
          p in db.ports && (db.ports[p].owner.Some? ==> db.ports[p].owner.value in db'.containers))
    && (forall p :: p in db'.ports ==> db'.ports[p] == db.ports[p])
    && (forall g :: g in db'.groups <==>
          g in db.groups && !(dropGroups && PrivateToNamed(db, usernames, db.groups[g].gid)))
    && (forall g :: g in db'.groups ==> db'.groups[g] == db.groups[g])
    && (forall v :: v in db'.usedIds <==>
          v in db.usedIds
          && !(dropIds && UidOfNamed(db, usernames, v) && forall g :: g in db'.groups ==> db'.groups[g].gid != v))
    && db'.memberships == db.memberships && db'.identities == db.identities
  }

  lemma OwnedAreContainers(db: Tables, usernames: set<string>)
    ensures forall c :: c in ContainersOfUsers(db, usernames) <==> OwnedByNamed(db, usernames, c)
  {
    forall c | c in ContainersOfUsers(db, usernames) ensures OwnedByNamed(db, usernames, c) {
      var i := db.containers[c].userId.value;
      assert Named(db, usernames, i) && db.containers[c].userId == Some(i);
    }
  }

  lemma DoomedArePrivate(db: Tables, usernames: set<string>)
    ensures forall gid :: gid in DoomedGids(db, usernames, true) <==> PrivateToNamed(db, usernames, gid)
    ensures forall uid :: uid in UidsOf(db, usernames) <==> UidOfNamed(db, usernames, uid)
  {
    var rest := db.(users := db.users - IdsNamed(db, usernames));
    forall gid | gid in DoomedGids(db, usernames, true) ensures PrivateToNamed(db, usernames, gid) {
      var i :| i in IdsNamed(db, usernames) && db.users[i].gid == Some(gid);
      assert Named(db, usernames, i);
      forall j | j in db.users && db.users[j].gid == Some(gid) ensures Named(db, usernames, j) {
        assert j in rest.users ==> gid in PrimaryGids(rest);
      }
    }
    forall gid | PrivateToNamed(db, usernames, gid) ensures gid in DoomedGids(db, usernames, true) {
      var i :| Named(db, usernames, i) && db.users[i].gid == Some(gid);
      assert i in IdsNamed(db, usernames);
      assert gid !in PrimaryGids(rest);
    }
    forall uid | uid in UidsOf(db, usernames) ensures UidOfNamed(db, usernames, uid) {
      var i :| i in IdsNamed(db, usernames) && db.users[i].uid == uid;
      assert Named(db, usernames, i);
    }
  }

  lemma HeldExactly(db: Tables, usernames: set<string>, dropGroups: bool)
    ensures Holds(db, usernames, dropGroups) <==> HeldByOtherRows(db, usernames) || GroupsHeld(db, usernames, dropGroups)
  {
    hide PrivateToNamed, UidOfNamed, DoomedGids, UidsOf;
    DoomedArePrivate(db, usernames);
    NothingDoomed(db, usernames);
    forall u | u in db.identities
      ensures db.identities[u].userId.Some? && db.identities[u].userId.value in IdsNamed(db, usernames)
              <==> exists i :: Named(db, usernames, i) && db.identities[u].userId == Some(i)
    {
      if db.identities[u].userId.Some? && db.identities[u].userId.value in IdsNamed(db, usernames) {
        assert Named(db, usernames, db.identities[u].userId.value);
      }
    }
  }

  lemma NothingDoomed(db: Tables, usernames: set<string>)
    ensures DoomedGids(db, usernames, false) == {}
  {
  }

  lemma AfterDeletionIs(db: Tables, usernames: set<string>, dropGroups: bool, dropIds: bool)
    requires Valid(db)
    ensures OnlyNamedGone(db, usernames, dropGroups, dropIds, AfterDeletion(db, usernames, dropGroups, dropIds))
  {
    hide PrivateToNamed, UidOfNamed, DoomedGids, UidsOf, ContainersOfUsers, OwnedByNamed;
    OwnedAreContainers(db, usernames);
    DoomedArePrivate(db, usernames);
    NothingDoomed(db, usernames);
  }

  /**
   Whether groups and ids are kept or not, the deletion is refused exactly when a membership or identity
   row names one of the users or a membership names a group that would go. Otherwise the keys still hold,
   exactly the users and their containers and ports are gone, a primary group of theirs survives if and
   only if groups are kept or a remaining user has it as primary, and a uid of theirs stays in used_ids if
   and only if ids are kept or a surviving group uses it as gid.
   */
  lemma DeletionExactly(db: Tables, usernames: set<string>, dropGroups: bool, dropIds: bool, auto: int)
    requires Valid(db)
    ensures var done := DeletionTxn(db, usernames, dropGroups, dropIds, auto);
            && (done.Ok? <==> !Holds(db, usernames, dropGroups))
            && (done.Ok? ==>
                  && Valid(done.value) && OnlyNamedGone(db, usernames, dropGroups, dropIds, done.value)
                  && done.value.users == db.users - IdsNamed(db, usernames)
                  && done.value.containers == db.containers - ContainersOfUsers(db, usernames)
                  && done.value.ports.Keys == db.ports.Keys - PortsOfUsers(db, usernames)
                  && done.value.memberships == db.memberships && done.value.identities == db.identities
                  && (forall g :: g in GidsOf(db, usernames) ==>
                        (g in Gids(done.value) <==> !dropGroups || g in PrimaryGids(done.value)))
                  && Gids(db) - GidsOf(db, usernames) <= Gids(done.value) <= Gids(db)
                  && (forall u :: u in UidsOf(db, usernames) ==>
                        (u in done.value.usedIds <==> !dropIds || u in Gids(done.value)))
                  && db.usedIds - UidsOf(db, usernames) <= done.value.usedIds <= db.usedIds)
  {
    hide Holds, OnlyNamedGone;
    DeletionRuns(db, usernames, dropGroups, dropIds, auto);
    HeldExactly(db, usernames, dropGroups);
    AfterDeletionIs(db, usernames, dropGroups, dropIds);
    AfterDeletionGids(db, usernames, dropGroups, dropIds);
    if DeletionTxn(db, usernames, dropGroups, dropIds, auto).Ok? {
      var statements := DeletionStatements(usernames, GidsOf(db, usernames), UidsOf(db, usernames), dropGroups, dropIds);
      ExecAllKeepsValid(db, statements, auto);
      forall g | g in GidsOf(db, usernames) ensures g in Gids(db) {
        assert g in PrimaryGids(db);
      }
      assert UidsOf(db, usernames) <= Uids(db);
    }
  }
}
