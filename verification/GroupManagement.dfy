/** `manage-group`: ensuring, joining, leaving and deleting groups, mostly in autocommitted statements. */
module GroupManagement {
  import opened Wrappers
  import opened Schema
  import opened Invariants
  import opened Repositories
  import opened Planner
  import opened Transactions
  import opened CreateTransaction

  datatype Action = List | Ensure | AddUser | SetPrimary | RemoveUser | Delete | Show

  /** Empty texts are absent options. */
  datatype GroupRequest = GroupRequest(
    domain: Domain, groupname: string, gid: Option<int>, usernames: seq<string>, username: string,
    action: Action, primary: bool, force: bool, dryRun: bool)

  function Users(q: GroupRequest): seq<string> {
    if q.usernames != [] then q.usernames else if q.username != "" then [q.username] else []
  }

  /** The users a request names: those of the list, or without a list the single one. */
  ghost predicate AskedFor(q: GroupRequest, u: string) {
    u in q.usernames || (q.usernames == [] && u == q.username && u != "")
  }

  lemma UsersAreAskedFor(q: GroupRequest)
    ensures forall u :: u in Users(q) <==> AskedFor(q, u)
    ensures Users(q) == [] <==> forall u :: !AskedFor(q, u)
  {
    if Users(q) != [] {
      assert Users(q)[0] in Users(q);
    }
  }

  /** Whose membership it is. */
  ghost predicate MemberNamed(db: Tables, usernames: set<string>, m: (int, int)) {
    exists i :: i in db.users && db.users[i].username in usernames && db.users[i].uid == m.0
  }

  ghost predicate RowOf(db: Tables, username: string, user: UserRow) {
    exists i :: i in db.users && db.users[i] == user && user.username == username
  }

  ghost predicate GroupRowOf(db: Tables, groupname: string, group: GroupRow) {
    exists g :: g in db.groups && db.groups[g] == group && group.name == groupname
  }

  /** Every user of that name has the group as primary, and no membership doubling it. */
  ghost predicate PrimaryPlaced(db: Tables, username: string, gid: int) {
    forall i :: i in db.users && db.users[i].username == username ==>
      db.users[i].gid == Some(gid) && (db.users[i].uid, gid) !in db.memberships
  }

  ghost predicate Placed(db: Tables, username: string, gid: int) {
    forall i :: i in db.users && db.users[i].username == username ==>
      db.users[i].gid == Some(gid) || (db.users[i].uid, gid) in db.memberships
  }

  /** No user of that name is in the group, neither as primary nor as supplemental. */
  ghost predicate Removed(db: Tables, username: string, gid: int) {
    forall i :: i in db.users && db.users[i].username == username ==>
      db.users[i].gid != Some(gid) && (db.users[i].uid, gid) !in db.memberships
  }

  ghost predicate InGroup(db: Tables, username: string, gid: int, primary: bool) {
    HasUser(db, username) && (if primary then PrimaryPlaced(db, username, gid) else Placed(db, username, gid))
  }

  // ---------- Steps ----------

  /** What the service asks of Samba. */
  datatype AdCommand =
    | EnsureAdGroup(groupname: string, gid: int)
    | AddAdMember(groupname: string, username: string)
    | DropAdMember(groupname: string, username: string)
    | DeleteAdGroup(groupname: string)
    | ShowAdGroup(groupname: string)

  class AdHost {
    const faultless: bool
    /** The commands that went through. */
    ghost var log: seq<AdCommand>

    method Run(command: AdCommand) returns (outcome: Outcome)
      modifies this
      ensures log == if outcome.Done? then old(log) + [command] else old(log)
      ensures faultless ==> outcome.Done?
    {
      var works: bool := *;
      if works || faultless {
        log := log + [command];
        return Done;
      }
      return Raised;
    }
  }

  ghost function AddedMembers(groupname: string, users: seq<string>): seq<AdCommand> {
    seq(|users|, i requires 0 <= i < |users| => AddAdMember(groupname, users[i]))
  }

  ghost function DroppedMembers(groupname: string, users: seq<string>): seq<AdCommand> {
    seq(|users|, i requires 0 <= i < |users| => DropAdMember(groupname, users[i]))
  }

  method FindUser(repo: Repository, username: string) returns (outcome: Outcome, user: Option<UserRow>)
    ensures outcome.Done? && user.Some? ==> RowOf(repo.View(), username, user.value)
    ensures outcome.Done? && user.None? ==> !HasUser(repo.View(), username)
    ensures repo.faultless ==> outcome.Done?
  {
    var read, db := repo.Read();
    if read.Done? && HasUser(db, username) {
      var i :| i in db.users && db.users[i].username == username;
      return Done, Some(db.users[i]);
    }
    return read, None;
  }

  method FindGroup(repo: Repository, groupname: string) returns (outcome: Outcome, group: Option<GroupRow>)
    ensures outcome.Done? && group.Some? ==> GroupRowOf(repo.View(), groupname, group.value)
    ensures outcome.Done? && group.None? ==> !HasGroup(repo.View(), groupname)
    ensures repo.faultless ==> outcome.Done?
  {
    var read, db := repo.Read();
    if read.Done? && HasGroup(db, groupname) {
      var g :| g in db.groups && db.groups[g].name == groupname;
      return Done, Some(db.groups[g]);
    }
    return read, None;
  }

  function EnsureStatements(groupname: string, gid: int): seq<Statement> {
    [ReserveId(gid), InsertGroup(groupname, gid)]
  }

  /** The transaction of a new group: both rows or neither. */
  method InsertNewGroup(repo: Repository, groupname: string, gid: int) returns (outcome: Outcome)
    requires !repo.inTransaction
    modifies repo
    ensures outcome.Done? ==>
      && !repo.inTransaction
      && ExecAll(old(repo.committed), EnsureStatements(groupname, gid), old(repo.autoIncrement)) == Ok(repo.committed)
    ensures outcome.Raised? ==> repo.committed == old(repo.committed)
    ensures repo.faultless ==> !repo.inTransaction
    ensures repo.faultless ==>
      (outcome.Done? <==> ExecAll(old(repo.committed), EnsureStatements(groupname, gid), old(repo.autoIncrement)).Ok?)
  {
    var reserve, insert := ReserveId(gid), InsertGroup(groupname, gid);
    :- repo.Begin();
    ExecAllAppend(repo.working, [reserve], [insert], repo.autoIncrement);
    assert [reserve] + [insert] == EnsureStatements(groupname, gid);
    ExecAllOne(repo.working, reserve, repo.autoIncrement);
    var rows;
    outcome, rows := repo.Execute(reserve);
    if outcome.Done? {
      ExecAllOne(repo.working, insert, repo.autoIncrement);
      outcome, rows := repo.Execute(insert);
    }
    if outcome.Done? {
      outcome := repo.Commit();
    }
    if outcome.Raised? {
      var _ := repo.Rollback();
    }
  }

  function WantedGid(db: Tables, q: GroupRequest): int {
    if q.gid.Some? then q.gid.value else NextAvailableId(db, MANAGED_ID_MINIMUM)
  }

  /** The group exists (and no other gid is asked for), or the schema accepts it. */
  ghost predicate GroupObtainable(db: Tables, q: GroupRequest, auto: int) {
    IdentityName(q.groupname) &&
    if HasGroup(db, q.groupname) then
      q.gid.Some? ==> forall g :: g in db.groups && db.groups[g].name == q.groupname ==> db.groups[g].gid == q.gid.value
    else q.dryRun || ExecAll(db, EnsureStatements(q.groupname, WantedGid(db, q)), auto).Ok?
  }

  /** Finds the group or creates it with the requested or the next gid. */
  method EnsureGroup(repo: Repository, q: GroupRequest) returns (outcome: Outcome, gid: int, created: bool)
    requires !repo.inTransaction
    modifies repo
    ensures outcome.Raised? || !created || q.dryRun ==> repo.committed == old(repo.committed)
    ensures outcome.Done? ==> !repo.inTransaction && IdentityName(q.groupname) && (q.gid.Some? ==> gid == q.gid.value)
    ensures outcome.Done? && !created ==> GroupRowOf(repo.committed, q.groupname, GroupRow(q.groupname, gid))
    ensures outcome.Done? && created ==>
      && !HasGroup(old(repo.committed), q.groupname)
      && (q.gid.None? ==> gid >= 10000 && (gid == 10000 || gid - 1 in old(repo.committed).usedIds)
                          && forall v :: v in old(repo.committed).usedIds ==> v < gid)
      && (!q.dryRun ==>
            ExecAll(old(repo.committed), EnsureStatements(q.groupname, gid), old(repo.autoIncrement)) == Ok(repo.committed))
    ensures repo.faultless && GroupObtainable(old(repo.committed), q, old(repo.autoIncrement)) ==> outcome.Done?
  {
    gid, created := 0, false;
    if !IdentityName(q.groupname) {
      outcome := Raised;
      return;
    }
    var existing;
    outcome, existing := FindGroup(repo, q.groupname);
    if outcome.Raised? {
      return;
    }
    if existing.Some? {
      gid := existing.value.gid;
      outcome := if q.gid.Some? && q.gid.value != gid then Raised else Done;
      return;
    }
    var db;
    outcome, db := repo.Read();
    if outcome.Raised? {
      return;
    }
    gid, created := WantedGid(db, q), true;
    if !q.dryRun {
      outcome := InsertNewGroup(repo, q.groupname, gid);
    }
  }

  /** An autocommitted statement: it runs as a whole, or raises and changes nothing. */
  method Autocommit(repo: Repository, s: Statement) returns (outcome: Outcome)
    requires !repo.inTransaction && Valid(repo.committed) && UniqueUsernames(repo.committed)
    modifies repo
    ensures !repo.inTransaction && Valid(repo.committed) && UniqueUsernames(repo.committed)
    ensures outcome.Done? ==> Exec(old(repo.committed), s, old(repo.autoIncrement)) == Ok(repo.committed)
    ensures outcome.Raised? ==> repo.committed == old(repo.committed)
    ensures repo.faultless ==> (outcome.Done? <==> Exec(old(repo.committed), s, old(repo.autoIncrement)).Ok?)
  {
    hide Exec, Valid, UniqueUsernames;
    var rows;
    outcome, rows := repo.Execute(s);
    if outcome.Done? {
      ExecKeepsValid(old(repo.committed), s, old(repo.autoIncrement));
      ExecKeepsUsernames(old(repo.committed), s, old(repo.autoIncrement));
    }
  }

  /** `set_user_primary_group`: two autocommitted statements, so a fault between them keeps the membership. */
  method MakePrimary(repo: Repository, username: string, gid: int) returns (outcome: Outcome)
    requires !repo.inTransaction && Valid(repo.committed) && UniqueUsernames(repo.committed)
    modifies repo
    ensures !repo.inTransaction && Valid(repo.committed) && UniqueUsernames(repo.committed)
    ensures outcome.Done? ==> PrimaryPlaced(repo.committed, username, gid)
    ensures OnlyPrimary(old(repo.committed), repo.committed, {username}, gid)
    ensures repo.faultless && HasUser(old(repo.committed), username) && gid in Gids(old(repo.committed)) ==> outcome.Done?
  {
    var user;
    outcome, user := FindUser(repo, username);
    if outcome.Raised? || user.None? {
      return Raised;
    }
    :- Autocommit(repo, SetPrimaryGroup(username, gid));
    outcome := Autocommit(repo, DeleteMembership(user.value.uid, gid));
  }

  /** What set-primary may change: the primary group of the named users, and their memberships in it. */
  ghost predicate OnlyPrimary(db: Tables, db': Tables, usernames: set<string>, gid: int) {
    && db' == db.(users := db'.users, memberships := db'.memberships)
    && db'.memberships <= db.memberships
    && (forall m :: m in db.memberships - db'.memberships ==> m.1 == gid && MemberNamed(db, usernames, m))
    && db'.users.Keys == db.users.Keys
    && (forall i :: i in db.users ==>
          || db'.users[i] == db.users[i]
          || (db.users[i].username in usernames && db'.users[i] == db.users[i].(gid := Some(gid))))
  }

  /** What add-user may change: memberships of the named users in the group are added. */
  ghost predicate OnlyAdds(db: Tables, db': Tables, usernames: set<string>, gid: int) {
    db' == db.(memberships := db'.memberships) && db.memberships <= db'.memberships
    && forall m :: m in db'.memberships - db.memberships ==>
         && m.1 == gid && MemberNamed(db, usernames, m)
         && forall i :: i in db.users && db.users[i].uid == m.0 ==> db.users[i].gid != Some(gid)
  }

  /** What remove-user may change: memberships of the named users in the group are dropped. */
  ghost predicate OnlyDropsOf(db: Tables, db': Tables, usernames: set<string>, gid: int) {
    OnlyDrops(db, db', gid) && forall m :: m in db.memberships - db'.memberships ==> MemberNamed(db, usernames, m)
  }

  /** What deleting the group may change before it succeeds: its memberships are dropped. */
  ghost predicate OnlyDrops(db: Tables, db': Tables, gid: int) {
    db' == db.(memberships := db'.memberships) && db'.memberships <= db.memberships
    && forall m :: m in db.memberships - db'.memberships ==> m.1 == gid
  }

  ghost predicate AllKnown(db: Tables, users: seq<string>) {
    forall k :: 0 <= k < |users| ==> IdentityName(users[k]) && HasUser(db, users[k])
  }

  /** One user of set-primary, or of add-user with `--primary`. */
  method SetPrimaryOne(repo: Repository, ad: AdHost, groupname: string, username: string, gid: int) returns (outcome: Outcome)
    requires !repo.inTransaction && Valid(repo.committed) && UniqueUsernames(repo.committed)
    modifies repo, ad
    ensures !repo.inTransaction && Valid(repo.committed) && UniqueUsernames(repo.committed)
    ensures outcome.Done? ==>
      && PrimaryPlaced(repo.committed, username, gid) && Known(old(repo.committed), username)
      && ad.log == old(ad.log) + [AddAdMember(groupname, username)]
    ensures OnlyPrimary(old(repo.committed), repo.committed, {username}, gid)
    ensures repo.faultless && ad.faultless && gid in Gids(old(repo.committed)) && Known(old(repo.committed), username) ==> outcome.Done?
  {
    hide Valid, UniqueUsernames, OnlyPrimary, PrimaryPlaced;
    NothingPrimary(repo.committed, {username}, gid);
    var user;
    outcome, user := FindUser(repo, username);
    if !IdentityName(username) || outcome.Raised? || user.None? {
      return Raised;
    }
    :- MakePrimary(repo, username, gid);
    outcome := ad.Run(AddAdMember(groupname, username));
  }

  /** The loop of set-primary, and of add-user with `--primary`. */
  method SetPrimaryAll(repo: Repository, ad: AdHost, groupname: string, users: seq<string>, gid: int) returns (outcome: Outcome)
    requires !repo.inTransaction && Valid(repo.committed) && UniqueUsernames(repo.committed)
    modifies repo, ad
    ensures outcome.Done? ==> ad.log == old(ad.log) + AddedMembers(groupname, users)
    ensures !repo.inTransaction && Valid(repo.committed) && UniqueUsernames(repo.committed)
    ensures outcome.Done? ==> forall u :: u in users ==> PrimaryPlaced(repo.committed, u, gid) && HasUser(old(repo.committed), u)
    ensures OnlyPrimary(old(repo.committed), repo.committed, Elements(users), gid)
    ensures outcome.Done? ==> AllKnown(old(repo.committed), users)
    ensures repo.faultless && ad.faultless && gid in Gids(old(repo.committed)) && AllKnown(old(repo.committed), users) ==> outcome.Done?
  {
    hide Valid, UniqueUsernames, OnlyPrimary, PrimaryPlaced, HasUser, IdentityName, AddedMembers;
    NothingPrimary(repo.committed, Elements(users), gid);
    ghost var before := repo.committed;
    NoMembers(groupname, users);
    for k := 0 to |users|
      invariant ad.log == old(ad.log) + AddedMembers(groupname, users[..k])
      invariant !repo.inTransaction && Valid(repo.committed) && UniqueUsernames(repo.committed)
      invariant forall i :: 0 <= i < k ==> PrimaryPlaced(repo.committed, users[i], gid) && Known(before, users[i])
      invariant OnlyPrimary(before, repo.committed, Elements(users), gid)
    {
      SameUsernames(before, repo.committed, Elements(users), gid);
      ghost var was := repo.committed;
      outcome := SetPrimaryOne(repo, ad, groupname, users[k], gid);
      PrimaryComposes(before, was, repo.committed, Elements(users), users[k], gid);
      forall i | 0 <= i < k ensures PrimaryPlaced(repo.committed, users[i], gid) {
        PrimaryStays(was, repo.committed, users[k], users[i], gid);
      }
      :- outcome;
      OneMoreMember(groupname, users, k);
    }
    assert users[..|users|] == users;
    return Done;
  }

  ghost predicate Known(db: Tables, username: string) {
    IdentityName(username) && HasUser(db, username)
  }

  lemma NoMembers(groupname: string, users: seq<string>)
    ensures AddedMembers(groupname, users[..0]) == [] && DroppedMembers(groupname, users[..0]) == []
  {
  }

  lemma OneMoreMember(groupname: string, users: seq<string>, k: nat)
    requires k < |users|
    ensures AddedMembers(groupname, users[..k + 1]) == AddedMembers(groupname, users[..k]) + [AddAdMember(groupname, users[k])]
    ensures DroppedMembers(groupname, users[..k + 1]) == DroppedMembers(groupname, users[..k]) + [DropAdMember(groupname, users[k])]
  {
  }

  lemma SameUsernames(db: Tables, db': Tables, usernames: set<string>, gid: int)
    requires OnlyPrimary(db, db', usernames, gid)
    ensures Gids(db') == Gids(db) && forall u :: HasUser(db', u) <==> HasUser(db, u)
  {
    assert db'.groups == db.groups;
    forall u ensures HasUser(db', u) <==> HasUser(db, u) {
      assert forall i :: i in db.users ==> db'.users[i].username == db.users[i].username;
    }
  }

  lemma NothingPrimary(db: Tables, usernames: set<string>, gid: int)
    ensures OnlyPrimary(db, db, usernames, gid)
  {
  }

  lemma PrimaryComposes(db: Tables, db1: Tables, db2: Tables, usernames: set<string>, u: string, gid: int)
    requires OnlyPrimary(db, db1, usernames, gid) && OnlyPrimary(db1, db2, {u}, gid) && u in usernames
    ensures OnlyPrimary(db, db2, usernames, gid)
  {
    forall m | m in db.memberships - db2.memberships ensures m.1 == gid {
      assert m in db.memberships - db1.memberships || m in db1.memberships - db2.memberships;
    }
  }

  lemma PrimaryStays(db: Tables, db': Tables, u: string, v: string, gid: int)
    requires OnlyPrimary(db, db', {u}, gid) && PrimaryPlaced(db, v, gid)
    ensures PrimaryPlaced(db', v, gid)
  {
  }

  /** One user of add-user without `--primary`. */
  method AddOne(repo: Repository, ad: AdHost, groupname: string, username: string, gid: int) returns (outcome: Outcome)
    requires !repo.inTransaction && Valid(repo.committed) && UniqueUsernames(repo.committed)
    requires gid in Gids(repo.committed)
    modifies repo, ad
    ensures !repo.inTransaction && Valid(repo.committed) && UniqueUsernames(repo.committed)
    ensures outcome.Done? ==>
      && Placed(repo.committed, username, gid) && Known(old(repo.committed), username)
      && ad.log == old(ad.log) + [AddAdMember(groupname, username)]
    ensures OnlyAdds(old(repo.committed), repo.committed, {username}, gid)
    ensures repo.faultless && ad.faultless && Known(old(repo.committed), username) ==> outcome.Done?
  {
    hide Valid;
    var user;
    outcome, user := FindUser(repo, username);
    if !IdentityName(username) || outcome.Raised? || user.None? {
      return Raised;
    }
    if user.value.gid != Some(gid) {
      outcome, user := FindUser(repo, username);
      if outcome.Raised? || user.None? {
        return Raised;
      }
      InsertPlaces(repo.committed, username, user.value, gid, repo.autoIncrement);
      :- Autocommit(repo, InsertMembership(user.value.uid, gid));
    }
    outcome := ad.Run(AddAdMember(groupname, username));
  }

  /** The loop of add-user without `--primary`. */
  method AddAll(repo: Repository, ad: AdHost, groupname: string, users: seq<string>, gid: int) returns (outcome: Outcome)
    requires !repo.inTransaction && Valid(repo.committed) && UniqueUsernames(repo.committed)
    requires gid in Gids(repo.committed)
    modifies repo, ad
    ensures outcome.Done? ==> ad.log == old(ad.log) + AddedMembers(groupname, users)
    ensures !repo.inTransaction && Valid(repo.committed) && UniqueUsernames(repo.committed)
    ensures outcome.Done? ==> forall u :: u in users ==> Placed(repo.committed, u, gid) && HasUser(repo.committed, u)
    ensures OnlyAdds(old(repo.committed), repo.committed, Elements(users), gid)
    ensures outcome.Done? ==> AllKnown(old(repo.committed), users)
    ensures repo.faultless && ad.faultless && AllKnown(old(repo.committed), users) ==> outcome.Done?
  {
    hide Valid, UniqueUsernames, OnlyAdds, Placed, HasUser, IdentityName, AddedMembers;
    ghost var before := repo.committed;
    NothingAdded(before, Elements(users), gid);
    NoMembers(groupname, users);
    for k := 0 to |users|
      invariant ad.log == old(ad.log) + AddedMembers(groupname, users[..k])
      invariant !repo.inTransaction && Valid(repo.committed) && UniqueUsernames(repo.committed)
      invariant forall i :: 0 <= i < k ==> Placed(repo.committed, users[i], gid) && Known(before, users[i])
      invariant OnlyAdds(before, repo.committed, Elements(users), gid)
    {
      AddsKeepUsers(before, repo.committed, Elements(users), gid);
      ghost var was := repo.committed;
      outcome := AddOne(repo, ad, groupname, users[k], gid);
      AddsCompose(before, was, repo.committed, Elements(users), users[k], gid);
      :- outcome;
      OneMoreMember(groupname, users, k);
    }
    AddsKeepUsers(before, repo.committed, Elements(users), gid);
    assert users[..|users|] == users;
    return Done;
  }

  lemma NothingAdded(db: Tables, usernames: set<string>, gid: int)
    ensures OnlyAdds(db, db, usernames, gid)
  {
  }

  lemma AddsKeepUsers(db: Tables, db': Tables, usernames: set<string>, gid: int)
    requires OnlyAdds(db, db', usernames, gid)
    ensures Gids(db') == Gids(db) && forall u :: HasUser(db', u) <==> HasUser(db, u)
  {
  }

  lemma AddsCompose(db: Tables, db1: Tables, db2: Tables, usernames: set<string>, u: string, gid: int)
    requires OnlyAdds(db, db1, usernames, gid) && OnlyAdds(db1, db2, {u}, gid) && u in usernames
    ensures OnlyAdds(db, db2, usernames, gid)
    ensures forall v :: Placed(db1, v, gid) ==> Placed(db2, v, gid)
  {
    forall m | m in db2.memberships - db.memberships
      ensures m.1 == gid && MemberNamed(db, usernames, m)
      ensures forall i :: i in db.users && db.users[i].uid == m.0 ==> db.users[i].gid != Some(gid)
    {
      if m in db2.memberships - db1.memberships {
        assert MemberNamed(db1, {u}, m);
      }
    }
  }

  /** The insert is not silently ignored: both ends of the membership exist. */
  lemma InsertPlaces(db: Tables, username: string, user: UserRow, gid: int, auto: int)
    requires Valid(db) && user.gid != Some(gid)
    requires UniqueUsernames(db) && RowOf(db, username, user) && gid in Gids(db)
    ensures var r := Exec(db, InsertMembership(user.uid, gid), auto);
            r.Ok? && OnlyAdds(db, r.value, {username}, gid) && Placed(r.value, username, gid) && (user.uid, gid) in r.value.memberships
  {
    var i :| i in db.users && db.users[i] == user && user.username == username;
    assert user.uid in Uids(db);
  }

  /** The user exists and has another primary group. */
  ghost predicate Removable(db: Tables, u: string, gid: int) {
    HasUser(db, u) && forall i :: i in db.users && db.users[i].username == u ==> db.users[i].gid != Some(gid)
  }

  ghost predicate AllRemovable(db: Tables, users: seq<string>, gid: int) {
    forall u :: u in users ==> Removable(db, u, gid)
  }

  /** One user of remove-user. */
  method RemoveOne(repo: Repository, ad: AdHost, groupname: string, username: string, gid: int, dryRun: bool)
    returns (outcome: Outcome)
    requires !repo.inTransaction && Valid(repo.committed) && UniqueUsernames(repo.committed)
    modifies repo, ad
    ensures !repo.inTransaction && Valid(repo.committed) && UniqueUsernames(repo.committed)
    ensures outcome.Done? ==> Removable(old(repo.committed), username, gid)
    ensures outcome.Done? && !dryRun ==>
      Removed(repo.committed, username, gid) && ad.log == old(ad.log) + [DropAdMember(groupname, username)]
    ensures dryRun ==> repo.committed == old(repo.committed) && ad.log == old(ad.log)
    ensures OnlyDropsOf(old(repo.committed), repo.committed, {username}, gid)
    ensures repo.faultless && ad.faultless && Removable(old(repo.committed), username, gid) ==> outcome.Done?
  {
    hide Valid;
    var user;
    outcome, user := FindUser(repo, username);
    if outcome.Raised? || user.None? || user.value.gid == Some(gid) {
      return Raised;
    }
    if !dryRun {
      :- ad.Run(DropAdMember(groupname, username));
      outcome, user := FindUser(repo, username);
      if outcome.Raised? || user.None? {
        return Raised;
      }
      outcome := Autocommit(repo, DeleteMembership(user.value.uid, gid));
    }
  }

  /** The loop of remove-user. */
  method RemoveAll(repo: Repository, ad: AdHost, groupname: string, users: seq<string>, gid: int, dryRun: bool) returns (outcome: Outcome)
    requires !repo.inTransaction && Valid(repo.committed) && UniqueUsernames(repo.committed)
    modifies repo, ad
    ensures outcome.Done? && !dryRun ==> ad.log == old(ad.log) + DroppedMembers(groupname, users)
    ensures dryRun ==> ad.log == old(ad.log)
    ensures !repo.inTransaction && Valid(repo.committed) && UniqueUsernames(repo.committed)
    ensures outcome.Done? && !dryRun ==> forall u :: u in users ==> Removed(repo.committed, u, gid) && HasUser(repo.committed, u)
    ensures OnlyDropsOf(old(repo.committed), repo.committed, Elements(users), gid)
    ensures dryRun ==> repo.committed == old(repo.committed)
    ensures outcome.Done? ==> AllRemovable(old(repo.committed), users, gid)
    ensures repo.faultless && ad.faultless && AllRemovable(old(repo.committed), users, gid) ==> outcome.Done?
  {
    hide Valid, UniqueUsernames, OnlyDropsOf, OnlyDrops, Removed, Removable, HasUser, DroppedMembers;
    ghost var before := repo.committed;
    NothingDroppedOf(before, Elements(users), gid);
    NoMembers(groupname, users);
    for k := 0 to |users|
      invariant ad.log == if dryRun then old(ad.log) else old(ad.log) + DroppedMembers(groupname, users[..k])
      invariant !repo.inTransaction && Valid(repo.committed) && UniqueUsernames(repo.committed)
      invariant !dryRun ==> forall i :: 0 <= i < k ==> Removed(repo.committed, users[i], gid)
      invariant forall i :: 0 <= i < k ==> Removable(before, users[i], gid)
      invariant OnlyDropsOf(before, repo.committed, Elements(users), gid)
      invariant dryRun ==> repo.committed == before
    {
      DropsKeepUsers(before, repo.committed, Elements(users), gid);
      ghost var was := repo.committed;
      outcome := RemoveOne(repo, ad, groupname, users[k], gid, dryRun);
      DropsCompose(before, was, repo.committed, Elements(users), users[k], gid);
      :- outcome;
      OneMoreMember(groupname, users, k);
    }
    DropsKeepUsers(before, repo.committed, Elements(users), gid);
    assert users[..|users|] == users;
    return Done;
  }

  lemma NothingDroppedOf(db: Tables, usernames: set<string>, gid: int)
    ensures OnlyDropsOf(db, db, usernames, gid)
  {
  }

  lemma DropsKeepUsers(db: Tables, db': Tables, usernames: set<string>, gid: int)
    requires OnlyDropsOf(db, db', usernames, gid)
    ensures forall u :: HasUser(db', u) <==> HasUser(db, u)
    ensures forall u :: Removable(db', u, gid) <==> Removable(db, u, gid)
    ensures forall u :: Removable(db, u, gid) ==> HasUser(db', u)
  {
  }

  lemma DropsCompose(db: Tables, db1: Tables, db2: Tables, usernames: set<string>, u: string, gid: int)
    requires OnlyDropsOf(db, db1, usernames, gid) && OnlyDropsOf(db1, db2, {u}, gid) && u in usernames
    ensures OnlyDropsOf(db, db2, usernames, gid)
    ensures forall v :: Removed(db1, v, gid) ==> Removed(db2, v, gid)
  {
    forall m | m in db.memberships - db2.memberships ensures m.1 == gid && MemberNamed(db, usernames, m) {
      if m in db1.memberships {
        assert MemberNamed(db1, {u}, m);
      }
    }
  }

  predicate HasPrimaryUsers(db: Tables, gid: int) {
    gid in PrimaryGids(db)
  }

  predicate HasMembers(db: Tables, gid: int) {
    exists m :: m in db.memberships && m.1 == gid
  }

  /** Nobody's primary group, and nobody's supplemental one unless forced. */
  ghost predicate Deletable(db: Tables, gid: int, force: bool) {
    && (forall i :: i in db.users ==> db.users[i].gid != Some(gid))
    && (!force ==> forall m :: m in db.memberships ==> m.1 != gid)
  }

  lemma DeletableExactly(db: Tables, gid: int, force: bool)
    ensures Deletable(db, gid, force) <==> !HasPrimaryUsers(db, gid) && (HasMembers(db, gid) ==> force)
  {
    if !HasPrimaryUsers(db, gid) {
      forall i | i in db.users ensures db.users[i].gid != Some(gid) {
        assert db.users[i].gid.Some? ==> db.users[i].gid.value in PrimaryGids(db);
      }
    }
  }

  /** The tables without a group and its memberships. */
  ghost function WithoutGroup(db: Tables, gid: int): Tables {
    db.(groups := map g | g in db.groups && db.groups[g].gid != gid :: db.groups[g],
        memberships := set m | m in db.memberships && m.1 != gid)
  }

  /** `delete_group`, after the usage counts; the memberships and the group go in two statements. */
  method DeleteGroupRows(repo: Repository, ad: AdHost, groupname: string, gid: int, force: bool) returns (outcome: Outcome)
    requires !repo.inTransaction && Valid(repo.committed) && UniqueUsernames(repo.committed)
    modifies repo, ad
    ensures outcome.Done? ==> ad.log == old(ad.log) + [DeleteAdGroup(groupname)]
    ensures !repo.inTransaction && Valid(repo.committed) && UniqueUsernames(repo.committed)
    ensures outcome.Done? ==>
      repo.committed == WithoutGroup(old(repo.committed), gid) && Deletable(old(repo.committed), gid, force)
    ensures OnlyDrops(old(repo.committed), repo.committed, gid) || outcome.Done?
    ensures repo.faultless && ad.faultless && Deletable(old(repo.committed), gid, force) ==> outcome.Done?
  {
    hide Valid, UniqueUsernames;
    DeletableExactly(repo.committed, gid, force);
    var db;
    outcome, db := repo.Read();
    if outcome.Raised? || HasPrimaryUsers(db, gid) || (HasMembers(db, gid) && !force) {
      return Raised;
    }
    :- ad.Run(DeleteAdGroup(groupname));
    if force {
      :- Autocommit(repo, DeleteGroupMemberships(gid));
    }
    outcome := Autocommit(repo, DeleteGroup(gid));
    assert outcome.Done? ==> repo.committed.memberships == WithoutGroup(db, gid).memberships;
  }

  // ---------- The service ----------

  ghost function NamedUsers(q: GroupRequest): set<string> {
    set u | u in q.usernames + [q.username] && AskedFor(q, u)
  }

  lemma UsersAreNamed(q: GroupRequest)
    ensures Elements(Users(q)) == NamedUsers(q)
  {
    UsersAreAskedFor(q);
    assert forall u :: AskedFor(q, u) ==> u in q.usernames + [q.username];
  }

  /** The Samba commands of an action that succeeds, in order; a dry run issues none. */
  ghost function AdWork(q: GroupRequest, gid: int): seq<AdCommand> {
    if q.dryRun then []
    else
      var users := if q.usernames != [] then q.usernames else [q.username];
      match q.action
      case List => []
      case Ensure => [EnsureAdGroup(q.groupname, gid)]
      case AddUser => [EnsureAdGroup(q.groupname, gid)] + AddedMembers(q.groupname, users)
      case SetPrimary => [EnsureAdGroup(q.groupname, gid)] + AddedMembers(q.groupname, users)
      case RemoveUser => DroppedMembers(q.groupname, users)
      case Delete => [DeleteAdGroup(q.groupname)]
      case Show => [ShowAdGroup(q.groupname)]
  }

  /** What the action itself may change, once the group is there; true of no change at all. */
  ghost predicate ActionFrame(db: Tables, q: GroupRequest, gid: int, db': Tables) {
    match q.action
    case AddUser => if q.primary then OnlyPrimary(db, db', NamedUsers(q), gid) else OnlyAdds(db, db', NamedUsers(q), gid)
    case SetPrimary => OnlyPrimary(db, db', NamedUsers(q), gid)
    case RemoveUser => OnlyDropsOf(db, db', NamedUsers(q), gid)
    case Delete => OnlyDrops(db, db', gid) || db' == WithoutGroup(db, gid)
    case _ => db' == db
  }

  /** The tables an action may leave, successful or not. */
  ghost predicate Frame(db: Tables, q: GroupRequest, gid: int, auto: int, db': Tables) {
    exists mid :: ActionFrame(mid, q, gid, db') &&
      (mid == db || (q.action in {Ensure, AddUser, SetPrimary} && ExecAll(db, EnsureStatements(q.groupname, gid), auto) == Ok(mid)))
  }

  lemma NoChange(db: Tables, q: GroupRequest, gid: int, auto: int)
    ensures ActionFrame(db, q, gid, db) && Frame(db, q, gid, auto, db)
  {
    assert ActionFrame(db, q, gid, db);
  }

  /** Whether the users of the request are ones the action can work on. */
  ghost predicate UsersFit(db: Tables, q: GroupRequest, gid: int) {
    match q.action
    case AddUser => (exists u :: AskedFor(q, u)) && forall u :: AskedFor(q, u) ==> IdentityName(u) && HasUser(db, u)
    case SetPrimary => (exists u :: AskedFor(q, u)) && forall u :: AskedFor(q, u) ==> IdentityName(u) && HasUser(db, u)
    case RemoveUser => (exists u :: AskedFor(q, u)) && forall u :: AskedFor(q, u) ==> Removable(db, u, gid)
    case Delete => Deletable(db, gid, q.force)
    case _ => true
  }

  /**
   Done says the request's purpose is met; whatever the outcome every key of the schema still holds and
   nothing outside the frame changed. Without faults the action succeeds when group and users fit.
   */
  method Execute(repo: Repository, ad: AdHost, q: GroupRequest) returns (outcome: Outcome, gid: int)
    requires !repo.inTransaction && Valid(repo.committed) && UniqueUsernames(repo.committed)
    modifies repo, ad
    ensures outcome.Done? ==> ad.log == old(ad.log) + AdWork(q, gid)
    ensures q.dryRun ==> ad.log == old(ad.log)
    ensures outcome.Done? && !q.action.List? ==> IdentityName(q.groupname)
    ensures Valid(repo.committed) && UniqueUsernames(repo.committed)
    ensures q.dryRun || q.action in {List, Show} || q.domain != FARM ==> repo.committed == old(repo.committed)
    ensures outcome.Done? ==> q.domain == FARM
    ensures outcome.Done? && !q.dryRun ==>
      match q.action
      case List => true
      case Ensure => GroupRowOf(repo.committed, q.groupname, GroupRow(q.groupname, gid))
      case AddUser => forall u :: AskedFor(q, u) ==> InGroup(repo.committed, u, gid, q.primary)
      case SetPrimary => forall u :: AskedFor(q, u) ==> InGroup(repo.committed, u, gid, true)
      case RemoveUser => forall u :: AskedFor(q, u) ==> HasUser(repo.committed, u) && Removed(repo.committed, u, gid)
      case Delete =>
        repo.committed == WithoutGroup(old(repo.committed), gid) && Deletable(old(repo.committed), gid, q.force)
      case Show => true
    ensures outcome.Done? && q.action in {AddUser, SetPrimary, RemoveUser} ==> exists u :: AskedFor(q, u)
    ensures outcome.Done? && q.action in {RemoveUser, Delete, Show} ==>
      GroupRowOf(old(repo.committed), q.groupname, GroupRow(q.groupname, gid))
    ensures outcome.Done? ==> UsersFit(old(repo.committed), q, gid)
    ensures Frame(old(repo.committed), q, gid, old(repo.autoIncrement), repo.committed)
    ensures repo.faultless && ad.faultless && q.domain == FARM && UsersFit(old(repo.committed), q, gid)
            && (q.action in {RemoveUser, Delete, Show} ==> IdentityName(q.groupname) && HasGroup(old(repo.committed), q.groupname))
            && (q.action in {Ensure, AddUser, SetPrimary} ==> GroupObtainable(old(repo.committed), q, old(repo.autoIncrement)))
            ==> outcome.Done?
  {
    hide Valid, UniqueUsernames, OnlyPrimary, OnlyAdds, OnlyDrops, WithoutGroup, ExecAll, InGroup, Removed;
    gid := 0;
    UsersAreAskedFor(q);
    UsersAreNamed(q);
    NoChange(repo.committed, q, gid, repo.autoIncrement);
    if q.domain != FARM {
      return Raised, gid;
    }
    if q.action.List? {
      var db;
      outcome, db := repo.Read();
      return;
    }
    if !IdentityName(q.groupname) {
      return Raised, gid;
    }
    if q.action in {Ensure, AddUser, SetPrimary} {
      outcome, gid := EnsureAndPlace(repo, ad, q);
      return;
    }
    var group;
    outcome, group := FindGroup(repo, q.groupname);
    if outcome.Raised? || group.None? {
      return Raised, gid;
    }
    gid := group.value.gid;
    NoChange(repo.committed, q, gid, repo.autoIncrement);
    ghost var before := repo.committed;
    match q.action {
      case RemoveUser =>
        outcome := Raised;
        if Users(q) != [] {
          outcome := RemoveAll(repo, ad, q.groupname, Users(q), gid, q.dryRun);
          assert ActionFrame(before, q, gid, repo.committed);
        }
      case Delete =>
        if q.dryRun {
          DeletableExactly(repo.committed, gid, q.force);
          var db;
          outcome, db := repo.Read();
          outcome := if outcome.Raised? || HasPrimaryUsers(db, gid) || (HasMembers(db, gid) && !q.force) then Raised else Done;
        } else {
          outcome := DeleteGroupRows(repo, ad, q.groupname, gid, q.force);
          assert ActionFrame(before, q, gid, repo.committed);
        }
      case Show =>
        if !q.dryRun {
          outcome := ad.Run(ShowAdGroup(q.groupname));
        }
      case _ =>
    }
  }

  lemma FitUsersAreKnown(db: Tables, q: GroupRequest, gid: int)
    requires UsersFit(db, q, gid) && q.action in {AddUser, SetPrimary}
    ensures Users(q) != [] && AllKnown(db, Users(q))
  {
    UsersAreAskedFor(q);
    forall k | 0 <= k < |Users(q)| ensures IdentityName(Users(q)[k]) && HasUser(db, Users(q)[k]) {
      assert Users(q)[k] in Users(q);
    }
  }

  lemma KnownUsersFit(db: Tables, q: GroupRequest, gid: int)
    requires q.action in {AddUser, SetPrimary} && Users(q) != [] && AllKnown(db, Users(q))
    ensures UsersFit(db, q, gid)
  {
    UsersAreAskedFor(q);
  }

  /** The users of add-user and set-primary, once the group is there. */
  method PlaceUsers(repo: Repository, ad: AdHost, q: GroupRequest, gid: int) returns (outcome: Outcome)
    requires !repo.inTransaction && Valid(repo.committed) && UniqueUsernames(repo.committed)
    requires q.action in {AddUser, SetPrimary} && (!q.dryRun ==> gid in Gids(repo.committed))
    modifies repo, ad
    ensures Valid(repo.committed) && UniqueUsernames(repo.committed)
    ensures q.dryRun ==> repo.committed == old(repo.committed) && ad.log == old(ad.log)
    ensures outcome.Done? ==> UsersFit(old(repo.committed), q, gid)
    ensures outcome.Done? && !q.dryRun ==>
      && ad.log == old(ad.log) + AddedMembers(q.groupname, if q.usernames != [] then q.usernames else [q.username])
      && forall u :: AskedFor(q, u) ==> InGroup(repo.committed, u, gid, q.action.SetPrimary? || q.primary)
    ensures ActionFrame(old(repo.committed), q, gid, repo.committed)
    ensures repo.faultless && ad.faultless && UsersFit(old(repo.committed), q, gid) ==> outcome.Done?
  {
    hide Valid, UniqueUsernames, PrimaryPlaced, Placed, OnlyPrimary, OnlyAdds, OnlyDrops, AddedMembers;
    UsersAreAskedFor(q);
    UsersAreNamed(q);
    NoChange(repo.committed, q, gid, repo.autoIncrement);
    ghost var before := repo.committed;
    var users := Users(q);
    if UsersFit(before, q, gid) {
      FitUsersAreKnown(before, q, gid);
    }
    if users != [] && AllKnown(before, users) {
      KnownUsersFit(before, q, gid);
    }
    if users == [] {
      outcome := Raised;
    } else if q.dryRun {
      outcome := CheckUsers(repo, users);
    } else if q.action.SetPrimary? || q.primary {
      outcome := SetPrimaryAll(repo, ad, q.groupname, users, gid);
      SameUsernames(before, repo.committed, Elements(users), gid);
    } else {
      outcome := AddAll(repo, ad, q.groupname, users, gid);
    }
  }

  /** ensure, add-user and set-primary. */
  method EnsureAndPlace(repo: Repository, ad: AdHost, q: GroupRequest) returns (outcome: Outcome, gid: int)
    requires !repo.inTransaction && Valid(repo.committed) && UniqueUsernames(repo.committed)
    requires q.action in {Ensure, AddUser, SetPrimary}
    modifies repo, ad
    ensures outcome.Done? ==> ad.log == old(ad.log) + AdWork(q, gid)
    ensures q.dryRun ==> ad.log == old(ad.log)
    ensures Valid(repo.committed) && UniqueUsernames(repo.committed)
    ensures q.dryRun ==> repo.committed == old(repo.committed)
    ensures outcome.Done? && !q.dryRun && q.action.Ensure? ==> GroupRowOf(repo.committed, q.groupname, GroupRow(q.groupname, gid))
    ensures outcome.Done? ==> UsersFit(old(repo.committed), q, gid)
    ensures outcome.Done? && !q.dryRun && !q.action.Ensure? ==>
      forall u :: AskedFor(q, u) ==> InGroup(repo.committed, u, gid, q.action.SetPrimary? || q.primary)
    ensures Frame(old(repo.committed), q, gid, old(repo.autoIncrement), repo.committed)
    ensures repo.faultless && ad.faultless && GroupObtainable(old(repo.committed), q, old(repo.autoIncrement))
            && UsersFit(old(repo.committed), q, gid)
            ==> outcome.Done?
  {
    hide Valid, UniqueUsernames, ExecAll, Exec, InGroup, ActionFrame, GroupObtainable, AddedMembers;
    var created;
    outcome, gid, created := EnsureGroup(repo, q);
    NoChange(old(repo.committed), q, gid, old(repo.autoIncrement));
    if outcome.Raised? {
      return;
    }
    ghost var mid := repo.committed;
    NoChange(mid, q, gid, old(repo.autoIncrement));
    if created && !q.dryRun {
      EnsuredKeeps(old(repo.committed), q.groupname, gid, old(repo.autoIncrement));
    }
    SameUsersFit(old(repo.committed), mid, q, gid);
    if !q.dryRun {
      assert GroupRowOf(repo.committed, q.groupname, GroupRow(q.groupname, gid));
      outcome := ad.Run(EnsureAdGroup(q.groupname, gid));
      if outcome.Raised? {
        return;
      }
    }
    if q.action.Ensure? {
      return;
    }
    outcome := PlaceUsers(repo, ad, q, gid);
    assert outcome.Done? ==> ad.log == old(ad.log) + AdWork(q, gid);
  }

  lemma SameUsersFit(db: Tables, db': Tables, q: GroupRequest, gid: int)
    requires db.users == db'.users && q.action in {Ensure, AddUser, SetPrimary}
    ensures UsersFit(db, q, gid) <==> UsersFit(db', q, gid)
  {
  }

  lemma EnsuredKeeps(db: Tables, groupname: string, gid: int, auto: int)
    requires Valid(db) && UniqueUsernames(db) && ExecAll(db, EnsureStatements(groupname, gid), auto).Ok?
    ensures var done := ExecAll(db, EnsureStatements(groupname, gid), auto).value;
            && Valid(done) && UniqueUsernames(done) && GroupRowOf(done, groupname, GroupRow(groupname, gid))
            && done.users == db.users
  {
    var ss := EnsureStatements(groupname, gid);
    ExecAllKeepsValid(db, ss, auto);
    var first := Exec(db, ss[0], auto).value;
    assert ss[1..] == [ss[1]];
    ExecAllOne(first, ss[1], auto + 1);
    var done := ExecAll(db, ss, auto).value;
    assert done.users == db.users;
    assert done.groups[auto + 1] == GroupRow(groupname, gid);
  }

  /** A dry run still validates and looks up every user. */
  method CheckUsers(repo: Repository, users: seq<string>) returns (outcome: Outcome)
    ensures outcome.Done? ==> forall u :: u in users ==> IdentityName(u) && HasUser(repo.View(), u)
    ensures repo.faultless && AllKnown(repo.View(), users) ==> outcome.Done?
  {
    for k := 0 to |users|
      invariant forall u :: u in users[..k] ==> IdentityName(u) && HasUser(repo.View(), u)
    {
      var user;
      outcome, user := FindUser(repo, users[k]);
      if !IdentityName(users[k]) || outcome.Raised? || user.None? {
        return Raised;
      }
      assert users[..k + 1] == users[..k] + [users[k]];
    }
    return Done;
  }

  // ---------- Exactly when a new group is refused ----------

  /**
   The transaction of ensure is refused if and only if the gid is already reserved (a gid of zero is
   never reserved by it), so a requested gid equal to some user's uid is refused even when no group uses it.
   */
  lemma EnsureRefusedExactly(db: Tables, groupname: string, gid: int, auto: int)
    requires Valid(db) && FreshFrom(db, auto)
    ensures ExecAll(db, EnsureStatements(groupname, gid), auto).Ok?
            <==> if gid == 0 then 0 in db.usedIds && 0 !in Gids(db) else gid !in db.usedIds
  {
    var ss := EnsureStatements(groupname, gid);
    assert ss[1..] == [ss[1]];
    var first := Exec(db, ss[0], auto);
    if first.Ok? {
      assert Gids(first.value) == Gids(db);
      ExecAllOne(first.value, ss[1], auto + 1);
    }
  }

  /** A gid chosen automatically is therefore never refused by the schema. */
  lemma AutomaticGidAccepted(db: Tables, groupname: string, auto: int)
    requires Valid(db) && FreshFrom(db, auto)
    ensures ExecAll(db, EnsureStatements(groupname, NextAvailableId(db, MANAGED_ID_MINIMUM)), auto).Ok?
  {
    EnsureRefusedExactly(db, groupname, NextAvailableId(db, MANAGED_ID_MINIMUM), auto);
  }
}
