/**
 `ContainerDeleteService`: one matching row is released in a transaction that also removes the container
 and, when it was the user's last one on the server, the user's Kerberos files, before committing.
 */
module ContainerDelete {
  import opened Wrappers
  import opened Schema
  import opened Invariants
  import opened Repositories
  import opened Transactions
  import opened KerberosPathNames
  import opened KerberosIdentity
  import opened Fleets

  /** Empty texts and None are absent filters. */
  datatype DeleteRequest = DeleteRequest(
    server: Server, containerId: string, containerName: string, name: string, username: string, port: Option<int>,
    force: bool, dryRun: bool)

  datatype DeleteResult = Listed | Rejected | Deleted | Failed

  predicate HasOwner(db: Tables, row: int) {
    row in db.containers && db.containers[row].userId.Some? && db.containers[row].userId.value in db.users
  }

  function Owner(db: Tables, row: int): UserRow
    requires HasOwner(db, row)
  {
    db.users[db.containers[row].userId.value]
  }

  /** The WHERE clause of `find_container`, joined with the owning user; a container id matches by prefix. */
  predicate Matches(db: Tables, q: DeleteRequest, row: int) {
    && Active(db, row) && HasOwner(db, row) && db.containers[row].server == q.server
    && q.containerId <= db.containers[row].containerId
    && q.containerName in {"", db.containers[row].name}
    && q.name in {"", Owner(db, row).name}
    && q.username in {"", Owner(db, row).username}
    && (q.port.Some? ==> q.port.value in PortsOf(db, row))
  }

  function Matching(db: Tables, q: DeleteRequest): set<int> {
    set row | row in db.containers && Matches(db, q, row)
  }

  /** An active row of the server, with an owner, that has everything the request names. */
  ghost predicate Asked(db: Tables, q: DeleteRequest, row: int) {
    && row in db.containers && db.containers[row].existing && db.containers[row].server == q.server
    && (exists owner :: && owner in db.users && db.containers[row].userId == Some(owner)
                        && (q.name != "" ==> db.users[owner].name == q.name)
                        && (q.username != "" ==> db.users[owner].username == q.username))
    && q.containerId <= db.containers[row].containerId
    && (q.containerName != "" ==> db.containers[row].name == q.containerName)
    && (q.port.Some? ==> q.port.value in db.ports && db.ports[q.port.value].owner == Some(row))
  }

  /** What the plan read of the row. */
  datatype ContainerRecord = ContainerRecord(row: int, containerId: string, name: string, server: Server, username: string, uid: int)

  function RecordOf(db: Tables, row: int): ContainerRecord
    requires HasOwner(db, row)
  {
    ContainerRecord(row, db.containers[row].containerId, db.containers[row].name, db.containers[row].server,
                    Owner(db, row).username, Owner(db, row).uid)
  }

  /** The record tells the row's container id, name and server and its owner's username and uid. */
  ghost predicate Tells(db: Tables, k: ContainerRecord) {
    && k.row in db.containers
    && k.containerId == db.containers[k.row].containerId && k.name == db.containers[k.row].name
    && k.server == db.containers[k.row].server
    && exists owner :: owner in db.users && db.containers[k.row].userId == Some(owner)
                       && db.users[owner].username == k.username && db.users[owner].uid == k.uid
  }

  lemma MatchingIsAsked(db: Tables, q: DeleteRequest)
    ensures forall row :: row in Matching(db, q) <==> Asked(db, q, row)
    ensures forall row :: Asked(db, q, row) ==> HasOwner(db, row) && Tells(db, RecordOf(db, row))
  {
    forall row | row in Matching(db, q) ensures Asked(db, q, row) {
      var owner := db.containers[row].userId.value;
      assert owner in db.users && db.containers[row].userId == Some(owner);
    }
    forall row | Asked(db, q, row) ensures row in Matching(db, q) && HasOwner(db, row) && Tells(db, RecordOf(db, row)) {
      var owner :| owner in db.users && db.containers[row].userId == Some(owner);
      assert Owner(db, row) == db.users[owner];
    }
  }

  /** The record of an active container with an owner, as a query returned it. */
  ghost predicate ActiveRecord(db: Tables, k: ContainerRecord) {
    Active(db, k.row) && HasOwner(db, k.row) && k == RecordOf(db, k.row)
  }

  /** The rows of the same user on the same server. */
  function SameUserOnServer(db: Tables, k: ContainerRecord): set<int> {
    set row | row in db.containers && Active(db, row) && HasOwner(db, row)
              && db.containers[row].server == k.server && k.username in {"", Owner(db, row).username}
  }

  /** An active container of the record's user on the record's server; an empty username stands for any user. */
  ghost predicate RunsBeside(db: Tables, k: ContainerRecord, row: int) {
    && row in db.containers && db.containers[row].existing && db.containers[row].server == k.server
    && exists owner :: owner in db.users && db.containers[row].userId == Some(owner)
                       && (k.username != "" ==> db.users[owner].username == k.username)
  }

  lemma LastIsAlone(db: Tables, k: ContainerRecord)
    ensures LastOnServer(db, k) <==> forall row :: RunsBeside(db, k, row) ==> row == k.row
  {
    forall row | row in SameUserOnServer(db, k) ensures RunsBeside(db, k, row) {
      var owner := db.containers[row].userId.value;
      assert owner in db.users && db.containers[row].userId == Some(owner);
    }
    forall row | RunsBeside(db, k, row) ensures row in SameUserOnServer(db, k) {
      assert Owner(db, row) == db.users[db.containers[row].userId.value];
    }
  }

  ghost predicate LastOnServer(db: Tables, k: ContainerRecord) {
    SameUserOnServer(db, k) <= {k.row}
  }

  /** `_should_cleanup_kerberos`. */
  method ShouldCleanUp(repo: Repository, k: ContainerRecord) returns (outcome: Outcome, cleanUp: bool)
    ensures outcome.Done? && cleanUp ==> IdentityKeys(repo.View(), k.username) != {} && LastOnServer(repo.View(), k)
    ensures outcome.Done? && !cleanUp ==> IdentityKeys(repo.View(), k.username) == {} || !LastOnServer(repo.View(), k)
    ensures outcome.Done? ==>
      (cleanUp <==> && (forall row :: RunsBeside(repo.View(), k, row) ==> row == k.row)
                    && exists u :: IdentityRowOf(repo.View(), k.username, u))
    ensures repo.faultless ==> (outcome.Done? <==> UserIdSubquery(repo.View(), k.username).Ok?)
  {
    cleanUp := false;
    var stored, db;
    outcome, stored := FindIdentity(repo, k.username);
    if outcome.Raised? || stored.None? {
      return;
    }
    outcome, db := repo.Read();
    LastIsAlone(db, k);
    cleanUp := SameUserOnServer(db, k) <= {k.row};
  }

  function RecomputedPaths(dirs: Directories, k: ContainerRecord, ad: AdIdentity, realm: string): KerberosPaths {
    DeletePaths(dirs, k.server.domain, ad, k.uid, realm)
  }

  /** What cleaning up for a record may do to the hosts. */
  ghost predicate CleanUpEffect(dirs: Directories, realm: string, db: Tables, k: ContainerRecord,
      before: Hosts, after: Hosts) {
    || after == before
    || (LastOnServer(db, k)
        && exists u :: (u in IdentityKeys(db, k.username)
                        && OnlyCleaned(before, after, k.server,
                                       CleanupTargets(At(before, k.server), RecomputedPaths(dirs, k, db.identities[u].ad, realm)))))
  }

  /** The user's last container on the server leaves none of the files an env file (or the identity) names. */
  ghost predicate CleanedUp(dirs: Directories, realm: string, db: Tables, k: ContainerRecord, hosts: Hosts) {
    LastOnServer(db, k) && IdentityKeys(db, k.username) != {} ==>
      exists u :: (u in IdentityKeys(db, k.username)
                   && EnvFile(RecomputedPaths(dirs, k, db.identities[u].ad, realm)) !in At(hosts, k.server).files)
  }

  /** `_cleanup_kerberos_if_unused`, reading inside the open transaction. */
  method CleanUpIfUnused(repo: Repository, fleet: Fleet, dirs: Directories, realm: string,
      k: ContainerRecord) returns (outcome: Outcome)
    modifies fleet
    ensures outcome.Done? ==> fleet.failures == old(fleet.failures)
    ensures fleet.log == old(fleet.log) && fleet.issued == old(fleet.issued)
    ensures CleanUpEffect(dirs, realm, repo.View(), k, old(fleet.hosts), fleet.hosts)
    ensures outcome.Done? ==> CleanedUp(dirs, realm, repo.View(), k, fleet.hosts)
    ensures repo.faultless && fleet.faultless ==> (outcome.Done? <==> UserIdSubquery(repo.View(), k.username).Ok?)
  {
    var stored, cleanUp;
    outcome, stored := FindIdentity(repo, k.username);
    if outcome.Raised? || stored.None? {
      return;
    }
    outcome, cleanUp := ShouldCleanUp(repo, k);
    if outcome.Raised? || !cleanUp {
      return;
    }
    outcome := fleet.CleanUp(k.server, RecomputedPaths(dirs, k, stored.value, realm));
  }

  // ---------- The service ----------

  method Plan(repo: Repository, q: DeleteRequest) returns (outcome: Outcome, k: ContainerRecord)
    ensures outcome.Done? ==> exists row :: Matching(repo.View(), q) == {row} && k == RecordOf(repo.View(), row)
    ensures outcome.Done? ==> Matching(repo.View(), q) == {k.row} && Asked(repo.View(), q, k.row) && Tells(repo.View(), k)
    ensures repo.faultless && UniqueUsernames(repo.View()) ==> (outcome.Done? <==> |Matching(repo.View(), q)| == 1)
  {
    k := ContainerRecord(0, "", "", q.server, "", 0);
    var db;
    outcome, db := repo.Read();
    if outcome.Raised? {
      return;
    }
    var rows := Matching(db, q);
    if |rows| != 1 {
      return Raised, k;
    }
    var row := TheOnly(rows);
    assert row in rows;
    MatchingIsAsked(db, q);
    k := RecordOf(db, row);
    var cleanUp;
    if UniqueUsernames(db) {
      UniqueSubquery(db, k.username);
    }
    outcome, cleanUp := ShouldCleanUp(repo, k);
  }

  /** No container with the record's id is left on its server. */
  ghost predicate Gone(hosts: Hosts, k: ContainerRecord) {
    k.containerId != "" ==> NamesWithId(At(hosts, k.server), k.containerId) == {}
  }

  /** Removal first, and only once the container is gone the clean-up. */
  ghost predicate RemoteEffect(dirs: Directories, realm: string, db: Tables, k: ContainerRecord, before: Hosts,
      after: Hosts) {
    exists mid ::
      && OnlyDropped(before, mid, k.server, RemovalTargets(At(before, k.server), k.containerId, k.name))
      && CleanUpEffect(dirs, realm, db, k, mid, after)
      && (after != mid ==> Gone(mid, k))
  }

  /** A container that went was the record's: on its server, with its id or, if none had that, with its name. */
  ghost predicate OnlyAddressedGone(k: ContainerRecord, before: Hosts, after: Hosts) {
    forall s, n :: n in At(before, s).containers && n !in At(after, s).containers ==>
      s == k.server && Addressed(At(before, s), k.containerId, k.name, n)
  }

  lemma RemoteAddresses(dirs: Directories, realm: string, db: Tables, k: ContainerRecord, before: Hosts, after: Hosts)
    requires RemoteEffect(dirs, realm, db, k, before, after)
    ensures OnlyAddressedGone(k, before, after)
  {
    hide CleanUpEffect, RemovalTargets, Addressed;
    var mid :| && OnlyDropped(before, mid, k.server, RemovalTargets(At(before, k.server), k.containerId, k.name))
               && CleanUpEffect(dirs, realm, db, k, mid, after);
    CleaningKeepsContainers(dirs, realm, db, k, mid, after);
    TargetsAreAddressed(At(before, k.server), k.containerId, k.name);
  }

  /** `docker rm -f` has nothing to complain about. */
  ghost predicate Removable(forgiving: bool, hosts: Hosts, k: ContainerRecord) {
    forgiving || NamesWithId(At(hosts, k.server), k.containerId) != {}
  }

  lemma ReleasedSubquery(db: Tables, row: int, username: string)
    ensures UserIdSubquery(Released(db, row), username) == UserIdSubquery(db, username)
  {
    assert IdsNamed(Released(db, row), {username}) == IdsNamed(db, {username});
  }

  lemma MarksOneRow(db: Tables, row: int, auto: int)
    requires row in db.containers
    ensures Exec(db, DeletePorts(row), auto).Ok? && RowCount(Exec(db, DeletePorts(row), auto).value, MarkDeleted(row)) == 1
    ensures Exec(Exec(db, DeletePorts(row), auto).value, MarkDeleted(row), auto + 1).Ok?
  {
  }

  lemma DeletePortsKeepsContainers(db: Tables, row: int, auto: int)
    ensures Exec(db, DeletePorts(row), auto).Ok? && Exec(db, DeletePorts(row), auto).value.containers == db.containers
  {
  }

  /** The two statements and the two remote steps, before the commit. */
  method ReleaseAndRemove(repo: Repository, fleet: Fleet, dirs: Directories, realm: string, k: ContainerRecord,
      force: bool)
    returns (outcome: Outcome)
    requires repo.inTransaction
    modifies repo, fleet
    ensures outcome.Done? ==> fleet.failures == old(fleet.failures)
    ensures repo.inTransaction && repo.committed == old(repo.committed) && repo.autoIncrement >= old(repo.autoIncrement)
    ensures fleet.log == old(fleet.log) && fleet.issued == old(fleet.issued)
    ensures outcome.Done? && !force ==> k.row in old(repo.working).containers
    ensures RemoteEffect(dirs, realm, Released(old(repo.working), k.row), k, old(fleet.hosts), fleet.hosts)
    ensures outcome.Done? ==>
      && repo.working == Released(old(repo.working), k.row)
      && Gone(fleet.hosts, k)
      && CleanedUp(dirs, realm, repo.working, k, fleet.hosts)
    ensures repo.faultless && fleet.faultless && Removable(fleet.forgiving, old(fleet.hosts), k)
            && k.row in old(repo.working).containers && UserIdSubquery(old(repo.working), k.username).Ok?
            ==> outcome.Done?
  {
    hide Exec, ExecAll, Released, OnlyDropped, CleanUpEffect, CleanedUp;
    ghost var before, start, auto := fleet.hosts, repo.working, repo.autoIncrement;
    NothingDone(dirs, realm, Released(start, k.row), k, before);
    ExecAllNone(start, auto);
    ReleasedSubquery(start, k.row, k.username);
    if k.row in start.containers {
      MarksOneRow(start, k.row, auto);
    }
    ReleaseIs(start, k.row, auto);
    DeletePortsKeepsContainers(start, k.row, auto);
    ExecAllOne(start, DeletePorts(k.row), auto);
    assert [] + [DeletePorts(k.row)] == [DeletePorts(k.row)];
    assert [DeletePorts(k.row)] + [MarkDeleted(k.row)] == [DeletePorts(k.row), MarkDeleted(k.row)];
    RefusedPrefix(start, [DeletePorts(k.row)], [DeletePorts(k.row), MarkDeleted(k.row)], auto);
    var updated;
    outcome, updated := Issue(repo, DeletePorts(k.row), start, auto, []);
    :- outcome;
    outcome, updated := Issue(repo, MarkDeleted(k.row), start, auto, [DeletePorts(k.row)]);
    :- outcome;
    if updated != 1 && !force {
      return Raised;
    }
    outcome := fleet.RemoveForce(k.server, k.containerId, k.name);
    ghost var mid := fleet.hosts;
    assert CleanUpEffect(dirs, realm, repo.working, k, mid, mid) by {
      NothingCleaned(dirs, realm, repo.working, k, mid);
    }
    :- outcome;
    outcome := CleanUpIfUnused(repo, fleet, dirs, realm, k);
    CleaningKeepsContainers(dirs, realm, repo.working, k, mid, fleet.hosts);
  }

  lemma NothingDone(dirs: Directories, realm: string, db: Tables, k: ContainerRecord, hosts: Hosts)
    ensures RemoteEffect(dirs, realm, db, k, hosts, hosts)
  {
    assert OnlyDropped(hosts, hosts, k.server, RemovalTargets(At(hosts, k.server), k.containerId, k.name));
  }

  lemma NothingCleaned(dirs: Directories, realm: string, db: Tables, k: ContainerRecord, hosts: Hosts)
    ensures CleanUpEffect(dirs, realm, db, k, hosts, hosts)
  {
  }

  lemma CleaningKeepsContainers(dirs: Directories, realm: string, db: Tables, k: ContainerRecord,
      before: Hosts, after: Hosts)
    requires CleanUpEffect(dirs, realm, db, k, before, after)
    ensures forall s :: At(after, s).containers == At(before, s).containers
  {
  }

  lemma OneMatch(rows: set<int>)
    ensures |rows| != 1 <==> (forall row :: row !in rows) || exists row, other :: row != other && row in rows && other in rows
  {
    if |rows| == 1 {
      var x := TheOnly(rows);
    } else if |rows| > 1 {
      var row := AnElement(rows);
      assert |rows - {row}| == |rows| - 1;
      var other := AnElement(rows - {row});
    }
  }

  lemma RecordedRow(db: Tables, q: DeleteRequest, k: ContainerRecord)
    requires exists row :: Matching(db, q) == {row} && k == RecordOf(db, row)
    ensures k.row in db.containers
  {
    var row :| Matching(db, q) == {row} && k == RecordOf(db, row);
    assert row in Matching(db, q);
  }

  /**
   Deleted: exactly the one matching row is released and no container with its id is left on the server.
   Otherwise the tables are untouched, though the container and the Kerberos files may already be gone.
   */
  method Execute(repo: Repository, fleet: Fleet, dirs: Directories, realm: string, q: DeleteRequest)
    returns (result: DeleteResult, k: ContainerRecord)
    requires !repo.inTransaction
    modifies repo, fleet
    ensures result.Deleted? ==> fleet.failures == old(fleet.failures)
    ensures fleet.log == old(fleet.log) && fleet.issued == old(fleet.issued) && repo.autoIncrement >= old(repo.autoIncrement)
    ensures result.Rejected? || result.Listed? ==> repo.committed == old(repo.committed) && fleet.hosts == old(fleet.hosts)
    ensures !result.Rejected? ==> exists row :: Matching(old(repo.committed), q) == {row} && k == RecordOf(old(repo.committed), row)
    ensures !result.Rejected? ==>
      && Asked(old(repo.committed), q, k.row) && Tells(old(repo.committed), k)
      && forall row :: Asked(old(repo.committed), q, row) ==> row == k.row
    ensures q.dryRun ==> result.Rejected? || result.Listed?
    ensures result.Failed? ==> repo.committed == old(repo.committed)
    ensures !result.Failed? || repo.faultless ==> !repo.inTransaction
    ensures result.Deleted? ==>
      && repo.committed == Released(old(repo.committed), k.row)
      && Gone(fleet.hosts, k)
      && CleanedUp(dirs, realm, repo.committed, k, fleet.hosts)
    ensures RemoteEffect(dirs, realm, Released(old(repo.committed), k.row), k, old(fleet.hosts), fleet.hosts)
    ensures OnlyAddressedGone(k, old(fleet.hosts), fleet.hosts)
    ensures result.Deleted? && k.containerId != "" ==>
      forall n :: n in At(fleet.hosts, k.server).containers ==> At(fleet.hosts, k.server).containers[n].containerId != k.containerId
    ensures repo.faultless && fleet.faultless && UniqueUsernames(old(repo.committed)) ==>
      && (result.Rejected? <==> |Matching(old(repo.committed), q)| != 1)
      && (result.Rejected? <==>
            || (forall row :: !Asked(old(repo.committed), q, row))
            || exists row, other :: row != other && Asked(old(repo.committed), q, row) && Asked(old(repo.committed), q, other))
      && (!result.Rejected? && !q.dryRun && Removable(fleet.forgiving, old(fleet.hosts), k) ==> result.Deleted?)
  {
    hide RemoteEffect, RecordOf, Released, CleanedUp, Removable, UniqueUsernames, Matches, Asked, Tells, OnlyAddressedGone;
    var planned;
    planned, k := Plan(repo, q);
    MatchingIsAsked(repo.committed, q);
    OneMatch(Matching(repo.committed, q));
    NothingDone(dirs, realm, Released(repo.committed, k.row), k, fleet.hosts);
    RemoteAddresses(dirs, realm, Released(repo.committed, k.row), k, fleet.hosts, fleet.hosts);
    ghost var before, db := fleet.hosts, repo.committed;
    if planned.Raised? {
      return Rejected, k;
    }
    if q.dryRun {
      return Listed, k;
    }
    var outcome := repo.Begin();
    if UniqueUsernames(repo.committed) {
      UniqueSubquery(repo.committed, k.username);
    }
    RecordedRow(repo.committed, q, k);
    if outcome.Done? {
      outcome := ReleaseAndRemove(repo, fleet, dirs, realm, k, q.force);
      RemoteAddresses(dirs, realm, Released(db, k.row), k, before, fleet.hosts);
    }
    if outcome.Done? {
      outcome := repo.Commit();
    }
    if outcome.Done? {
      if k.containerId != "" {
        NoneWithId(At(fleet.hosts, k.server), k.containerId);
      }
      return Deleted, k;
    }
    var _ := repo.Rollback();
    return Failed, k;
  }
}
