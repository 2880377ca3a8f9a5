/**
 Serial runs over the database and the hosts: recorded creates, deletes and expired clean-ups one after
 another, each with a fault at any call. The steps are exactly what the services' contracts allow.
 */
module SerialRuns {
  import opened Wrappers
  import opened Schema
  import opened Invariants
  import opened DateText
  import opened Repositories
  import opened Transactions
  import opened PortAllocator
  import opened Planner
  import opened CreateTransaction
  import opened KerberosPathNames
  import opened KerberosIdentity
  import opened Fleets
  import opened ContainerCreate
  import opened ContainerDelete
  import opened ExpiredCleanup

  datatype Step =
    | CreateStep(r: Planner.Request, p: Planner.Plan, look: Lookups, facts: Facts, identity: Option<AdIdentity>, result: CreateResult)
    | DeleteStep(k: ContainerRecord, outcome: DeleteResult)
    | CleanupStep(k: ContainerRecord, released: bool)

  /** One operation from one quiescent point to the next. */
  ghost predicate Takes(c: Config, w: World, s: Step, w': World) {
    match s
    case CreateStep(r, p, look, facts, identity, result) =>
      && ParseDate(r.expiration).Some? && PlannedFrom(w.db, r, look, facts, p)
      && CreateEffect(c, r, p, identity, result, w, w')
    case DeleteStep(k, result) =>
      && ActiveRecord(w.db, k) && w'.issued == w.issued && w'.auto >= w.auto
      && w'.db == (if result.Deleted? then Released(w.db, k.row) else w.db)
      && RemoteEffect(c.dirs, c.realm, Released(w.db, k.row), k, w.hosts, w'.hosts)
      && (result.Deleted? ==> Gone(w'.hosts, k))
    case CleanupStep(k, released) => RowStep(k, true, released, w, w')
  }

  ghost predicate IsRun(c: Config, ws: seq<World>, ss: seq<Step>) {
    |ws| == |ss| + 1 && forall i :: 0 <= i < |ss| ==> Takes(c, ws[i], ss[i], ws[i + 1])
  }

  /** Keys hold, generated ids are fresh, and every container id was issued by docker. */
  ghost predicate Sound(w: World) {
    && Valid(w.db) && UniqueUsernames(w.db) && FreshFrom(w.db, w.auto) && IdsIssued(w.hosts, w.issued)
    && (forall row :: row in w.db.containers ==> w.db.containers[row].containerId in w.issued && w.db.containers[row].containerId != "")
  }

  // ---------- The services take such steps ----------

  method PerformCreate(repo: Repository, directory: Directory, fleet: Fleet, c: Config, r: Planner.Request, report: Metadata)
    returns (planned: bool, s: Step)
    requires !repo.inTransaction && IdsIssued(fleet.hosts, fleet.issued)
    modifies repo, fleet
    ensures planned ==> s.CreateStep? && s.r == r && Takes(c, old(WorldOf(repo, fleet)), s, WorldOf(repo, fleet))
    ensures !planned ==> WorldOf(repo, fleet) == old(WorldOf(repo, fleet))
    ensures repo.faultless && directory.faultless && fleet.faultless && planned && old(Sound(WorldOf(repo, fleet)))
            && Unimpeded(s, old(WorldOf(repo, fleet)), report)
            ==> s.result.Created?
  {
    hide PlannedFrom, CreateEffect, AcceptsRecords, Sound, ReportFits, IdentityFits;
    ghost var before := WorldOf(repo, fleet);
    var result, plan, look, facts, identity := ContainerCreate.Execute(repo, directory, fleet, c, r, report);
    if plan.Err? {
      return false, CleanupStep(ContainerRecord(0, "", "", r.server, "", 0), false);
    }
    PlannedDate(old(repo.committed), r, look, facts, plan.value);
    RecordNamesTheUser(r, plan.value, report);
    var record := RecordFor(r, plan.value, report);
    if Sound(before) && DistinctHosts(r.fixedPorts) && plan.value.source in {New, StorageHome} && IdentityFits(before.db, r, record) {
      GuardsAcceptRecords(before, r, look, facts, plan.value, record);
    }
    return true, CreateStep(r, plan.value, look, facts, identity, result);
  }

  /**
   A real create under a free name, for a new or adopted-home identity and validated ports; with Kerberos,
   one whose account AD reports as planned and whose record neither disagrees nor collides with stored ones.
   */
  ghost predicate Unimpeded(s: Step, w: World, report: Metadata)
    requires s.CreateStep?
  {
    && !s.r.dryRun && s.p.containerName !in At(w.hosts, s.r.server).containers
    && (s.r.kerberos ==> ReportFits(w.db, s.r, s.p, report))
    && (s.r.noDbRecord || (DistinctHosts(s.r.fixedPorts) && s.p.source in {New, StorageHome}
                           && IdentityFits(w.db, s.r, RecordFor(s.r, s.p, report))))
  }

  lemma RecordNamesTheUser(r: Planner.Request, p: Planner.Plan, report: Metadata)
    ensures RecordFor(r, p, report).Some? ==> RecordFor(r, p, report).value.username == r.username
  {
  }

  /** The planner's guards make the schema accept the records, under any id docker may issue, exactly when the identity fits. */
  lemma GuardsAcceptRecords(w: World, r: Planner.Request, look: Lookups, facts: Facts, p: Planner.Plan,
      identity: Option<AdIdentity>)
    requires Sound(w) && PlannedFrom(w.db, r, look, facts, p) && ParseDate(r.expiration).Some?
    requires DistinctHosts(r.fixedPorts) && p.source in {New, StorageHome}
    requires identity.Some? ==> identity.value.username == r.username
    ensures AcceptsRecords(w.db, r, p, identity, w.issued, w.auto) <==> IdentityFits(w.db, r, identity)
  {
    hide PlannedFrom, CreateTxn, IdentityFits;
    forall id | id !in w.issued ensures CreateTxn(w.db, r, p, identity, id, w.auto).Ok? <==> IdentityFits(w.db, r, identity) {
      GuardsSuffice(w.db, r, look, facts, p, identity, id, w.auto);
    }
    FreshIdExists(w.issued);
    var id: string :| id != "" && id !in w.issued;
  }

  method PerformDelete(repo: Repository, fleet: Fleet, c: Config, q: DeleteRequest) returns (found: bool, s: Step)
    requires !repo.inTransaction
    modifies repo, fleet
    ensures found ==> s.DeleteStep? && Takes(c, old(WorldOf(repo, fleet)), s, WorldOf(repo, fleet))
    ensures !found ==> repo.committed == old(repo.committed) && fleet.hosts == old(fleet.hosts)
  {
    hide RemoteEffect, Released;
    var result, k := ContainerDelete.Execute(repo, fleet, c.dirs, c.realm, q);
    if result.Rejected? {
      return false, DeleteStep(k, result);
    }
    return true, DeleteStep(k, result);
  }

  /**
   One domain of the expired clean-up service with a remote runner: its loop is a run of clean-up steps from
   the world before to the world after, a row whose transaction raised being the last one.
   */
  method PerformCleanup(repo: Repository, fleet: Fleet, c: Config, q: CleanupRequest)
    returns (outcome: Outcome, steps: seq<Step>, ghost ws: seq<World>)
    requires !repo.inTransaction
    modifies repo, fleet
    ensures IsRun(c, ws, steps) && ws[0] == old(WorldOf(repo, fleet)) && ws[|steps|] == WorldOf(repo, fleet)
    ensures forall i :: 0 <= i < |steps| ==> steps[i].CleanupStep? && steps[i].k.row in ExpiredRows(old(repo.committed), q)
    ensures forall i :: 0 <= i < |steps| && (outcome.Done? || i < |steps| - 1) ==> steps[i].released
    ensures outcome.Done? && q.apply ==> ExpiredRows(repo.committed, q) == {}
  {
    hide RowStep;
    var rows, done, attempted, records;
    outcome, rows, done, attempted, records, ws := CleanDomain(repo, fleet, true, q);
    forall i | 0 <= i < attempted ensures records[i].row in ExpiredRows(old(repo.committed), q) {
      EnumeratedMember(rows, ExpiredRows(old(repo.committed), q), i);
    }
    steps := seq(attempted, i requires 0 <= i < attempted => CleanupStep(records[i], i < done));
    if outcome.Done? && q.apply {
      assert rows[..done] == rows;
      EnumeratedElements(rows, ExpiredRows(old(repo.committed), q));
      NoneLeft(old(repo.committed), q);
    }
  }

  // ---------- No orphans ----------

  /** An active row that says everything the container was started with. */
  ghost predicate Backs(db: Tables, row: int, server: Server, name: string, x: Container) {
    && Active(db, row) && HasOwner(db, row)
    && db.containers[row].containerId == x.containerId && db.containers[row].server == server && db.containers[row].name == name
    && Owner(db, row).username == x.username && Owner(db, row).uid == x.uid
  }

  /** Every recorded container still on a host has an active row. */
  ghost predicate NoOrphans(db: Tables, hosts: Hosts) {
    forall s, n :: n in At(hosts, s).containers && At(hosts, s).containers[n].recorded ==>
      exists row :: Backs(db, row, s, n, At(hosts, s).containers[n])
  }

  /** The compensating removal, whenever it was needed, worked. */
  predicate Compensated(s: Step) {
    s.CreateStep? && !s.r.noDbRecord ==> s.result != CreateResult.Failed(false)
  }

  // ----- Steps that only release -----

  lemma ReleasedStaysValid(db: Tables, row: int, auto: int)
    requires Valid(db)
    ensures Valid(Released(db, row))
  {
    ReleaseIs(db, row, auto);
    ExecAllKeepsValid(db, [DeletePorts(row), MarkDeleted(row)], auto);
  }

  lemma ReleaseKeepsSound(w: World, w': World, row: int, released: bool)
    requires Sound(w) && w'.issued == w.issued && w'.auto >= w.auto && ContainersShrink(w.hosts, w'.hosts)
    requires w'.db == if released then Released(w.db, row) else w.db
    ensures Sound(w')
  {
    hide Valid;
    ReleasedStaysValid(w.db, row, w.auto);
    ShrunkIssued(w.hosts, w'.hosts, w.issued);
  }

  /** Rows other than the released one back what they backed. */
  lemma ReleaseBacks(db: Tables, k: int, row: int, server: Server, name: string, x: Container)
    requires Backs(db, row, server, name, x) && row != k
    ensures Backs(Released(db, k), row, server, name, x)
  {
  }

  /** A row is released only once no container with its id is on its server, so what remains is still backed. */
  lemma ReleaseKeepsNoOrphans(w: World, w': World, k: ContainerRecord, released: bool)
    requires Sound(w) && NoOrphans(w.db, w.hosts) && ActiveRecord(w.db, k)
    requires ContainersShrink(w.hosts, w'.hosts) && (released ==> Gone(w'.hosts, k))
    requires w'.db == if released then Released(w.db, k.row) else w.db
    ensures NoOrphans(w'.db, w'.hosts)
  {
    forall s, n | n in At(w'.hosts, s).containers && At(w'.hosts, s).containers[n].recorded
      ensures exists row :: Backs(w'.db, row, s, n, At(w'.hosts, s).containers[n])
    {
      var x := At(w'.hosts, s).containers[n];
      assert n in At(w.hosts, s).containers && At(w.hosts, s).containers[n] == x;
      var row :| Backs(w.db, row, s, n, x);
      if released {
        StillOnServer(w'.hosts, k, s, n);
        ReleaseBacks(w.db, k.row, row, s, n, x);
      }
      assert Backs(w'.db, row, s, n, x);
    }
  }

  lemma StillOnServer(hosts: Hosts, k: ContainerRecord, s: Server, n: string)
    requires Gone(hosts, k) && k.containerId != "" && n in At(hosts, s).containers
    ensures s == k.server ==> At(hosts, s).containers[n].containerId != k.containerId
  {
    assert n in NamesWithId(At(hosts, s), k.containerId) <==> At(hosts, s).containers[n].containerId == k.containerId;
  }

  /** Containers may only have gone; files may be anything. */
  ghost predicate ContainersShrink(before: Hosts, after: Hosts) {
    forall s, n :: n in At(after, s).containers ==>
      n in At(before, s).containers && At(after, s).containers[n] == At(before, s).containers[n]
  }

  lemma RemovalShrinks(dirs: Directories, realm: string, db: Tables, k: ContainerRecord, before: Hosts, after: Hosts)
    requires RemoteEffect(dirs, realm, db, k, before, after)
    ensures ContainersShrink(before, after)
  {
    var mid :|
      && OnlyDropped(before, mid, k.server, RemovalTargets(At(before, k.server), k.containerId, k.name))
      && CleanUpEffect(dirs, realm, db, k, mid, after)
      && (after != mid ==> Gone(mid, k));
    DroppedShrinks(before, mid, k.server, RemovalTargets(At(before, k.server), k.containerId, k.name));
    CleaningKeepsContainers(dirs, realm, db, k, mid, after);
  }

  lemma ShrunkIssued(before: Hosts, after: Hosts, issued: set<string>)
    requires ContainersShrink(before, after) && IdsIssued(before, issued)
    ensures IdsIssued(after, issued)
  {
  }

  // ----- Creates -----

  /** A committed create keeps the tables sound and backs the container it recorded. */
  lemma CommittedCreate(w: World, w': World, s: Step)
    requires s.CreateStep? && ParseDate(s.r.expiration).Some? && PlannedFrom(w.db, s.r, s.look, s.facts, s.p)
    requires Sound(w) && s.result.Created? && s.result.containerId != ""
    requires CreateTxn(w.db, s.r, s.p, s.identity, s.result.containerId, w.auto) == Ok(w'.db)
    requires w'.auto == ContainerRowId(s.r, s.p, s.identity, w.auto) + 2
    ensures Valid(w'.db) && UniqueUsernames(w'.db) && FreshFrom(w'.db, w'.auto)
    ensures var row := ContainerRowId(s.r, s.p, s.identity, w.auto);
            && row !in w.db.containers && w'.db.containers.Keys == w.db.containers.Keys + {row}
            && (forall d :: d in w.db.containers ==> w'.db.containers[d] == w.db.containers[d])
            && Backs(w'.db, row, s.r.server, s.p.containerName, ContainerOf(s.r, s.p, s.result.containerId))
    ensures Grows(w.db, w'.db)
  {
    hide PlannedFrom, ExecAll, CreateStatements;
    var ss := CreateStatements(s.r, s.p, s.identity, s.result.containerId, w.auto);
    CreateLength(s.r, s.p, s.identity, s.result.containerId, w.auto);
    ExecAllKeepsValid(w.db, ss, w.auto);
    ExecAllKeepsFresh(w.db, ss, w.auto);
    PlannedNamesTheUser(w.db, s.r, s.look, s.facts, s.p);
    OwnerIsAsPlanned(w.db, s.r, s.p, s.identity, s.result.containerId, w.auto);
    CreateRecords(w.db, s.r, s.p, s.identity, s.result.containerId, w.auto);
  }

  lemma CreateLength(r: Planner.Request, p: Planner.Plan, identity: Option<AdIdentity>, containerId: string, auto: int)
    requires ParseDate(r.expiration).Some?
    ensures auto + |CreateStatements(r, p, identity, containerId, auto)| == ContainerRowId(r, p, identity, auto) + 2
  {
  }

  lemma GrownBacks(db: Tables, db': Tables, row: int, server: Server, name: string, x: Container)
    requires Backs(db, row, server, name, x) && Grows(db, db') && row in db'.containers && db'.containers[row] == db.containers[row]
    ensures Backs(db', row, server, name, x)
  {
    var owner := db.containers[row].userId.value;
    assert owner in db.users && owner in db'.users;
  }

  /** A container after create: one that was there, one that is not recorded, or the one create reports. */
  ghost predicate Accounted(before: Hosts, after: Hosts, s: Step, v: Server, n: string)
    requires s.CreateStep? && n in At(after, v).containers
  {
    var x := At(after, v).containers[n];
    || (n in At(before, v).containers && At(before, v).containers[n] == x)
    || !x.recorded
    || (v == s.r.server && n == s.p.containerName && s.result.Created? && x == ContainerOf(s.r, s.p, s.result.containerId))
  }

  lemma UndoneAccounts(before: Hosts, after: Hosts, issued: set<string>, s: Step, v: Server, n: string)
    requires s.CreateStep? && Undone(before, after, issued, s.r, s.p, s.result) && Compensated(s)
    requires n in At(after, v).containers
    ensures Accounted(before, after, s, v, n)
  {
    if v != s.r.server {
      assert At(after, v) == At(before, v);
    }
  }

  /** What create may leave on the hosts. */
  lemma CreateContainers(c: Config, w: World, s: Step, w': World)
    requires s.CreateStep? && Takes(c, w, s, w') && Compensated(s)
    ensures forall v, n :: n in At(w'.hosts, v).containers ==> Accounted(w.hosts, w'.hosts, s, v, n)
  {
    hide PlannedFrom, CreateTxn, Prepared, Undone;
    var mid :|
      && OnlyInstalled(w.hosts, mid, {c.adHost, s.r.server}, FilesOf(c, s.r, s.p))
      && Undone(mid, w'.hosts, w.issued, s.r, s.p, s.result);
    forall v, n | n in At(w'.hosts, v).containers ensures Accounted(w.hosts, w'.hosts, s, v, n) {
      UndoneAccounts(mid, w'.hosts, w.issued, s, v, n);
      assert At(mid, v).containers == At(w.hosts, v).containers;
    }
  }

  lemma CreateKeepsSound(c: Config, w: World, s: Step, w': World)
    requires s.CreateStep? && Takes(c, w, s, w') && Sound(w)
    ensures Sound(w')
  {
    hide PlannedFrom, CreateTxn, Undone, Prepared, Valid, Grows, Backs;
    if s.result.Created? && !s.r.noDbRecord {
      CreatedId(c, w, s, w');
      CommittedCreate(w, w', s);
      var row := ContainerRowId(s.r, s.p, s.identity, w.auto);
      BackedId(w'.db, row, s.r.server, s.p.containerName, ContainerOf(s.r, s.p, s.result.containerId));
    }
  }

  lemma CreatedId(c: Config, w: World, s: Step, w': World)
    requires s.CreateStep? && Takes(c, w, s, w') && s.result.Created?
    ensures s.result.containerId != "" && s.result.containerId in w'.issued
  {
    hide PlannedFrom, CreateTxn, Prepared, OnlyInstalled;
  }

  lemma BackedId(db: Tables, row: int, server: Server, name: string, x: Container)
    requires Backs(db, row, server, name, x)
    ensures row in db.containers && db.containers[row].containerId == x.containerId
  {
  }

  lemma CreateKeepsNoOrphans(c: Config, w: World, s: Step, w': World)
    requires s.CreateStep? && Takes(c, w, s, w') && Compensated(s) && Sound(w) && NoOrphans(w.db, w.hosts)
    ensures NoOrphans(w'.db, w'.hosts)
  {
    hide PlannedFrom, CreateTxn, Undone, Prepared, Valid, Sound, Backs, Grows;
    CreateContainers(c, w, s, w');
    var committed := s.result.Created? && !s.r.noDbRecord;
    if committed {
      CreatedId(c, w, s, w');
      CommittedCreate(w, w', s);
    }
    forall v, n | n in At(w'.hosts, v).containers && At(w'.hosts, v).containers[n].recorded
      ensures exists row :: Backs(w'.db, row, v, n, At(w'.hosts, v).containers[n])
    {
      var x := At(w'.hosts, v).containers[n];
      if n in At(w.hosts, v).containers && At(w.hosts, v).containers[n] == x {
        var row :| Backs(w.db, row, v, n, x);
        if committed {
          BackedId(w.db, row, v, n, x);
          GrownBacks(w.db, w'.db, row, v, n, x);
        }
        assert Backs(w'.db, row, v, n, x);
      } else {
        assert Backs(w'.db, ContainerRowId(s.r, s.p, s.identity, w.auto), v, n, x);
      }
    }
  }

  /** The containers of every host, Kerberos files aside. */
  ghost predicate SameContainers(before: Hosts, after: Hosts) {
    forall v :: At(after, v).containers == At(before, v).containers
  }

  /** Everything a success promises about the tables. */
  ghost predicate FullyRecorded(w: World, w': World, s: Step)
    requires s.CreateStep? && ParseDate(s.r.expiration).Some? && s.result.Created?
  {
    && Recorded(w.db, w'.db, s.r, s.p, s.result.containerId, ContainerRowId(s.r, s.p, s.identity, w.auto))
    && (exists i :: i in w'.db.users && w'.db.users[i] == UserRow(s.r.name, s.r.username, s.p.uid, Some(s.p.gid)))
    && (!s.p.existingGroup ==> exists g :: g in w'.db.groups && w'.db.groups[g] == GroupRow(s.p.groupname, s.p.gid))
    && {s.p.uid, s.p.gid} <= w'.db.usedIds && s.p.gid in Gids(w'.db)
  }

  /**
   All or nothing at every fault position: success means the container is on its host and, unless records were
   declined, user, group, ids, ports and container row are committed. Otherwise the tables are as before, and
   once the removal worked (or was never needed) so are all containers, if and only if the name was free.
   */
  lemma AllOrNothing(c: Config, w: World, s: Step, w': World)
    requires s.CreateStep? && Takes(c, w, s, w') && Sound(w)
    ensures s.result.Created? && !s.r.noDbRecord ==> FullyRecorded(w, w', s)
    ensures !s.result.Created? || s.r.noDbRecord ==> w'.db == w.db
    ensures s.result.Created? ==>
      && At(w'.hosts, s.r.server).containers
         == At(w.hosts, s.r.server).containers[s.p.containerName := ContainerOf(s.r, s.p, s.result.containerId)]
      && forall v :: v != s.r.server ==> At(w'.hosts, v).containers == At(w.hosts, v).containers
    ensures s.result.DryRun? || s.result.Rejected? ==> SameContainers(w.hosts, w'.hosts)
    ensures s.result == CreateResult.Failed(true) ==>
      (SameContainers(w.hosts, w'.hosts) <==> s.p.containerName !in At(w.hosts, s.r.server).containers)
  {
    hide PlannedFrom, CreateTxn, Prepared, Sound, Recorded, FullyRecorded;
    if s.result.Created? && !s.r.noDbRecord {
      CreatedId(c, w, s, w');
      SuccessRecords(w, w', s);
    }
    var mid :|
      && OnlyInstalled(w.hosts, mid, {c.adHost, s.r.server}, FilesOf(c, s.r, s.p))
      && Undone(mid, w'.hosts, w.issued, s.r, s.p, s.result);
    UndoneContainers(mid, w'.hosts, w.issued, s);
    assert forall v :: At(mid, v).containers == At(w.hosts, v).containers;
  }

  lemma UndoneContainers(before: Hosts, after: Hosts, issued: set<string>, s: Step)
    requires s.CreateStep? && Undone(before, after, issued, s.r, s.p, s.result)
    ensures forall v :: v != s.r.server ==> At(after, v).containers == At(before, v).containers
    ensures s.result.DryRun? || s.result.Rejected? ==> SameContainers(before, after)
    ensures s.result.Created? ==>
      At(after, s.r.server).containers
      == At(before, s.r.server).containers[s.p.containerName := ContainerOf(s.r, s.p, s.result.containerId)]
    ensures s.result == CreateResult.Failed(true) ==>
      && At(after, s.r.server).containers == At(before, s.r.server).containers - {s.p.containerName}
      && (SameContainers(before, after) <==> s.p.containerName !in At(before, s.r.server).containers)
  {
    forall v | v != s.r.server ensures At(after, v).containers == At(before, v).containers {
      assert s.result.Created? || s.result.Failed? ==> At(after, v) == At(before, v);
    }
    if s.result == CreateResult.Failed(true) {
      var was := At(before, s.r.server).containers;
      assert s.p.containerName !in was ==> was - {s.p.containerName} == was;
      assert s.p.containerName !in At(after, s.r.server).containers;
    }
  }

  lemma SuccessRecords(w: World, w': World, s: Step)
    requires s.CreateStep? && ParseDate(s.r.expiration).Some? && PlannedFrom(w.db, s.r, s.look, s.facts, s.p)
    requires Sound(w) && s.result.Created? && s.result.containerId != ""
    requires CreateTxn(w.db, s.r, s.p, s.identity, s.result.containerId, w.auto) == Ok(w'.db)
    requires w'.auto == ContainerRowId(s.r, s.p, s.identity, w.auto) + 2
    ensures FullyRecorded(w, w', s)
  {
    hide PlannedFrom, ExecAll, CreateStatements, CreateTxn, Recorded;
    var id := s.result.containerId;
    CommittedCreate(w, w', s);
    PlannedNamesTheUser(w.db, s.r, s.look, s.facts, s.p);
    OwnerIsAsPlanned(w.db, s.r, s.p, s.identity, id, w.auto);
    CreateRecords(w.db, s.r, s.p, s.identity, id, w.auto);
    var row := ContainerRowId(s.r, s.p, s.identity, w.auto);
    var i := w'.db.containers[row].userId.value;
    assert w'.db.users[i] == UserRow(s.r.name, s.r.username, s.p.uid, Some(s.p.gid));
    assert s.p.uid in Uids(w'.db) && s.p.gid in PrimaryGids(w'.db);
    if !s.p.existingGroup {
      GroupIsAsPlanned(w.db, s.r, s.p, s.identity, id, w.auto);
    }
  }

  // ----- Every run -----

  lemma StepShrinks(c: Config, w: World, s: Step, w': World)
    requires !s.CreateStep? && Takes(c, w, s, w')
    ensures ContainersShrink(w.hosts, w'.hosts)
  {
    match s
    case DeleteStep(k, result) =>
      RemovalShrinks(c.dirs, c.realm, Released(w.db, k.row), k, w.hosts, w'.hosts);
    case CleanupStep(k, released) =>
      DroppedShrinks(w.hosts, w'.hosts, k.server, RemovalTargets(At(w.hosts, k.server), k.containerId, k.name));
  }

  lemma StepKeepsNoOrphans(c: Config, w: World, s: Step, w': World)
    requires Takes(c, w, s, w') && Compensated(s) && Sound(w) && NoOrphans(w.db, w.hosts)
    ensures Sound(w') && NoOrphans(w'.db, w'.hosts)
  {
    if s.CreateStep? {
      CreateKeepsSound(c, w, s, w');
      CreateKeepsNoOrphans(c, w, s, w');
    } else {
      hide RemoteEffect, OnlyDropped, Released, Sound, NoOrphans;
      StepShrinks(c, w, s, w');
      var released := if s.DeleteStep? then s.outcome.Deleted? else s.released;
      ReleaseKeepsSound(w, w', s.k.row, released);
      ReleaseKeepsNoOrphans(w, w', s.k, released);
    }
  }

  /**
   Over every serial run with a fault at any remote call or statement, as long as the compensating removals
   worked: at each quiescent point every recorded container still on a host has an active row that agrees
   with it on id, name, server, username and uid.
   */
  lemma {:induction false} RunsLeaveNoOrphans(c: Config, ws: seq<World>, ss: seq<Step>, i: nat)
    requires IsRun(c, ws, ss) && i < |ws| && forall k :: 0 <= k < |ss| ==> Compensated(ss[k])
    requires Sound(ws[0]) && NoOrphans(ws[0].db, ws[0].hosts)
    ensures Sound(ws[i]) && NoOrphans(ws[i].db, ws[i].hosts)
    decreases i
  {
    hide Sound, NoOrphans, Takes;
    if i > 0 {
      RunsLeaveNoOrphans(c, ws, ss, i - 1);
      assert Takes(c, ws[i - 1], ss[i - 1], ws[i - 1 + 1]);
      StepKeepsNoOrphans(c, ws[i - 1], ss[i - 1], ws[i]);
    }
  }

  /** The assumption is needed: a failure whose removal did not work leaves either nothing new or an orphan. */
  lemma UncompensatedOrphans(c: Config, w: World, s: Step, w': World)
    requires s.CreateStep? && Takes(c, w, s, w') && !Compensated(s) && Sound(w) && NoOrphans(w.db, w.hosts)
    ensures NoOrphans(w'.db, w'.hosts) <==> ContainersShrink(w.hosts, w'.hosts)
  {
    hide PlannedFrom, CreateTxn, Prepared, Valid;
    var mid :|
      && OnlyInstalled(w.hosts, mid, {c.adHost, s.r.server}, FilesOf(c, s.r, s.p))
      && Undone(mid, w'.hosts, w.issued, s.r, s.p, s.result);
    forall v ensures At(mid, v).containers == At(w.hosts, v).containers {}
    var was := At(mid, s.r.server).containers;
    var result := CreateResult.Failed(false);
    assert s.result == result;
    assert Undone(mid, w'.hosts, w.issued, s.r, s.p, result);
    assert ContainersAre(mid, w'.hosts, s.r.server, was)
      || exists id :: id !in w.issued && id != "" && ContainersAre(mid, w'.hosts, s.r.server, was[s.p.containerName := ContainerOf(s.r, s.p, id)]);
    if ContainersAre(mid, w'.hosts, s.r.server, was) {
      forall v, n | n in At(w'.hosts, v).containers ensures n in At(w.hosts, v).containers && At(w'.hosts, v).containers[n] == At(w.hosts, v).containers[n] {
        assert v != s.r.server ==> At(w'.hosts, v) == At(mid, v);
      }
      ShrunkNoOrphans(w.db, w.hosts, w'.hosts);
    } else {
      var id :| id !in w.issued && id != ""
             && ContainersAre(mid, w'.hosts, s.r.server, was[s.p.containerName := ContainerOf(s.r, s.p, id)]);
      NewContainerIsOrphan(w, w'.hosts, s.r.server, s.p.containerName, ContainerOf(s.r, s.p, id));
    }
  }

  lemma ShrunkNoOrphans(db: Tables, before: Hosts, after: Hosts)
    requires NoOrphans(db, before) && ContainersShrink(before, after)
    ensures NoOrphans(db, after)
  {
    forall s, n | n in At(after, s).containers && At(after, s).containers[n].recorded
      ensures exists row :: Backs(db, row, s, n, At(after, s).containers[n])
    {
      assert n in At(before, s).containers && At(before, s).containers[n].recorded;
    }
  }

  lemma NewContainerIsOrphan(w: World, hosts: Hosts, server: Server, name: string, x: Container)
    requires Sound(w) && x.recorded && x.containerId !in w.issued
    requires name in At(hosts, server).containers && At(hosts, server).containers[name] == x
    ensures !NoOrphans(w.db, hosts) && !ContainersShrink(w.hosts, hosts)
  {
    assert forall row :: row in w.db.containers ==> w.db.containers[row].containerId != x.containerId;
    assert name in At(w.hosts, server).containers ==> At(w.hosts, server).containers[name].containerId in w.issued;
  }
}
