/**
 `ContainerCreateService.execute`: prepare storage and Kerberos remotely, start the container, write the
 records in one transaction, and compensate when anything after the start of that block raises.
 */
module ContainerCreate {
  import opened Wrappers
  import opened Schema
  import opened DateText
  import opened Repositories
  import opened Transactions
  import opened PortAllocator
  import opened Planner
  import opened CreateTransaction
  import opened KerberosPathNames
  import opened KerberosIdentity
  import opened Fleets

  /** The parts of the configuration that decide hosts, files and optional steps. */
  datatype Config = Config(dirs: Directories, adHost: Server, realm: string, restartGss: bool)

  /**
   Rejected: an exception before the container was started. Failed: an exception afterwards, and whether
   both the rollback and the compensating removal went through.
   */
  datatype CreateResult = DryRun | Created(containerId: string) | Rejected | Failed(compensated: bool)

  function PlannedPaths(c: Config, r: Request, p: Plan): KerberosPaths {
    CreatePaths(c.dirs, r.server.domain, p.adUsername, p.uid, c.realm)
  }

  function ContainerOf(r: Request, p: Plan, containerId: string): Container {
    Container(containerId, r.username, p.uid, if r.kerberos then Some(p.adUsername) else None, !r.noDbRecord)
  }

  function FilesOf(c: Config, r: Request, p: Plan): map<string, FileBody> {
    if r.kerberos then IdentityFiles(PlannedPaths(c, r, p)) else map[]
  }

  // ---------- The order of remote checks ----------

  const FIRST_ROUND := [OwnerCheck(true), WriteCheck(true)]
  const SECOND_ROUND := [OwnerCheck(true), WriteCheck(false), OwnerCheck(true), WriteCheck(true)]

  /** One round passed, or the write check failed once and a second round passed. */
  predicate ChecksPassed(log: seq<Logged>) {
    log == FIRST_ROUND || log == SECOND_ROUND
  }

  /** `log` continues `before` without starting a container. */
  ghost predicate NothingStarted(before: seq<Logged>, log: seq<Logged>) {
    before <= log && DockerRun !in log[|before|..]
  }

  lemma StillNothingStarted(a: seq<Logged>, b: seq<Logged>, e: Logged)
    requires NothingStarted(a, b) && e != DockerRun
    ensures NothingStarted(a, b + [e])
  {
    assert (b + [e])[|a|..] == b[|a|..] + [e];
  }

  /** A container was started exactly once, and with Kerberos only after the checks passed. */
  ghost predicate StartedAfterChecks(before: seq<Logged>, log: seq<Logged>, kerberos: bool) {
    exists checks :: log == before + checks + [DockerRun] && (if kerberos then ChecksPassed(checks) else checks == [])
  }

  /** The write check failed in both rounds. */
  const ACCESS_DENIED := [OwnerCheck(true), WriteCheck(false), OwnerCheck(true), WriteCheck(false)]

  // ---------- The commands of a create that have no effect modelled here ----------

  ghost function CacheRefreshes(c: Config, server: Server): seq<Server> {
    if server.domain == LAB || c.restartGss then [server] else []
  }

  /** The owner stat of each round and, before a second round, the refresh of the identity caches. */
  ghost function CheckCommands(c: Config, server: Server, checks: seq<Logged>): seq<Server> {
    if checks == FIRST_ROUND then [server] else [server] + CacheRefreshes(c, server) + [server]
  }

  /** The private AD group, another AD group if one is asked for, and what AD prints of the account. */
  ghost function IdentityCommands(c: Config, r: Request, p: Plan): seq<Server> {
    [c.adHost] + (if p.groupname in {r.username, p.adUsername} then [] else [c.adHost]) + [c.adHost]
  }

  ghost function PrepareCommands(c: Config, r: Request, p: Plan, checks: seq<Logged>): seq<Server> {
    if r.kerberos then IdentityCommands(c, r, p) + [r.server, r.server] + CheckCommands(c, r.server, checks)
    else [r.server]
  }

  /** From the image pull to the inspection of the started container every command of a successful create went through. */
  ghost predicate AllRan(c: Config, r: Request, p: Plan, log: seq<Logged>, log': seq<Logged>, ran: seq<Server>,
      ran': seq<Server>) {
    exists checks ::
      && log' == log + checks + [DockerRun] && (if r.kerberos then ChecksPassed(checks) else checks == [])
      && ran' == ran + [r.server] + PrepareCommands(c, r, p, checks) + [r.server]
  }

  // ---------- Preparing Kerberos ----------

  /** Owner check, owner stat (a command whose output must parse) and write check. */
  method CheckRound(fleet: Fleet, server: Server) returns (outcome: Outcome, writable: bool)
    modifies fleet
    ensures outcome.Done? ==> fleet.failures == old(fleet.failures)
    ensures fleet.failures >= old(fleet.failures) && (outcome.Raised? ==> fleet.failures > old(fleet.failures))
    ensures outcome.Done? ==> fleet.ran == old(fleet.ran) + [server]
    ensures fleet.hosts == old(fleet.hosts) && fleet.issued == old(fleet.issued)
    ensures NothingStarted(old(fleet.log), fleet.log)
    ensures outcome.Done? ==> fleet.log == old(fleet.log) + [OwnerCheck(true), WriteCheck(writable)]
    ensures fleet.faultless ==> outcome.Done? && writable
  {
    ghost var before := fleet.log;
    writable := false;
    outcome := fleet.CheckOwner(server);
    StillNothingStarted(before, before, OwnerCheck(outcome.Done?));
    if outcome.Raised? {
      return;
    }
    outcome := fleet.Command(server);
    if outcome.Raised? {
      return;
    }
    StillNothingStarted(before, fleet.log, WriteCheck(true));
    StillNothingStarted(before, fleet.log, WriteCheck(false));
    var written := fleet.CheckWrite(server);
    writable := written.Done?;
    assert before + [OwnerCheck(true)] + [WriteCheck(writable)] == before + [OwnerCheck(true), WriteCheck(writable)];
  }

  /** The two rounds: only a failed write check leads to the second one, after refreshing the identity caches. */
  method VerifyAccess(fleet: Fleet, c: Config, server: Server) returns (outcome: Outcome)
    modifies fleet
    ensures outcome.Done? ==> fleet.failures == old(fleet.failures)
    ensures fleet.failures >= old(fleet.failures)
    ensures outcome.Raised? ==> fleet.failures > old(fleet.failures) || fleet.log == old(fleet.log) + ACCESS_DENIED
    ensures fleet.hosts == old(fleet.hosts) && fleet.issued == old(fleet.issued)
    ensures NothingStarted(old(fleet.log), fleet.log)
    ensures outcome.Done? ==> exists checks ::
      ChecksPassed(checks) && fleet.log == old(fleet.log) + checks && fleet.ran == old(fleet.ran) + CheckCommands(c, server, checks)
    ensures fleet.faultless ==> outcome.Done?
  {
    ghost var before := fleet.log;
    var writable;
    outcome, writable := CheckRound(fleet, server);
    if outcome.Raised? || writable {
      return;
    }
    ghost var first := fleet.log;
    if server.domain == FARM {
      if c.restartGss {
        :- fleet.Command(server);
      }
    } else {
      fleet.Unchecked(server);
      :- fleet.Command(server);
    }
    outcome, writable := CheckRound(fleet, server);
    assert fleet.log[|before|..] == first[|before|..] + fleet.log[|first|..];
    if outcome.Done? {
      assert fleet.log == before + [OwnerCheck(true), WriteCheck(false), OwnerCheck(true), WriteCheck(writable)];
      outcome := if writable then Done else Raised;
    }
  }

  /**
   AD group and account, keytab export on the AD host, then what AD reports of the account built into a
   validated record.
   */
  method IdentityFromAd(repo: Repository, fleet: Fleet, c: Config, r: Request, p: Plan, report: Metadata)
    returns (outcome: Outcome, identity: Option<AdIdentity>)
    modifies fleet
    ensures outcome.Done? ==> fleet.failures == old(fleet.failures)
    ensures fleet.failures >= old(fleet.failures)
    ensures repo.faultless && ReportFits(repo.View(), r, p, report) && outcome.Raised? ==> fleet.failures > old(fleet.failures)
    ensures outcome.Done? ==> fleet.ran == old(fleet.ran) + IdentityCommands(c, r, p)
    ensures fleet.log == old(fleet.log) && fleet.issued == old(fleet.issued)
    ensures OnlyInstalled(old(fleet.hosts), fleet.hosts, {c.adHost}, IdentityFiles(PlannedPaths(c, r, p)))
    ensures outcome.Done? ==> identity.Some? && IdentityOf(repo.View(), r, p, identity.value)
    ensures outcome.Done? ==> fleet.hosts == WithKeytab(old(fleet.hosts), c.adHost, PlannedPaths(c, r, p))
    ensures outcome.Done? ==> identity == BuildIdentity(r, p, report)
    ensures repo.faultless && fleet.faultless && ReportFits(repo.View(), r, p, report) ==> outcome.Done?
  {
    hide PlannedPaths, KeytabFile, BuildIdentity, OnlyInstalled, AgreesWithStored, IdentityKeys, IdentityRowOf;
    IdentityFilesAre(PlannedPaths(c, r, p));
    InstalledOne(fleet.hosts, c.adHost, {c.adHost}, IdentityFiles(PlannedPaths(c, r, p)), KeytabFile(PlannedPaths(c, r, p)));
    identity := None;
    outcome := fleet.Command(c.adHost);
    if outcome.Done? && p.groupname !in {r.username, p.adUsername} {
      outcome := fleet.Command(c.adHost);
    }
    if outcome.Raised? {
      return;
    }
    outcome := fleet.Install(c.adHost, KeytabFile(PlannedPaths(c, r, p)), Keytab);
    if outcome.Raised? {
      return;
    }
    outcome := fleet.Command(c.adHost);
    if outcome.Raised? {
      return;
    }
    identity := BuildIdentity(r, p, report);
    if identity.None? {
      return Raised, None;
    }
    BuiltNamesThePlan(r, p, report);
    outcome := ValidateIdentity(repo, identity.value);
  }

  /** The record names the planned account and ids, and agrees with a stored one. */
  ghost predicate IdentityOf(db: Tables, r: Request, p: Plan, ad: AdIdentity) {
    && ad.username == r.username && ad.adUsername == p.adUsername
    && ad.uidNumber == p.uid && ad.gidNumber == p.gid && TextsSet(ad)
    && AgreesWithStored(db, ad)
  }

  function WithKeytab(hosts: Hosts, server: Server, paths: KerberosPaths): Hosts {
    SetFiles(hosts, server, At(hosts, server).files[KeytabFile(paths) := Keytab])
  }

  /** The env file and the credential cache the refresh service leaves. */
  function WithRefresh(hosts: Hosts, server: Server, paths: KerberosPaths): Hosts {
    SetFiles(hosts, server, At(hosts, server).files
      [EnvFile(paths) := RefreshEnv(KeytabFile(paths), CcacheFile(paths))][CcacheFile(paths) := Ccache])
  }

  /** Ccache directory, refresh timer and first ticket on the target host. */
  method InstallRefresh(fleet: Fleet, server: Server, paths: KerberosPaths) returns (outcome: Outcome)
    modifies fleet
    ensures outcome.Done? ==> fleet.failures == old(fleet.failures)
    ensures fleet.failures >= old(fleet.failures) && (outcome.Raised? ==> fleet.failures > old(fleet.failures))
    ensures outcome.Done? ==> fleet.ran == old(fleet.ran) + [server]
    ensures fleet.log == old(fleet.log) && fleet.issued == old(fleet.issued)
    ensures OnlyInstalled(old(fleet.hosts), fleet.hosts, {server}, IdentityFiles(paths))
    ensures outcome.Done? ==> fleet.hosts == WithRefresh(old(fleet.hosts), server, paths)
    ensures fleet.faultless ==> outcome.Done?
  {
    hide KeytabFile, EnvFile, CcacheFile, OnlyInstalled;
    ghost var before, files := fleet.hosts, IdentityFiles(paths);
    IdentityFilesAre(paths);
    InstalledOne(before, server, {server}, files, EnvFile(paths));
    :- fleet.Command(server);
    outcome := fleet.Install(server, EnvFile(paths), RefreshEnv(KeytabFile(paths), CcacheFile(paths)));
    if outcome.Raised? {
      return;
    }
    InstalledOne(fleet.hosts, server, {server}, files, CcacheFile(paths));
    ghost var mid := fleet.hosts;
    outcome := fleet.Install(server, CcacheFile(paths), Ccache);
    InstalledThen(before, mid, fleet.hosts, {server}, {server}, files);
  }

  lemma RefreshedHasFiles(hosts: Hosts, server: Server, paths: KerberosPaths)
    requires KeytabFile(paths) in At(hosts, server).files && At(hosts, server).files[KeytabFile(paths)] == Keytab
    ensures FilesInPlace(At(WithRefresh(hosts, server, paths), server), paths)
  {
    IdentityFilesAre(paths);
    KindsDiffer(paths, paths);
  }

  ghost predicate FilesInPlace(h: Host, paths: KerberosPaths) {
    HasFiles(h, paths) && forall f :: f in IdentityFiles(paths) ==> h.files[f] == IdentityFiles(paths)[f]
  }

  /** `_prepare_lab_kerberos` and the Kerberos part of the FARM preparation. */
  method PrepareKerberos(repo: Repository, fleet: Fleet, c: Config, r: Request, p: Plan, report: Metadata)
    returns (outcome: Outcome, identity: Option<AdIdentity>)
    modifies fleet
    ensures outcome.Done? ==> fleet.failures == old(fleet.failures)
    ensures fleet.failures >= old(fleet.failures)
    ensures repo.faultless && ReportFits(repo.View(), r, p, report) && outcome.Raised? ==>
      fleet.failures > old(fleet.failures) || fleet.log == old(fleet.log) + ACCESS_DENIED
    ensures fleet.issued == old(fleet.issued) && NothingStarted(old(fleet.log), fleet.log)
    ensures OnlyInstalled(old(fleet.hosts), fleet.hosts, {c.adHost, r.server}, IdentityFiles(PlannedPaths(c, r, p)))
    ensures outcome.Done? ==>
      && identity.Some? && IdentityOf(repo.View(), r, p, identity.value)
      && FilesInPlace(At(fleet.hosts, r.server), PlannedPaths(c, r, p))
      && identity == BuildIdentity(r, p, report)
      && identity.value.username == r.username && HoldsReport(identity.value, p, report)
      && exists checks ::
           && ChecksPassed(checks) && fleet.log == old(fleet.log) + checks
           && fleet.ran == old(fleet.ran) + IdentityCommands(c, r, p) + [r.server, r.server] + CheckCommands(c, r.server, checks)
    ensures repo.faultless && fleet.faultless && ReportFits(repo.View(), r, p, report) ==> outcome.Done?
  {
    hide ReportFits, BuildIdentity, IdentityOf, PlannedPaths, KeytabFile, EnvFile, CcacheFile, OnlyInstalled, FilesInPlace, WithRefresh;
    var paths := PlannedPaths(c, r, p);
    ghost var before, servers, files := fleet.hosts, {c.adHost, r.server}, IdentityFiles(paths);
    IdentityFilesAre(paths);
    outcome, identity := IdentityFromAd(repo, fleet, c, r, p, report);
    InstalledOne(before, c.adHost, servers, files, KeytabFile(paths));
    InstalledThen(before, before, fleet.hosts, servers, {c.adHost}, files);
    if outcome.Raised? {
      return;
    }
    ghost var exported := fleet.hosts;
    if r.server != c.adHost {
      InstalledOne(exported, r.server, servers, files, KeytabFile(paths));
      outcome := fleet.Install(r.server, KeytabFile(paths), Keytab);
      InstalledThen(before, exported, fleet.hosts, servers, servers, files);
      if outcome.Raised? {
        return;
      }
    }
    outcome := fleet.Command(r.server);
    if outcome.Raised? {
      return;
    }
    ghost var copied := fleet.hosts;
    RefreshedHasFiles(copied, r.server, paths);
    outcome := InstallRefresh(fleet, r.server, paths);
    InstalledThen(before, copied, fleet.hosts, servers, {r.server}, files);
    if outcome.Raised? {
      return;
    }
    outcome := VerifyAccess(fleet, c, r.server);
    BuiltNamesThePlan(r, p, report);
  }

  /** `_prepare_storage_and_kerberos`. */
  method PrepareStorage(repo: Repository, fleet: Fleet, c: Config, r: Request, p: Plan, report: Metadata)
    returns (outcome: Outcome, identity: Option<AdIdentity>)
    modifies fleet
    ensures outcome.Done? ==> fleet.failures == old(fleet.failures)
    ensures fleet.failures >= old(fleet.failures)
    ensures repo.faultless && (r.kerberos ==> ReportFits(repo.View(), r, p, report)) && outcome.Raised? ==>
      fleet.failures > old(fleet.failures) || fleet.log == old(fleet.log) + ACCESS_DENIED
    ensures fleet.issued == old(fleet.issued) && NothingStarted(old(fleet.log), fleet.log)
    ensures OnlyInstalled(old(fleet.hosts), fleet.hosts, {c.adHost, r.server}, FilesOf(c, r, p))
    ensures outcome.Done? ==> Prepared(c, r, p, identity, repo.View(), fleet.hosts)
    ensures outcome.Done? ==> exists checks ::
      && fleet.log == old(fleet.log) + checks && (if r.kerberos then ChecksPassed(checks) else checks == [])
      && fleet.ran == old(fleet.ran) + PrepareCommands(c, r, p, checks)
    ensures outcome.Done? ==> (r.kerberos <==> identity.Some?) && identity == RecordFor(r, p, report)
    ensures repo.faultless && fleet.faultless && (r.kerberos ==> ReportFits(repo.View(), r, p, report)) ==> outcome.Done?
  {
    hide ReportFits, BuildIdentity, HoldsReport, IdentityOf, FilesInPlace, PlannedPaths, IdentityCommands, CheckCommands;
    if r.kerberos {
      outcome, identity := PrepareKerberos(repo, fleet, c, r, p, report);
      return;
    }
    identity := None;
    outcome := fleet.Command(r.server);
    assert fleet.log == old(fleet.log) + [];
  }

  /** What preparation guarantees: with Kerberos a checked record and the identity's files on the target host. */
  ghost predicate Prepared(c: Config, r: Request, p: Plan, identity: Option<AdIdentity>, db: Tables, hosts: Hosts) {
    && (r.kerberos <==> identity.Some?)
    && (r.kerberos ==>
          && IdentityOf(db, r, p, identity.value)
          && FilesInPlace(At(hosts, r.server), PlannedPaths(c, r, p)))
  }

  // ---------- Writing the records ----------

  /** The write transaction, statement by statement as the plan's flags say. */
  method WriteRecords(repo: Repository, r: Request, p: Plan, identity: Option<AdIdentity>,
      containerId: string) returns (outcome: Outcome)
    requires !repo.inTransaction && ParseDate(r.expiration).Some?
    modifies repo
    ensures repo.autoIncrement >= old(repo.autoIncrement)
    ensures outcome.Done? ==>
      && !repo.inTransaction
      && CreateTxn(old(repo.committed), r, p, identity, containerId, old(repo.autoIncrement)) == Ok(repo.committed)
      && repo.autoIncrement == ContainerRowId(r, p, identity, old(repo.autoIncrement)) + 2
    ensures outcome.Raised? ==> repo.committed == old(repo.committed)
    ensures repo.faultless ==>
      (outcome.Done? <==> CreateTxn(old(repo.committed), r, p, identity, containerId, old(repo.autoIncrement)).Ok?)
  {
    hide ExecAll, ContainerStatement;
    :- repo.Begin();
    ghost var db, auto := repo.working, repo.autoIncrement;
    ghost var all := CreateStatements(r, p, identity, containerId, auto);
    ghost var front := ReserveStatements(p) + GroupStatements(p) + [UserStatement(r, p)];
    RefusedPrefix(db, front, all, auto);
    :- WriteIds(repo, r, p, db, auto);
    var rows;
    assert front + [] == front;
    RefusedPrefix(db, front + IdentityStatements(r, identity), all, auto);
    if r.kerberos && identity.Some? {
      outcome, rows := Issue(repo, UpsertIdentity(identity.value), db, auto, front);
      :- outcome;
    }
    front := front + IdentityStatements(r, identity);
    RefusedPrefix(db, front + PortStatements(p.ports), all, auto);
    :- WritePorts(repo, p.ports, db, auto, front);
    outcome := AttachAndCommit(repo, r, p, identity, containerId, db, auto);
  }

  /** The reservations, the group and the user. */
  method WriteIds(repo: Repository, r: Request, p: Plan, ghost db: Tables, ghost auto: int) returns (outcome: Outcome)
    requires repo.inTransaction && repo.working == db && repo.autoIncrement == auto
    modifies repo
    ensures repo.inTransaction && repo.committed == old(repo.committed)
    ensures repo.autoIncrement >= old(repo.autoIncrement)
    ensures var ss := ReserveStatements(p) + GroupStatements(p) + [UserStatement(r, p)];
            && (outcome.Done? ==> ExecAll(db, ss, auto) == Ok(repo.working) && repo.autoIncrement == auto + |ss|)
            && (repo.faultless ==> (outcome.Done? <==> ExecAll(db, ss, auto).Ok?))
  {
    hide ExecAll, Exec;
    ExecAllNone(db, auto);
    ghost var all := ReserveStatements(p) + GroupStatements(p) + [UserStatement(r, p)];
    ghost var ran: seq<Statement> := [];
    var rows;
    if !p.existingUser && !p.uidReserved {
      RefusedPrefix(db, ran + [ReserveId(p.uid)], all, auto);
      outcome, rows := Issue(repo, ReserveId(p.uid), db, auto, ran);
      :- outcome;
      ran := ran + [ReserveId(p.uid)];
    }
    if !p.existingGroup && p.gid != p.uid && !p.gidReserved {
      RefusedPrefix(db, ran + [ReserveId(p.gid)], all, auto);
      outcome, rows := Issue(repo, ReserveId(p.gid), db, auto, ran);
      :- outcome;
      ran := ran + [ReserveId(p.gid)];
    }
    assert ran == ReserveStatements(p);
    if !p.existingGroup {
      RefusedPrefix(db, ran + [InsertGroup(p.groupname, p.gid)], all, auto);
      outcome, rows := Issue(repo, InsertGroup(p.groupname, p.gid), db, auto, ran);
      :- outcome;
      ran := ran + [InsertGroup(p.groupname, p.gid)];
    }
    assert ran + [UserStatement(r, p)] == all;
    outcome, rows := Issue(repo, UserStatement(r, p), db, auto, ran);
  }

  /** One pending row per mapping. */
  method WritePorts(repo: Repository, ports: seq<PortMapping>, ghost db: Tables, ghost auto: int,
      ghost front: seq<Statement>)
    returns (outcome: Outcome)
    requires repo.inTransaction && ExecAll(db, front, auto) == Ok(repo.working) && repo.autoIncrement == auto + |front|
    modifies repo
    ensures repo.inTransaction && repo.committed == old(repo.committed)
    ensures repo.autoIncrement >= old(repo.autoIncrement)
    ensures outcome.Done? ==>
      && ExecAll(db, front + PortStatements(ports), auto) == Ok(repo.working)
      && repo.autoIncrement == auto + |front + PortStatements(ports)|
    ensures repo.faultless ==> (outcome.Done? <==> ExecAll(db, front + PortStatements(ports), auto).Ok?)
  {
    hide ExecAll, Exec;
    assert front + PortStatements(ports)[..0] == front;
    for k := 0 to |ports|
      invariant repo.inTransaction && repo.committed == old(repo.committed)
      invariant ExecAll(db, front + PortStatements(ports)[..k], auto) == Ok(repo.working)
      invariant repo.autoIncrement == auto + |front| + k
    {
      var port := InsertPort(ports[k].hostPort, ports[k].purpose);
      var rows;
      assert front + PortStatements(ports)[..k + 1] == front + PortStatements(ports)[..k] + [port];
      RefusedPrefix(db, front + PortStatements(ports)[..k] + [port], front + PortStatements(ports), auto);
      outcome, rows := Issue(repo, port, db, auto, front + PortStatements(ports)[..k]);
      :- outcome;
    }
    assert PortStatements(ports)[..|ports|] == PortStatements(ports);
    return Done;
  }

  /** The container row, whose generated id the ports are attached to, and the commit. */
  method AttachAndCommit(repo: Repository, r: Request, p: Plan, identity: Option<AdIdentity>, containerId: string,
                         ghost db: Tables, ghost auto: int)
    returns (outcome: Outcome)
    requires repo.inTransaction && ParseDate(r.expiration).Some?
    requires ExecAll(db, BeforeContainer(r, p, identity), auto) == Ok(repo.working)
    requires repo.autoIncrement == auto + |BeforeContainer(r, p, identity)|
    modifies repo
    ensures repo.autoIncrement >= old(repo.autoIncrement)
    ensures outcome.Done? ==>
      && !repo.inTransaction && CreateTxn(db, r, p, identity, containerId, auto) == Ok(repo.committed)
      && repo.autoIncrement == ContainerRowId(r, p, identity, auto) + 2
    ensures outcome.Raised? ==> repo.committed == old(repo.committed)
    ensures repo.faultless ==> (outcome.Done? <==> CreateTxn(db, r, p, identity, containerId, auto).Ok?)
  {
    hide ExecAll, ContainerStatement;
    ghost var ran := BeforeContainer(r, p, identity);
    var row, rows := repo.autoIncrement, 0;
    RefusedPrefix(db, ran + [ContainerStatement(r, p, containerId)], CreateStatements(r, p, identity, containerId, auto), auto);
    outcome, rows := Issue(repo, ContainerStatement(r, p, containerId), db, auto, ran);
    :- outcome;
    ran := ran + [ContainerStatement(r, p, containerId)];
    assert ran + [AttachPorts(row, FixedHostPorts(p.ports))] == CreateStatements(r, p, identity, containerId, auto);
    outcome, rows := Issue(repo, AttachPorts(row, FixedHostPorts(p.ports)), db, auto, ran);
    :- outcome;
    outcome := repo.Commit();
  }

  // ---------- The saga ----------

  /** Every container id on a host came from `docker run`. */
  ghost predicate IdsIssued(hosts: Hosts, issued: set<string>) {
    forall s, n :: n in At(hosts, s).containers ==> At(hosts, s).containers[n].containerId in issued
  }

  lemma StartedIssued(hosts: Hosts, issued: set<string>, server: Server, name: string, c: Container)
    requires IdsIssued(hosts, issued) && c.containerId in issued
    ensures IdsIssued(Started(hosts, server, name, c), issued)
  {
    var after := Started(hosts, server, name, c);
    forall s, n | n in At(after, s).containers ensures At(after, s).containers[n].containerId in issued {
      assert s != server ==> At(after, s) == At(hosts, s);
    }
  }

  lemma FreshIdAlone(hosts: Hosts, issued: set<string>, server: Server, name: string, c: Container)
    requires IdsIssued(hosts, issued) && c.containerId !in issued
    ensures NamesWithId(At(Started(hosts, server, name, c), server), c.containerId) == {name}
  {
    var h := At(Started(hosts, server, name, c), server);
    assert h.containers[name].containerId == c.containerId;
  }

  lemma WithoutIssued(hosts: Hosts, issued: set<string>, server: Server, names: set<string>)
    requires IdsIssued(hosts, issued)
    ensures IdsIssued(Without(hosts, server, names), issued)
  {
    var after := Without(hosts, server, names);
    forall s, n | n in At(after, s).containers ensures At(after, s).containers[n].containerId in issued {
      assert n in At(hosts, s).containers && At(after, s).containers[n] == At(hosts, s).containers[n];
    }
  }

  /** What one container name on one server was turned into, everything else on the hosts being as before. */
  ghost predicate ContainersAre(before: Hosts, after: Hosts, server: Server, containers: map<string, Container>) {
    && At(after, server).containers == containers
    && (forall s :: s != server ==> At(after, s) == At(before, s))
    && At(after, server).files == At(before, server).files
  }

  /** The schema accepts the records under any container id docker may still issue. */
  ghost predicate AcceptsRecords(db: Tables, r: Request, p: Plan, identity: Option<AdIdentity>,
      issued: set<string>, auto: int)
    requires ParseDate(r.expiration).Some?
  {
    forall id :: id !in issued ==> CreateTxn(db, r, p, identity, id, auto).Ok?
  }

  /** The guarded block after preparation, up to the commit. */
  method StartAndRecord(repo: Repository, fleet: Fleet, r: Request, p: Plan, identity: Option<AdIdentity>)
    returns (outcome: Outcome, containerId: string)
    requires !repo.inTransaction && ParseDate(r.expiration).Some? && IdsIssued(fleet.hosts, fleet.issued)
    modifies repo, fleet
    ensures outcome.Done? ==> fleet.failures == old(fleet.failures)
    ensures outcome.Done? ==> fleet.ran == old(fleet.ran) + [r.server]
    ensures fleet.log == old(fleet.log) + [DockerRun]
    ensures old(fleet.issued) <= fleet.issued && IdsIssued(fleet.hosts, fleet.issued)
    ensures outcome.Done? ==>
      && containerId != "" && containerId in fleet.issued - old(fleet.issued)
      && fleet.hosts == Started(old(fleet.hosts), r.server, p.containerName, ContainerOf(r, p, containerId))
    ensures repo.autoIncrement >= old(repo.autoIncrement)
    ensures outcome.Done? && !r.noDbRecord ==>
      && CreateTxn(old(repo.committed), r, p, identity, containerId, old(repo.autoIncrement)) == Ok(repo.committed)
      && repo.autoIncrement == ContainerRowId(r, p, identity, old(repo.autoIncrement)) + 2
    ensures outcome.Raised? || r.noDbRecord ==> repo.committed == old(repo.committed)
    ensures outcome.Done? || r.noDbRecord ==> !repo.inTransaction
    ensures outcome.Raised? && containerId == "" ==>
      || fleet.hosts == old(fleet.hosts)
      || exists id :: && id !in old(fleet.issued) && id in fleet.issued && id != ""
                      && p.containerName !in At(old(fleet.hosts), r.server).containers
                      && fleet.hosts == Started(old(fleet.hosts), r.server, p.containerName, ContainerOf(r, p, id))
    ensures outcome.Raised? && containerId != "" ==>
      && containerId !in old(fleet.issued) && containerId in fleet.issued
      && p.containerName !in At(old(fleet.hosts), r.server).containers
      && fleet.hosts == Started(old(fleet.hosts), r.server, p.containerName, ContainerOf(r, p, containerId))
    ensures repo.faultless && fleet.faultless && p.containerName !in At(old(fleet.hosts), r.server).containers
            && (r.noDbRecord || AcceptsRecords(old(repo.committed), r, p, identity, old(fleet.issued), old(repo.autoIncrement)))
            ==> outcome.Done?
  {
    hide CreateTxn;
    outcome, containerId := fleet.RunContainer(r.server, p.containerName, ContainerOf(r, p, ""));
    assert forall id :: ContainerOf(r, p, "").(containerId := id) == ContainerOf(r, p, id);
    assert IdsIssued(old(fleet.hosts), fleet.issued);
    forall id | id in fleet.issued
      ensures IdsIssued(Started(old(fleet.hosts), r.server, p.containerName, ContainerOf(r, p, id)), fleet.issued)
    {
      StartedIssued(old(fleet.hosts), fleet.issued, r.server, p.containerName, ContainerOf(r, p, id));
    }
    if outcome.Raised? {
      containerId := "";
      return;
    }
    if containerId == "" {
      outcome := Raised;
      return;
    }
    outcome := fleet.Command(r.server);
    if outcome.Done? && !r.noDbRecord {
      outcome := WriteRecords(repo, r, p, identity, containerId);
    }
  }

  /** The except block: roll back, then remove the container by id or by name, unchecked. */
  method Undo(repo: Repository, fleet: Fleet, r: Request, p: Plan, containerId: string) returns (compensated: bool)
    modifies repo, fleet
    ensures repo.committed == old(repo.committed) && repo.autoIncrement == old(repo.autoIncrement)
    ensures if r.noDbRecord then repo.inTransaction == old(repo.inTransaction) else compensated ==> !repo.inTransaction
    ensures repo.faultless && fleet.faultless && (containerId != "" || p.containerName != "") ==> compensated
    ensures fleet.log == old(fleet.log) && fleet.issued == old(fleet.issued)
    ensures fleet.hosts ==
      if compensated then Without(old(fleet.hosts), r.server,
                                  RemovalTargets(At(old(fleet.hosts), r.server), containerId, p.containerName))
      else old(fleet.hosts)
  {
    if !r.noDbRecord {
      var rolledBack := repo.Rollback();
      if rolledBack.Raised? {
        return false;
      }
    }
    compensated := false;
    if containerId != "" || p.containerName != "" {
      compensated := fleet.Compensate(r.server, containerId, p.containerName);
    }
  }

  /** The guarded block and its except block together: all, or nothing but what the removal could not undo. */
  method RunGuarded(repo: Repository, fleet: Fleet, r: Request, p: Plan,
      identity: Option<AdIdentity>) returns (result: CreateResult)
    requires !repo.inTransaction && ParseDate(r.expiration).Some? && IdsIssued(fleet.hosts, fleet.issued)
    modifies repo, fleet
    ensures result.Created? ==> fleet.failures == old(fleet.failures) && fleet.ran == old(fleet.ran) + [r.server]
    ensures repo.faultless && fleet.faultless && p.containerName != "" && result.Failed? ==> result.compensated
    ensures result.Created? || result.Failed?
    ensures result != Failed(false) ==> !repo.inTransaction
    ensures fleet.log == old(fleet.log) + [DockerRun]
    ensures old(fleet.issued) <= fleet.issued && IdsIssued(fleet.hosts, fleet.issued)
    ensures Undone(old(fleet.hosts), fleet.hosts, old(fleet.issued), r, p, result)
    ensures result.Created? ==> result.containerId in fleet.issued - old(fleet.issued)
    ensures repo.autoIncrement >= old(repo.autoIncrement)
    ensures result.Created? && !r.noDbRecord ==>
      && CreateTxn(old(repo.committed), r, p, identity, result.containerId, old(repo.autoIncrement)) == Ok(repo.committed)
      && repo.autoIncrement == ContainerRowId(r, p, identity, old(repo.autoIncrement)) + 2
    ensures result.Failed? || r.noDbRecord ==> repo.committed == old(repo.committed)
    ensures repo.faultless && fleet.faultless && p.containerName !in At(old(fleet.hosts), r.server).containers
            && (r.noDbRecord || AcceptsRecords(old(repo.committed), r, p, identity, old(fleet.issued), old(repo.autoIncrement)))
            ==> result.Created?
  {
    hide CreateTxn, IdsIssued, AcceptsRecords;
    var outcome, containerId := StartAndRecord(repo, fleet, r, p, identity);
    if outcome.Done? {
      return Created(containerId);
    }
    ghost var mid := fleet.hosts;
    ghost var h := At(mid, r.server);
    if containerId != "" {
      FreshIdAlone(old(fleet.hosts), old(fleet.issued), r.server, p.containerName, ContainerOf(r, p, containerId));
    }
    WithoutIssued(mid, fleet.issued, r.server, RemovalTargets(h, containerId, p.containerName));
    var compensated := Undo(repo, fleet, r, p, containerId);
    return Failed(compensated);
  }

  /**
   The hosts after the guarded block. A success adds exactly the container. A compensated failure leaves
   everything but the container's name, which is gone whoever it belonged to; an uncompensated one may
   leave the new container behind.
   */
  ghost predicate Undone(before: Hosts, after: Hosts, issued: set<string>, r: Request, p: Plan, result: CreateResult) {
    var was := At(before, r.server).containers;
    match result
    case Created(id) => id != "" && ContainersAre(before, after, r.server, was[p.containerName := ContainerOf(r, p, id)])
    case Failed(true) => ContainersAre(before, after, r.server, was - {p.containerName})
    case Failed(false) =>
      || ContainersAre(before, after, r.server, was)
      || (p.containerName !in was
          && exists id :: (id !in issued && id != ""
                           && ContainersAre(before, after, r.server, was[p.containerName := ContainerOf(r, p, id)])))
    case _ => Same(before, after)
  }

  /** A compensated failure restores the host exactly when the name was free to begin with. */
  lemma RestoredExactly(before: Hosts, after: Hosts, issued: set<string>, r: Request, p: Plan)
    requires Undone(before, after, issued, r, p, Failed(true))
    ensures Same(before, after) <==> p.containerName !in At(before, r.server).containers
  {
    var was := At(before, r.server).containers;
    if p.containerName !in was {
      assert was - {p.containerName} == was;
      forall s ensures At(after, s) == At(before, s) {
      }
    } else {
      assert p.containerName !in At(after, r.server).containers;
      assert At(after, r.server) != At(before, r.server);
    }
  }

  /** The whole effect of one execute, for the runs it is part of. */
  ghost predicate CreateEffect(c: Config, r: Request, p: Plan, identity: Option<AdIdentity>,
      result: CreateResult, w: World, w': World)
    requires ParseDate(r.expiration).Some?
  {
    && w.issued <= w'.issued && IdsIssued(w'.hosts, w'.issued) && w'.auto >= w.auto
    && (if result.Created? && !r.noDbRecord then
          && CreateTxn(w.db, r, p, identity, result.containerId, w.auto) == Ok(w'.db)
          && w'.auto == ContainerRowId(r, p, identity, w.auto) + 2
        else w'.db == w.db)
    && exists mid ::
         && OnlyInstalled(w.hosts, mid, {c.adHost, r.server}, FilesOf(c, r, p))
         && (result.Created? || result.Failed? ==> Prepared(c, r, p, identity, w.db, mid))
         && Undone(mid, w'.hosts, w.issued, r, p, result)
         && (result.Created? ==> result.containerId in w'.issued - w.issued)
  }

  /** One row of the identity table, and no other, now holds what AD reported. */
  ghost predicate StoresReport(db: Tables, db': Tables, p: Plan, report: Metadata) {
    exists u :: && u in db'.identities && HoldsReport(db'.identities[u].ad, p, report)
                && db'.identities == db.identities[u := db'.identities[u]]
  }

  lemma ReportIsStored(w: World, w': World, r: Request, p: Plan, identity: Option<AdIdentity>, report: Metadata,
      containerId: string)
    requires ParseDate(r.expiration).Some? && r.kerberos && identity.Some? && identity == RecordFor(r, p, report)
    requires CreateTxn(w.db, r, p, identity, containerId, w.auto) == Ok(w'.db)
    ensures StoresReport(w.db, w'.db, p, report)
  {
    hide CreateTxn, BuildIdentity;
    RecordIsStored(w.db, r, p, identity.value, containerId, w.auto);
    BuiltNamesThePlan(r, p, report);
  }

  /** `ContainerCreateService.execute`; `report` is what AD prints of the account if it is asked. */
  method Execute(repo: Repository, directory: Directory, fleet: Fleet, c: Config, r: Request, report: Metadata)
    returns (result: CreateResult, plan: Result<Plan, PlanError>, look: Lookups, facts: Facts, identity: Option<AdIdentity>)
    requires !repo.inTransaction && IdsIssued(fleet.hosts, fleet.issued)
    modifies repo, fleet
    ensures result.Created? ==> fleet.failures == old(fleet.failures)
    ensures plan.Ok? && result.Created? ==>
      && plan.value.containerName in At(fleet.hosts, r.server).containers
      && At(fleet.hosts, r.server).containers[plan.value.containerName]
         == Container(result.containerId, r.username, plan.value.uid,
                      if r.kerberos then Some(plan.value.adUsername) else None, !r.noDbRecord)
      && (r.kerberos ==> FilesInPlace(At(fleet.hosts, r.server), PlannedPaths(c, r, plan.value)))
    ensures plan.Ok? && result.Created? ==>
      AllRan(c, r, plan.value, old(fleet.log), fleet.log, old(fleet.ran), fleet.ran)
    ensures repo.faultless && plan.Ok? && !r.dryRun && result.Rejected?
            && (r.kerberos ==> ReportFits(old(repo.committed), r, plan.value, report))
            ==> fleet.failures > old(fleet.failures) || fleet.log == old(fleet.log) + ACCESS_DENIED
    ensures repo.faultless && fleet.faultless && plan.Ok? && plan.value.containerName != "" && result.Failed? ==> result.compensated
    ensures plan.Ok? ==> PlannedFrom(old(repo.committed), r, look, facts, plan.value)
    ensures plan.Ok? ==> MeetsRequest(old(repo.committed), r, facts, plan.value) && PortsMeetRequest(old(repo.committed), r, facts, plan.value)
    ensures plan.Err? ==> result == Rejected && WorldOf(repo, fleet) == old(WorldOf(repo, fleet))
    ensures plan.Ok? ==> CreateEffect(c, r, plan.value, identity, result, old(WorldOf(repo, fleet)), WorldOf(repo, fleet))
    ensures !result.Created? || r.noDbRecord ==> repo.committed == old(repo.committed)
    ensures result != Failed(false) ==> !repo.inTransaction
    ensures r.dryRun ==> !result.Created? && !result.Failed? && fleet.hosts == old(fleet.hosts)
    ensures if result.Created? || result.Failed? then StartedAfterChecks(old(fleet.log), fleet.log, r.kerberos)
            else NothingStarted(old(fleet.log), fleet.log)
    ensures plan.Ok? && (result.Created? || result.Failed?) ==> identity == RecordFor(r, plan.value, report)
    ensures plan.Ok? && (result.Created? || result.Failed?) && r.kerberos ==>
      identity.Some? && identity.value.username == r.username && HoldsReport(identity.value, plan.value, report)
    ensures plan.Ok? && result.Created? && r.kerberos && !r.noDbRecord ==>
      StoresReport(old(repo.committed), repo.committed, plan.value, report)
    ensures repo.faultless && directory.faultless && fleet.faultless && !r.dryRun && plan.Ok?
            && plan.value.containerName !in At(old(fleet.hosts), r.server).containers && ParseDate(r.expiration).Some?
            && (r.kerberos ==> ReportFits(old(repo.committed), r, plan.value, report))
            && (r.noDbRecord || AcceptsRecords(old(repo.committed), r, plan.value, RecordFor(r, plan.value, report),
                                               old(fleet.issued), old(repo.autoIncrement)))
            ==> result.Created?
    ensures repo.faultless && directory.faultless ==>
      && (plan.Ok? <==> Acceptable(old(repo.committed), r, look, facts))
      && (plan.Ok? <==> forall e :: !Grounds(old(repo.committed), r, look, facts, e))
  {
    hide PlannedFrom, CreateTxn, CreateEffect, OnlyInstalled, IdsIssued, Undone, FilesOf, AcceptsRecords, Acceptable;
    hide ReportFits, RecordFor, Prepared, MeetsRequest, PortsMeetRequest, SourceTold, Grounds, HoldsReport, StoresReport;
    identity := None;
    plan, look, facts := Prepare(repo, directory, r);
    if plan.Err? {
      return Rejected, plan, look, facts, identity;
    }
    PlannedDate(repo.committed, r, look, facts, plan.value);
    ghost var before := WorldOf(repo, fleet);
    NothingInstalled(before.hosts, {c.adHost, r.server}, FilesOf(c, r, plan.value));
    EffectBeforeStart(c, r, plan.value, identity, DryRun, before, before);
    if r.dryRun {
      return DryRun, plan, look, facts, identity;
    }
    var outcome := fleet.Command(r.server);
    if outcome.Done? {
      outcome, identity := PrepareStorage(repo, fleet, c, r, plan.value, report);
    }
    PreparedIssued(before.hosts, fleet.hosts, fleet.issued, {c.adHost, r.server}, FilesOf(c, r, plan.value));
    ghost var prepared := WorldOf(repo, fleet);
    EffectBeforeStart(c, r, plan.value, identity, Rejected, before, prepared);
    if outcome.Raised? {
      return Rejected, plan, look, facts, identity;
    }
    result := RunGuarded(repo, fleet, r, plan.value, identity);
    if result.Created? {
      CreatedStands(c, r, plan.value, identity, before.db, before.issued, prepared.hosts, fleet.hosts, result);
    }
    EffectAfterStart(c, r, plan.value, identity, result, before, prepared.hosts, WorldOf(repo, fleet));
    if r.kerberos {
      RecordHoldsReport(r, plan.value, report, identity);
      if result.Created? && !r.noDbRecord {
        ReportIsStored(before, WorldOf(repo, fleet), r, plan.value, identity, report, result.containerId);
      }
    }
  }

  lemma RecordHoldsReport(r: Request, p: Plan, report: Metadata, identity: Option<AdIdentity>)
    requires r.kerberos && identity == RecordFor(r, p, report) && identity.Some?
    ensures identity.value.username == r.username && HoldsReport(identity.value, p, report)
  {
    BuiltNamesThePlan(r, p, report);
  }

  lemma CreatedStands(c: Config, r: Request, p: Plan, identity: Option<AdIdentity>, db: Tables, issued: set<string>,
      mid: Hosts, after: Hosts, result: CreateResult)
    requires result.Created? && Prepared(c, r, p, identity, db, mid) && Undone(mid, after, issued, r, p, result)
    ensures p.containerName in At(after, r.server).containers
    ensures At(after, r.server).containers[p.containerName]
         == Container(result.containerId, r.username, p.uid, if r.kerberos then Some(p.adUsername) else None, !r.noDbRecord)
    ensures r.kerberos ==> FilesInPlace(At(after, r.server), PlannedPaths(c, r, p))
  {
    hide PlannedPaths, IdentityOf;
  }

  lemma NothingInstalled(hosts: Hosts, servers: set<Server>, files: map<string, FileBody>)
    ensures OnlyInstalled(hosts, hosts, servers, files)
  {
  }

  lemma EffectBeforeStart(c: Config, r: Request, p: Plan, identity: Option<AdIdentity>, result: CreateResult,
      w: World, w': World)
    requires ParseDate(r.expiration).Some? && (result.DryRun? || result.Rejected?)
    requires OnlyInstalled(w.hosts, w'.hosts, {c.adHost, r.server}, FilesOf(c, r, p))
    requires w' == w.(hosts := w'.hosts) && IdsIssued(w'.hosts, w'.issued)
    ensures CreateEffect(c, r, p, identity, result, w, w')
  {
    assert Undone(w'.hosts, w'.hosts, w.issued, r, p, result);
  }

  lemma EffectAfterStart(c: Config, r: Request, p: Plan, identity: Option<AdIdentity>, result: CreateResult,
      w: World, mid: Hosts, w': World)
    requires ParseDate(r.expiration).Some? && (result.Created? || result.Failed?)
    requires OnlyInstalled(w.hosts, mid, {c.adHost, r.server}, FilesOf(c, r, p)) && Prepared(c, r, p, identity, w.db, mid)
    requires Undone(mid, w'.hosts, w.issued, r, p, result) && (result.Created? ==> result.containerId in w'.issued - w.issued)
    requires w.issued <= w'.issued && IdsIssued(w'.hosts, w'.issued) && w'.auto >= w.auto
    requires if result.Created? && !r.noDbRecord then
               && CreateTxn(w.db, r, p, identity, result.containerId, w.auto) == Ok(w'.db)
               && w'.auto == ContainerRowId(r, p, identity, w.auto) + 2
             else w'.db == w.db
    ensures CreateEffect(c, r, p, identity, result, w, w')
  {
    hide CreateTxn, OnlyInstalled, Prepared, Undone, IdsIssued;
  }

  lemma PreparedIssued(before: Hosts, after: Hosts, issued: set<string>, servers: set<Server>,
      files: map<string, FileBody>)
    requires OnlyInstalled(before, after, servers, files) && IdsIssued(before, issued)
    ensures IdsIssued(after, issued)
    ensures forall s :: At(after, s).containers == At(before, s).containers
  {
  }

  lemma PlannedDate(db: Tables, r: Request, look: Lookups, facts: Facts, p: Plan)
    requires PlannedFrom(db, r, look, facts, p)
    ensures ParseDate(r.expiration).Some?
  {
  }
}
