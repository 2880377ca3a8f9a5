/**
 The Docker hosts behind the remote runner: containers by name and Kerberos files by path. Nothing
 here is transactional; every checked command may raise, with or without having had its effect. On a
 faultless fleet every command works, except that a taken container name still fails and that, unless
 docker is forgiving, removing a container that is not there may.
 */
module Fleets {
  import opened Wrappers
  import opened Schema
  import opened Repositories
  import opened KerberosPathNames

  datatype FileBody = Keytab | RefreshEnv(keytab: string, ccache: string) | Ccache

  /** A container with what `docker run` passed it; `recorded` says its create writes database records. */
  datatype Container = Container(containerId: string, username: string, uid: int, adUsername: Option<string>, recorded: bool)

  datatype Host = Host(containers: map<string, Container>, files: map<string, FileBody>)

  type Hosts = map<Server, Host>

  /** The remote commands whose order matters. */
  datatype Logged = OwnerCheck(passed: bool) | WriteCheck(passed: bool) | DockerRun

  function At(hosts: Hosts, server: Server): Host {
    if server in hosts then hosts[server] else Host(map[], map[])
  }

  function SetContainers(hosts: Hosts, server: Server, containers: map<string, Container>): Hosts {
    hosts[server := At(hosts, server).(containers := containers)]
  }

  function SetFiles(hosts: Hosts, server: Server, files: map<string, FileBody>): Hosts {
    hosts[server := At(hosts, server).(files := files)]
  }

  function Started(hosts: Hosts, server: Server, name: string, c: Container): Hosts {
    SetContainers(hosts, server, At(hosts, server).containers[name := c])
  }

  function NamesWithId(h: Host, containerId: string): set<string> {
    set n | n in h.containers && h.containers[n].containerId == containerId
  }

  /** What `docker rm -f id || docker rm -f name` removes when it works and the id is unknown or known. */
  function RemovalTargets(h: Host, containerId: string, name: string): set<string> {
    if containerId != "" && NamesWithId(h, containerId) != {} then NamesWithId(h, containerId) else {name}
  }

  /** The container was the one with the id or, where no container has it, the one of the name. */
  ghost predicate Addressed(h: Host, containerId: string, name: string, n: string)
    requires n in h.containers
  {
    if exists m :: m in h.containers && h.containers[m].containerId == containerId != "" then
      h.containers[n].containerId == containerId
    else n == name
  }

  lemma TargetsAreAddressed(h: Host, containerId: string, name: string)
    ensures forall n :: n in h.containers ==> (n in RemovalTargets(h, containerId, name) <==> Addressed(h, containerId, name, n))
  {
    if m :| m in h.containers && h.containers[m].containerId == containerId != "" {
      assert m in NamesWithId(h, containerId);
    } else if |NamesWithId(h, containerId)| > 0 {
      var m := AnElement(NamesWithId(h, containerId));
    }
  }

  lemma NoneWithId(h: Host, containerId: string)
    requires NamesWithId(h, containerId) == {}
    ensures forall n :: n in h.containers ==> h.containers[n].containerId != containerId
  {
    forall n | n in h.containers ensures h.containers[n].containerId != containerId {
      assert n !in NamesWithId(h, containerId);
    }
  }

  function Without(hosts: Hosts, server: Server, names: set<string>): Hosts {
    SetContainers(hosts, server, At(hosts, server).containers - names)
  }

  /** The same containers and files everywhere, whether or not an empty host is listed. */
  ghost predicate Same(before: Hosts, after: Hosts) {
    forall s :: At(after, s) == At(before, s)
  }

  /** Only containers went, only on one server, and none but the targets. */
  ghost predicate OnlyDropped(before: Hosts, after: Hosts, server: Server, names: set<string>) {
    && (forall s :: At(after, s).files == At(before, s).files)
    && (forall s :: s != server ==> At(after, s) == At(before, s))
    && (forall n :: n in At(after, server).containers ==>
          n in At(before, server).containers && At(after, server).containers[n] == At(before, server).containers[n])
    && (forall n :: n in At(before, server).containers && n !in names ==> n in At(after, server).containers)
  }

  /** Only files were written, only on these servers, each with the body it is meant to have. */
  ghost predicate OnlyInstalled(before: Hosts, after: Hosts, servers: set<Server>, files: map<string, FileBody>) {
    && (forall s :: At(after, s).containers == At(before, s).containers)
    && (forall s :: s !in servers ==> At(after, s) == At(before, s))
    && (forall s, f :: f in At(before, s).files ==> f in At(after, s).files)
    && (forall s, f :: f in At(after, s).files ==>
          || (f in At(before, s).files && At(after, s).files[f] == At(before, s).files[f])
          || (f in files && At(after, s).files[f] == files[f]))
  }

  lemma InstalledOne(hosts: Hosts, server: Server, servers: set<Server>, files: map<string, FileBody>, path: string)
    requires server in servers && path in files
    ensures OnlyInstalled(hosts, SetFiles(hosts, server, At(hosts, server).files[path := files[path]]), servers, files)
    ensures OnlyInstalled(hosts, hosts, servers, files)
  {
  }

  lemma InstalledThen(a: Hosts, b: Hosts, c: Hosts, servers: set<Server>, some: set<Server>, files: map<string,
      FileBody>)
    requires OnlyInstalled(a, b, servers, files) && OnlyInstalled(b, c, some, files) && some <= servers
    ensures OnlyInstalled(a, c, servers, files)
  {
  }

  /** The files an identity needs on a host: the env file names the other two. */
  function IdentityFiles(p: KerberosPaths): (files: map<string, FileBody>)
    ensures files.Keys == Files(p)
  {
    map[KeytabFile(p) := Keytab, EnvFile(p) := RefreshEnv(KeytabFile(p), CcacheFile(p)), CcacheFile(p) := Ccache]
  }

  lemma IdentityFilesAre(p: KerberosPaths)
    ensures var files := IdentityFiles(p);
            && files[KeytabFile(p)] == Keytab && files[CcacheFile(p)] == Ccache
            && files[EnvFile(p)] == RefreshEnv(KeytabFile(p), CcacheFile(p))
  {
    KindsDiffer(p, p);
  }

  ghost predicate HasFiles(h: Host, p: KerberosPaths) {
    Files(p) <= h.files.Keys
  }

  /** What the cleanup script removes: the env file and the two files it names, or the recomputed ones without it. */
  function CleanupTargets(h: Host, p: KerberosPaths): set<string> {
    var env := EnvFile(p);
    if env in h.files && h.files[env].RefreshEnv? then
      {env, OrElse(h.files[env].keytab, KeytabFile(p)), OrElse(h.files[env].ccache, CcacheFile(p))}
    else Files(p)
  }

  /** The file is the identity's env file or one of those that names; without an env file it is one of the identity's own. */
  ghost predicate NamedForCleanup(h: Host, p: KerberosPaths, f: string) {
    if EnvFile(p) in h.files && h.files[EnvFile(p)].RefreshEnv? then
      var body := h.files[EnvFile(p)];
      f == EnvFile(p) || (f == body.keytab && f != "") || (f == body.ccache && f != "")
      || (f == KeytabFile(p) && body.keytab == "") || (f == CcacheFile(p) && body.ccache == "")
    else f == EnvFile(p) || f == KeytabFile(p) || f == CcacheFile(p)
  }

  lemma TargetsAreNamed(h: Host, p: KerberosPaths)
    ensures forall f :: f in CleanupTargets(h, p) <==> NamedForCleanup(h, p, f)
  {
  }

  /** Only files went, only on one server, and none but the targets. */
  ghost predicate OnlyCleaned(before: Hosts, after: Hosts, server: Server, targets: set<string>) {
    && (forall s :: At(after, s).containers == At(before, s).containers)
    && (forall s :: s != server ==> At(after, s) == At(before, s))
    && (forall f :: f in At(after, server).files ==>
          f in At(before, server).files && At(after, server).files[f] == At(before, server).files[f])
    && (forall f :: f in At(before, server).files && f !in targets ==> f in At(after, server).files)
  }

  lemma FreshIdExists(issued: set<string>)
    ensures exists id: string :: id != "" && id !in issued
  {
    var id := LongerThanAll(issued);
  }

  lemma LongerThanAll(issued: set<string>) returns (id: string)
    ensures id != "" && forall x :: x in issued ==> |x| < |id|
  {
    if issued == {} {
      id := "0";
    } else {
      var x := AnElement(issued);
      id := LongerThanAll(issued - {x});
      if |x| >= |id| {
        id := x + "0";
      }
    }
  }

  /** Both stores between two operations: the committed tables with the next row id, the hosts and the ids they issued. */
  datatype World = World(db: Tables, auto: int, hosts: Hosts, issued: set<string>)

  ghost function WorldOf(repo: Repository, fleet: Fleet): World
    reads repo, fleet
  {
    World(repo.committed, repo.autoIncrement, fleet.hosts, fleet.issued)
  }

  class Fleet {
    const faultless: bool
    const forgiving: bool
    var hosts: Hosts
    var issued: set<string>
    ghost var log: seq<Logged>
    /** How many checked commands have raised; a failed write check is logged instead, for it has a second try. */
    ghost var failures: nat
    /** The servers on which commands without a modelled effect went through, in order. */
    ghost var ran: seq<Server>

    /** A remote command with no effect on containers, Kerberos files or accounts modelled here. */
    method Command(server: Server) returns (outcome: Outcome)
      modifies `failures, `ran
      ensures failures == old(failures) + (if outcome.Raised? then 1 else 0)
      ensures ran == if outcome.Done? then old(ran) + [server] else old(ran)
      ensures faultless ==> outcome.Done?
    {
      var works: bool := *;
      if works || faultless {
        ran := ran + [server];
        return Done;
      }
      failures := failures + 1;
      return Raised;
    }

    /** The same run without check: its failure goes unnoticed. */
    method Unchecked(server: Server) {
    }

    method CheckOwner(server: Server) returns (outcome: Outcome)
      modifies this
      ensures ran == old(ran)
      ensures hosts == old(hosts) && issued == old(issued)
      ensures log == old(log) + [OwnerCheck(outcome.Done?)]
      ensures failures == old(failures) + (if outcome.Raised? then 1 else 0)
      ensures faultless ==> outcome.Done?
    {
      var works: bool := *;
      works := works || faultless;
      log := log + [OwnerCheck(works)];
      failures := failures + (if works then 0 else 1);
      return if works then Done else Raised;
    }

    method CheckWrite(server: Server) returns (outcome: Outcome)
      modifies this
      ensures ran == old(ran)
      ensures hosts == old(hosts) && issued == old(issued)
      ensures log == old(log) + [WriteCheck(outcome.Done?)] && failures == old(failures)
      ensures faultless ==> outcome.Done?
    {
      var works: bool := *;
      works := works || faultless;
      log := log + [WriteCheck(works)];
      return if works then Done else Raised;
    }

    /**
     `docker run --name`: a taken name fails. Otherwise the container exists under a fresh id, which the
     output may lose, and a failing command may or may not have left a container behind.
     */
    method RunContainer(server: Server, name: string, c: Container) returns (outcome: Outcome, containerId: string)
      modifies this
      ensures ran == old(ran)
      ensures log == old(log) + [DockerRun]
      ensures failures == old(failures) + (if outcome.Raised? then 1 else 0)
      ensures old(issued) <= issued
      ensures name in At(old(hosts), server).containers ==> outcome.Raised? && hosts == old(hosts)
      ensures faultless && name !in At(old(hosts), server).containers ==> outcome.Done? && containerId != ""
      ensures outcome.Done? && containerId != "" ==>
        && containerId !in old(issued) && containerId in issued
        && hosts == Started(old(hosts), server, name, c.(containerId := containerId))
      ensures outcome.Raised? || containerId == "" ==>
        || hosts == old(hosts)
        || exists id :: && id !in old(issued) && id in issued && id != ""
                        && hosts == Started(old(hosts), server, name, c.(containerId := id))
    {
      log := log + [DockerRun];
      var works: bool, creates: bool, prints: bool := *, *, *;
      if name in At(hosts, server).containers || (!creates && !faultless) {
        failures := failures + 1;
        return Raised, "";
      }
      FreshIdExists(issued);
      var id: string :| id != "" && id !in issued;
      issued := issued + {id};
      hosts := Started(hosts, server, name, c.(containerId := id));
      works := works || faultless;
      failures := failures + (if works then 0 else 1);
      return if works then Done else Raised, if prints || faultless then id else "";
    }

    /** `docker rm -f id || docker rm -f name`, checked. */
    method RemoveForce(server: Server, containerId: string, name: string) returns (outcome: Outcome)
      modifies this
      ensures ran == old(ran)
      ensures log == old(log) && issued == old(issued)
      ensures failures == old(failures) + (if outcome.Raised? then 1 else 0)
      ensures OnlyDropped(old(hosts), hosts, server, RemovalTargets(At(old(hosts), server), containerId, name))
      ensures var h := At(old(hosts), server);
              forall n :: n in h.containers && n !in At(hosts, server).containers ==> Addressed(h, containerId, name, n)
      ensures outcome.Done? && containerId != "" ==>
        forall n :: n in At(hosts, server).containers ==> At(hosts, server).containers[n].containerId != containerId
      ensures outcome.Done? ==> NamesWithId(At(hosts, server), containerId) == {} || containerId == ""
      ensures faultless && (forgiving || NamesWithId(At(old(hosts), server), containerId) != {}) ==> outcome.Done?
    {
      var works: bool, removes: bool := *, *;
      var h := At(hosts, server);
      works := works || (faultless && (forgiving || NamesWithId(h, containerId) != {}));
      TargetsAreAddressed(h, containerId, name);
      var targets := RemovalTargets(h, containerId, name);
      if removes || (works && NamesWithId(h, containerId) != {}) {
        hosts := Without(hosts, server, targets);
      }
      assert containerId != "" && NamesWithId(h, containerId) != {} ==> targets == NamesWithId(h, containerId);
      if NamesWithId(At(hosts, server), containerId) == {} {
        NoneWithId(At(hosts, server), containerId);
      }
      failures := failures + (if works then 0 else 1);
      return if works then Done else Raised;
    }

    /** The same command run unchecked by create's error path; `removed` tells whether it took effect. */
    method Compensate(server: Server, containerId: string, name: string) returns (removed: bool)
      modifies this
      ensures log == old(log) && issued == old(issued) && failures == old(failures) && ran == old(ran)
      ensures faultless ==> removed
      ensures hosts == if removed then Without(old(hosts), server, RemovalTargets(At(old(hosts), server), containerId, name))
                       else old(hosts)
      ensures var h := At(old(hosts), server);
              forall n :: n in h.containers ==>
                (n in At(hosts, server).containers <==> !removed || !Addressed(h, containerId, name, n))
    {
      removed := *;
      removed := removed || faultless;
      if removed {
        TargetsAreAddressed(At(hosts, server), containerId, name);
        hosts := Without(hosts, server, RemovalTargets(At(hosts, server), containerId, name));
      }
    }

    /** Writes one Kerberos file. */
    method Install(server: Server, path: string, body: FileBody) returns (outcome: Outcome)
      modifies this
      ensures ran == old(ran)
      ensures log == old(log) && issued == old(issued)
      ensures failures == old(failures) + (if outcome.Raised? then 1 else 0)
      ensures hosts == old(hosts) || hosts == SetFiles(old(hosts), server, At(old(hosts), server).files[path := body])
      ensures outcome.Done? ==> hosts == SetFiles(old(hosts), server, At(old(hosts), server).files[path := body])
      ensures faultless ==> outcome.Done?
    {
      var works: bool, writes: bool := *, *;
      works := works || faultless;
      if works || writes {
        hosts := SetFiles(hosts, server, At(hosts, server).files[path := body]);
      }
      failures := failures + (if works then 0 else 1);
      return if works then Done else Raised;
    }

    /** The refresh cleanup script. */
    method CleanUp(server: Server, p: KerberosPaths) returns (outcome: Outcome)
      modifies this
      ensures ran == old(ran)
      ensures log == old(log) && issued == old(issued)
      ensures failures == old(failures) + (if outcome.Raised? then 1 else 0)
      ensures OnlyCleaned(old(hosts), hosts, server, CleanupTargets(At(old(hosts), server), p))
      ensures outcome.Done? ==>
        At(hosts, server).files == At(old(hosts), server).files - CleanupTargets(At(old(hosts), server), p)
      ensures var h := At(old(hosts), server);
              forall f :: f in h.files ==>
                && (f !in At(hosts, server).files ==> NamedForCleanup(h, p, f))
                && (outcome.Done? && NamedForCleanup(h, p, f) ==> f !in At(hosts, server).files)
      ensures faultless ==> outcome.Done?
    {
      var works: bool, removes: bool := *, *;
      works := works || faultless;
      TargetsAreNamed(At(hosts, server), p);
      if works || removes {
        hosts := SetFiles(hosts, server, At(hosts, server).files - CleanupTargets(At(hosts, server), p));
      }
      failures := failures + (if works then 0 else 1);
      return if works then Done else Raised;
    }
  }
}
