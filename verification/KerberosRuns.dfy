/**
 Kerberos files over serial runs: while every username keeps one AD account, deleting a container never
 removes the files another recorded container uses.
 */
module KerberosRuns {
  import opened Wrappers
  import opened Text
  import opened Schema
  import opened Invariants
  import opened DateText
  import opened Transactions
  import opened Planner
  import opened CreateTransaction
  import opened KerberosPathNames
  import opened KerberosIdentity
  import opened Fleets
  import opened ContainerCreate
  import opened ContainerDelete
  import opened ExpiredCleanup
  import opened SerialRuns
  import opened IdentityRuns

  datatype Account = Account(adUsername: string, objectSid: string, uid: int)

  /** The AD account of each username. */
  type Accounts = map<string, Account>

  /** One AD account per username: names, SIDs and uid numbers are not shared. */
  ghost predicate OneEach(acc: Accounts) {
    && (forall u :: u in acc ==> Free(acc[u].adUsername, '@'))
    && (forall u, v :: u in acc && v in acc && u != v ==>
          && acc[u].adUsername != acc[v].adUsername && acc[u].objectSid != acc[v].objectSid && acc[u].uid != acc[v].uid)
  }

  /** A service of one domain whose Kerberos creates, failed ones included, meet the user's account in AD. */
  ghost predicate Respects(acc: Accounts, domain: Domain, s: Step) {
    match s
    case CreateStep(r, p, _, _, _, _) =>
      && r.server.domain == domain
      && (r.kerberos ==>
            && r.username in acc && p.adUsername == acc[r.username].adUsername && p.uid == acc[r.username].uid
            && (Records(s) ==> s.identity.value.objectSid == acc[r.username].objectSid))
    case DeleteStep(k, _) => k.server.domain == domain
    case CleanupStep(_, _) => true
  }

  function AccountPaths(acc: Accounts, domain: Domain, c: Config, u: string): KerberosPaths
    requires u in acc
  {
    CreatePaths(c.dirs, domain, acc[u].adUsername, acc[u].uid, c.realm)
  }

  /** Every env file on a host is some account's and names that account's keytab and cache. */
  ghost predicate EnvsNamed(acc: Accounts, domain: Domain, c: Config, hosts: Hosts) {
    forall s, f :: f in At(hosts, s).files && At(hosts, s).files[f].RefreshEnv? ==>
      exists u :: u in acc && EnvOf(acc, domain, c, u, f, At(hosts, s).files[f])
  }

  ghost predicate EnvOf(acc: Accounts, domain: Domain, c: Config, u: string, f: string, body: FileBody)
    requires u in acc
  {
    var p := AccountPaths(acc, domain, c, u);
    f == EnvFile(p) && body == RefreshEnv(KeytabFile(p), CcacheFile(p))
  }

  /** A stored identity is the account of its user and carries that user's uid. */
  ghost predicate IdentityNamed(acc: Accounts, db: Tables, u: string)
    requires u in db.identities
  {
    var row := db.identities[u];
    && u in acc && row.ad.username == u
    && row.ad.adUsername == acc[u].adUsername && row.ad.objectSid == acc[u].objectSid && row.ad.uidNumber == acc[u].uid
    && row.userId.Some? && row.userId.value in db.users
    && db.users[row.userId.value].username == u && db.users[row.userId.value].uid == acc[u].uid
  }

  ghost predicate IdentitiesNamed(acc: Accounts, db: Tables) {
    forall u :: u in db.identities ==> IdentityNamed(acc, db, u)
  }

  /** A recorded Kerberos container runs as its user's account and has that account's three files on its host. */
  ghost predicate Served(acc: Accounts, domain: Domain, c: Config, h: Host, x: Container) {
    x.recorded && x.adUsername.Some? ==>
      && x.username in acc && x.adUsername.value == acc[x.username].adUsername && x.uid == acc[x.username].uid
      && HasFiles(h, AccountPaths(acc, domain, c, x.username))
  }

  ghost predicate AllServed(acc: Accounts, domain: Domain, c: Config, hosts: Hosts) {
    forall s, n :: n in At(hosts, s).containers ==> Served(acc, domain, c, At(hosts, s), At(hosts, s).containers[n])
  }

  ghost predicate KerberosSound(acc: Accounts, domain: Domain, c: Config, w: World) {
    && Sound(w) && NoOrphans(w.db, w.hosts)
    && EnvsNamed(acc, domain, c, w.hosts) && IdentitiesNamed(acc, w.db) && AllServed(acc, domain, c, w.hosts)
  }

  // ---------- Creates: files ----------

  lemma TheEnvFile(p: KerberosPaths, f: string)
    requires f in IdentityFiles(p) && IdentityFiles(p)[f].RefreshEnv?
    ensures f == EnvFile(p) && IdentityFiles(p)[f] == RefreshEnv(KeytabFile(p), CcacheFile(p))
  {
    IdentityFilesAre(p);
  }

  lemma InstallsNamed(acc: Accounts, domain: Domain, c: Config, s: Step, before: Hosts, after: Hosts)
    requires s.CreateStep? && Respects(acc, domain, s) && EnvsNamed(acc, domain, c, before)
    requires OnlyInstalled(before, after, {c.adHost, s.r.server}, FilesOf(c, s.r, s.p))
    ensures EnvsNamed(acc, domain, c, after)
  {
    var paths := PlannedPaths(c, s.r, s.p);
    forall v, f | f in At(after, v).files && At(after, v).files[f].RefreshEnv?
      ensures exists u :: u in acc && EnvOf(acc, domain, c, u, f, At(after, v).files[f])
    {
      if f in At(before, v).files && At(after, v).files[f] == At(before, v).files[f] {
        var u :| u in acc && EnvOf(acc, domain, c, u, f, At(before, v).files[f]);
      } else {
        assert f in FilesOf(c, s.r, s.p);
        assert s.r.kerberos && paths == AccountPaths(acc, domain, c, s.r.username);
        TheEnvFile(paths, f);
        assert EnvOf(acc, domain, c, s.r.username, f, At(after, v).files[f]);
      }
    }
  }

  lemma SameFilesNamed(acc: Accounts, domain: Domain, c: Config, before: Hosts, after: Hosts)
    requires EnvsNamed(acc, domain, c, before)
    requires forall v, f :: f in At(after, v).files ==> f in At(before, v).files && At(after, v).files[f] == At(before, v).files[f]
    ensures EnvsNamed(acc, domain, c, after)
  {
    forall v, f | f in At(after, v).files && At(after, v).files[f].RefreshEnv?
      ensures exists u :: u in acc && EnvOf(acc, domain, c, u, f, At(after, v).files[f])
    {
      assert f in At(before, v).files && At(before, v).files[f].RefreshEnv?;
    }
  }

  lemma UndoneKeepsFiles(before: Hosts, after: Hosts, issued: set<string>, s: Step)
    requires s.CreateStep? && Undone(before, after, issued, s.r, s.p, s.result)
    ensures forall v :: At(after, v).files == At(before, v).files
  {
    forall v ensures At(after, v).files == At(before, v).files {
      if v != s.r.server && (s.result.Created? || s.result.Failed?) {
        assert At(after, v) == At(before, v);
      }
    }
  }

  lemma CreateKeepsServed(acc: Accounts, domain: Domain, c: Config, w: World, s: Step, w': World)
    requires s.CreateStep? && Takes(c, w, s, w') && Compensated(s) && Respects(acc, domain, s)
    requires EnvsNamed(acc, domain, c, w.hosts) && AllServed(acc, domain, c, w.hosts)
    ensures EnvsNamed(acc, domain, c, w'.hosts) && AllServed(acc, domain, c, w'.hosts)
  {
    hide PlannedFrom, CreateTxn, EnvsNamed, Undone, IdentityOf;
    CreateContainers(c, w, s, w');
    var mid :|
      && OnlyInstalled(w.hosts, mid, {c.adHost, s.r.server}, FilesOf(c, s.r, s.p))
      && (s.result.Created? || s.result.Failed? ==> Prepared(c, s.r, s.p, s.identity, w.db, mid))
      && Undone(mid, w'.hosts, w.issued, s.r, s.p, s.result);
    InstallsNamed(acc, domain, c, s, w.hosts, mid);
    UndoneKeepsFiles(mid, w'.hosts, w.issued, s);
    SameFilesNamed(acc, domain, c, mid, w'.hosts);
    forall v, n | n in At(w'.hosts, v).containers
      ensures Served(acc, domain, c, At(w'.hosts, v), At(w'.hosts, v).containers[n])
    {
      assert Accounted(w.hosts, w'.hosts, s, v, n);
      assert forall f :: f in At(w.hosts, v).files ==> f in At(mid, v).files;
      if n in At(w.hosts, v).containers && At(w.hosts, v).containers[n] == At(w'.hosts, v).containers[n] {
        assert Served(acc, domain, c, At(w.hosts, v), At(w.hosts, v).containers[n]);
      }
    }
  }

  // ---------- Creates: identities ----------

  lemma GrownNamed(acc: Accounts, db: Tables, db': Tables)
    requires IdentitiesNamed(acc, db) && Grows(db, db') && db'.identities == db.identities
    ensures IdentitiesNamed(acc, db')
  {
    forall u | u in db'.identities ensures IdentityNamed(acc, db', u) {
      assert IdentityNamed(acc, db, u);
      var owner := db.identities[u].userId.value;
      assert owner in db.users && owner in db'.users;
    }
  }

  lemma NamedApart(acc: Accounts, db: Tables, record: AdIdentity)
    requires OneEach(acc) && IdentitiesNamed(acc, db) && record.username in acc
    requires record.adUsername == acc[record.username].adUsername && record.objectSid == acc[record.username].objectSid
    ensures RowsPoint(db) && Apart(db, record)
  {
    assert forall u :: u in db.identities ==> IdentityNamed(acc, db, u);
  }

  lemma OwnRowNamed(acc: Accounts, db: Tables, db': Tables, record: AdIdentity)
    requires IdentitiesNamed(acc, db) && Grows(db, db') && WritesOwnRow(db, db', record) && record.username in acc
    requires record.adUsername == acc[record.username].adUsername && record.objectSid == acc[record.username].objectSid
    requires record.uidNumber == acc[record.username].uid
    ensures IdentitiesNamed(acc, db')
  {
    GrownNamed(acc, db, db'.(identities := db.identities));
    forall u | u in db'.identities ensures IdentityNamed(acc, db', u) {
      if u != record.username {
        assert u in db.identities && IdentityNamed(acc, db'.(identities := db.identities), u);
      }
    }
  }

  lemma StepKeepsNamed(acc: Accounts, domain: Domain, c: Config, w: World, s: Step, w': World)
    requires Takes(c, w, s, w') && Respects(acc, domain, s) && OneEach(acc) && Sound(w) && IdentitiesNamed(acc, w.db)
    ensures IdentitiesNamed(acc, w'.db)
  {
    hide PlannedFrom, CreateTxn, Undone, OnlyInstalled, Valid, IdentitiesNamed, AgreesWithStored, OneEach;
    if s.CreateStep? && s.result.Created? && !s.r.noDbRecord {
      if Records(s) {
        StartedWasValidated(c, w, s, w');
        NamedApart(acc, w.db, s.identity.value);
      }
      CommittedIdentities(w, w', s);
      if Records(s) {
        OwnRowNamed(acc, w.db, w'.db, s.identity.value);
      } else {
        GrownNamed(acc, w.db, w'.db);
      }
    } else {
      SameUsersNamed(acc, w.db, w'.db);
    }
  }

  // ---------- Deletes ----------

  /** Delete finds the user's own identity, so it recomputes the files of the user's account. */
  lemma CleanupIsOwn(acc: Accounts, domain: Domain, c: Config, db: Tables, k: ContainerRecord, u: string)
    requires IdentitiesNamed(acc, db) && UniqueUsernames(db) && ActiveRecord(db, k) && k.server.domain == domain
    requires u in IdentityKeys(Released(db, k.row), k.username)
    ensures u == k.username && u in db.identities && u in acc && k.uid == acc[u].uid
    ensures var own := AccountPaths(acc, domain, c, u);
            var paths := RecomputedPaths(c.dirs, k, db.identities[u].ad, c.realm);
            EnvFile(paths) == EnvFile(own) && KeytabFile(paths) == KeytabFile(own) && CcacheFile(paths) == CcacheFile(own)
  {
    var after := Released(db, k.row);
    assert after.users == db.users && after.identities == db.identities;
    SubqueryReadsUsers(after, db, k.username);
    assert IdentityNamed(acc, db, u);
    UserIdSubqueryFinds(db, k.username);
    var owner, holder := db.containers[k.row].userId.value, db.identities[u].userId.value;
    assert db.users[owner].username == k.username == db.users[holder].username;
    assert owner == holder;
    var own := AccountPaths(acc, domain, c, u);
    var paths := RecomputedPaths(c.dirs, k, db.identities[u].ad, c.realm);
    FilesDisjointExactly(paths, own);
  }

  /** Whatever env file is there, the clean-up script removes only the account's own files. */
  lemma TargetsAreOwn(acc: Accounts, domain: Domain, c: Config, hosts: Hosts, server: Server, p: KerberosPaths,
      u: string)
    requires OneEach(acc) && u in acc && EnvsNamed(acc, domain, c, hosts)
    requires var own := AccountPaths(acc, domain, c, u);
             EnvFile(p) == EnvFile(own) && KeytabFile(p) == KeytabFile(own) && CcacheFile(p) == CcacheFile(own)
    ensures CleanupTargets(At(hosts, server), p) <= Files(AccountPaths(acc, domain, c, u))
  {
    var h := At(hosts, server);
    if EnvFile(p) in h.files && h.files[EnvFile(p)].RefreshEnv? {
      var v :| v in acc && EnvOf(acc, domain, c, v, EnvFile(p), h.files[EnvFile(p)]);
      FilesDisjointExactly(AccountPaths(acc, domain, c, u), AccountPaths(acc, domain, c, v));
      assert v == u;
    }
  }

  /** Cleaning up after a user's last container on a server leaves every other container served. */
  lemma CleaningKeepsServed(acc: Accounts, domain: Domain, c: Config, w: World, k: ContainerRecord, mid: Hosts,
      after: Hosts)
    requires OneEach(acc) && KerberosSound(acc, domain, c, w) && ActiveRecord(w.db, k) && k.server.domain == domain
    requires ContainersShrink(w.hosts, mid) && EnvsNamed(acc, domain, c, mid) && AllServed(acc, domain, c, mid)
    requires CleanUpEffect(c.dirs, c.realm, Released(w.db, k.row), k, mid, after) && (after != mid ==> Gone(mid, k))
    ensures AllServed(acc, domain, c, after)
  {
    hide EnvsNamed, IdentitiesNamed, Sound, Valid;
    if after != mid {
      var db := Released(w.db, k.row);
      var u :| u in IdentityKeys(db, k.username)
            && OnlyCleaned(mid, after, k.server,
                           CleanupTargets(At(mid, k.server), RecomputedPaths(c.dirs, k, db.identities[u].ad, c.realm)));
      assert UniqueUsernames(w.db) by { SoundHas(w); }
      CleanupIsOwn(acc, domain, c, w.db, k, u);
      TargetsAreOwn(acc, domain, c, mid, k.server, RecomputedPaths(c.dirs, k, db.identities[u].ad, c.realm), u);
      forall v, n | n in At(after, v).containers ensures Served(acc, domain, c, At(after, v), At(after, v).containers[n]) {
        assert At(after, v).containers == At(mid, v).containers;
        assert Served(acc, domain, c, At(mid, v), At(mid, v).containers[n]);
        if v == k.server {
          OthersKeepTheirFiles(acc, domain, c, w, k, mid, after, n, u);
        } else {
          assert At(after, v) == At(mid, v);
        }
      }
    }
  }

  lemma SoundHas(w: World)
    requires Sound(w)
    ensures UniqueUsernames(w.db)
    ensures forall row :: row in w.db.containers ==> w.db.containers[row].containerId != ""
  {
  }

  lemma OthersKeepTheirFiles(acc: Accounts, domain: Domain, c: Config, w: World, k: ContainerRecord,
      mid: Hosts, after: Hosts, n: string, u: string)
    requires OneEach(acc) && Sound(w) && NoOrphans(w.db, w.hosts) && ActiveRecord(w.db, k)
    requires ContainersShrink(w.hosts, mid) && Gone(mid, k) && LastOnServer(Released(w.db, k.row), k)
    requires u == k.username && u in acc
    requires OnlyCleanedWithin(mid, after, k.server, Files(AccountPaths(acc, domain, c, u)))
    requires n in At(mid, k.server).containers
    requires Served(acc, domain, c, At(mid, k.server), At(mid, k.server).containers[n])
    ensures Served(acc, domain, c, At(after, k.server), At(mid, k.server).containers[n])
  {
    hide Valid;
    var x := At(mid, k.server).containers[n];
    if x.recorded && x.adUsername.Some? {
      assert n in At(w.hosts, k.server).containers && At(w.hosts, k.server).containers[n] == x;
      var row :| Backs(w.db, row, k.server, n, x);
      StillOnServer(mid, k, k.server, n);
      assert row != k.row;
      ReleaseBacks(w.db, k.row, row, k.server, n, x);
      assert x.username == u ==> row in SameUserOnServer(Released(w.db, k.row), k);
      assert x.username != u;
      FilesDisjointExactly(AccountPaths(acc, domain, c, x.username), AccountPaths(acc, domain, c, u));
    }
  }

  ghost predicate OnlyCleanedWithin(before: Hosts, after: Hosts, server: Server, files: set<string>) {
    forall f :: f in At(before, server).files && f !in files ==> f in At(after, server).files
  }

  lemma DeleteKeepsServed(acc: Accounts, domain: Domain, c: Config, w: World, s: Step, w': World)
    requires s.DeleteStep? && Takes(c, w, s, w') && Respects(acc, domain, s)
    requires OneEach(acc) && KerberosSound(acc, domain, c, w)
    ensures EnvsNamed(acc, domain, c, w'.hosts) && AllServed(acc, domain, c, w'.hosts)
  {
    hide EnvsNamed, IdentitiesNamed, Sound, NoOrphans;
    var k := s.k;
    var mid :|
      && OnlyDropped(w.hosts, mid, k.server, RemovalTargets(At(w.hosts, k.server), k.containerId, k.name))
      && CleanUpEffect(c.dirs, c.realm, Released(w.db, k.row), k, mid, w'.hosts)
      && (w'.hosts != mid ==> Gone(mid, k));
    DroppedKeepsServed(acc, domain, c, w.hosts, mid, k.server, RemovalTargets(At(w.hosts, k.server), k.containerId, k.name));
    CleaningKeepsServed(acc, domain, c, w, k, mid, w'.hosts);
    CleaningRemovesOnly(c.dirs, c.realm, Released(w.db, k.row), k, mid, w'.hosts);
    SameFilesNamed(acc, domain, c, mid, w'.hosts);
  }

  lemma CleaningRemovesOnly(dirs: Directories, realm: string, db: Tables, k: ContainerRecord, before: Hosts,
      after: Hosts)
    requires CleanUpEffect(dirs, realm, db, k, before, after)
    ensures forall v, f :: f in At(after, v).files ==> f in At(before, v).files && At(after, v).files[f] == At(before, v).files[f]
  {
    forall v, f | f in At(after, v).files ensures f in At(before, v).files && At(after, v).files[f] == At(before, v).files[f] {
      assert v != k.server ==> At(after, v) == At(before, v);
    }
  }

  /** Dropping containers touches no file. */
  lemma DroppedKeepsServed(acc: Accounts, domain: Domain, c: Config, before: Hosts, after: Hosts,
      server: Server, names: set<string>)
    requires OnlyDropped(before, after, server, names) && EnvsNamed(acc, domain, c, before) && AllServed(acc, domain, c, before)
    ensures ContainersShrink(before, after) && EnvsNamed(acc, domain, c, after) && AllServed(acc, domain, c, after)
  {
    hide EnvsNamed;
    DroppedShrinks(before, after, server, names);
    SameFilesNamed(acc, domain, c, before, after);
    forall v, n | n in At(after, v).containers ensures Served(acc, domain, c, At(after, v), At(after, v).containers[n]) {
      assert Served(acc, domain, c, At(before, v), At(before, v).containers[n]);
    }
  }

  // ---------- Every run ----------

  lemma SameUsersNamed(acc: Accounts, db: Tables, db': Tables)
    requires IdentitiesNamed(acc, db) && db'.identities == db.identities && db'.users == db.users
    ensures IdentitiesNamed(acc, db')
  {
    forall u | u in db'.identities ensures IdentityNamed(acc, db', u) {
      assert IdentityNamed(acc, db, u);
    }
  }

  lemma StepKeepsKerberos(acc: Accounts, domain: Domain, c: Config, w: World, s: Step, w': World)
    requires Takes(c, w, s, w') && Compensated(s) && Respects(acc, domain, s) && OneEach(acc) && KerberosSound(acc, domain, c, w)
    ensures KerberosSound(acc, domain, c, w')
  {
    StepKeepsNoOrphans(c, w, s, w');
    StepKeepsNamed(acc, domain, c, w, s, w');
    hide Sound, NoOrphans, IdentitiesNamed, PlannedFrom, CreateEffect, RemoteEffect, OnlyDropped;
    if s.CreateStep? {
      CreateKeepsServed(acc, domain, c, w, s, w');
    } else if s.DeleteStep? {
      DeleteKeepsServed(acc, domain, c, w, s, w');
    } else {
      DroppedKeepsServed(acc, domain, c, w.hosts, w'.hosts, s.k.server, RemovalTargets(At(w.hosts, s.k.server), s.k.containerId, s.k.name));
    }
  }

  ghost predicate RespectfulRun(acc: Accounts, domain: Domain, c: Config, ws: seq<World>, ss: seq<Step>) {
    && IsRun(c, ws, ss) && OneEach(acc) && KerberosSound(acc, domain, c, ws[0])
    && forall k :: 0 <= k < |ss| ==> Compensated(ss[k]) && Respects(acc, domain, ss[k])
  }

  lemma {:induction false} RunsKeepKerberos(acc: Accounts, domain: Domain, c: Config, ws: seq<World>,
      ss: seq<Step>, i: nat)
    requires RespectfulRun(acc, domain, c, ws, ss) && i < |ws|
    ensures KerberosSound(acc, domain, c, ws[i])
    decreases i
  {
    hide KerberosSound, Takes, Respects, OneEach;
    if i > 0 {
      RunsKeepKerberos(acc, domain, c, ws, ss, i - 1);
      assert Takes(c, ws[i - 1], ss[i - 1], ws[i - 1 + 1]);
      StepKeepsKerberos(acc, domain, c, ws[i - 1], ss[i - 1], ws[i]);
    }
  }

  /**
   While every username keeps one AD account, at every quiescent point of every run, faults anywhere: a
   recorded Kerberos container still on a host has its keytab, refresh env and credential cache there,
   and its active row, its user, its uid and its AD account agree.
   */
  lemma FilesAreNeverTakenAway(acc: Accounts, domain: Domain, c: Config, ws: seq<World>, ss: seq<Step>, i: nat,
      server: Server, name: string)
    requires RespectfulRun(acc, domain, c, ws, ss) && i < |ws|
    requires name in At(ws[i].hosts, server).containers
    requires var x := At(ws[i].hosts, server).containers[name]; x.recorded && x.adUsername.Some?
    ensures var h := At(ws[i].hosts, server);
            var x := h.containers[name];
            && HasFiles(h, CreatePaths(c.dirs, domain, x.adUsername.value, x.uid, c.realm))
            && exists row :: Backs(ws[i].db, row, server, name, x)
  {
    hide Takes, Sound;
    RunsKeepKerberos(acc, domain, c, ws, ss, i);
    var x := At(ws[i].hosts, server).containers[name];
    assert Served(acc, domain, c, At(ws[i].hosts, server), x);
  }

  // ---------- Why one account per username ----------

  /**
   A stale env file decides: when the env of account `p` was written for another uid, cleaning up `p`
   removes the credential cache of `q` if and only if that other uid is the one of `q`.
   */
  lemma StaleEnvHitsExactly(h: Host, p: KerberosPaths, stale: KerberosPaths, q: KerberosPaths)
    requires p.keytabDir == q.keytabDir == stale.keytabDir && p.envDir == q.envDir == stale.envDir
    requires p.ccacheBase == q.ccacheBase == stale.ccacheBase
    requires stale.adUsername == p.adUsername != q.adUsername && p.uid != q.uid
    requires EnvFile(p) in h.files && h.files[EnvFile(p)] == RefreshEnv(KeytabFile(stale), CcacheFile(stale))
    ensures CcacheFile(q) in CleanupTargets(h, p) <==> stale.uid == q.uid
    ensures KeytabFile(q) !in CleanupTargets(h, p) && EnvFile(q) !in CleanupTargets(h, p)
  {
    FilesDisjointExactly(p, q);
    FilesDisjointExactly(stale, q);
    KindsDiffer(q, p);
    KindsDiffer(p, q);
    KindsDiffer(stale, q);
    KindsDiffer(q, stale);
  }

  /** A fresh installation satisfies every assumption, so the runs include all runs from one. */
  lemma FreshInstallation(o: Owners, acc: Accounts, domain: Domain, c: Config)
    ensures var empty := World(Tables({}, map[], map[], {}, map[], map[], map[]), 1, map[], {});
            KerberosSound(acc, domain, c, empty) && Sound(empty) && IdentitiesOwned(o, empty.db)
  {
    assert forall s :: At(map[], s) == Host(map[], map[]);
  }
}
