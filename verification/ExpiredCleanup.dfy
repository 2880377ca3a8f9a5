/** `ExpiredCleanupService`: each expired row of each domain is released in a transaction of its own. */
module ExpiredCleanup {
  import opened Wrappers
  import opened Schema
  import opened Calendar
  import opened DateText
  import opened Repositories
  import opened Transactions
  import opened Fleets
  import opened ContainerDelete
  import opened ContainerExtend

  /** Empty texts are absent filters. */
  datatype CleanupRequest = CleanupRequest(today: string, username: string, containerName: string, apply: bool)

  /** The rows `expired_containers` returns, filtered. */
  predicate Listed(db: Tables, q: CleanupRequest, row: int) {
    && Active(db, row) && HasOwner(db, row)
    && ParseDate(q.today).Some? && Before(db.containers[row].expires, ParseDate(q.today).value)
    && q.username in {"", Owner(db, row).username}
    && q.containerName in {"", db.containers[row].name}
  }

  function ListedRows(db: Tables, q: CleanupRequest): set<int> {
    set row | row in db.containers && Listed(db, q, row)
  }

  /** The expiry lies before the day the clean-up runs on. */
  ghost predicate Past(expires: Date, q: CleanupRequest) {
    ParseDate(q.today).Some? && Before(expires, ParseDate(q.today).value)
  }

  /** An owner with the username asked for, if one is. */
  ghost predicate OwnedAsAsked(db: Tables, q: CleanupRequest, row: ContainerRow) {
    exists owner :: owner in db.users && row.userId == Some(owner) && (q.username != "" ==> db.users[owner].username == q.username)
  }

  /** An active container with an owner, past its expiry and with the names asked for. */
  ghost predicate Expired(db: Tables, q: CleanupRequest, row: int) {
    && row in db.containers && db.containers[row].existing
    && Past(db.containers[row].expires, q) && OwnedAsAsked(db, q, db.containers[row])
    && (q.containerName != "" ==> db.containers[row].name == q.containerName)
  }

  ghost function ExpiredRows(db: Tables, q: CleanupRequest): set<int> {
    set row | row in db.containers && Expired(db, q, row)
  }

  lemma ListedAreExpired(db: Tables, q: CleanupRequest)
    ensures ListedRows(db, q) == ExpiredRows(db, q)
  {
    forall row | row in ListedRows(db, q) ensures Expired(db, q, row) {
      var owner := db.containers[row].userId.value;
      assert owner in db.users && db.containers[row].userId == Some(owner);
    }
    forall row | Expired(db, q, row) ensures row in ListedRows(db, q) {
      assert db.containers[row].userId.value in db.users;
    }
  }

  /** The tables once a set of container rows is released. */
  ghost function AllReleased(db: Tables, rows: set<int>): Tables {
    db.(ports := map p | p in db.ports && !(db.ports[p].owner.Some? && db.ports[p].owner.value in rows) :: db.ports[p],
        containers := map c | c in db.containers ::
          if c in rows then db.containers[c].(existing := false) else db.containers[c])
  }

  lemma NoneReleased(db: Tables)
    ensures AllReleased(db, {}) == db
  {
  }

  lemma OneMoreReleased(db: Tables, rows: set<int>, row: int)
    ensures Released(AllReleased(db, rows), row) == AllReleased(db, rows + {row})
  {
    var one, more := Released(AllReleased(db, rows), row), AllReleased(db, rows + {row});
    assert one.ports == more.ports;
    assert one.containers == more.containers;
  }

  // ---------- One row ----------

  /** Containers may only have gone. */
  ghost predicate Shrinks(before: Hosts, after: Hosts) {
    forall s :: && At(after, s).files == At(before, s).files
                && forall n :: n in At(after, s).containers ==>
                     n in At(before, s).containers && At(after, s).containers[n] == At(before, s).containers[n]
  }

  lemma NothingShrinks(hosts: Hosts)
    ensures Shrinks(hosts, hosts)
  {
  }

  lemma DroppedShrinks(before: Hosts, after: Hosts, server: Server, names: set<string>)
    requires OnlyDropped(before, after, server, names)
    ensures Shrinks(before, after)
  {
    forall s ensures At(after, s).files == At(before, s).files
                  && forall n :: n in At(after, s).containers ==>
                       n in At(before, s).containers && At(after, s).containers[n] == At(before, s).containers[n]
    {
      assert s != server ==> At(after, s) == At(before, s);
    }
  }

  lemma ShrinksThen(a: Hosts, b: Hosts, c: Hosts)
    requires Shrinks(a, b) && Shrinks(b, c)
    ensures Shrinks(a, c)
    ensures forall k :: Gone(b, k) ==> Gone(c, k)
  {
    forall s ensures At(c, s).files == At(a, s).files
                  && forall n :: n in At(c, s).containers ==>
                       n in At(a, s).containers && At(c, s).containers[n] == At(a, s).containers[n]
    {
      assert At(c, s).files == At(b, s).files && At(b, s).files == At(a, s).files;
    }
    forall k | Gone(b, k) ensures Gone(c, k) {
      forall n | n in At(c, k.server).containers ensures k.containerId != "" ==> At(c, k.server).containers[n].containerId != k.containerId {
        assert n in At(b, k.server).containers;
        assert k.containerId != "" ==> n !in NamesWithId(At(b, k.server), k.containerId);
      }
    }
  }

  /** What one row's transaction may do: all of it, or nothing to the tables. */
  ghost predicate RowEffect(k: ContainerRecord, remote: bool, released: bool, db: Tables, hosts: Hosts,
      db': Tables, hosts': Hosts) {
    && db' == (if released then Released(db, k.row) else db)
    && (if remote then OnlyDropped(hosts, hosts', k.server, RemovalTargets(At(hosts, k.server), k.containerId, k.name))
        else hosts' == hosts)
    && (released && remote ==> Gone(hosts', k))
  }

  /** Nothing a fault-free removal could complain about. */
  ghost predicate RemovalWorks(remote: bool, faultless: bool, forgiving: bool, hosts: Hosts, k: ContainerRecord) {
    remote ==> faultless && Removable(forgiving, hosts, k)
  }

  method CleanRow(repo: Repository, fleet: Fleet, remote: bool, k: ContainerRecord) returns (outcome: Outcome)
    requires !repo.inTransaction
    modifies repo, fleet
    ensures outcome.Done? ==> fleet.failures == old(fleet.failures)
    ensures fleet.log == old(fleet.log) && fleet.issued == old(fleet.issued) && repo.autoIncrement >= old(repo.autoIncrement)
    ensures outcome.Done? || repo.faultless ==> !repo.inTransaction
    ensures RowEffect(k, remote, outcome.Done?, old(repo.committed), old(fleet.hosts), repo.committed, fleet.hosts)
    ensures repo.faultless && RemovalWorks(remote, fleet.faultless, fleet.forgiving, old(fleet.hosts), k) ==> outcome.Done?
  {
    hide Exec, ExecAll, Released, OnlyDropped;
    NothingDropped(fleet.hosts, k);
    :- repo.Begin();
    outcome := ReleaseRow(repo, fleet, remote, k);
    if outcome.Done? {
      outcome := repo.Commit();
    }
    if outcome.Raised? {
      var _ := repo.Rollback();
    }
  }

  lemma NothingDropped(hosts: Hosts, k: ContainerRecord)
    ensures OnlyDropped(hosts, hosts, k.server, RemovalTargets(At(hosts, k.server), k.containerId, k.name))
  {
  }

  method ReleaseRow(repo: Repository, fleet: Fleet, remote: bool, k: ContainerRecord) returns (outcome: Outcome)
    requires repo.inTransaction
    modifies repo, fleet
    ensures outcome.Done? ==> fleet.failures == old(fleet.failures)
    ensures repo.inTransaction && repo.committed == old(repo.committed) && repo.autoIncrement >= old(repo.autoIncrement)
    ensures fleet.log == old(fleet.log) && fleet.issued == old(fleet.issued)
    ensures outcome.Done? ==> repo.working == Released(old(repo.working), k.row)
    ensures if remote then OnlyDropped(old(fleet.hosts), fleet.hosts, k.server,
                                       RemovalTargets(At(old(fleet.hosts), k.server), k.containerId, k.name))
            else fleet.hosts == old(fleet.hosts)
    ensures outcome.Done? && remote ==> Gone(fleet.hosts, k)
    ensures repo.faultless && RemovalWorks(remote, fleet.faultless, fleet.forgiving, old(fleet.hosts), k) ==> outcome.Done?
  {
    hide Exec, ExecAll, Released, OnlyDropped;
    ghost var start, auto := repo.working, repo.autoIncrement;
    NothingDropped(fleet.hosts, k);
    ExecAllNone(start, auto);
    ReleaseIs(start, k.row, auto);
    assert [] + [DeletePorts(k.row)] == [DeletePorts(k.row)];
    assert [DeletePorts(k.row)] + [MarkDeleted(k.row)] == [DeletePorts(k.row), MarkDeleted(k.row)];
    RefusedPrefix(start, [DeletePorts(k.row)], [DeletePorts(k.row), MarkDeleted(k.row)], auto);
    var rows;
    outcome, rows := Issue(repo, DeletePorts(k.row), start, auto, []);
    :- outcome;
    outcome, rows := Issue(repo, MarkDeleted(k.row), start, auto, [DeletePorts(k.row)]);
    :- outcome;
    if remote {
      outcome := fleet.RemoveForce(k.server, k.containerId, k.name);
    }
  }

  // ---------- One domain ----------

  /** Rows in some order, without repetition. */
  ghost predicate Enumerates(rows: seq<int>, s: set<int>) {
    (forall i, j :: 0 <= i < j < |rows| ==> rows[i] != rows[j]) && (forall row :: row in rows <==> row in s)
  }

  lemma EnumeratedMember(rows: seq<int>, s: set<int>, k: nat)
    requires Enumerates(rows, s) && k < |rows|
    ensures rows[k] in s
  {
    assert rows[k] in rows;
  }

  lemma ElementsSnoc(rows: seq<int>, k: nat)
    requires k < |rows|
    ensures Elements(rows[..k + 1]) == Elements(rows[..k]) + {rows[k]}
  {
    assert rows[..k + 1] == rows[..k] + [rows[k]];
  }

  lemma ExpiredIsActive(db: Tables, q: CleanupRequest, row: int)
    requires row in ExpiredRows(db, q)
    ensures Active(db, row) && HasOwner(db, row)
  {
  }

  method ListExpired(repo: Repository, q: CleanupRequest) returns (outcome: Outcome, rows: seq<int>,
      records: seq<ContainerRecord>)
    ensures |records| == |rows|
    ensures outcome.Done? ==>
      && Enumerates(rows, ExpiredRows(repo.View(), q))
      && forall i :: 0 <= i < |rows| ==> rows[i] in ExpiredRows(repo.View(), q) && records[i] == RecordOf(repo.View(), rows[i])
    ensures repo.faultless ==> outcome.Done?
  {
    rows, records := [], [];
    var db;
    outcome, db := repo.Read();
    if outcome.Raised? {
      return;
    }
    ListedAreExpired(db, q);
    var remaining := ListedRows(db, q);
    while remaining != {}
      invariant remaining <= ListedRows(db, q) == ExpiredRows(db, q) && |records| == |rows|
      invariant Enumerates(rows, ExpiredRows(db, q) - remaining)
      invariant forall i :: 0 <= i < |rows| ==> rows[i] in ExpiredRows(db, q) && records[i] == RecordOf(db, rows[i])
      decreases remaining
    {
      var row :| row in remaining;
      remaining := remaining - {row};
      rows, records := rows + [row], records + [RecordOf(db, row)];
    }
  }

  /** What one row's transaction does to both stores, started on a record that still stands. */
  ghost predicate RowStep(k: ContainerRecord, remote: bool, released: bool, w: World, w': World) {
    && ActiveRecord(w.db, k) && w'.issued == w.issued && w'.auto >= w.auto
    && RowEffect(k, remote, released, w.db, w.hosts, w'.db, w'.hosts)
  }

  /** The rows were read once: a later one is untouched by the release of earlier ones. */
  lemma LaterRecordStands(db: Tables, rows: seq<int>, done: nat, j: nat, k: ContainerRecord)
    requires done <= j < |rows| && (forall a, b :: 0 <= a < b < |rows| ==> rows[a] != rows[b])
    requires ActiveRecord(db, k) && k.row == rows[j]
    ensures ActiveRecord(AllReleased(db, Elements(rows[..done])), k)
  {
    forall row | row in rows[..done] ensures row != rows[j] {
      var i :| 0 <= i < done && rows[i] == row;
    }
    assert rows[j] !in Elements(rows[..done]);
  }

  lemma EnumeratedElements(rows: seq<int>, s: set<int>)
    requires Enumerates(rows, s)
    ensures Elements(rows) == s
  {
    forall row ensures row in Elements(rows) <==> row in s {
      assert row in rows <==> row in s;
    }
  }

  /**
   One domain's rows, one transaction each. Whatever fails, exactly the first `done` of them are released:
   a fault leaves every later row and its ports as they were. The worlds between the transactions, the one
   that raised included, are `ws`.
   */
  method CleanDomain(repo: Repository, fleet: Fleet, remote: bool, q: CleanupRequest)
    returns (outcome: Outcome, rows: seq<int>, done: nat, attempted: nat, records: seq<ContainerRecord>, ghost ws: seq<World>)
    requires !repo.inTransaction
    modifies repo, fleet
    ensures outcome.Done? ==> fleet.failures == old(fleet.failures)
    ensures fleet.log == old(fleet.log) && fleet.issued == old(fleet.issued)
    ensures outcome.Done? ==> !repo.inTransaction
    ensures done <= |rows| && (outcome.Done? && q.apply ==> done == |rows|) && (!q.apply ==> done == 0)
    ensures rows == [] || Enumerates(rows, ExpiredRows(old(repo.committed), q))
    ensures outcome.Done? ==> Enumerates(rows, ExpiredRows(old(repo.committed), q))
    ensures repo.committed == AllReleased(old(repo.committed), Elements(rows[..done]))
    ensures Shrinks(old(fleet.hosts), fleet.hosts) && (!remote ==> fleet.hosts == old(fleet.hosts))
    ensures remote ==> forall i :: 0 <= i < done ==>
      rows[i] in ExpiredRows(old(repo.committed), q) && Gone(fleet.hosts, RecordOf(old(repo.committed), rows[i]))
    ensures repo.faultless && (remote ==> fleet.faultless && fleet.forgiving) ==> outcome.Done?
    ensures |records| == |rows| && (forall i :: 0 <= i < |rows| ==> records[i].row == rows[i])
    ensures done <= attempted <= |rows| && attempted <= done + 1 && (outcome.Done? ==> attempted == done)
    ensures |ws| == attempted + 1 && ws[0] == old(WorldOf(repo, fleet)) && ws[attempted] == WorldOf(repo, fleet)
    ensures forall i :: 0 <= i < attempted ==> RowStep(records[i], remote, i < done, ws[i], ws[i + 1])
  {
    hide AllReleased, Released, Expired, OnlyDropped, Shrinks, Gone;
    ws, attempted := [WorldOf(repo, fleet)], 0;
    ghost var hosts := fleet.hosts;
    NothingShrinks(hosts);
    ghost var before := repo.committed;
    done := 0;
    NoneReleased(before);
    assert Elements<int>([]) == {};
    outcome, rows, records := ListExpired(repo, q);
    if outcome.Raised? {
      rows, records := [], [];
      return;
    }
    assert rows[..0] == [];
    forall j | 0 <= j < |rows| ensures ActiveRecord(before, records[j]) && records[j].row == rows[j] {
      ExpiredIsActive(before, q, rows[j]);
    }
    if !q.apply {
      return;
    }
    while done < |rows|
      invariant !repo.inTransaction && done <= |rows|
      invariant fleet.log == old(fleet.log) && fleet.issued == old(fleet.issued)
      invariant fleet.failures == old(fleet.failures)
      invariant repo.committed == AllReleased(before, Elements(rows[..done]))
      invariant Shrinks(hosts, fleet.hosts) && (!remote ==> fleet.hosts == hosts)
      invariant remote ==> forall i :: 0 <= i < done ==> Gone(fleet.hosts, records[i])
      invariant |ws| == done + 1 && attempted == done && ws[0] == old(WorldOf(repo, fleet)) && ws[done] == WorldOf(repo, fleet)
      invariant forall i :: 0 <= i < done ==> RowStep(records[i], remote, true, ws[i], ws[i + 1])
    {
      ghost var mid := fleet.hosts;
      LaterRecordStands(before, rows, done, done, records[done]);
      ElementsSnoc(rows, done);
      OneMoreReleased(before, Elements(rows[..done]), rows[done]);
      outcome := CleanRow(repo, fleet, remote, records[done]);
      ws, attempted := ws + [WorldOf(repo, fleet)], done + 1;
      if remote {
        DroppedShrinks(mid, fleet.hosts, records[done].server,
                       RemovalTargets(At(mid, records[done].server), records[done].containerId, records[done].name));
        ShrinksThen(hosts, mid, fleet.hosts);
      }
      if outcome.Raised? {
        return;
      }
      done := done + 1;
    }
    outcome := Done;
    assert rows[..done] == rows;
  }

  /** A finished apply leaves no matching expired row active. */
  lemma NoneLeft(db: Tables, q: CleanupRequest)
    ensures ExpiredRows(AllReleased(db, ExpiredRows(db, q)), q) == {}
  {
    var after := AllReleased(db, ExpiredRows(db, q));
    forall row | row in after.containers ensures !Expired(after, q, row) {
      assert Active(after, row) ==> row !in ExpiredRows(db, q);
    }
  }

  /** No container with the row's id is left on its server. */
  ghost predicate RowGone(c: ContainerRow, hosts: Hosts) {
    c.containerId != "" ==>
      forall n :: n in At(hosts, c.server).containers ==> At(hosts, c.server).containers[n].containerId != c.containerId
  }

  lemma GoneIsRowGone(db: Tables, row: int, hosts: Hosts)
    requires HasOwner(db, row) && Gone(hosts, RecordOf(db, row))
    ensures RowGone(db.containers[row], hosts)
  {
    var c := db.containers[row];
    if c.containerId != "" {
      NoneWithId(At(hosts, c.server), c.containerId);
    }
  }

  lemma StaysRowGone(c: ContainerRow, before: Hosts, after: Hosts)
    requires Shrinks(before, after) && RowGone(c, before)
    ensures RowGone(c, after)
  {
  }

  /** The released rows whose containers are gone from the hosts. */
  ghost predicate AllGone(before: map<Domain, Tables>, order: seq<(Domain, int)>, hosts: Hosts) {
    forall i :: 0 <= i < |order| ==>
      order[i].0 in before && order[i].1 in before[order[i].0].containers
      && RowGone(before[order[i].0].containers[order[i].1], hosts)
  }

  lemma MoreGone(before: map<Domain, Tables>, order: seq<(Domain, int)>, d: Domain, now: Tables, rows: seq<int>,
      hosts: Hosts, hosts': Hosts)
    requires AllGone(before, order, hosts) && Shrinks(hosts, hosts') && d in before
    requires now.containers.Keys == before[d].containers.Keys
    requires forall c :: c in now.containers ==>
      now.containers[c].containerId == before[d].containers[c].containerId && now.containers[c].server == before[d].containers[c].server
    requires forall i :: 0 <= i < |rows| ==> rows[i] in now.containers && RowGone(now.containers[rows[i]], hosts')
    ensures AllGone(before, order + Tagged(d, rows), hosts')
  {
    var longer := order + Tagged(d, rows);
    forall i | 0 <= i < |longer|
      ensures longer[i].0 in before && longer[i].1 in before[longer[i].0].containers
      ensures RowGone(before[longer[i].0].containers[longer[i].1], hosts')
    {
      if i < |order| {
        assert longer[i] == order[i];
        StaysRowGone(before[order[i].0].containers[order[i].1], hosts, hosts');
      } else {
        var row := rows[i - |order|];
        assert longer[i] == (d, row);
        SameIdSameGone(now.containers[row], before[d].containers[row], hosts');
      }
    }
  }

  lemma SameIdSameGone(c: ContainerRow, d: ContainerRow, hosts: Hosts)
    requires RowGone(c, hosts) && d.containerId == c.containerId && d.server == c.server
    ensures RowGone(d, hosts)
  {
  }

  lemma NoneGone(before: map<Domain, Tables>, hosts: Hosts)
    ensures AllGone(before, [], hosts)
  {
  }

  /** A row is as it was, or it was past its expiry, had the names asked for and is now released. */
  ghost predicate StaysOrWasDue(db: Tables, q: CleanupRequest, c: int, db': Tables)
    requires c in db.containers && c in db'.containers
  {
    var row := db.containers[c];
    || db'.containers[c] == row
    || (&& db'.containers[c] == row.(existing := false)
        && Past(row.expires, q) && OwnedAsAsked(db, q, row) && (q.containerName != "" ==> row.name == q.containerName))
  }

  /** Released, without an owner, or not past its expiry. */
  ghost predicate NotDueAnyMore(db: Tables, q: CleanupRequest, row: ContainerRow) {
    row.existing && row.userId.Some? && row.userId.value in db.users ==> !Past(row.expires, q)
  }

  lemma OnlyDueReleased(db: Tables, rows: set<int>, q: CleanupRequest, c: int)
    requires c in db.containers && (c in rows ==> c in ExpiredRows(db, q))
    ensures StaysOrWasDue(db, q, c, AllReleased(db, rows))
  {
  }

  lemma NothingDue(db: Tables, q: CleanupRequest, c: int)
    requires q.username == "" && q.containerName == "" && ExpiredRows(db, q) == {} && c in db.containers
    ensures NotDueAnyMore(db, q, db.containers[c])
  {
    assert c !in ExpiredRows(db, q);
    var row := db.containers[c];
    if row.existing && row.userId.Some? && row.userId.value in db.users {
      var owner := row.userId.value;
      assert owner in db.users && row.userId == Some(owner);
    }
  }

  // ---------- Every domain ----------

  function Tagged(d: Domain, rows: seq<int>): (order: seq<(Domain, int)>)
    ensures |order| == |rows| && forall i :: 0 <= i < |rows| ==> order[i] == (d, rows[i])
  {
    seq(|rows|, i requires 0 <= i < |rows| => (d, rows[i]))
  }

  lemma RowsInTagged(order: seq<(Domain, int)>, d: Domain, rows: seq<int>, k: nat, e: Domain)
    requires k <= |rows|
    ensures RowsIn((order + Tagged(d, rows))[..|order| + k], e) == RowsIn(order, e) + (if e == d then Elements(rows[..k]) else {})
  {
    var longer := (order + Tagged(d, rows))[..|order| + k];
    assert longer == order + Tagged(d, rows)[..k];
    forall row | row in RowsIn(order, e) ensures row in RowsIn(longer, e) {
      var m :| m in order && m.0 == e && m.1 == row;
      assert m in longer;
    }
    if e == d {
      forall row | row in Elements(rows[..k]) ensures row in RowsIn(longer, e) {
        var i :| 0 <= i < k && rows[i] == row;
        assert longer[|order| + i] == (d, row);
        assert (d, row) in longer;
      }
    }
  }

  lemma ReleasedThen(db: Tables, some: set<int>, more: set<int>)
    ensures AllReleased(AllReleased(db, some), more) == AllReleased(db, some + more)
  {
    var twice, once := AllReleased(AllReleased(db, some), more), AllReleased(db, some + more);
    assert twice.ports == once.ports;
    assert twice.containers == once.containers;
  }

  lemma ExpiredAfter(db: Tables, rows: set<int>, q: CleanupRequest)
    ensures ExpiredRows(AllReleased(db, rows), q) == ExpiredRows(db, q) - rows
  {
    var after := AllReleased(db, rows);
    forall row | row in db.containers ensures Expired(after, q, row) <==> Expired(db, q, row) && row !in rows {
      assert after.containers[row] == if row in rows then db.containers[row].(existing := false) else db.containers[row];
    }
  }

  predicate Precedes(domains: seq<Domain>, d: Domain, e: Domain) {
    exists a, b :: 0 <= a <= b < |domains| && domains[a] == d && domains[b] == e
  }

  /**
   A processing order: rows of earlier domains before rows of later ones, all of them expired and
   filter-matching, and every such row of a domain that was reached.
   */
  ghost predicate ProcessingOrder(order: seq<(Domain, int)>, domains: seq<Domain>, dbs: map<Domain, Tables>,
      q: CleanupRequest) {
    && (forall i, j :: 0 <= i < j < |order| ==> Precedes(domains, order[i].0, order[j].0))
    && (forall i :: 0 <= i < |order| ==>
          order[i].0 in domains && order[i].0 in dbs && order[i].1 in ExpiredRows(dbs[order[i].0], q))
    && (forall i, row :: 0 <= i < |order| && row in ExpiredRows(dbs[order[i].0], q) ==> (order[i].0, row) in order)
    && (q.apply ==> forall i, j :: 0 <= i < j < |order| ==> order[i] != order[j])
  }

  ghost predicate Reaches(order: seq<(Domain, int)>, d: Domain, db: Tables, q: CleanupRequest) {
    forall row :: row in ExpiredRows(db, q) ==> (d, row) in order
  }

  ghost function ReleasedIn(before: map<Domain, Tables>, order: seq<(Domain, int)>): map<Domain, Tables> {
    map d | d in before :: AllReleased(before[d], RowsIn(order, d))
  }

  lemma RowsAreTagged(order: seq<(Domain, int)>, d: Domain)
    ensures forall row :: row in RowsIn(order, d) ==> (d, row) in order
  {
    forall row | row in RowsIn(order, d) ensures (d, row) in order {
      var m :| m in order && m.0 == d && m.1 == row;
      var (d', row') := m;
    }
  }

  lemma OtherRowOrDomain(order: seq<(Domain, int)>, d: Domain, i: nat, row: int)
    requires i < |order| && row !in RowsIn(order, d)
    ensures order[i] != (d, row)
  {
    assert order[i] in order;
  }

  /** One more domain: its rows extend the processing order, and the first `k` of them are released. */
  lemma DomainExtends(order: seq<(Domain, int)>, domains: seq<Domain>, n: nat, before: map<Domain, Tables>,
      q: CleanupRequest, rows: seq<int>)
    requires n < |domains| && domains[n] in before
    requires ProcessingOrder(order, domains[..n], before, q)
    requires var released := if q.apply then RowsIn(order, domains[n]) else {};
             rows == [] || Enumerates(rows, ExpiredRows(before[domains[n]], q) - released)
    ensures ProcessingOrder(order + Tagged(domains[n], rows), domains[..n + 1], before, q)
  {
    var d := domains[n];
    var longer, prefix := order + Tagged(d, rows), domains[..n + 1];
    assert prefix[n] == d && forall e :: e in domains[..n] ==> e in prefix;
    forall k | 0 <= k < |rows| ensures rows[k] in ExpiredRows(before[d], q) && (q.apply ==> rows[k] !in RowsIn(order, d)) {
      EnumeratedMember(rows, ExpiredRows(before[d], q) - (if q.apply then RowsIn(order, d) else {}), k);
    }
    forall i, j | 0 <= i < j < |longer| ensures Precedes(prefix, longer[i].0, longer[j].0) {
      OrderExtends(order, domains, n, rows, i, j);
    }
    RowsAreTagged(order, d);
    forall i, row | 0 <= i < |longer| && row in ExpiredRows(before[longer[i].0], q) ensures (longer[i].0, row) in longer {
      if i >= |order| && row in rows {
        var k :| 0 <= k < |rows| && rows[k] == row;
        assert longer[|order| + k] == (d, row);
      }
    }
    if q.apply {
      forall i, j | 0 <= i < j < |longer| ensures longer[i] != longer[j] {
        if i < |order| <= j {
          OtherRowOrDomain(order, d, i, rows[j - |order|]);
        }
      }
    }
  }

  lemma OrderExtends(order: seq<(Domain, int)>, domains: seq<Domain>, n: nat, rows: seq<int>, i: nat, j: nat)
    requires n < |domains|
    requires forall a, b :: 0 <= a < b < |order| ==> Precedes(domains[..n], order[a].0, order[b].0)
    requires forall a :: 0 <= a < |order| ==> order[a].0 in domains[..n]
    requires i < j < |order| + |rows|
    ensures var longer := order + Tagged(domains[n], rows);
            Precedes(domains[..n + 1], longer[i].0, longer[j].0)
  {
    var longer, prefix := order + Tagged(domains[n], rows), domains[..n + 1];
    assert prefix[n] == domains[n];
    if j < |order| {
      var a, b :| 0 <= a <= b < n && domains[..n][a] == order[i].0 && domains[..n][b] == order[j].0;
      assert prefix[a] == order[i].0 && prefix[b] == order[j].0;
    } else if i < |order| {
      var a :| 0 <= a < n && domains[..n][a] == order[i].0;
      assert prefix[a] == order[i].0;
    }
  }

  /**
   Whatever fails and wherever, the released rows are exactly the first `done` in processing order across
   the domains, and everything else is as before; a finished apply leaves no matching expired row active.
   */
  method Execute(repos: map<Domain, Repository>, fleet: Fleet, remote: bool, domains: seq<Domain>, q: CleanupRequest)
    returns (outcome: Outcome, order: seq<(Domain, int)>, done: nat)
    requires Separate(repos) && forall d :: d in repos ==> !repos[d].inTransaction
    requires forall d :: d in domains ==> d in repos
    modifies repos.Values, fleet
    ensures outcome.Done? ==> fleet.failures == old(fleet.failures)
    ensures ParseDate(q.today).None? ==> outcome.Raised?
    ensures ProcessingOrder(order, domains, old(Committed(repos)), q)
    ensures done <= |order| && (!q.apply ==> done == 0)
    ensures Committed(repos) == ReleasedIn(old(Committed(repos)), order[..done])
    ensures outcome.Done? ==> forall d :: d in domains ==> Reaches(order, d, old(Committed(repos))[d], q)
    ensures remote ==> AllGone(old(Committed(repos)), order[..done], fleet.hosts)
    ensures outcome.Done? && q.apply ==>
      && done == |order|
      && forall d :: d in domains ==> ExpiredRows(Committed(repos)[d], q) == {}
    ensures forall d, c :: d in repos && c in old(Committed(repos))[d].containers ==>
      c in Committed(repos)[d].containers && StaysOrWasDue(old(Committed(repos))[d], q, c, Committed(repos)[d])
    ensures outcome.Done? && q.apply && q.username == "" && q.containerName == "" ==>
      forall d, c :: d in domains && c in Committed(repos)[d].containers ==>
        NotDueAnyMore(Committed(repos)[d], q, Committed(repos)[d].containers[c])
    ensures ParseDate(q.today).Some? && (forall d :: d in domains ==> repos[d].faultless)
            && (remote ==> fleet.faultless && fleet.forgiving)
            ==> outcome.Done?
  {
    hide AllReleased, ExpiredRows, Reaches, Precedes, Enumerates, StaysOrWasDue, NotDueAnyMore, AllGone, RowGone, Shrinks;
    ghost var before := Committed(repos);
    order, done := [], 0;
    NothingReleased(before);
    NoneGone(before, fleet.hosts);
    assert order[..done] == [];
    if ParseDate(q.today).None? {
      ReleasedWereDue(before, order, done, domains, q);
      return Raised, order, done;
    }
    for n := 0 to |domains|
      invariant fleet.failures == old(fleet.failures)
      invariant forall d :: d in repos ==> !repos[d].inTransaction
      invariant ProcessingOrder(order, domains[..n], before, q)
      invariant done <= |order| && (q.apply ==> done == |order|) && (!q.apply ==> done == 0)
      invariant remote ==> AllGone(before, order[..done], fleet.hosts)
      invariant Committed(repos) == ReleasedIn(before, order[..done])
      invariant forall d :: d in domains[..n] ==> Reaches(order, d, before[d], q)
    {
      var d := domains[n];
      ghost var was, hosts := Committed(repos), fleet.hosts;
      var rows, released;
      outcome, rows, released := CleanOne(repos, fleet, remote, d, q);
      if remote {
        ReleasedKeepIds(before[d], RowsIn(order[..done], d));
        MoreGone(before, order[..done], d, was[d], rows[..released], hosts, fleet.hosts);
        PrefixOfBoth(order, done, d, rows, released, q.apply);
      }
      DomainCleaned(order, done, domains, n, before, was, Committed(repos), q, rows, released, outcome.Done?);
      order, done := order + Tagged(d, rows), done + released;
      if outcome.Raised? {
        EarlierOrder(order, domains, n + 1, before, q);
        ReleasedWereDue(before, order, done, domains, q);
        return;
      }
    }
    assert domains[..|domains|] == domains && order[..|order|] == order;
    if q.apply {
      forall d | d in domains ensures ExpiredRows(Committed(repos)[d], q) == {} {
        AllReachedReleased(order, d, before, q);
      }
      if q.username == "" && q.containerName == "" {
        forall d, c | d in domains && c in Committed(repos)[d].containers
          ensures NotDueAnyMore(Committed(repos)[d], q, Committed(repos)[d].containers[c])
        {
          NothingDue(Committed(repos)[d], q, c);
        }
      }
    }
    ReleasedWereDue(before, order, done, domains, q);
    return Done, order, done;
  }

  /** Cleaning one domain leaves the others alone. */
  method CleanOne(repos: map<Domain, Repository>, fleet: Fleet, remote: bool, d: Domain, q: CleanupRequest)
    returns (outcome: Outcome, rows: seq<int>, done: nat)
    requires Separate(repos) && d in repos && forall e :: e in repos ==> !repos[e].inTransaction
    modifies repos.Values, fleet
    ensures outcome.Done? ==> fleet.failures == old(fleet.failures)
    ensures outcome.Done? ==> forall e :: e in repos ==> !repos[e].inTransaction
    ensures done <= |rows| && (outcome.Done? && q.apply ==> done == |rows|) && (!q.apply ==> done == 0)
    ensures rows == [] || Enumerates(rows, ExpiredRows(old(Committed(repos))[d], q))
    ensures outcome.Done? ==> Enumerates(rows, ExpiredRows(old(Committed(repos))[d], q))
    ensures Committed(repos) == old(Committed(repos))[d := AllReleased(old(Committed(repos))[d], Elements(rows[..done]))]
    ensures Shrinks(old(fleet.hosts), fleet.hosts)
    ensures remote ==> forall i :: 0 <= i < done ==>
      rows[i] in old(Committed(repos))[d].containers && RowGone(old(Committed(repos))[d].containers[rows[i]], fleet.hosts)
    ensures repos[d].faultless && (remote ==> fleet.faultless && fleet.forgiving) ==> outcome.Done?
  {
    hide AllReleased, ExpiredRows, Enumerates, Shrinks, Gone, RowGone;
    var attempted, records;
    ghost var ws;
    ghost var before := Committed(repos)[d];
    outcome, rows, done, attempted, records, ws := CleanDomain(repos[d], fleet, remote, q);
    if remote {
      forall i | 0 <= i < done ensures rows[i] in before.containers && RowGone(before.containers[rows[i]], fleet.hosts) {
        ExpiredIsActive(before, q, rows[i]);
        GoneIsRowGone(before, rows[i], fleet.hosts);
      }
    }
    assert forall e :: e in repos && e != d ==> repos[e] != repos[d] && repos[e].committed == old(repos[e].committed);
  }

  lemma NothingReleased(before: map<Domain, Tables>)
    ensures ReleasedIn(before, []) == before
  {
    forall d | d in before ensures AllReleased(before[d], RowsIn([], d)) == before[d] {
      NoneReleased(before[d]);
      assert RowsIn([], d) == {};
    }
  }

  lemma EarlierOrder(order: seq<(Domain, int)>, domains: seq<Domain>, n: nat, before: map<Domain, Tables>,
      q: CleanupRequest)
    requires n <= |domains| && ProcessingOrder(order, domains[..n], before, q)
    ensures ProcessingOrder(order, domains, before, q)
  {
    forall i, j | 0 <= i < j < |order| ensures Precedes(domains, order[i].0, order[j].0) {
      var a, b :| 0 <= a <= b < n && domains[..n][a] == order[i].0 && domains[..n][b] == order[j].0;
      assert domains[a] == order[i].0 && domains[b] == order[j].0;
    }
  }

  lemma AllReachedReleased(order: seq<(Domain, int)>, d: Domain, before: map<Domain, Tables>, q: CleanupRequest)
    requires d in before && Reaches(order, d, before[d], q)
    ensures ExpiredRows(ReleasedIn(before, order)[d], q) == {}
  {
    var db := before[d];
    ExpiredAfter(db, RowsIn(order, d), q);
    forall row | row in ExpiredRows(db, q) ensures row in RowsIn(order, d) {
      assert (d, row) in order;
    }
  }

  lemma ReleasedWereDue(before: map<Domain, Tables>, order: seq<(Domain, int)>, done: nat, domains: seq<Domain>,
      q: CleanupRequest)
    requires ProcessingOrder(order, domains, before, q) && done <= |order|
    ensures forall d, c :: d in before && c in before[d].containers ==>
      var after := ReleasedIn(before, order[..done])[d];
      c in after.containers && StaysOrWasDue(before[d], q, c, after)
  {
    hide ExpiredRows, StaysOrWasDue;
    forall d, c | d in before && c in before[d].containers
      ensures StaysOrWasDue(before[d], q, c, ReleasedIn(before, order[..done])[d])
    {
      var rows := RowsIn(order[..done], d);
      if c in rows {
        RowsAreTagged(order[..done], d);
        var i :| 0 <= i < done && order[i] == (d, c);
      }
      OnlyDueReleased(before[d], rows, q, c);
    }
  }

  lemma ReleasedKeepIds(db: Tables, rows: set<int>)
    ensures var now := AllReleased(db, rows);
            && now.containers.Keys == db.containers.Keys
            && forall c :: c in now.containers ==>
                 now.containers[c].containerId == db.containers[c].containerId && now.containers[c].server == db.containers[c].server
  {
  }

  lemma PrefixOfBoth(order: seq<(Domain, int)>, done: nat, d: Domain, rows: seq<int>, released: nat, apply: bool)
    requires done <= |order| && released <= |rows|
    requires if apply then done == |order| else done == 0 && released == 0
    ensures (order + Tagged(d, rows))[..done + released] == order[..done] + Tagged(d, rows[..released])
  {
  }

  /** What one iteration establishes. */
  lemma DomainCleaned(
    order: seq<(Domain, int)>, done: nat, domains: seq<Domain>, n: nat, before: map<Domain, Tables>,
    was: map<Domain, Tables>, now: map<Domain, Tables>, q: CleanupRequest, rows: seq<int>, released: nat, finished: bool)
    requires n < |domains| && domains[n] in before && ProcessingOrder(order, domains[..n], before, q)
    requires done <= |order| && (q.apply ==> done == |order|) && (!q.apply ==> done == 0)
    requires was == ReleasedIn(before, order[..done])
    requires released <= |rows| && (finished && q.apply ==> released == |rows|) && (!q.apply ==> released == 0)
    requires rows == [] || Enumerates(rows, ExpiredRows(was[domains[n]], q))
    requires finished ==> Enumerates(rows, ExpiredRows(was[domains[n]], q))
    requires now == was[domains[n] := AllReleased(was[domains[n]], Elements(rows[..released]))]
    requires forall d :: d in domains[..n] ==> d in before && Reaches(order, d, before[d], q)
    ensures var longer := order + Tagged(domains[n], rows);
            && ProcessingOrder(longer, domains[..n + 1], before, q)
            && now == ReleasedIn(before, longer[..done + released])
            && (finished ==> forall d :: d in domains[..n + 1] ==> Reaches(longer, d, before[d], q))
  {
    hide AllReleased, ExpiredRows, ProcessingOrder;
    var d := domains[n];
    var longer := order + Tagged(d, rows);
    assert order[..|order|] == order;
    assert order[..0] == [] && RowsIn([], d) == {};
    ExpiredAfter(before[d], RowsIn(order[..done], d), q);
    DomainExtends(order, domains, n, before, q, rows);
    forall e | e in before ensures now[e] == AllReleased(before[e], RowsIn(longer[..done + released], e)) {
      DomainReleased(order, done, d, rows, released, e, q.apply);
      if e == d {
        ReleasedThen(before[e], RowsIn(order[..done], e), Elements(rows[..released]));
      } else {
        assert RowsIn(order[..done], e) + {} == RowsIn(order[..done], e);
      }
    }
    if finished {
      forall e | e in domains[..n + 1] ensures Reaches(longer, e, before[e], q) {
        if e == d {
          ReachedNow(order, d, rows, before[d], if q.apply then RowsIn(order, d) else {}, q);
        } else {
          assert e in domains[..n];
          assert forall row :: (e, row) in order ==> (e, row) in longer;
        }
      }
    }
  }

  lemma DomainReleased(order: seq<(Domain, int)>, done: nat, d: Domain, rows: seq<int>, released: nat,
      e: Domain, apply: bool)
    requires done <= |order| && released <= |rows|
    requires if apply then done == |order| else done == 0 && released == 0
    ensures RowsIn((order + Tagged(d, rows))[..done + released], e)
         == RowsIn(order[..done], e) + (if e == d then Elements(rows[..released]) else {})
  {
    if apply {
      assert order[..done] == order;
      RowsInTagged(order, d, rows, released, e);
    } else {
      assert (order + Tagged(d, rows))[..0] == [] && order[..0] == [] && rows[..0] == [];
    }
  }

  lemma ReachedNow(order: seq<(Domain, int)>, d: Domain, rows: seq<int>, db: Tables, already: set<int>,
      q: CleanupRequest)
    requires Enumerates(rows, ExpiredRows(db, q) - already) && already <= RowsIn(order, d)
    ensures Reaches(order + Tagged(d, rows), d, db, q)
  {
    var longer := order + Tagged(d, rows);
    RowsAreTagged(order, d);
    forall row | row in ExpiredRows(db, q) ensures (d, row) in longer {
      if row !in already {
        assert row in rows;
        var k :| 0 <= k < |rows| && rows[k] == row;
        assert longer[|order| + k] == (d, row);
      }
    }
  }
}
