/** The database transaction of create: its statements, what it records, and exactly when the schema refuses it. */
module CreateTransaction {
  import opened Wrappers
  import opened Schema
  import opened Invariants
  import opened Calendar
  import opened DateText
  import opened PortAllocator
  import opened Planner
  import opened Transactions

  // ---------- The statements ----------

  function ReserveStatements(p: Plan): seq<Statement> {
    (if !p.existingUser && !p.uidReserved then [ReserveId(p.uid)] else [])
    + (if !p.existingGroup && p.gid != p.uid && !p.gidReserved then [ReserveId(p.gid)] else [])
  }

  function GroupStatements(p: Plan): seq<Statement> {
    if p.existingGroup then [] else [InsertGroup(p.groupname, p.gid)]
  }

  function UserStatement(r: Request, p: Plan): Statement {
    UpsertUser(r.name, r.username, p.uid, p.gid)
  }

  function IdentityStatements(r: Request, identity: Option<AdIdentity>): seq<Statement> {
    if r.kerberos && identity.Some? then [UpsertIdentity(identity.value)] else []
  }

  function PortStatements(ports: seq<PortMapping>): (ss: seq<Statement>)
    ensures |ss| == |ports| && forall i :: 0 <= i < |ports| ==> ss[i] == InsertPort(ports[i].hostPort, ports[i].purpose)
  {
    if ports == [] then []
    else PortStatements(ports[..|ports| - 1]) + [InsertPort(ports[|ports| - 1].hostPort, ports[|ports| - 1].purpose)]
  }

  function ContainerStatement(r: Request, p: Plan, containerId: string): Statement
    requires ParseDate(r.expiration).Some?
  {
    InsertContainer(containerId, p.containerName, r.server, ParseDate(r.expiration).value, r.username)
  }

  /** Everything up to the container row, whose generated id the last statement needs. */
  function BeforeContainer(r: Request, p: Plan, identity: Option<AdIdentity>): seq<Statement> {
    ReserveStatements(p) + GroupStatements(p) + [UserStatement(r, p)] + IdentityStatements(r, identity) + PortStatements(p.ports)
  }

  /** The generated id of the container row. */
  function ContainerRowId(r: Request, p: Plan, identity: Option<AdIdentity>, auto: int): int {
    auto + |BeforeContainer(r, p, identity)|
  }

  function CreateStatements(r: Request, p: Plan, identity: Option<AdIdentity>, containerId: string,
      auto: int): seq<Statement>
    requires ParseDate(r.expiration).Some?
  {
    BeforeContainer(r, p, identity)
    + [ContainerStatement(r, p, containerId), AttachPorts(ContainerRowId(r, p, identity, auto), FixedHostPorts(p.ports))]
  }

  /** The committed tables after the transaction, or the refusal. */
  function CreateTxn(db: Tables, r: Request, p: Plan, identity: Option<AdIdentity>, containerId: string,
      auto: int): SqlResult
    requires ParseDate(r.expiration).Some?
  {
    ExecAll(db, CreateStatements(r, p, identity, containerId, auto), auto)
  }

  // ---------- Stage by stage ----------

  /** Ids at or above the counter are unused, as AUTO_INCREMENT guarantees. */
  ghost predicate FreshFrom(db: Tables, auto: int) {
    && (forall i :: i in db.users ==> i < auto)
    && (forall g :: g in db.groups ==> g < auto)
    && (forall c :: c in db.containers ==> c < auto)
  }

  lemma ExecKeepsFresh(db: Tables, s: Statement, auto: int)
    requires FreshFrom(db, auto) && Exec(db, s, auto).Ok?
    ensures FreshFrom(Exec(db, s, auto).value, auto + 1)
  {
    hide UserIdSubquery, IdentityConflicts;
  }

  lemma {:induction false} ExecAllKeepsFresh(db: Tables, ss: seq<Statement>, auto: int)
    requires FreshFrom(db, auto) && ExecAll(db, ss, auto).Ok?
    ensures FreshFrom(ExecAll(db, ss, auto).value, auto + |ss|)
    decreases |ss|
  {
    if ss != [] {
      ExecKeepsFresh(db, ss[0], auto);
      ExecAllKeepsFresh(Exec(db, ss[0], auto).value, ss[1..], auto + 1);
    }
  }

  /** The plan still fits the tables it is executed on. */
  ghost predicate PlanFits(db: Tables, r: Request, p: Plan) {
    && p.existingUser == HasUser(db, r.username)
    && (p.existingUser ==> p.uid in Uids(db))
    && (p.existingGroup ==> p.gid in Gids(db))
    && p.uidReserved == (p.uid in db.usedIds) && p.gidReserved == (p.gid in db.usedIds)
  }

  ghost predicate IdsInsertable(db: Tables, p: Plan) {
    && (p.existingUser || (p.uid !in Uids(db) && (p.uidReserved || p.uid != 0)))
    && (p.existingGroup || (p.gid !in Gids(db) && (p.gidReserved || p.gid == p.uid || p.gid != 0)))
  }

  ghost function Reserved(db: Tables, p: Plan): Tables {
    db.(usedIds := db.usedIds
        + (if !p.existingUser && !p.uidReserved then {p.uid} else {})
        + (if !p.existingGroup && p.gid != p.uid && !p.gidReserved then {p.gid} else {}))
  }

  /** What the reservations leave: only used_ids grows, and never by zero itself. */
  lemma ReserveStage(db: Tables, r: Request, p: Plan, auto: int)
    requires PlanFits(db, r, p)
    ensures IdsInsertable(db, p) ==> ExecAll(db, ReserveStatements(p), auto) == Ok(Reserved(db, p))
    ensures var done := ExecAll(db, ReserveStatements(p), auto);
            done.Ok? ==> && done.value == db.(usedIds := done.value.usedIds)
                         && (0 in done.value.usedIds ==> 0 in db.usedIds)
  {
    hide ExecAll;
    var first := if !p.existingUser && !p.uidReserved then [ReserveId(p.uid)] else [];
    var second := if !p.existingGroup && p.gid != p.uid && !p.gidReserved then [ReserveId(p.gid)] else [];
    ExecAllAppend(db, first, second, auto);
    ExecAllNone(db, auto);
    ExecAllOne(db, ReserveId(p.uid), auto);
    var mid := ExecAll(db, first, auto);
    if mid.Ok? {
      ExecAllNone(mid.value, auto + |first|);
      ExecAllOne(mid.value, ReserveId(p.gid), auto + |first|);
    }
    if IdsInsertable(db, p) {
      assert mid.value == if first == [] then db else db.(usedIds := db.usedIds + {p.uid});
      assert Reserved(db, p).usedIds == (if second == [] then mid.value.usedIds else mid.value.usedIds + {p.gid});
    }
  }

  function IdStatements(r: Request, p: Plan): seq<Statement> {
    ReserveStatements(p) + GroupStatements(p) + [UserStatement(r, p)]
  }

  /** When the group and user statements succeed on tables whose reservations are done. */
  ghost predicate GroupAndUserFit(db: Tables, r: Request, p: Plan) {
    && (p.existingGroup || (p.gid !in Gids(db) && p.gid in db.usedIds))
    && (HasUser(db, r.username) || (p.uid !in Uids(db) && p.uid in db.usedIds))
    && (p.existingGroup && (!HasUser(db, r.username) || p.uid in Uids(db)) ==> p.gid in Gids(db))
  }

  lemma GroupAndUserStage(db: Tables, r: Request, p: Plan, auto: int)
    requires FreshFrom(db, auto)
    ensures ExecAll(db, GroupStatements(p) + [UserStatement(r, p)], auto).Ok? <==> GroupAndUserFit(db, r, p)
  {
    hide ExecAll;
    var group, user := GroupStatements(p), UserStatement(r, p);
    ExecAllAppend(db, group, [user], auto);
    ExecAllNone(db, auto);
    ExecAllOne(db, InsertGroup(p.groupname, p.gid), auto);
    var second := ExecAll(db, group, auto);
    if second.Ok? {
      GroupStage(db, p, auto);
      ExecAllOne(second.value, user, auto + |group|);
    }
  }

  /** The id, group and user statements succeed exactly when the ids are insertable. */
  lemma IdStage(db: Tables, r: Request, p: Plan, auto: int)
    requires Valid(db) && FreshFrom(db, auto) && PlanFits(db, r, p)
    ensures ExecAll(db, IdStatements(r, p), auto).Ok? <==> IdsInsertable(db, p)
  {
    hide ExecAll, Exec;
    var reserve, rest := ReserveStatements(p), GroupStatements(p) + [UserStatement(r, p)];
    ReserveStage(db, r, p, auto);
    assert IdStatements(r, p) == reserve + rest;
    ExecAllAppend(db, reserve, rest, auto);
    var first := ExecAll(db, reserve, auto);
    if first.Ok? {
      SameRows(db, first.value);
      GroupAndUserStage(first.value, r, p, auto + |reserve|);
    }
  }

  lemma SameRows(db: Tables, db': Tables)
    requires db' == db.(usedIds := db'.usedIds)
    ensures Uids(db') == Uids(db) && Gids(db') == Gids(db)
    ensures forall name :: HasUser(db', name) == HasUser(db, name)
  {
  }

  lemma GroupStage(db: Tables, p: Plan, auto: int)
    requires FreshFrom(db, auto) && ExecAll(db, GroupStatements(p), auto).Ok?
    ensures var done := ExecAll(db, GroupStatements(p), auto).value;
            && done == db.(groups := done.groups)
            && Uids(done) == Uids(db) && (forall name :: HasUser(done, name) == HasUser(db, name))
            && Gids(done) == Gids(db) + (if p.existingGroup then {} else {p.gid})
            && (!p.existingGroup ==> p.gid in db.usedIds && p.gid !in Gids(db))
  {
    ExecAllOne(db, InsertGroup(p.groupname, p.gid), auto);
    var done := ExecAll(db, GroupStatements(p), auto).value;
    if !p.existingGroup {
      assert done.groups[auto].gid == p.gid;
      GidsMonotone(db, done, {});
      assert Gids(done) == Gids(db) + {p.gid};
    }
  }

  // ---------- Ports ----------

  /** The rows the port statements add, before they are attached. */
  ghost function PortRows(ports: seq<PortMapping>, owner: Option<int>): (rows: map<int, PortRow>)
    ensures rows.Keys == FixedHostPorts(ports)
  {
    if ports == [] then map[]
    else
      var n := |ports| - 1;
      HostPortsSnoc(ports);
      PortRows(ports[..n], owner)[ports[n].hostPort := PortRow(owner, ports[n].purpose)]
  }

  lemma HostPortsSnoc(ports: seq<PortMapping>)
    requires ports != []
    ensures FixedHostPorts(ports) == FixedHostPorts(ports[..|ports| - 1]) + {ports[|ports| - 1].hostPort}
  {
    var n := |ports| - 1;
    forall p | p in FixedHostPorts(ports[..n]) ensures p in FixedHostPorts(ports) {
      var i :| 0 <= i < n && ports[..n][i].hostPort == p;
      assert ports[i].hostPort == p;
    }
  }

  ghost predicate PortsInsertable(db: Tables, ports: seq<PortMapping>) {
    DistinctHosts(ports) && FixedHostPorts(ports) !! db.ports.Keys
  }

  lemma {:induction false} PortStage(db: Tables, ports: seq<PortMapping>, auto: int)
    ensures var done := ExecAll(db, PortStatements(ports), auto);
            && (done.Ok? <==> PortsInsertable(db, ports))
            && (done.Ok? ==> done.value == db.(ports := db.ports + PortRows(ports, None)))
    decreases |ports|
  {
    if ports == [] {
      assert db.ports + map[] == db.ports;
    } else {
      var front := ports[..|ports| - 1];
      PortStage(db, front, auto);
      LastPort(db, ports, auto);
    }
  }

  lemma InsertableSnoc(db: Tables, ports: seq<PortMapping>)
    requires ports != []
    ensures var front, last := ports[..|ports| - 1], ports[|ports| - 1].hostPort;
            PortsInsertable(db, ports) <==> PortsInsertable(db, front) && last !in db.ports && last !in FixedHostPorts(front)
  {
    HostPortsSnoc(ports);
    DistinctSnoc(ports);
  }

  lemma LastPort(db: Tables, ports: seq<PortMapping>, auto: int)
    requires ports != []
    requires var front := ports[..|ports| - 1];
             var done := ExecAll(db, PortStatements(front), auto);
             && (done.Ok? <==> PortsInsertable(db, front))
             && (done.Ok? ==> done.value == db.(ports := db.ports + PortRows(front, None)))
    ensures var done := ExecAll(db, PortStatements(ports), auto);
            && (done.Ok? <==> PortsInsertable(db, ports))
            && (done.Ok? ==> done.value == db.(ports := db.ports + PortRows(ports, None)))
  {
    hide ExecAll, PortsInsertable, FixedHostPorts;
    var n := |ports| - 1;
    var front := ports[..n];
    InsertableSnoc(db, ports);
    var last := InsertPort(ports[n].hostPort, ports[n].purpose);
    ExecAllAppend(db, PortStatements(front), [last], auto);
    var done := ExecAll(db, PortStatements(front), auto);
    if done.Ok? {
      ExecAllOne(done.value, last, auto + n);
      UpdateOfUnion(db.ports, PortRows(front, None), ports[n].hostPort, PortRow(None, ports[n].purpose));
    }
  }

  lemma UpdateOfUnion<K, V>(base: map<K, V>, rows: map<K, V>, k: K, v: V)
    ensures (base + rows)[k := v] == base + rows[k := v]
    ensures (base + rows).Keys == base.Keys + rows.Keys
  {
  }

  lemma DistinctSnoc(ports: seq<PortMapping>)
    requires ports != []
    ensures var n := |ports| - 1;
            DistinctHosts(ports) <==> DistinctHosts(ports[..n]) && ports[n].hostPort !in FixedHostPorts(ports[..n])
  {
    var n := |ports| - 1;
    var front := ports[..n];
    forall i | 0 <= i < n ensures ports[i].hostPort in FixedHostPorts(front) {
      assert front[i] == ports[i];
    }
  }

  lemma {:induction false} PortRowsAttached(ports: seq<PortMapping>, row: int)
    ensures PortRows(ports, None).Keys == PortRows(ports, Some(row)).Keys
    ensures forall p :: p in PortRows(ports, None) ==> PortRows(ports, Some(row))[p] == PortRows(ports, None)[p].(owner := Some(row))
    decreases |ports|
  {
    if ports != [] {
      PortRowsAttached(ports[..|ports| - 1], row);
    }
  }

  // ---------- The container row ----------

  ghost predicate ContainerIdFree(db: Tables, containerId: string) {
    forall c :: c in db.containers ==> db.containers[c].containerId != containerId
  }

  lemma SubqueryFindsTheUser(db: Tables, username: string)
    requires UniqueUsernames(db) && HasUser(db, username)
    ensures var id := UserIdSubquery(db, username);
            id.Ok? && id.value.Some? && id.value.value in db.users && db.users[id.value.value].username == username
  {
    var i :| i in db.users && db.users[i].username == username;
    forall j | j in IdsNamed(db, {username}) ensures j == i {
      assert db.users[j].username == username;
    }
    assert i in IdsNamed(db, {username});
    assert IdsNamed(db, {username}) == {i};
    assert TheOnly({i}) in {i};
  }

  /** The last two statements: the container row owned by the user, and its ports attached to it. */
  lemma ContainerStage(db: Tables, r: Request, p: Plan, containerId: string, row: int, base: map<int, PortRow>)
    requires ParseDate(r.expiration).Some?
    requires row !in db.containers && db.ports == base + PortRows(p.ports, None) && base.Keys !! FixedHostPorts(p.ports)
    ensures var ss := [ContainerStatement(r, p, containerId), AttachPorts(row, FixedHostPorts(p.ports))];
            var done := ExecAll(db, ss, row);
            var user := UserIdSubquery(db, r.username);
            && (done.Ok? <==> user.Ok? && ContainerIdFree(db, containerId))
            && (done.Ok? ==> done.value == db.(
                  containers := db.containers[row := ContainerRow(containerId, p.containerName, r.server,
                                                                 ParseDate(r.expiration).value, true, user.value)],
                  ports := base + PortRows(p.ports, Some(row))))
  {
    var insert, attach := ContainerStatement(r, p, containerId), AttachPorts(row, FixedHostPorts(p.ports));
    ExecAllAppend(db, [insert], [attach], row);
    assert [insert] + [attach] == [insert, attach];
    ExecAllOne(db, insert, row);
    var first := Exec(db, insert, row);
    if first.Ok? {
      ExecAllOne(first.value, attach, row + 1);
      AttachedPorts(base, p.ports, row);
    }
  }

  lemma AttachedPorts(base: map<int, PortRow>, ports: seq<PortMapping>, row: int)
    requires base.Keys !! FixedHostPorts(ports)
    ensures var all := base + PortRows(ports, None);
            (map p | p in all :: if p in FixedHostPorts(ports) then all[p].(owner := Some(row)) else all[p])
            == base + PortRows(ports, Some(row))
  {
    PortRowsAttached(ports, row);
  }

  // ---------- What a committed create records ----------

  predicate IdStatement(s: Statement) {
    s.ReserveId? || s.InsertGroup? || s.UpsertUser? || s.UpsertIdentity?
  }

  /** Ids, groups and users only accumulate; a user row keeps its uid and username. */
  ghost predicate Grows(db: Tables, db': Tables) {
    && db.usedIds <= db'.usedIds
    && (forall g :: g in db.groups ==> g in db'.groups && db'.groups[g] == db.groups[g])
    && (forall i :: i in db.users ==>
          i in db'.users && db'.users[i].uid == db.users[i].uid && db'.users[i].username == db.users[i].username)
  }

  lemma {:induction false} IdStatementsGrow(db: Tables, ss: seq<Statement>, auto: int)
    requires ExecAll(db, ss, auto).Ok? && forall i :: 0 <= i < |ss| ==> IdStatement(ss[i])
    ensures var done := ExecAll(db, ss, auto).value;
            && Grows(db, done)
            && done.ports == db.ports && done.containers == db.containers && done.memberships == db.memberships
    decreases |ss|
  {
    if ss != [] {
      IdStatementGrows(db, ss[0], auto);
      IdStatementsGrow(Exec(db, ss[0], auto).value, ss[1..], auto + 1);
    }
  }

  lemma IdStatementGrows(db: Tables, s: Statement, auto: int)
    requires Exec(db, s, auto).Ok? && IdStatement(s)
    ensures var done := Exec(db, s, auto).value;
            && Grows(db, done)
            && done.ports == db.ports && done.containers == db.containers && done.memberships == db.memberships
  {
  }

  lemma UpsertLeavesUser(db: Tables, s: Statement, auto: int)
    requires s.UpsertUser? && Exec(db, s, auto).Ok?
    ensures HasUser(Exec(db, s, auto).value, s.username)
  {
    var db' := Exec(db, s, auto).value;
    if HasUser(db, s.username) {
      var i :| i in db.users && db.users[i].username == s.username;
      assert db'.users[i].username == s.username;
    } else {
      assert db'.users[auto].username == s.username;
    }
  }

  lemma IdentityKeepsUsers(db: Tables, r: Request, identity: Option<AdIdentity>, auto: int)
    requires ExecAll(db, IdentityStatements(r, identity), auto).Ok?
    ensures var done := ExecAll(db, IdentityStatements(r, identity), auto).value;
            done == db.(identities := done.identities)
  {
    if IdentityStatements(r, identity) != [] {
      ExecAllOne(db, UpsertIdentity(identity.value), auto);
    }
  }

  /** The tables once the id, group, user and identity statements have run. */
  function AfterIds(db: Tables, r: Request, p: Plan, identity: Option<AdIdentity>, auto: int): SqlResult {
    ExecAll(db, IdStatements(r, p) + IdentityStatements(r, identity), auto)
  }

  lemma AfterIdsHasUser(db: Tables, r: Request, p: Plan, identity: Option<AdIdentity>, auto: int)
    requires AfterIds(db, r, p, identity, auto).Ok?
    ensures var done := AfterIds(db, r, p, identity, auto).value;
            && HasUser(done, r.username) && Grows(db, done)
            && done.ports == db.ports && done.containers == db.containers && done.memberships == db.memberships
  {
    hide ExecAll;
    var ids, front, user := IdStatements(r, p), ReserveStatements(p) + GroupStatements(p), UserStatement(r, p);
    ExecAllAppend(db, ids, IdentityStatements(r, identity), auto);
    ExecAllAppend(db, front, [user], auto);
    var before := ExecAll(db, front, auto).value;
    ExecAllOne(before, user, auto + |front|);
    UpsertLeavesUser(before, user, auto + |front|);
    IdentityKeepsUsers(ExecAll(db, ids, auto).value, r, identity, auto + |ids|);
    IdStatementsGrow(db, ids + IdentityStatements(r, identity), auto);
  }

  lemma SubqueryOfExistingUser(db: Tables, username: string)
    requires HasUser(db, username) && UserIdSubquery(db, username).Ok?
    ensures var id := UserIdSubquery(db, username).value;
            id.Some? && id.value in db.users && db.users[id.value].username == username
  {
    var i :| i in db.users && db.users[i].username == username;
    assert i in IdsNamed(db, {username});
    UserIdSubqueryFinds(db, username);
  }

  /** The port statements and the last two, run on the tables the id part left. */
  function PortsAndContainer(ids: Tables, r: Request, p: Plan, containerId: string, row: int): SqlResult
    requires ParseDate(r.expiration).Some?
  {
    var ports := ExecAll(ids, PortStatements(p.ports), row - |p.ports|);
    if ports.Err? then ports
    else ExecAll(ports.value, [ContainerStatement(r, p, containerId), AttachPorts(row, FixedHostPorts(p.ports))], row)
  }

  lemma TxnStages(db: Tables, r: Request, p: Plan, identity: Option<AdIdentity>, containerId: string, auto: int)
    requires ParseDate(r.expiration).Some?
    ensures var ids := AfterIds(db, r, p, identity, auto);
            CreateTxn(db, r, p, identity, containerId, auto)
            == if ids.Err? then ids else PortsAndContainer(ids.value, r, p, containerId, ContainerRowId(r, p, identity, auto))
  {
    hide ExecAll;
    var row := ContainerRowId(r, p, identity, auto);
    var ids := IdStatements(r, p) + IdentityStatements(r, identity);
    var tail := [ContainerStatement(r, p, containerId), AttachPorts(row, FixedHostPorts(p.ports))];
    assert BeforeContainer(r, p, identity) == ids + PortStatements(p.ports);
    ExecAllAppend(db, BeforeContainer(r, p, identity), tail, auto);
    ExecAllAppend(db, ids, PortStatements(p.ports), auto);
  }

  lemma PortsAndContainerStage(ids: Tables, r: Request, p: Plan, containerId: string, row: int)
    requires ParseDate(r.expiration).Some? && row !in ids.containers
    ensures var done := PortsAndContainer(ids, r, p, containerId, row);
            var user := UserIdSubquery(ids, r.username);
            && (done.Ok? <==> PortsInsertable(ids, p.ports) && user.Ok? && ContainerIdFree(ids, containerId))
            && (done.Ok? ==> done.value == ids.(
                  containers := ids.containers[row := ContainerRow(containerId, p.containerName, r.server,
                                                                 ParseDate(r.expiration).value, true, user.value)],
                  ports := ids.ports + PortRows(p.ports, Some(row))))
  {
    hide ExecAll;
    PortStage(ids, p.ports, row - |p.ports|);
    if PortsInsertable(ids, p.ports) {
      ContainerAfterPorts(ids, r, p, containerId, row);
    }
  }

  lemma ContainerAfterPorts(ids: Tables, r: Request, p: Plan, containerId: string, row: int)
    requires ParseDate(r.expiration).Some? && row !in ids.containers && PortsInsertable(ids, p.ports)
    ensures var ports := ids.(ports := ids.ports + PortRows(p.ports, None));
            var ss := [ContainerStatement(r, p, containerId), AttachPorts(row, FixedHostPorts(p.ports))];
            var done := ExecAll(ports, ss, row);
            var user := UserIdSubquery(ids, r.username);
            && (done.Ok? <==> user.Ok? && ContainerIdFree(ids, containerId))
            && (done.Ok? ==> done.value == ids.(
                  containers := ids.containers[row := ContainerRow(containerId, p.containerName, r.server,
                                                                 ParseDate(r.expiration).value, true, user.value)],
                  ports := ids.ports + PortRows(p.ports, Some(row))))
  {
    var ports := ids.(ports := ids.ports + PortRows(p.ports, None));
    SubqueryReadsUsers(ports, ids, r.username);
    ContainerStage(ports, r, p, containerId, row, ids.ports);
  }

  lemma SubqueryReadsUsers(db: Tables, db': Tables, username: string)
    requires db.users == db'.users
    ensures UserIdSubquery(db, username) == UserIdSubquery(db', username)
  {
    assert IdsNamed(db, {username}) == IdsNamed(db', {username});
  }

  /** What success means: the user, its container and exactly the planned ports are all on record. */
  ghost predicate Recorded(db: Tables, db': Tables, r: Request, p: Plan, containerId: string, row: int)
    requires ParseDate(r.expiration).Some?
  {
    && Grows(db, db') && db'.memberships == db.memberships
    && row !in db.containers && ContainerIdFree(db, containerId)
    && PortsInsertable(db, p.ports) && db'.ports == db.ports + PortRows(p.ports, Some(row))
    && (exists owner :: && owner in db'.users && db'.users[owner].username == r.username
                        && db'.containers == db.containers[row := ContainerRow(
                             containerId, p.containerName, r.server, ParseDate(r.expiration).value, true, Some(owner))])
  }

  /** A committed create records all of it, whatever tables its plan was made from. */
  lemma CreateRecords(db: Tables, r: Request, p: Plan, identity: Option<AdIdentity>, containerId: string, auto: int)
    requires ParseDate(r.expiration).Some? && FreshFrom(db, auto)
    requires CreateTxn(db, r, p, identity, containerId, auto).Ok?
    ensures Recorded(db, CreateTxn(db, r, p, identity, containerId, auto).value, r, p, containerId,
                     ContainerRowId(r, p, identity, auto))
  {
    var row := ContainerRowId(r, p, identity, auto);
    TxnStages(db, r, p, identity, containerId, auto);
    AfterIdsHasUser(db, r, p, identity, auto);
    var ids := AfterIds(db, r, p, identity, auto).value;
    PortsAndContainerStage(ids, r, p, containerId, row);
    SubqueryOfExistingUser(ids, r.username);
    var done := CreateTxn(db, r, p, identity, containerId, auto).value;
    var owner := UserIdSubquery(ids, r.username).value.value;
    assert done.users == ids.users && owner in done.users && done.users[owner].username == r.username;
  }

  // ---------- Whose uid the container runs as ----------

  predicate LeavesUsers(s: Statement) {
    !s.UpsertUser? && !s.SetPrimaryGroup? && !s.DeleteUsers?
  }

  lemma {:induction false} UsersUntouched(db: Tables, ss: seq<Statement>, auto: int)
    requires ExecAll(db, ss, auto).Ok? && forall i :: 0 <= i < |ss| ==> LeavesUsers(ss[i])
    ensures ExecAll(db, ss, auto).value.users == db.users
    decreases |ss|
  {
    if ss != [] {
      OneLeavesUsers(db, ss[0], auto);
      UsersUntouched(Exec(db, ss[0], auto).value, ss[1..], auto + 1);
    }
  }

  lemma OneLeavesUsers(db: Tables, s: Statement, auto: int)
    requires Exec(db, s, auto).Ok? && LeavesUsers(s)
    ensures Exec(db, s, auto).value.users == db.users
  {
    hide UserIdSubquery, IdentityConflicts;
  }

  /** The users table after the transaction is the one the user statement leaves. */
  lemma UsersAfterCreate(db: Tables, r: Request, p: Plan, identity: Option<AdIdentity>, containerId: string, auto: int)
    requires ParseDate(r.expiration).Some? && CreateTxn(db, r, p, identity, containerId, auto).Ok?
    ensures var before := ExecAll(db, ReserveStatements(p) + GroupStatements(p), auto);
            && before.Ok? && before.value.users == db.users
            && var user := Exec(before.value, UserStatement(r, p), auto + |ReserveStatements(p) + GroupStatements(p)|);
            && user.Ok? && CreateTxn(db, r, p, identity, containerId, auto).value.users == user.value.users
  {
    hide ExecAll, Exec;
    var front, user := ReserveStatements(p) + GroupStatements(p), [UserStatement(r, p)];
    var row := ContainerRowId(r, p, identity, auto);
    var rest := IdentityStatements(r, identity) + PortStatements(p.ports)
                + [ContainerStatement(r, p, containerId), AttachPorts(row, FixedHostPorts(p.ports))];
    assert CreateStatements(r, p, identity, containerId, auto) == front + user + rest;
    ExecAllAppend(db, front + user, rest, auto);
    ExecAllAppend(db, front, user, auto);
    var before := ExecAll(db, front, auto).value;
    ExecAllOne(before, user[0], auto + |front|);
    UsersUntouched(db, front, auto);
    UsersUntouched(ExecAll(db, front + user, auto).value, rest, auto + |front + user|);
  }

  predicate LeavesIdentities(s: Statement) {
    !s.UpsertIdentity?
  }

  lemma {:induction false} IdentitiesUntouched(db: Tables, ss: seq<Statement>, auto: int)
    requires ExecAll(db, ss, auto).Ok? && forall i :: 0 <= i < |ss| ==> LeavesIdentities(ss[i])
    ensures ExecAll(db, ss, auto).value.identities == db.identities
    decreases |ss|
  {
    if ss != [] {
      OneLeavesIdentities(db, ss[0], auto);
      IdentitiesUntouched(Exec(db, ss[0], auto).value, ss[1..], auto + 1);
    }
  }

  lemma OneLeavesIdentities(db: Tables, s: Statement, auto: int)
    requires Exec(db, s, auto).Ok? && LeavesIdentities(s)
    ensures Exec(db, s, auto).value.identities == db.identities
  {
    hide UserIdSubquery, IdentityConflicts;
  }

  /** The identities after the transaction: as before, or with the record upserted beside the final users. */
  lemma IdentitiesAfterCreate(db: Tables, r: Request, p: Plan, identity: Option<AdIdentity>,
      containerId: string, auto: int)
    requires ParseDate(r.expiration).Some? && CreateTxn(db, r, p, identity, containerId, auto).Ok?
    ensures var done := CreateTxn(db, r, p, identity, containerId, auto).value;
            var ids := ExecAll(db, IdStatements(r, p), auto);
            && ids.Ok? && ids.value.users == done.users && ids.value.identities == db.identities
            && (if r.kerberos && identity.Some? then
                  var upserted := ExecUpsertIdentity(ids.value, identity.value);
                  upserted.Ok? && done.identities == upserted.value.identities
                else done.identities == db.identities)
  {
    hide ExecAll, Exec, ExecUpsertIdentity;
    var ids, upsert := IdStatements(r, p), IdentityStatements(r, identity);
    var row := ContainerRowId(r, p, identity, auto);
    var rest := PortStatements(p.ports) + [ContainerStatement(r, p, containerId), AttachPorts(row, FixedHostPorts(p.ports))];
    assert CreateStatements(r, p, identity, containerId, auto) == ids + upsert + rest;
    ExecAllAppend(db, ids + upsert, rest, auto);
    ExecAllAppend(db, ids, upsert, auto);
    var before := ExecAll(db, ids, auto).value;
    IdentitiesUntouched(db, ids, auto);
    UsersUntouched(before, upsert, auto + |ids|);
    var after := ExecAll(before, upsert, auto + |ids|).value;
    UsersUntouched(after, rest, auto + |ids + upsert|);
    IdentitiesUntouched(after, rest, auto + |ids + upsert|);
    if r.kerberos && identity.Some? {
      UpsertAlone(before, identity.value, auto + |ids|);
    } else {
      ExecAllNone(before, auto + |ids|);
    }
  }

  /** A committed record stands in some row, whole, under that row's username; every other row is as before. */
  lemma RecordIsStored(db: Tables, r: Request, p: Plan, record: AdIdentity, containerId: string, auto: int)
    requires ParseDate(r.expiration).Some? && CreateTxn(db, r, p, Some(record), containerId, auto).Ok? && r.kerberos
    ensures var done := CreateTxn(db, r, p, Some(record), containerId, auto).value;
            exists u :: && u in done.identities && done.identities[u].ad == record.(username := u)
                        && done.identities == db.identities[u := done.identities[u]]
  {
    hide CreateTxn, ExecAll, UserIdSubquery, IdentityConflicts;
    IdentitiesAfterCreate(db, r, p, Some(record), containerId, auto);
    var ids := ExecAll(db, IdStatements(r, p), auto).value;
    var row := IdentityRow(UserIdSubquery(ids, record.username).value, record);
    var conflicts := IdentityConflicts(ids, row);
    var u := if |conflicts| == 0 then record.username else TheOnly(conflicts);
    assert ExecUpsertIdentity(ids, record).value.identities == db.identities[u := row.(ad := record.(username := u))];
  }

  lemma UpsertAlone(db: Tables, record: AdIdentity, auto: int)
    ensures ExecAll(db, [UpsertIdentity(record)], auto) == ExecUpsertIdentity(db, record)
  {
    ExecAllOne(db, UpsertIdentity(record), auto);
  }

  /** The plan names the uid its user has, if the user is on record. */
  ghost predicate NamesTheUser(db: Tables, r: Request, p: Plan) {
    && p.existingUser == HasUser(db, r.username)
    && forall i :: i in db.users && db.users[i].username == r.username ==> db.users[i].uid == p.uid
  }

  /** Usernames stay unique, and the user the container belongs to has the planned name, uid and primary group. */
  lemma OwnerIsAsPlanned(db: Tables, r: Request, p: Plan, identity: Option<AdIdentity>, containerId: string, auto: int)
    requires ParseDate(r.expiration).Some? && CreateTxn(db, r, p, identity, containerId, auto).Ok?
    requires UniqueUsernames(db) && NamesTheUser(db, r, p)
    ensures var done := CreateTxn(db, r, p, identity, containerId, auto).value;
            && UniqueUsernames(done)
            && forall i :: i in done.users && done.users[i].username == r.username ==>
                 done.users[i] == UserRow(r.name, r.username, p.uid, Some(p.gid))
  {
    hide ExecAll;
    UsersAfterCreate(db, r, p, identity, containerId, auto);
    var front := ReserveStatements(p) + GroupStatements(p);
    var before := ExecAll(db, front, auto).value;
    ExecKeepsUsernames(before, UserStatement(r, p), auto + |front|);
    assert HasUser(before, r.username) == HasUser(db, r.username);
  }

  predicate LeavesGroups(s: Statement) {
    !s.InsertGroup? && !s.DeleteGroup? && !s.DeleteUnusedGroups?
  }

  lemma {:induction false} GroupsUntouched(db: Tables, ss: seq<Statement>, auto: int)
    requires ExecAll(db, ss, auto).Ok? && forall i :: 0 <= i < |ss| ==> LeavesGroups(ss[i])
    ensures ExecAll(db, ss, auto).value.groups == db.groups
    decreases |ss|
  {
    if ss != [] {
      OneLeavesGroups(db, ss[0], auto);
      GroupsUntouched(Exec(db, ss[0], auto).value, ss[1..], auto + 1);
    }
  }

  lemma OneLeavesGroups(db: Tables, s: Statement, auto: int)
    requires Exec(db, s, auto).Ok? && LeavesGroups(s)
    ensures Exec(db, s, auto).value.groups == db.groups
  {
    hide UserIdSubquery, IdentityConflicts;
  }

  lemma OnlyTheInsertTouchesGroups(r: Request, p: Plan, identity: Option<AdIdentity>, containerId: string, auto: int)
    requires ParseDate(r.expiration).Some? && !p.existingGroup
    ensures var all, n := CreateStatements(r, p, identity, containerId, auto), |ReserveStatements(p)|;
            && n < |all| && all[n] == InsertGroup(p.groupname, p.gid)
            && forall i :: n < i < |all| ==> LeavesGroups(all[i])
  {
  }

  /** A new group is on record under its planned gid. */
  lemma GroupIsAsPlanned(db: Tables, r: Request, p: Plan, identity: Option<AdIdentity>, containerId: string, auto: int)
    requires ParseDate(r.expiration).Some? && CreateTxn(db, r, p, identity, containerId, auto).Ok? && !p.existingGroup
    ensures var done := CreateTxn(db, r, p, identity, containerId, auto).value;
            exists g :: g in done.groups && done.groups[g] == GroupRow(p.groupname, p.gid)
  {
    hide CreateStatements, ReserveStatements, LeavesGroups;
    OnlyTheInsertTouchesGroups(r, p, identity, containerId, auto);
    var all, n := CreateStatements(r, p, identity, containerId, auto), |ReserveStatements(p)|;
    var front, insert, rest := all[..n], all[n], all[n + 1..];
    assert all == front + [insert] + rest;
    ExecAllAppend(db, front + [insert], rest, auto);
    ExecAllAppend(db, front, [insert], auto);
    var before := ExecAll(db, front, auto).value;
    ExecAllOne(before, insert, auto + n);
    GroupsUntouched(ExecAll(db, front + [insert], auto).value, rest, auto + n + 1);
    assert CreateTxn(db, r, p, identity, containerId, auto).value.groups[auto + n] == GroupRow(p.groupname, p.gid);
  }

  lemma PlannedNamesTheUser(db: Tables, r: Request, look: Lookups, facts: Facts, p: Plan)
    requires PlannedFrom(db, r, look, facts, p) && UniqueUsernames(db)
    ensures NamesTheUser(db, r, p)
  {
  }

  // ---------- Exactly when the schema refuses ----------

  function OwnerOnRecord(db: Tables, username: string): Option<int> {
    var id := UserIdSubquery(db, username);
    if id.Ok? then id.value else None
  }

  /** The record's upsert meets at most one row sharing its username, principal, object SID or user. */
  predicate RecordFits(db: Tables, record: AdIdentity) {
    |IdentityConflicts(db, IdentityRow(OwnerOnRecord(db, record.username), record))| <= 1
  }

  predicate IdentityFits(db: Tables, r: Request, identity: Option<AdIdentity>) {
    r.kerberos && identity.Some? ==> RecordFits(db, identity.value)
  }

  /** Whether the upsert is refused can be told before the transaction: a new user owns no identity row yet. */
  lemma UpsertFits(db: Tables, ids: Tables, record: AdIdentity)
    requires Valid(db) && UniqueUsernames(db) && Grows(db, ids) && ids.identities == db.identities
    requires UniqueUsernames(ids) && HasUser(ids, record.username)
    ensures ExecUpsertIdentity(ids, record).Ok? <==> RecordFits(db, record)
    ensures ExecUpsertIdentity(ids, record).Ok? ==>
      ExecUpsertIdentity(ids, record).value == ids.(identities := ExecUpsertIdentity(ids, record).value.identities)
  {
    SubqueryFindsTheUser(ids, record.username);
    var owner := UserIdSubquery(ids, record.username).value;
    if HasUser(db, record.username) {
      SubqueryFindsTheUser(db, record.username);
      var i := UserIdSubquery(db, record.username).value.value;
      assert i in db.users && i in ids.users && ids.users[i].username == record.username;
      assert i == owner.value;
      assert OwnerOnRecord(db, record.username) == Some(i);
    } else {
      forall i | i in db.users ensures db.users[i].username != record.username && i != owner.value {
        assert ids.users[i].username == db.users[i].username;
      }
      assert IdsNamed(db, {record.username}) == {};
      assert OwnerOnRecord(db, record.username) == None;
      assert forall u :: u in db.identities ==> db.identities[u].userId != owner;
    }
    var before, row := IdentityRow(OwnerOnRecord(db, record.username), record), IdentityRow(owner, record);
    forall u | u in db.identities ensures u in IdentityConflicts(ids, row) <==> u in IdentityConflicts(db, before) {
    }
    assert IdentityConflicts(ids, row) == IdentityConflicts(db, before);
  }

  /** The id statements and the upsert together: exactly when they succeed. */
  lemma AfterIdsExactly(db: Tables, r: Request, p: Plan, identity: Option<AdIdentity>, auto: int)
    requires Valid(db) && FreshFrom(db, auto) && UniqueUsernames(db) && PlanFits(db, r, p)
    requires identity.Some? ==> identity.value.username == r.username
    ensures AfterIds(db, r, p, identity, auto).Ok? <==> IdsInsertable(db, p) && IdentityFits(db, r, identity)
    ensures AfterIds(db, r, p, identity, auto).Ok? ==> UniqueUsernames(AfterIds(db, r, p, identity, auto).value)
  {
    hide ExecAll, Exec, ExecUpsertIdentity, Valid, RecordFits;
    var statements, upsert := IdStatements(r, p), IdentityStatements(r, identity);
    ExecAllAppend(db, statements, upsert, auto);
    IdStage(db, r, p, auto);
    if IdsInsertable(db, p) {
      var ids := ExecAll(db, statements, auto).value;
      assert statements + [] == statements;
      ExecAllNone(ids, auto + |statements|);
      AfterIdsHasUser(db, r, p, None, auto);
      IdentitiesUntouched(db, statements, auto);
      IdStatementsKeepUsernames(db, statements, auto);
      if r.kerberos && identity.Some? {
        UpsertAlone(ids, identity.value, auto + |statements|);
        UpsertFits(db, ids, identity.value);
      }
    }
  }

  /**
   Executed on the tables its plan fits, a create, with or without a Kerberos identity, is refused if and
   only if a new id belongs to someone else, a port is taken or repeated, the container id is on record,
   or the identity collides with two rows at once.
   */
  lemma RefusedExactly(db: Tables, r: Request, p: Plan, identity: Option<AdIdentity>, containerId: string, auto: int)
    requires Valid(db) && FreshFrom(db, auto) && UniqueUsernames(db)
    requires ParseDate(r.expiration).Some? && PlanFits(db, r, p)
    requires identity.Some? ==> identity.value.username == r.username
    ensures CreateTxn(db, r, p, identity, containerId, auto).Ok?
            <==> IdsInsertable(db, p) && IdentityFits(db, r, identity)
                 && PortsInsertable(db, p.ports) && ContainerIdFree(db, containerId)
  {
    hide ExecAll, PortsAndContainer, IdentityFits;
    TxnStages(db, r, p, identity, containerId, auto);
    AfterIdsExactly(db, r, p, identity, auto);
    if AfterIds(db, r, p, identity, auto).Ok? {
      AfterIdsHasUser(db, r, p, identity, auto);
      var ids := AfterIds(db, r, p, identity, auto).value;
      SubqueryFindsTheUser(ids, r.username);
      PortsAndContainerStage(ids, r, p, containerId, ContainerRowId(r, p, identity, auto));
    }
  }

  lemma {:induction false} IdStatementsKeepUsernames(db: Tables, ss: seq<Statement>, auto: int)
    requires UniqueUsernames(db) && ExecAll(db, ss, auto).Ok?
    ensures UniqueUsernames(ExecAll(db, ss, auto).value)
    decreases |ss|
  {
    if ss != [] {
      ExecKeepsUsernames(db, ss[0], auto);
      IdStatementsKeepUsernames(Exec(db, ss[0], auto).value, ss[1..], auto + 1);
    }
  }

  /** No single statement duplicates a username. */
  lemma ExecKeepsUsernames(db: Tables, s: Statement, auto: int)
    requires UniqueUsernames(db) && Exec(db, s, auto).Ok?
    ensures UniqueUsernames(Exec(db, s, auto).value)
  {
  }

  // ---------- The planner's guards suffice ----------

  lemma PlannedFits(db: Tables, r: Request, look: Lookups, facts: Facts, p: Plan)
    requires PlannedFrom(db, r, look, facts, p) && UniqueUsernames(db)
    ensures PlanFits(db, r, p)
  {
  }

  lemma PlannedPortsInsertable(db: Tables, r: Request, look: Lookups, facts: Facts, p: Plan)
    requires PlannedFrom(db, r, look, facts, p) && DistinctHosts(r.fixedPorts)
    ensures PortsInsertable(db, p.ports)
  {
    if r.fixedPorts == [] {
      var hosts := HostPorts(p.ports);
      forall i | 0 <= i < |p.ports| ensures p.ports[i].hostPort !in UsedPorts(db, facts) {
        assert hosts[i] in hosts;
      }
      forall i, j | 0 <= i < j < |p.ports| ensures p.ports[i].hostPort != p.ports[j].hostPort {
        assert hosts[i] < hosts[j];
      }
    }
  }

  /** For new and adopted-home identities the guards leave no id anyone else holds. */
  lemma PlannedIdsInsertable(db: Tables, r: Request, look: Lookups, facts: Facts, p: Plan)
    requires PlannedFrom(db, r, look, facts, p) && Valid(db) && p.source in {New, StorageHome}
    ensures IdsInsertable(db, p)
  {
    forall i | i in db.users ensures db.users[i].uid != p.uid && db.users[i].uid in db.usedIds {
      assert db.users[i].uid in Uids(db);
    }
    forall g | g in db.groups && !p.existingGroup ensures db.groups[g].gid != p.gid {
      assert db.groups[g].gid in Gids(db);
    }
  }

  /**
   For a user new to the database with an automatic or adopted id, whatever the group (existing,
   requested, private or fresh) and whatever the ports (automatic or validated fixed ones), the
   planner's guards alone imply that no id, group, user, port or container statement violates a key:
   the transaction is refused only if a Kerberos identity collides with two stored ones at once.
   */
  lemma GuardsSuffice(db: Tables, r: Request, look: Lookups, facts: Facts, p: Plan, identity: Option<AdIdentity>,
      containerId: string, auto: int)
    requires Valid(db) && UniqueUsernames(db) && FreshFrom(db, auto) && ContainerIdFree(db, containerId)
    requires PlannedFrom(db, r, look, facts, p) && DistinctHosts(r.fixedPorts) && p.source in {New, StorageHome}
    requires identity.Some? ==> identity.value.username == r.username
    ensures CreateTxn(db, r, p, identity, containerId, auto).Ok? <==> IdentityFits(db, r, identity)
  {
    PlannedFits(db, r, look, facts, p);
    PlannedIdsInsertable(db, r, look, facts, p);
    PlannedPortsInsertable(db, r, look, facts, p);
    RefusedExactly(db, r, p, identity, containerId, auto);
  }
}
