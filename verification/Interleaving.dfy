/**
 Runs in which any number of operators interleave. Each step is one write transaction whose plan may
 have been made from any earlier, by now stale, tables; it commits as a whole or changes nothing.
 */
module Interleaving {
  import opened Wrappers
  import opened Schema
  import opened Invariants
  import opened Calendar
  import opened DateText
  import opened PortAllocator
  import opened Planner
  import opened Transactions
  import opened CreateTransaction
  import GroupManagement
  import UserDeletion

  datatype Step =
    | Create(r: Request, p: Plan, identity: Option<AdIdentity>, containerId: string)
    | Release(row: int)
    | Extend(row: int, expires: StoredDate)
    | EnsureGroup(groupname: string, gid: int)
    | ChangeGroup(statement: Statement)
    | RemoveUsers(usernames: set<string>, gids: set<int>, uids: set<int>, dropGroups: bool, dropIds: bool)

  /** A step and whether every call it makes works; a fault anywhere aborts its transaction. */
  datatype Event = Event(step: Step, works: bool)

  /** The committed tables and the next generated row id. */
  datatype State = State(db: Tables, auto: int)

  predicate WellPosed(step: Step) {
    match step
    case Create(r, _, _, _) => ParseDate(r.expiration).Some?
    case ChangeGroup(s) =>
      s.SetPrimaryGroup? || s.InsertMembership? || s.DeleteMembership? || s.DeleteGroupMemberships? || s.DeleteGroup?
    case _ => true
  }

  predicate AllPosed(events: seq<Event>) {
    forall i :: 0 <= i < |events| ==> WellPosed(events[i].step)
  }

  function Statements(step: Step, auto: int): seq<Statement>
    requires WellPosed(step)
  {
    match step
    case Create(r, p, identity, containerId) => CreateStatements(r, p, identity, containerId, auto)
    case Release(row) => [DeletePorts(row), MarkDeleted(row)]
    case Extend(row, expires) => [UpdateExpiration(row, expires)]
    case EnsureGroup(groupname, gid) => GroupManagement.EnsureStatements(groupname, gid)
    case ChangeGroup(s) => [s]
    case RemoveUsers(usernames, gids, uids, dropGroups, dropIds) =>
      UserDeletion.DeletionStatements(usernames, gids, uids, dropGroups, dropIds)
  }

  function Attempt(s: State, step: Step): SqlResult
    requires WellPosed(step)
  {
    ExecAll(s.db, Statements(step, s.auto), s.auto)
  }

  predicate Commits(s: State, e: Event)
    requires WellPosed(e.step)
  {
    e.works && Attempt(s, e.step).Ok?
  }

  function Apply(s: State, e: Event): State
    requires WellPosed(e.step)
  {
    State(if Commits(s, e) then Attempt(s, e.step).value else s.db, s.auto + |Statements(e.step, s.auto)|)
  }

  function Run(s: State, events: seq<Event>): State
    requires AllPosed(events)
  {
    if events == [] then s else Apply(Run(s, events[..|events| - 1]), events[|events| - 1])
  }

  lemma RunNext(s: State, events: seq<Event>, k: nat)
    requires AllPosed(events) && k < |events|
    ensures Run(s, events[..k + 1]) == Apply(Run(s, events[..k]), events[k])
  {
    assert events[..k + 1][..k] == events[..k];
  }

  // ---------- The invariant of every run ----------

  /** Every port row belongs to an active container: none is unattached, none outlives its container. */
  ghost predicate Ledger(db: Tables) {
    forall p :: p in db.ports ==> db.ports[p].owner.Some? && Active(db, db.ports[p].owner.value)
  }

  ghost predicate Safe(s: State) {
    Valid(s.db) && FreshFrom(s.db, s.auto) && Ledger(s.db)
  }

  lemma ExecKeepsLedger(db: Tables, s: Statement, auto: int)
    requires Ledger(db) && FreshFrom(db, auto) && Exec(db, s, auto).Ok?
    requires !s.InsertPort? && !s.AttachPorts?
    requires s.MarkDeleted? ==> PortsOf(db, s.row) == {}
    ensures Ledger(Exec(db, s, auto).value)
  {
    hide UserIdSubquery, IdentityConflicts;
    var db' := Exec(db, s, auto).value;
    forall p | p in db'.ports ensures db'.ports[p].owner.Some? && Active(db', db'.ports[p].owner.value) {
      assert p in db.ports && db'.ports[p] == db.ports[p];
      if s.MarkDeleted? {
        assert p !in PortsOf(db, s.row);
      }
    }
  }

  lemma {:induction false} ExecAllKeepsLedger(db: Tables, ss: seq<Statement>, auto: int)
    requires Ledger(db) && FreshFrom(db, auto) && ExecAll(db, ss, auto).Ok?
    requires forall i :: 0 <= i < |ss| ==> !ss[i].InsertPort? && !ss[i].AttachPorts? && !ss[i].MarkDeleted?
    ensures Ledger(ExecAll(db, ss, auto).value)
    decreases |ss|
  {
    hide Exec;
    if ss != [] {
      ExecKeepsLedger(db, ss[0], auto);
      ExecKeepsFresh(db, ss[0], auto);
      ExecAllKeepsLedger(Exec(db, ss[0], auto).value, ss[1..], auto + 1);
    }
  }

  lemma CreateKeepsLedger(db: Tables, db': Tables, r: Request, p: Plan, containerId: string, row: int)
    requires ParseDate(r.expiration).Some? && Ledger(db) && Recorded(db, db', r, p, containerId, row)
    ensures Ledger(db')
  {
    forall h | h in db'.ports ensures db'.ports[h].owner.Some? && Active(db', db'.ports[h].owner.value) {
      if h in PortRows(p.ports, Some(row)) {
        PortRowsOwned(p.ports, Some(row), h);
      }
    }
  }

  lemma {:induction false} PortRowsOwned(ports: seq<PortMapping>, owner: Option<int>, h: int)
    requires h in PortRows(ports, owner)
    ensures PortRows(ports, owner)[h].owner == owner
    decreases |ports|
  {
    if ports != [] && h != ports[|ports| - 1].hostPort {
      PortRowsOwned(ports[..|ports| - 1], owner, h);
    }
  }

  lemma StepKeepsLedger(s: State, e: Event)
    requires Safe(s) && WellPosed(e.step) && Commits(s, e)
    ensures Ledger(Apply(s, e).db)
  {
    hide ExecAll;
    match e.step
    case Create(r, p, identity, containerId) =>
      CreateRecords(s.db, r, p, identity, containerId, s.auto);
      CreateKeepsLedger(s.db, Apply(s, e).db, r, p, containerId, ContainerRowId(r, p, identity, s.auto));
    case Release(row) =>
      ReleaseIs(s.db, row, s.auto);
    case _ =>
      ExecAllKeepsLedger(s.db, Statements(e.step, s.auto), s.auto);
  }

  lemma StepKeepsSafe(s: State, e: Event)
    requires Safe(s) && WellPosed(e.step)
    ensures Safe(Apply(s, e))
  {
    hide ExecAll, Statements, Valid;
    if Commits(s, e) {
      var ss := Statements(e.step, s.auto);
      ExecAllKeepsValid(s.db, ss, s.auto);
      ExecAllKeepsFresh(s.db, ss, s.auto);
      StepKeepsLedger(s, e);
    }
  }

  /**
   However the steps interleave and wherever faults strike: no two users share a uid, no two groups a
   gid, every foreign key holds, and every port row belongs to exactly one active container.
   */
  lemma {:induction false} RunIsSafe(s: State, events: seq<Event>)
    requires Safe(s) && AllPosed(events)
    ensures Safe(Run(s, events))
    decreases |events|
  {
    if events != [] {
      RunIsSafe(s, events[..|events| - 1]);
      StepKeepsSafe(Run(s, events[..|events| - 1]), events[|events| - 1]);
    }
  }

  // ---------- The port ledger ----------

  /** used_ports is the disjoint union of the active containers' ports; a deleted container holds none. */
  lemma PortsAreTheActiveContainers(s: State, events: seq<Event>)
    requires Safe(s) && AllPosed(events)
    ensures var db := Run(s, events).db;
            && (forall p :: p in db.ports <==> exists c :: Active(db, c) && p in PortsOf(db, c))
            && (forall c, d :: c != d ==> PortsOf(db, c) !! PortsOf(db, d))
            && (forall c :: !Active(db, c) ==> PortsOf(db, c) == {})
  {
    RunIsSafe(s, events);
    var db := Run(s, events).db;
    forall p | p in db.ports ensures exists c :: Active(db, c) && p in PortsOf(db, c) {
      assert p in PortsOf(db, db.ports[p].owner.value);
    }
  }

  /** The ports a step adds to the ledger when it commits. */
  function Gained(s: State, e: Event): set<int>
    requires WellPosed(e.step)
  {
    if Commits(s, e) && e.step.Create? then FixedHostPorts(e.step.p.ports) else {}
  }

  /** The ports a step takes off the ledger when it commits. */
  function Freed(s: State, e: Event): set<int>
    requires WellPosed(e.step)
  {
    if !Commits(s, e) then {}
    else if e.step.Release? then PortsOf(s.db, e.step.row)
    else if e.step.RemoveUsers? then PortsOfUsers(s.db, e.step.usernames)
    else {}
  }

  predicate LeavesPorts(s: Statement) {
    !s.InsertPort? && !s.AttachPorts? && !s.DeletePorts? && !s.DeletePortsOfUsers?
  }

  lemma {:induction false} PortsUntouched(db: Tables, ss: seq<Statement>, auto: int)
    requires ExecAll(db, ss, auto).Ok? && forall i :: 0 <= i < |ss| ==> LeavesPorts(ss[i])
    ensures ExecAll(db, ss, auto).value.ports == db.ports
    decreases |ss|
  {
    if ss != [] {
      OnePortsUntouched(db, ss[0], auto);
      PortsUntouched(Exec(db, ss[0], auto).value, ss[1..], auto + 1);
    }
  }

  lemma OnePortsUntouched(db: Tables, s: Statement, auto: int)
    requires Exec(db, s, auto).Ok? && LeavesPorts(s)
    ensures Exec(db, s, auto).value.ports == db.ports
  {
    hide UserIdSubquery, IdentityConflicts;
  }

  lemma RemovalFrees(db: Tables, ss: seq<Statement>, usernames: set<string>, auto: int)
    requires |ss| > 0 && ss[0] == DeletePortsOfUsers(usernames)
    requires ExecAll(db, ss, auto).Ok? && forall i :: 1 <= i < |ss| ==> LeavesPorts(ss[i])
    ensures ExecAll(db, ss, auto).value.ports.Keys == db.ports.Keys - PortsOfUsers(db, usernames)
  {
    PortsUntouched(Exec(db, ss[0], auto).value, ss[1..], auto + 1);
  }

  lemma CreateAddsPorts(s: State, e: Event)
    requires Safe(s) && WellPosed(e.step) && e.step.Create? && Commits(s, e)
    ensures var added := FixedHostPorts(e.step.p.ports);
            && Apply(s, e).db.ports.Keys == s.db.ports.Keys + added
            && added !! s.db.ports.Keys && |added| == |e.step.p.ports|
  {
    hide ExecAll, CreateStatements;
    var Create(r, p, identity, containerId) := e.step;
    CreateRecords(s.db, r, p, identity, containerId, s.auto);
    DistinctCount(p.ports);
  }

  /** A committed step adds new ports only, and frees exactly the ports of the rows it releases. */
  lemma StepPorts(s: State, e: Event)
    requires Safe(s) && WellPosed(e.step)
    ensures Apply(s, e).db.ports.Keys == s.db.ports.Keys + Gained(s, e) - Freed(s, e)
    ensures Gained(s, e) !! s.db.ports.Keys && Freed(s, e) <= s.db.ports.Keys
    ensures Gained(s, e) == {} || Freed(s, e) == {}
    ensures Commits(s, e) && e.step.Create? ==> |Gained(s, e)| == |e.step.p.ports|
  {
    hide Statements, Safe;
    if Commits(s, e) {
      if e.step.Create? {
        CreateAddsPorts(s, e);
      } else {
        OtherStepsPorts(s, e);
      }
    }
  }

  lemma OtherStepsPorts(s: State, e: Event)
    requires WellPosed(e.step) && !e.step.Create? && Commits(s, e)
    ensures Apply(s, e).db.ports.Keys == s.db.ports.Keys - Freed(s, e)
  {
    hide ExecAll, CreateStatements, Exec;
    if e.step.Release? {
      var row := e.step.row;
      ReleaseIs(s.db, row, s.auto);
      assert Released(s.db, row).ports.Keys == s.db.ports.Keys - PortsOf(s.db, row);
    } else if e.step.RemoveUsers? {
      RemovalFrees(s.db, Statements(e.step, s.auto), e.step.usernames, s.auto);
    } else {
      PortsUntouched(s.db, Statements(e.step, s.auto), s.auto);
    }
  }

  lemma {:induction false} DistinctCount(ports: seq<PortMapping>)
    requires DistinctHosts(ports)
    ensures |FixedHostPorts(ports)| == |ports|
    decreases |ports|
  {
    if ports != [] {
      HostPortsSnoc(ports);
      DistinctSnoc(ports);
      DistinctCount(ports[..|ports| - 1]);
    } else {
      assert FixedHostPorts(ports) == {};
    }
  }

  /** The ports allocated minus the ports freed over a run. */
  function Balance(s: State, events: seq<Event>): int
    requires AllPosed(events)
  {
    if events == [] then 0
    else
      var n := |events| - 1;
      var before := Run(s, events[..n]);
      Balance(s, events[..n]) + |Gained(before, events[n])| - |Freed(before, events[n])|
  }

  /** The number of port rows changes by exactly the ports allocated and freed. */
  lemma {:induction false} PortsConserved(s: State, events: seq<Event>)
    requires Safe(s) && AllPosed(events)
    ensures |Run(s, events).db.ports| == |s.db.ports| + Balance(s, events)
    decreases |events|
  {
    if events != [] {
      var n := |events| - 1;
      var before, after := Run(s, events[..n]), Run(s, events);
      PortsConserved(s, events[..n]);
      RunIsSafe(s, events[..n]);
      StepPorts(before, events[n]);
      var gained, freed := Gained(before, events[n]), Freed(before, events[n]);
      assert |before.db.ports.Keys + gained| == |before.db.ports.Keys| + |gained|;
      assert freed <= before.db.ports.Keys + gained;
      assert |before.db.ports.Keys + gained - freed| == |before.db.ports.Keys| + |gained| - |freed|;
      assert |after.db.ports| == |after.db.ports.Keys| && |before.db.ports| == |before.db.ports.Keys|;
    }
  }

  // ---------- Reserved ids ----------

  /** The only step that can give an id back. */
  predicate DropsIds(step: Step) {
    step.RemoveUsers? && step.dropIds
  }

  lemma {:induction false} IdsOnlyGrow(db: Tables, ss: seq<Statement>, auto: int)
    requires ExecAll(db, ss, auto).Ok? && forall i :: 0 <= i < |ss| ==> !ss[i].DeleteUnusedIds?
    ensures db.usedIds <= ExecAll(db, ss, auto).value.usedIds
    ensures forall v :: v != 0 && ReserveId(v) in ss ==> v !in db.usedIds && v in ExecAll(db, ss, auto).value.usedIds
    decreases |ss|
  {
    if ss != [] {
      OneGrows(db, ss[0], auto);
      IdsOnlyGrow(Exec(db, ss[0], auto).value, ss[1..], auto + 1);
      forall v | v != 0 && ReserveId(v) in ss
        ensures v !in db.usedIds && v in ExecAll(db, ss, auto).value.usedIds
      {
        assert ss[0] == ReserveId(v) || ReserveId(v) in ss[1..];
      }
    }
  }

  lemma OneGrows(db: Tables, s: Statement, auto: int)
    requires Exec(db, s, auto).Ok? && !s.DeleteUnusedIds?
    ensures db.usedIds <= Exec(db, s, auto).value.usedIds
    ensures s.ReserveId? && s.value != 0 ==> s.value !in db.usedIds && s.value in Exec(db, s, auto).value.usedIds
  {
    hide UserIdSubquery, IdentityConflicts;
  }

  predicate Reserves(s: State, e: Event, v: int)
    requires WellPosed(e.step)
  {
    Commits(s, e) && ReserveId(v) in Statements(e.step, s.auto)
  }

  lemma NoIdsDropped(step: Step, auto: int)
    requires WellPosed(step) && !DropsIds(step)
    ensures forall i :: 0 <= i < |Statements(step, auto)| ==> !Statements(step, auto)[i].DeleteUnusedIds?
  {
  }

  lemma StepIds(s: State, e: Event)
    requires WellPosed(e.step) && !(Commits(s, e) && DropsIds(e.step))
    ensures s.db.usedIds <= Apply(s, e).db.usedIds
    ensures forall v :: v != 0 && Reserves(s, e, v) ==> v !in s.db.usedIds && v in Apply(s, e).db.usedIds
  {
    hide ExecAll, Exec, Statements;
    if Commits(s, e) {
      NoIdsDropped(e.step, s.auto);
      IdsOnlyGrow(s.db, Statements(e.step, s.auto), s.auto);
    }
  }

  /** A step of the run that gave ids back. */
  predicate GivesIdsBack(s: State, events: seq<Event>, k: nat)
    requires AllPosed(events) && k < |events|
  {
    Commits(Run(s, events[..k]), events[k]) && DropsIds(events[k].step)
  }

  lemma {:induction false} UsedIdsGrow(s: State, events: seq<Event>, i: nat, j: nat)
    requires AllPosed(events) && i <= j <= |events|
    requires forall k :: i <= k < j ==> !GivesIdsBack(s, events, k)
    ensures Run(s, events[..i]).db.usedIds <= Run(s, events[..j]).db.usedIds
    decreases j
  {
    hide Run, Apply, Attempt, Statements;
    if i < j {
      UsedIdsGrow(s, events, i, j - 1);
      RunNext(s, events, j - 1);
      assert !GivesIdsBack(s, events, j - 1);
      StepIds(Run(s, events[..j - 1]), events[j - 1]);
    }
  }

  /**
   Unless users were deleted together with their ids, an automatically chosen uid or gid was never the
   id of any user or group at any earlier point of the run, groups deleted since included.
   */
  lemma AutomaticIdsNeverReissued(s: State, events: seq<Event>, i: nat, r: Request, look: Lookups,
      facts: Facts, p: Plan)
    requires Safe(s) && AllPosed(events) && i <= |events|
    requires forall k :: i <= k < |events| ==> !GivesIdsBack(s, events, k)
    requires PlannedFrom(Run(s, events).db, r, look, facts, p)
    ensures var then_ := Run(s, events[..i]).db;
            && (p.source == New ==> p.uid !in Uids(then_) + Gids(then_))
            && (!p.existingGroup && r.requestedGid.None? && facts.storageIdentity.None? && p.groupname != r.username ==>
                  p.gid !in Uids(then_) + Gids(then_))
  {
    RunIsSafe(s, events[..i]);
    UsedIdsGrow(s, events, i, |events|);
    assert events[..|events|] == events;
    AutomaticIdsAreFresh(Run(s, events).db, r, look, facts, p);
  }

  /** Two commits that reserve the same id have a step between them that gave ids back. */
  lemma SameIdReservedTwice(s: State, events: seq<Event>, i: nat, j: nat, v: int)
    requires AllPosed(events) && i < j < |events| && v != 0
    requires Reserves(Run(s, events[..i]), events[i], v) && Reserves(Run(s, events[..j]), events[j], v)
    ensures exists k :: i < k < j && GivesIdsBack(s, events, k)
  {
    hide Run, Apply, Commits, Statements, Reserves;
    RunNext(s, events, i);
    ReserversKeepIds(Run(s, events[..i]), events[i], v);
    ReserversKeepIds(Run(s, events[..j]), events[j], v);
    StepIds(Run(s, events[..i]), events[i]);
    StepIds(Run(s, events[..j]), events[j]);
    if forall k :: i < k < j ==> !GivesIdsBack(s, events, k) {
      UsedIdsGrow(s, events, i + 1, j);
      assert false;
    }
  }

  lemma ReserversKeepIds(s: State, e: Event, v: int)
    requires WellPosed(e.step) && Reserves(s, e, v)
    ensures !DropsIds(e.step)
  {
    hide ExecAll;
  }

  // ---------- Contention ----------

  /** A step of the run that took a port off the ledger. */
  predicate FreesPort(s: State, events: seq<Event>, k: nat, port: int)
    requires AllPosed(events) && k < |events|
  {
    port in Freed(Run(s, events[..k]), events[k])
  }

  lemma {:induction false} PortHeldUntilFreed(s: State, events: seq<Event>, i: nat, j: nat, port: int)
    requires Safe(s) && AllPosed(events) && i <= j <= |events|
    requires port in Run(s, events[..i]).db.ports
    requires forall k :: i <= k < j ==> !FreesPort(s, events, k, port)
    ensures port in Run(s, events[..j]).db.ports
    decreases j
  {
    hide Safe, Gained, Freed, Apply, Run;
    if i < j {
      PortHeldUntilFreed(s, events, i, j - 1, port);
      RunNext(s, events, j - 1);
      RunIsSafe(s, events[..j - 1]);
      StepPorts(Run(s, events[..j - 1]), events[j - 1]);
      assert !FreesPort(s, events, j - 1, port);
    }
  }

  predicate CreatesWith(s: State, events: seq<Event>, k: nat, port: int)
    requires AllPosed(events) && k < |events|
  {
    port in Gained(Run(s, events[..k]), events[k])
  }

  /** Two committed creates hold the same host port only if it was released in between. */
  lemma SamePortCommittedTwice(s: State, events: seq<Event>, i: nat, j: nat, port: int)
    requires Safe(s) && AllPosed(events) && i < j < |events|
    requires CreatesWith(s, events, i, port) && CreatesWith(s, events, j, port)
    ensures exists k :: i < k < j && FreesPort(s, events, k, port)
  {
    hide Safe, Gained, Freed, Apply, Run;
    RunNext(s, events, i);
    RunIsSafe(s, events[..i]);
    RunIsSafe(s, events[..j]);
    StepPorts(Run(s, events[..i]), events[i]);
    StepPorts(Run(s, events[..j]), events[j]);
    if forall k :: i < k < j ==> !FreesPort(s, events, k, port) {
      PortHeldUntilFreed(s, events, i + 1, j, port);
      assert false;
    }
  }

  /** Whether two plans would both reserve some id or both insert some port. */
  ghost predicate Contend(p: Plan, q: Plan) {
    || (exists v :: v != 0 && ReserveId(v) in ReserveStatements(p) && ReserveId(v) in ReserveStatements(q))
    || FixedHostPorts(p.ports) * FixedHostPorts(q.ports) != {}
  }

  /** A step of the run that gave an id or a port back. */
  ghost predicate GivesBack(s: State, events: seq<Event>, k: nat)
    requires AllPosed(events) && k < |events|
  {
    GivesIdsBack(s, events, k) || exists port :: FreesPort(s, events, k, port)
  }

  lemma ContendersCommitTwice(s: State, events: seq<Event>, i: nat, j: nat)
    requires Safe(s) && AllPosed(events) && i < j < |events|
    requires events[i].step.Create? && events[j].step.Create? && Contend(events[i].step.p, events[j].step.p)
    requires Commits(Run(s, events[..i]), events[i]) && Commits(Run(s, events[..j]), events[j])
    ensures exists k :: i < k < j && GivesBack(s, events, k)
  {
    hide Commits, Statements;
    var p, q := events[i].step.p, events[j].step.p;
    if v :| v != 0 && ReserveId(v) in ReserveStatements(p) && ReserveId(v) in ReserveStatements(q) {
      ReservationsAreStatements(events[i].step, Run(s, events[..i]).auto, v);
      ReservationsAreStatements(events[j].step, Run(s, events[..j]).auto, v);
      SameIdReservedTwice(s, events, i, j, v);
      var k :| i < k < j && GivesIdsBack(s, events, k);
      assert GivesBack(s, events, k);
    } else {
      var port :| port in FixedHostPorts(p.ports) * FixedHostPorts(q.ports);
      SamePortCommittedTwice(s, events, i, j, port);
      var k :| i < k < j && FreesPort(s, events, k, port);
      assert GivesBack(s, events, k);
    }
  }

  /**
   Of two creates that planned the same fresh id or the same port at most one commits while nothing is
   given back in between, and the loser leaves the tables as they were.
   */
  lemma LoserChangesNothing(s: State, events: seq<Event>, i: nat, j: nat)
    requires Safe(s) && AllPosed(events) && i < j < |events|
    requires events[i].step.Create? && events[j].step.Create? && Contend(events[i].step.p, events[j].step.p)
    requires Commits(Run(s, events[..i]), events[i])
    requires forall k :: i < k < j ==> !GivesBack(s, events, k)
    ensures Run(s, events[..j + 1]).db == Run(s, events[..j]).db
  {
    hide Statements, Contend, Safe, ExecAll;
    RunNext(s, events, j);
    if Commits(Run(s, events[..j]), events[j]) {
      ContendersCommitTwice(s, events, i, j);
      assert false;
    }
  }

  lemma ReservationsAreStatements(step: Step, auto: int, v: int)
    requires step.Create? && WellPosed(step) && ReserveId(v) in ReserveStatements(step.p)
    ensures ReserveId(v) in Statements(step, auto)
  {
    var ss := ReserveStatements(step.p);
    var k :| 0 <= k < |ss| && ss[k] == ReserveId(v);
    assert Statements(step, auto)[k] == ss[k];
  }

  /** Two plans for different new users made from the same tables contend for the same uid. */
  lemma StalePlansContend(db: Tables, r1: Request, l1: Lookups, f1: Facts, p1: Plan, r2: Request, l2: Lookups,
      f2: Facts, p2: Plan)
    requires PlannedFrom(db, r1, l1, f1, p1) && PlannedFrom(db, r2, l2, f2, p2)
    requires p1.source == New && p2.source == New
    requires r1.kerberos == r2.kerberos && f1.adIds == f2.adIds
    ensures p1.uid == p2.uid && Contend(p1, p2)
  {
    AutomaticIdsAreFresh(db, r1, l1, f1, p1);
    AutomaticIdsAreFresh(db, r2, l2, f2, p2);
    var ss1, ss2 := ReserveStatements(p1), ReserveStatements(p2);
    assert ss1[0] == ReserveId(p1.uid) && ss2[0] == ReserveId(p1.uid);
  }
}
