/** `ContainerCreateService.prepare`: validating a request and choosing its ports, uid and gid from reads. */
module Planner {
  import opened Wrappers
  import opened Schema
  import opened Calendar
  import opened DateText
  import opened PortAllocator
  import opened Repositories

  const MANAGED_ID_MINIMUM := 10000
  const NOBODY_ID := 65534

  /** Empty texts are absent options. */
  datatype Request = Request(
    name: string, username: string, groupname: string, server: Server, expiration: string,
    containerName: string, createdBy: string,
    additionalPorts: seq<int>, fixedPorts: seq<PortMapping>, vnc: bool,
    kerberos: bool, adUsername: string,
    requestedUid: Option<int>, requestedGid: Option<int>,
    dryRun: bool, noDbRecord: bool)

  datatype Source = FromDb | Requested | FromAd | StorageHome | New

  /** What the planner reads outside the database. */
  datatype Facts = Facts(
    livePorts: set<int>, adIdentity: Option<(int, int)>, storageIdentity: Option<(int, int)>, adIds: set<int>)

  /** The rows `find_user` and `find_group` returned. */
  datatype Lookups = Lookups(user: Option<UserRow>, group: Option<GroupRow>)

  datatype Plan = Plan(
    uid: int, gid: int, source: Source, groupname: string, adUsername: string, containerName: string,
    existingUser: bool, existingGroup: bool, uidReserved: bool, gidReserved: bool, ports: seq<PortMapping>)

  datatype PlanError = BadRequest | PortsUnavailable | IdConflict | AdoptionRefused | AdMismatch | ReadFailed

  // ---------- Request validation ----------

  predicate IsNameStart(c: char) {
    'A' <= c <= 'Z' || 'a' <= c <= 'z' || c == '_'
  }

  predicate IsNameChar(c: char) {
    IsNameStart(c) || '0' <= c <= '9' || c in {'.', '-'}
  }

  /** `^[A-Za-z_][A-Za-z0-9_.-]{0,63}$`. */
  predicate IdentityName(s: string) {
    0 < |s| <= 64 && IsNameStart(s[0]) && forall i :: 0 <= i < |s| ==> IsNameChar(s[i])
  }

  function GroupName(r: Request): string {
    if r.groupname != "" then r.groupname else r.username
  }

  function AdName(r: Request): string {
    if r.adUsername != "" then r.adUsername else r.username
  }

  function ContainerName(r: Request): string {
    if r.containerName != "" then r.containerName else r.username + "_by_" + r.createdBy
  }

  predicate WellFormed(r: Request) {
    && (r.adUsername != "" ==> r.kerberos)
    && r.server.number > 0
    && IdentityName(r.username) && IdentityName(GroupName(r)) && (r.kerberos ==> IdentityName(AdName(r)))
    && ParseDate(r.expiration).Some?
  }

  predicate ManagedId(id: int) {
    id >= MANAGED_ID_MINIMUM && id != NOBODY_ID
  }

  // ---------- Ports ----------

  function FixedHostPorts(ms: seq<PortMapping>): set<int> {
    set i | 0 <= i < |ms| :: ms[i].hostPort
  }

  function UsedPorts(db: Tables, facts: Facts): set<int> {
    db.ports.Keys + facts.livePorts
  }

  predicate FixedPortsUsable(used: set<int>, r: Request) {
    && FixedHostPorts(r.fixedPorts) !! used
    && r.additionalPorts == []
    && (r.vnc ==> exists i :: 0 <= i < |r.fixedPorts| && r.fixedPorts[i].containerPort == 6080)
  }

  /** Whether a port plan exists, from the used ports alone. */
  predicate PortsPlannable(used: set<int>, r: Request) {
    if r.fixedPorts != [] then FixedPortsUsable(used, r)
    else |FreeSet(r.server.number, used)| >= 2 + (if r.vnc then 1 else 0) + |r.additionalPorts|
  }

  ghost predicate PortsPlanned(used: set<int>, r: Request, ports: seq<PortMapping>) {
    if r.fixedPorts != [] then ports == r.fixedPorts && FixedPortsUsable(used, r)
    else Allocated(ports, r.server.number, used, r.additionalPorts, r.vnc)
  }

  // ---------- Identities ----------

  predicate UidTaken(db: Tables, uid: int, username: string) {
    exists i :: i in db.users && db.users[i].uid == uid && db.users[i].username != username
  }

  predicate GidTaken(db: Tables, gid: int, groupname: string) {
    exists g :: g in db.groups && db.groups[g].gid == gid && db.groups[g].name != groupname
  }

  /** The guards on explicitly requested ids. */
  predicate RequestedIdsOk(db: Tables, r: Request, look: Lookups) {
    && (r.requestedUid.Some? ==>
          && ManagedId(r.requestedUid.value) && !UidTaken(db, r.requestedUid.value, r.username)
          && (look.user.Some? ==> look.user.value.uid == r.requestedUid.value))
    && (r.requestedGid.Some? ==>
          && ManagedId(r.requestedGid.value) && !GidTaken(db, r.requestedGid.value, GroupName(r))
          && (look.group.Some? ==> look.group.value.gid == r.requestedGid.value))
  }

  /** The least value at or above `start` outside `avoid`. */
  function SkipUsed(start: int, avoid: set<int>): (v: int)
    ensures v >= start && v !in avoid
    ensures forall w :: start <= w < v ==> w in avoid
    decreases |set w | w in avoid && w >= start|
  {
    if start in avoid then
      SkipShrinks(start, avoid);
      SkipUsed(start + 1, avoid)
    else start
  }

  lemma SkipShrinks(start: int, avoid: set<int>)
    requires start in avoid
    ensures |set w | w in avoid && w >= start + 1| < |set w | w in avoid && w >= start|
  {
    var longer := set w | w in avoid && w >= start;
    assert (set w | w in avoid && w >= start + 1) == longer - {start};
  }

  function ChooseUid(db: Tables, r: Request, look: Lookups, facts: Facts): (int, Source) {
    if look.user.Some? then (look.user.value.uid, FromDb)
    else if r.requestedUid.Some? then (r.requestedUid.value, Requested)
    else if facts.adIdentity.Some? then (facts.adIdentity.value.0, FromAd)
    else if facts.storageIdentity.Some? then (facts.storageIdentity.value.0, StorageHome)
    else
      var next := NextAvailableId(db, MANAGED_ID_MINIMUM);
      (if r.kerberos then SkipUsed(next, facts.adIds) else next, New)
  }

  function ChooseGid(db: Tables, r: Request, look: Lookups, facts: Facts, uid: int): int {
    if look.group.Some? then look.group.value.gid
    else if r.requestedGid.Some? then r.requestedGid.value
    else if GroupName(r) == r.username && facts.adIdentity.Some? then facts.adIdentity.value.1
    else if facts.storageIdentity.Some? then facts.storageIdentity.value.1
    else if GroupName(r) == r.username then uid
    else
      var next := NextAvailableId(db, MANAGED_ID_MINIMUM);
      if r.kerberos then SkipUsed(next, facts.adIds + {uid}) else next
  }

  /** `_validate_adopted_storage_identity`. */
  predicate AdoptionOk(db: Tables, r: Request, facts: Facts, uid: int, gid: int) {
    facts.storageIdentity.Some? ==>
      && (uid, gid) == facts.storageIdentity.value
      && ManagedId(uid) && ManagedId(gid)
      && !UidTaken(db, uid, r.username) && !GidTaken(db, gid, GroupName(r))
  }

  predicate AdAgrees(r: Request, facts: Facts) {
    facts.adIdentity.Some? ==>
      && (r.requestedUid.Some? ==> r.requestedUid.value == facts.adIdentity.value.0)
      && (r.requestedGid.Some? ==> r.requestedGid.value == facts.adIdentity.value.1)
  }

  /** When the identity facts are read at all. */
  ghost predicate FactsRead(r: Request, look: Lookups, facts: Facts) {
    && (facts.adIdentity.Some? ==> r.kerberos)
    && (facts.storageIdentity.Some? ==> look.user.None? && r.server.domain == LAB)
  }

  ghost predicate Found(db: Tables, r: Request, look: Lookups) {
    && (look.user.Some? ==> exists i :: i in db.users && db.users[i] == look.user.value && db.users[i].username == r.username)
    && (look.user.None? ==> !HasUser(db, r.username))
    && (look.group.Some? ==> exists g :: g in db.groups && db.groups[g] == look.group.value && db.groups[g].name == GroupName(r))
    && (look.group.None? ==> !HasGroup(db, GroupName(r)))
  }

  /** The whole set of guards of `prepare`. */
  ghost predicate Acceptable(db: Tables, r: Request, look: Lookups, facts: Facts) {
    var uid := ChooseUid(db, r, look, facts).0;
    var gid := ChooseGid(db, r, look, facts, uid);
    && WellFormed(r)
    && PortsPlannable(UsedPorts(db, facts), r)
    && RequestedIdsOk(db, r, look)
    && AdoptionOk(db, r, facts, uid, gid)
    && AdAgrees(r, facts)
  }

  ghost predicate PlannedFrom(db: Tables, r: Request, look: Lookups, facts: Facts, p: Plan) {
    var choice := ChooseUid(db, r, look, facts);
    && Found(db, r, look) && FactsRead(r, look, facts) && Acceptable(db, r, look, facts)
    && PortsPlanned(UsedPorts(db, facts), r, p.ports)
    && p.uid == choice.0 && p.source == choice.1 && p.gid == ChooseGid(db, r, look, facts, p.uid)
    && p.groupname == GroupName(r) && p.adUsername == AdName(r) && p.containerName == ContainerName(r)
    && p.existingUser == look.user.Some? && p.existingGroup == look.group.Some?
    && p.uidReserved == (p.uid in db.usedIds) && p.gidReserved == (p.gid in db.usedIds)
  }

  // ---------- Why a request is refused, and what a plan owes it ----------

  const CAPITALS := {
    'A', 'B', 'C', 'D', 'E', 'F', 'G', 'H', 'I', 'J', 'K', 'L', 'M',
    'N', 'O', 'P', 'Q', 'R', 'S', 'T', 'U', 'V', 'W', 'X', 'Y', 'Z'}

  const SMALL_LETTERS := {
    'a', 'b', 'c', 'd', 'e', 'f', 'g', 'h', 'i', 'j', 'k', 'l', 'm',
    'n', 'o', 'p', 'q', 'r', 's', 't', 'u', 'v', 'w', 'x', 'y', 'z'}

  const DIGITS := {'0', '1', '2', '3', '4', '5', '6', '7', '8', '9'}

  /** The characters of `IDENTITY_RE`, listed. */
  lemma NameCharacters(c: char)
    ensures IsNameStart(c) <==> c in CAPITALS + SMALL_LETTERS + {'_'}
    ensures IsNameChar(c) <==> c in CAPITALS + SMALL_LETTERS + DIGITS + {'_', '.', '-'}
  {
    assert 'A' <= c <= 'Z' <==> c in CAPITALS;
    assert 'a' <= c <= 'z' <==> c in SMALL_LETTERS;
    assert '0' <= c <= '9' <==> c in DIGITS;
  }

  /** Exactly these texts are accepted as names. */
  lemma IdentityNameExactly(s: string)
    ensures IdentityName(s)
            <==> && 1 <= |s| <= 64 && s[0] in CAPITALS + SMALL_LETTERS + {'_'}
                 && forall c :: c in s ==> c in CAPITALS + SMALL_LETTERS + DIGITS + {'_', '.', '-'}
  {
    hide IsNameStart, IsNameChar;
    forall c: char ensures IsNameStart(c) <==> c in CAPITALS + SMALL_LETTERS + {'_'}
                   ensures IsNameChar(c) <==> c in CAPITALS + SMALL_LETTERS + DIGITS + {'_', '.', '-'}
    {
      NameCharacters(c);
    }
  }

  /** The reason each error stands for, in terms of the request and of what was read. */
  ghost predicate Grounds(db: Tables, r: Request, look: Lookups, facts: Facts, e: PlanError) {
    match e
    case BadRequest =>
      || (r.adUsername != "" && !r.kerberos) || r.server.number <= 0 || ParseDate(r.expiration).None?
      || !IdentityName(r.username)
      || (r.groupname != "" && !IdentityName(r.groupname))
      || (r.adUsername != "" && !IdentityName(r.adUsername))
    case PortsUnavailable =>
      if r.fixedPorts != [] then
        || (exists m :: m in r.fixedPorts && (m.hostPort in db.ports || m.hostPort in facts.livePorts))
        || r.additionalPorts != []
        || (r.vnc && forall m :: m in r.fixedPorts ==> m.containerPort != 6080)
      else
        |set p | 9000 + 100 * (r.server.number - 1) <= p < 9000 + 100 * r.server.number
                 && p !in db.ports && p !in facts.livePorts| < 2 + (if r.vnc then 1 else 0) + |r.additionalPorts|
    case IdConflict =>
      || (r.requestedUid.Some? && UidRefused(db, r.username, r.requestedUid.value))
      || (r.requestedUid.Some? && look.user.Some? && look.user.value.uid != r.requestedUid.value)
      || (r.requestedGid.Some? && GidRefused(db, GroupOf(r), r.requestedGid.value))
      || (r.requestedGid.Some? && look.group.Some? && look.group.value.gid != r.requestedGid.value)
    case AdoptionRefused =>
      facts.storageIdentity.Some? &&
      var (uid, gid) := facts.storageIdentity.value;
      || UidRefused(db, r.username, uid) || GidRefused(db, GroupOf(r), gid)
      || (r.requestedUid.Some? && r.requestedUid.value != uid)
      || (r.requestedUid.None? && facts.adIdentity.Some? && facts.adIdentity.value.0 != uid)
      || (look.group.Some? && look.group.value.gid != gid)
      || (look.group.None? && r.requestedGid.Some? && r.requestedGid.value != gid)
      || (look.group.None? && r.requestedGid.None? && GroupOf(r) == r.username
          && facts.adIdentity.Some? && facts.adIdentity.value.1 != gid)
    case AdMismatch =>
      facts.adIdentity.Some? &&
      var (uid, gid) := facts.adIdentity.value;
      (r.requestedUid.Some? && r.requestedUid.value != uid) || (r.requestedGid.Some? && r.requestedGid.value != gid)
    case ReadFailed => false
  }

  ghost function GroupOf(r: Request): string {
    if r.groupname == "" then r.username else r.groupname
  }

  /** Not a managed id, or some other user's. */
  ghost predicate UidRefused(db: Tables, username: string, uid: int) {
    uid < 10000 || uid == 65534 || exists i :: i in db.users && db.users[i].uid == uid && db.users[i].username != username
  }

  ghost predicate GidRefused(db: Tables, groupname: string, gid: int) {
    gid < 10000 || gid == 65534 || exists g :: g in db.groups && db.groups[g].gid == gid && db.groups[g].name != groupname
  }

  lemma FormGrounds(db: Tables, r: Request, look: Lookups, facts: Facts)
    ensures WellFormed(r) <==> !Grounds(db, r, look, facts, BadRequest)
  {
  }

  lemma PortGrounds(db: Tables, r: Request, look: Lookups, facts: Facts)
    ensures PortsPlannable(UsedPorts(db, facts), r) <==> !Grounds(db, r, look, facts, PortsUnavailable)
  {
    var used := UsedPorts(db, facts);
    if r.fixedPorts != [] {
      forall i | 0 <= i < |r.fixedPorts| ensures r.fixedPorts[i] in r.fixedPorts && r.fixedPorts[i].hostPort in FixedHostPorts(r.fixedPorts) {
      }
    } else {
      var free := set p | 9000 + 100 * (r.server.number - 1) <= p < 9000 + 100 * r.server.number
                          && p !in db.ports && p !in facts.livePorts;
      assert forall p :: p in used <==> p in db.ports || p in facts.livePorts;
      assert FreeSet(r.server.number, used) == free;
    }
  }

  lemma IdGrounds(db: Tables, r: Request, look: Lookups, facts: Facts)
    ensures RequestedIdsOk(db, r, look) <==> !Grounds(db, r, look, facts, IdConflict)
  {
  }

  lemma AdoptionGrounds(db: Tables, r: Request, look: Lookups, facts: Facts)
    requires FactsRead(r, look, facts)
    ensures var uid := ChooseUid(db, r, look, facts).0;
            AdoptionOk(db, r, facts, uid, ChooseGid(db, r, look, facts, uid)) <==> !Grounds(db, r, look, facts, AdoptionRefused)
  {
  }

  lemma AdGrounds(db: Tables, r: Request, look: Lookups, facts: Facts)
    ensures AdAgrees(r, facts) <==> !Grounds(db, r, look, facts, AdMismatch)
  {
  }

  /** A request is acceptable exactly when no error has grounds. */
  lemma AcceptableExactly(db: Tables, r: Request, look: Lookups, facts: Facts)
    requires FactsRead(r, look, facts)
    ensures Acceptable(db, r, look, facts) <==> forall e :: !Grounds(db, r, look, facts, e)
  {
    PortGrounds(db, r, look, facts);
    IdGrounds(db, r, look, facts);
    AdoptionGrounds(db, r, look, facts);
    AdGrounds(db, r, look, facts);
    FormGrounds(db, r, look, facts);
    if Acceptable(db, r, look, facts) {
      forall e ensures !Grounds(db, r, look, facts, e) {
        match e
        case BadRequest =>
        case PortsUnavailable =>
        case IdConflict =>
        case AdoptionRefused =>
        case AdMismatch =>
        case ReadFailed =>
      }
    }
  }

  /** What a plan owes the request: names and ids where they were given, found ids where they were found. */
  ghost predicate MeetsRequest(db: Tables, r: Request, facts: Facts, p: Plan) {
    && p.groupname == GroupOf(r)
    && p.adUsername == (if r.adUsername == "" then r.username else r.adUsername)
    && p.containerName == (if r.containerName == "" then r.username + "_by_" + r.createdBy else r.containerName)
    && (r.requestedUid.Some? ==> p.uid == r.requestedUid.value && !UidRefused(db, r.username, p.uid))
    && (r.requestedGid.Some? ==> p.gid == r.requestedGid.value && !GidRefused(db, p.groupname, p.gid))
    && (p.existingUser <==> exists i :: i in db.users && db.users[i].username == r.username)
    && (p.existingUser ==> exists i :: i in db.users && db.users[i].username == r.username && db.users[i].uid == p.uid)
    && (p.existingGroup <==> exists g :: g in db.groups && db.groups[g].name == p.groupname)
    && (p.existingGroup ==> exists g :: g in db.groups && db.groups[g].name == p.groupname && db.groups[g].gid == p.gid)
    && (!p.existingUser && facts.adIdentity.Some? ==> p.uid == facts.adIdentity.value.0)
    && (facts.storageIdentity.Some? ==> (p.uid, p.gid) == facts.storageIdentity.value)
    && (!p.existingGroup && p.groupname == r.username && r.requestedGid.None? ==>
          p.gid == if facts.adIdentity.Some? then facts.adIdentity.value.1 else if facts.storageIdentity.Some? then p.gid else p.uid)
    && (p.uidReserved <==> p.uid in db.usedIds) && (p.gidReserved <==> p.gid in db.usedIds)
  }

  /** Where the uid came from: the first of database, request, AD and storage home that has one. */
  ghost predicate SourceTold(r: Request, facts: Facts, p: Plan) {
    p.source ==
      if p.existingUser then FromDb else if r.requestedUid.Some? then Requested
      else if facts.adIdentity.Some? then FromAd else if facts.storageIdentity.Some? then StorageHome else New
  }

  /** The ports of a plan: the fixed ones as given or an allocation of what was asked, all of them unused. */
  ghost predicate PortsMeetRequest(db: Tables, r: Request, facts: Facts, p: Plan) {
    && (r.fixedPorts != [] ==> p.ports == r.fixedPorts)
    && (r.fixedPorts == [] ==>
          && MapsAsked(p.ports, r.additionalPorts, r.vnc)
          && forall m :: m in p.ports ==> 9000 + 100 * (r.server.number - 1) <= m.hostPort < 9000 + 100 * r.server.number)
    && (forall m :: m in p.ports ==> m.hostPort !in db.ports && m.hostPort !in facts.livePorts)
    && (r.vnc ==> exists m :: m in p.ports && m.containerPort == 6080)
  }

  lemma PlanMeetsRequest(db: Tables, r: Request, look: Lookups, facts: Facts, p: Plan)
    requires PlannedFrom(db, r, look, facts, p)
    ensures MeetsRequest(db, r, facts, p) && SourceTold(r, facts, p)
  {
    hide PortsPlannable, PortsPlanned, WellFormed;
  }

  lemma PlanPortsMeetRequest(db: Tables, r: Request, look: Lookups, facts: Facts, p: Plan)
    requires PlannedFrom(db, r, look, facts, p)
    ensures PortsMeetRequest(db, r, facts, p)
  {
    hide RequestedIdsOk, AdoptionOk, AdAgrees, ChooseUid, ChooseGid, Found;
    var used := UsedPorts(db, facts);
    if r.fixedPorts != [] {
      forall m | m in p.ports ensures m.hostPort in FixedHostPorts(r.fixedPorts) {
      }
    } else {
      AllocationMapsAsked(p.ports, HostPorts(p.ports), r.additionalPorts, r.vnc);
      AllocatedInBlock(p.ports, r.server.number, used);
      assert r.vnc ==> p.ports[2] in p.ports;
    }
  }

  // ---------- The planner ----------

  /** The AD directory, storage server and docker daemon as the planner can query them. */
  class Directory {
    const faultless: bool
    var adIds: set<int>
    var adAccounts: map<string, (int, int)>
    var storageHomes: map<string, (int, int)>
    var livePorts: map<Server, set<int>>

    /** Run without check: a failed query reports no ports. */
    method LivePorts(server: Server) returns (ports: set<int>)
      ensures ports == {} || (server in livePorts && ports == livePorts[server])
      ensures faultless && server in livePorts ==> ports == livePorts[server]
    {
      var works: bool := *;
      return if (works || faultless) && server in livePorts then livePorts[server] else {};
    }

    /** Run without check: a failed query reports no account. */
    method AdIdentity(adUsername: string) returns (identity: Option<(int, int)>)
      ensures identity.Some? ==> adUsername in adAccounts && identity.value == adAccounts[adUsername]
      ensures faultless && adUsername in adAccounts ==> identity.Some?
    {
      var works: bool := *;
      return if (works || faultless) && adUsername in adAccounts then Some(adAccounts[adUsername]) else None;
    }

    method StorageIdentity(username: string) returns (outcome: Outcome, identity: Option<(int, int)>)
      ensures outcome.Done? ==> identity == if username in storageHomes then Some(storageHomes[username]) else None
      ensures faultless ==> outcome.Done?
    {
      var works: bool := *;
      if !works && !faultless {
        return Raised, None;
      }
      return Done, if username in storageHomes then Some(storageHomes[username]) else None;
    }

    method UsedIds() returns (outcome: Outcome, ids: set<int>)
      ensures outcome.Done? ==> ids == adIds
      ensures faultless ==> outcome.Done?
    {
      var works: bool := *;
      if works || faultless {
        return Done, adIds;
      }
      return Raised, {};
    }
  }

  /** The facts agree with the directory, up to the unchecked queries that may have failed. */
  ghost predicate FactsHold(directory: Directory, r: Request, facts: Facts)
    reads directory
  {
    && (facts.livePorts == {} || (r.server in directory.livePorts && facts.livePorts == directory.livePorts[r.server]))
    && (facts.adIdentity.Some? ==>
          AdName(r) in directory.adAccounts && facts.adIdentity.value == directory.adAccounts[AdName(r)])
    && (facts.storageIdentity.Some? ==>
          r.username in directory.storageHomes && facts.storageIdentity.value == directory.storageHomes[r.username])
    && facts.adIds in {{}, directory.adIds}
  }

  method FindRows(db: Tables, r: Request) returns (look: Lookups)
    ensures Found(db, r, look)
  {
    look := Lookups(None, None);
    if HasUser(db, r.username) {
      var i :| i in db.users && db.users[i].username == r.username;
      look := look.(user := Some(db.users[i]));
    }
    if HasGroup(db, GroupName(r)) {
      var g :| g in db.groups && db.groups[g].name == GroupName(r);
      look := look.(group := Some(db.groups[g]));
    }
  }

  method PlanPorts(used: set<int>, r: Request) returns (ports: Option<seq<PortMapping>>)
    ensures ports.Some? <==> PortsPlannable(used, r)
    ensures ports.Some? ==> PortsPlanned(used, r, ports.value)
  {
    if r.fixedPorts != [] {
      if FixedPortsUsable(used, r) {
        return Some(r.fixedPorts);
      }
      return None;
    }
    var ms := AllocatePorts(r.server.number, used, r.additionalPorts, r.vnc);
    return if ms.Ok? then Some(ms.value) else None;
  }

  /** The loop that bumps an automatic id past the ids AD already uses. */
  method BumpId(start: int, avoid: set<int>) returns (id: int)
    ensures id == SkipUsed(start, avoid)
  {
    id := start;
    while id in avoid
      invariant id >= start && forall w :: start <= w < id ==> w in avoid
      decreases |set w | w in avoid && w >= id|
    {
      SkipShrinks(id, avoid);
      id := id + 1;
    }
  }

  /** Whether the uid or the gid is one the planner makes up. */
  ghost predicate AutomaticId(r: Request, look: Lookups, facts: Facts, source: Source) {
    source == New || (look.group.None? && r.requestedGid.None? && facts.storageIdentity.None? && GroupOf(r) != r.username)
  }

  method PlanIds(db: Tables, r: Request, look: Lookups, directory: Directory, facts0: Facts)
    returns (outcome: Outcome, uid: int, source: Source, gid: int, facts: Facts)
    ensures facts.(adIds := facts0.adIds) == facts0
    ensures facts.adIds in {facts0.adIds, directory.adIds}
    ensures outcome.Done? && r.kerberos && AutomaticId(r, look, facts, source) ==> facts.adIds == directory.adIds
    ensures directory.faultless ==> outcome.Done?
    ensures outcome.Done? ==>
      && (uid, source) == ChooseUid(db, r, look, facts)
      && gid == ChooseGid(db, r, look, facts, uid)
  {
    facts := facts0;
    var chosen := ChooseUid(db, r.(kerberos := false), look, facts);
    uid, source, gid := chosen.0, chosen.1, 0;
    var freshGid := look.group.None? && r.requestedGid.None? && facts.storageIdentity.None? && GroupName(r) != r.username;
    if r.kerberos && (source == New || freshGid) {
      var ids;
      outcome, ids := directory.UsedIds();
      if outcome.Raised? {
        return;
      }
      facts := facts.(adIds := ids);
    }
    if r.kerberos && source == New {
      uid := BumpId(uid, facts.adIds);
    }
    gid := ChooseGid(db, r.(kerberos := false), look, facts, uid);
    if r.kerberos && freshGid {
      gid := BumpId(gid, facts.adIds + {uid});
    }
    outcome := Done;
  }

  /** The identity reads, id choice and guards that follow the lookups. */
  method PrepareIds(db: Tables, r: Request, look: Lookups, directory: Directory, facts0: Facts)
    returns (error: Option<PlanError>, uid: int, source: Source, gid: int, facts: Facts)
    requires facts0 == Facts(facts0.livePorts, None, None, {}) && FactsHold(directory, r, facts0)
    ensures facts.livePorts == facts0.livePorts && FactsHold(directory, r, facts)
    ensures error.None? ==>
      && (look.user.None? && r.server.domain == LAB && r.username in directory.storageHomes ==> facts.storageIdentity.Some?)
      && FactsRead(r, look, facts)
      && (uid, source) == ChooseUid(db, r, look, facts) && gid == ChooseGid(db, r, look, facts, uid)
      && AdoptionOk(db, r, facts, uid, gid) && AdAgrees(r, facts)
      && (r.kerberos && AutomaticId(r, look, facts, source) ==> facts.adIds == directory.adIds)
    ensures error.Some? && error.value != ReadFailed ==>
      var u := ChooseUid(db, r, look, facts).0;
      && FactsRead(r, look, facts)
      && error.value in {AdoptionRefused, AdMismatch}
      && (if error.value == AdMismatch then !AdAgrees(r, facts) else !AdoptionOk(db, r, facts, u, ChooseGid(db, r, look, facts, u)))
    ensures directory.faultless ==> error != Some(ReadFailed)
    ensures directory.faultless && error.None? && r.kerberos && AdName(r) in directory.adAccounts ==> facts.adIdentity.Some?
  {
    facts := facts0;
    uid, source, gid := 0, New, 0;
    if look.user.None? && r.server.domain == LAB {
      var outcome, storage := directory.StorageIdentity(r.username);
      if outcome.Raised? {
        return Some(ReadFailed), uid, source, gid, facts;
      }
      facts := facts.(storageIdentity := storage);
    }
    if r.kerberos {
      var account := directory.AdIdentity(AdName(r));
      facts := facts.(adIdentity := account);
    }
    var outcome;
    outcome, uid, source, gid, facts := PlanIds(db, r, look, directory, facts);
    if outcome.Raised? {
      return Some(ReadFailed), uid, source, gid, facts;
    }
    if !AdoptionOk(db, r, facts, uid, gid) {
      return Some(AdoptionRefused), uid, source, gid, facts;
    }
    if !AdAgrees(r, facts) {
      return Some(AdMismatch), uid, source, gid, facts;
    }
    error := None;
  }

  /** Succeeds with a plan that follows from what was read, or refuses because a guard fails. */
  method Prepare(repo: Repository, directory: Directory, r: Request)
    returns (result: Result<Plan, PlanError>, look: Lookups, facts: Facts)
    ensures result.Ok? ==> PlannedFrom(repo.View(), r, look, facts, result.value)
    ensures result.Ok? ==>
      && MeetsRequest(repo.View(), r, facts, result.value) && SourceTold(r, facts, result.value)
      && PortsMeetRequest(repo.View(), r, facts, result.value)
      && forall e :: !Grounds(repo.View(), r, look, facts, e)
    ensures result.Err? && result.error != ReadFailed ==>
      !Acceptable(repo.View(), r, look, facts) && Grounds(repo.View(), r, look, facts, result.error)
    ensures FactsHold(directory, r, facts)
    ensures result.Ok? && look.user.None? && r.server.domain == LAB && r.username in directory.storageHomes ==>
      facts.storageIdentity.Some?
    ensures result.Ok? && r.kerberos && AutomaticId(r, look, facts, result.value.source) ==> facts.adIds == directory.adIds
    ensures repo.faultless && directory.faultless ==>
      && (result.Ok? <==> Acceptable(repo.View(), r, look, facts))
      && (result.Ok? <==> forall e :: !Grounds(repo.View(), r, look, facts, e))
      && (result.Ok? && r.server in directory.livePorts ==> facts.livePorts == directory.livePorts[r.server])
      && (result.Ok? && r.kerberos && AdName(r) in directory.adAccounts ==> facts.adIdentity.Some?)
  {
    hide ChooseUid, ChooseGid, PortsPlannable, PortsPlanned, WellFormed, RequestedIdsOk, AdoptionOk, AdAgrees;
    hide Grounds, MeetsRequest, SourceTold, PortsMeetRequest;
    look, facts := Lookups(None, None), Facts({}, None, None, {});
    FormGrounds(repo.View(), r, look, facts);
    if !WellFormed(r) {
      return Err(BadRequest), look, facts;
    }
    var read, db := repo.Read();
    if read.Raised? {
      return Err(ReadFailed), look, facts;
    }
    var live := directory.LivePorts(r.server);
    facts := facts.(livePorts := live);
    PortGrounds(db, r, look, facts);
    var ports := PlanPorts(UsedPorts(db, facts), r);
    if ports.None? {
      return Err(PortsUnavailable), look, facts;
    }
    look := FindRows(db, r);
    IdGrounds(db, r, look, facts);
    if !RequestedIdsOk(db, r, look) {
      return Err(IdConflict), look, facts;
    }
    var error, uid, source, gid;
    error, uid, source, gid, facts := PrepareIds(db, r, look, directory, facts);
    if error.Some? {
      if error.value != ReadFailed {
        AdoptionGrounds(db, r, look, facts);
        AdGrounds(db, r, look, facts);
      }
      return Err(error.value), look, facts;
    }
    var plan := Plan(uid, gid, source, GroupName(r), AdName(r), ContainerName(r),
                     look.user.Some?, look.group.Some?, uid in db.usedIds, gid in db.usedIds, ports.value);
    PlanMeetsRequest(db, r, look, facts, plan);
    PlanPortsMeetRequest(db, r, look, facts, plan);
    AcceptableExactly(db, r, look, facts);
    return Ok(plan), look, facts;
  }

  // ---------- Automatic ids ----------

  /**
   An automatic uid was never reserved, and neither was an automatic gid; in Kerberos mode each is the
   least value from the database's next id on that AD does not use (the gid also differs from the uid).
   */
  lemma AutomaticIdsAreFresh(db: Tables, r: Request, look: Lookups, facts: Facts, p: Plan)
    requires PlannedFrom(db, r, look, facts, p)
    ensures p.source == New ==> p.uid !in db.usedIds && p.uid >= MANAGED_ID_MINIMUM
    ensures p.source == New && r.kerberos ==>
      p.uid !in facts.adIds && forall v :: NextAvailableId(db, MANAGED_ID_MINIMUM) <= v < p.uid ==> v in facts.adIds
    ensures var automaticGid := !p.existingGroup && r.requestedGid.None? && facts.storageIdentity.None? && p.groupname != r.username;
            automaticGid ==>
              && p.gid !in db.usedIds && p.gid >= MANAGED_ID_MINIMUM
              && (r.kerberos ==>
                    && p.gid !in facts.adIds && p.gid != p.uid
                    && forall v :: NextAvailableId(db, MANAGED_ID_MINIMUM) <= v < p.gid ==> v in facts.adIds || v == p.uid)
  {
    var next := NextAvailableId(db, MANAGED_ID_MINIMUM);
    if !p.existingGroup && r.requestedGid.None? && facts.storageIdentity.None? && p.groupname != r.username && r.kerberos {
      assert p.gid == SkipUsed(next, facts.adIds + {p.uid});
      forall v | next <= v < p.gid ensures v in facts.adIds || v == p.uid {
        assert v in facts.adIds + {p.uid};
      }
    }
  }

  /** Without Kerberos a new user with a new, differently named group gets the same number twice. */
  lemma PlainFreshIdsCoincide(db: Tables, r: Request, look: Lookups, facts: Facts, p: Plan)
    requires PlannedFrom(db, r, look, facts, p) && p.source == New && !r.kerberos
    requires !p.existingGroup && r.requestedGid.None? && p.groupname != r.username
    ensures p.gid == p.uid
  {
  }
}
