/**
 The relational store of nfs_mysql/init.sql and every write statement the program issues
 against it. A statement either yields the next tables or is refused by a key of the schema.
 */
module Schema {
  import opened Wrappers
  import opened Calendar

  datatype Domain = LAB | FARM

  /** `server_id` ("FARM2") and the ansible host alias ("farm2") both print this pair. */
  datatype Server = Server(domain: Domain, number: int)

  datatype UserRow = UserRow(name: string, username: string, uid: int, gid: Option<int>)

  datatype GroupRow = GroupRow(name: string, gid: int)

  /** The fields of a KerberosIdentityRecord that the schema keys or the program compares. */
  datatype AdIdentity = AdIdentity(
    username: string, adUsername: string, realm: string, netbios: string,
    domainSid: string, objectSid: string, uidNumber: int, gidNumber: int)

  datatype IdentityRow = IdentityRow(userId: Option<int>, ad: AdIdentity)

  datatype ContainerRow = ContainerRow(
    containerId: string, name: string, server: Server, expires: StoredDate, existing: bool, userId: Option<int>)

  datatype PortRow = PortRow(owner: Option<int>, purpose: string)

  /** Rows are keyed by primary key; identities by their unique, never updated `username`. */
  datatype Tables = Tables(
    usedIds: set<int>,
    groups: map<int, GroupRow>,
    users: map<int, UserRow>,
    memberships: set<(int, int)>,
    identities: map<string, IdentityRow>,
    containers: map<int, ContainerRow>,
    ports: map<int, PortRow>)

  datatype SqlError = DuplicateKey | ForeignKey | SubqueryRows

  type SqlResult = Result<Tables, SqlError>

  datatype Statement =
    | ReserveId(value: int)
    | InsertGroup(groupname: string, gid: int)
    | UpsertUser(name: string, username: string, uid: int, gid: int)
    | UpsertIdentity(record: AdIdentity)
    | InsertPort(port: int, purpose: string)
    | InsertContainer(containerId: string, containerName: string, server: Server, expires: StoredDate, username: string)
    | AttachPorts(row: int, ports: set<int>)
    | MarkDeleted(row: int)
    | DeletePorts(row: int)
    | UpdateExpiration(row: int, expires: StoredDate)
    | SetPrimaryGroup(username: string, gid: int)
    | InsertMembership(uid: int, gid: int)
    | DeleteMembership(uid: int, gid: int)
    | DeleteGroupMemberships(gid: int)
    | DeleteGroup(gid: int)
    | DeletePortsOfUsers(usernames: set<string>)
    | DeleteContainersOfUsers(usernames: set<string>)
    | DeleteUsers(usernames: set<string>)
    | DeleteUnusedGroups(gids: set<int>)
    | DeleteUnusedIds(ids: set<int>)

  // ---------- Queries ----------

  function Uids(db: Tables): set<int> {
    set i | i in db.users :: db.users[i].uid
  }

  function Gids(db: Tables): set<int> {
    set g | g in db.groups :: db.groups[g].gid
  }

  /** Every gid some user has as primary group. */
  function PrimaryGids(db: Tables): set<int> {
    set i | i in db.users && db.users[i].gid.Some? :: db.users[i].gid.value
  }

  function IdsNamed(db: Tables, usernames: set<string>): set<int> {
    set i | i in db.users && db.users[i].username in usernames
  }

  predicate HasUser(db: Tables, username: string) {
    exists i :: i in db.users && db.users[i].username == username
  }

  predicate HasGroup(db: Tables, groupname: string) {
    exists g :: g in db.groups && db.groups[g].name == groupname
  }

  /** `(SELECT id FROM user WHERE ubuntu_username=%s)` used as a scalar. */
  function UserIdSubquery(db: Tables, username: string): Result<Option<int>, SqlError> {
    var ids := IdsNamed(db, {username});
    if |ids| == 0 then Ok(None)
    else if |ids| == 1 then Ok(Some(TheOnly(ids)))
    else Err(SubqueryRows)
  }

  function PortsOf(db: Tables, row: int): set<int> {
    set p | p in db.ports && db.ports[p].owner == Some(row)
  }

  predicate Active(db: Tables, row: int) {
    row in db.containers && db.containers[row].existing
  }

  /** `next_available_id`: one past the largest reserved id, but never below the minimum. */
  function NextAvailableId(db: Tables, minimum: int): (id: int)
    ensures id >= minimum
    ensures forall v :: v in db.usedIds ==> v < id
  {
    MaxOr(db.usedIds, minimum - 1) + 1
  }

  function MaxOr(s: set<int>, floor: int): (m: int)
    ensures m >= floor && forall v :: v in s ==> v <= m
    ensures m == floor || m in s
  {
    if s == {} then floor
    else if forall v :: v in s ==> v <= floor then floor
    else
      MaxExists(s);
      var m :| m in s && forall v :: v in s ==> v <= m;
      m
  }

  lemma MaxExists(s: set<int>)
    requires |s| > 0
    ensures exists m :: m in s && forall v :: v in s ==> v <= m
  {
    var x := AnElement(s);
    var rest := s - {x};
    if |rest| > 0 {
      MaxExists(rest);
      var m :| m in rest && forall v :: v in rest ==> v <= m;
      var w := if x > m then x else m;
      forall v | v in s ensures v <= w {
        assert v == x || v in rest;
      }
    } else {
      assert s == {x};
    }
  }

  // ---------- Statements ----------

  function Principal(ad: AdIdentity): string {
    ad.adUsername + "@" + ad.realm
  }

  /** The identity rows that share one of the four unique keys with a new row. */
  function IdentityConflicts(db: Tables, row: IdentityRow): set<string> {
    set u | u in db.identities && (
              || u == row.ad.username
              || Principal(db.identities[u].ad) == Principal(row.ad)
              || db.identities[u].ad.objectSid == row.ad.objectSid
              || (row.userId.Some? && db.identities[u].userId == row.userId))
  }

  /**
   `INSERT ... ON DUPLICATE KEY UPDATE`: with one conflicting row that row takes every new value
   except its username; with two, the updated row still collides with the other.
   */
  function ExecUpsertIdentity(db: Tables, record: AdIdentity): SqlResult {
    var userId := UserIdSubquery(db, record.username);
    if userId.Err? then Err(userId.error)
    else
      var row := IdentityRow(userId.value, record);
      var conflicts := IdentityConflicts(db, row);
      if |conflicts| == 0 then Ok(db.(identities := db.identities[record.username := row]))
      else if |conflicts| == 1 then
        var u := TheOnly(conflicts);
        Ok(db.(identities := db.identities[u := IdentityRow(userId.value, record.(username := u))]))
      else Err(DuplicateKey)
  }

  /** `upsert_user`: the branch is chosen by username, the UPDATE is keyed by uid. */
  function ExecUpsertUser(db: Tables, s: Statement, auto: int): SqlResult
    requires s.UpsertUser?
  {
    if HasUser(db, s.username) then
      if s.uid in Uids(db) && s.gid !in Gids(db) then Err(ForeignKey)
      else Ok(db.(users := map i | i in db.users ::
                    if db.users[i].uid == s.uid then db.users[i].(name := s.name, gid := Some(s.gid)) else db.users[i]))
    else if auto in db.users || s.uid in Uids(db) then Err(DuplicateKey)
    else if s.uid !in db.usedIds || s.gid !in Gids(db) then Err(ForeignKey)
    else Ok(db.(users := db.users[auto := UserRow(s.name, s.username, s.uid, Some(s.gid))]))
  }

  function ExecInsertContainer(db: Tables, s: Statement, auto: int): SqlResult
    requires s.InsertContainer?
  {
    var userId := UserIdSubquery(db, s.username);
    if userId.Err? then Err(userId.error)
    else if auto in db.containers || exists c :: c in db.containers && db.containers[c].containerId == s.containerId then
      Err(DuplicateKey)
    else
      Ok(db.(containers := db.containers[auto := ContainerRow(s.containerId, s.containerName, s.server, s.expires, true, userId.value)]))
  }

  /** One statement; `auto` is the AUTO_INCREMENT value MySQL would assign to an inserted row. */
  function Exec(db: Tables, s: Statement, auto: int): SqlResult {
    match s
    case ReserveId(v) =>
      // Storing 0 in an AUTO_INCREMENT column stores the next generated value instead.
      var v' := if v == 0 then NextAvailableId(db, 1) else v;
      if v' in db.usedIds then Err(DuplicateKey) else Ok(db.(usedIds := db.usedIds + {v'}))
    case InsertGroup(groupname, gid) =>
      if auto in db.groups || gid in Gids(db) then Err(DuplicateKey)
      else if gid !in db.usedIds then Err(ForeignKey)
      else Ok(db.(groups := db.groups[auto := GroupRow(groupname, gid)]))
    case UpsertUser(_, _, _, _) => ExecUpsertUser(db, s, auto)
    case UpsertIdentity(record) => ExecUpsertIdentity(db, record)
    case InsertPort(port, purpose) =>
      if port in db.ports then Err(DuplicateKey) else Ok(db.(ports := db.ports[port := PortRow(None, purpose)]))
    case InsertContainer(_, _, _, _, _) => ExecInsertContainer(db, s, auto)
    case AttachPorts(row, ports) =>
      if row !in db.containers && ports * db.ports.Keys != {} then Err(ForeignKey)
      else Ok(db.(ports := map p | p in db.ports :: if p in ports then db.ports[p].(owner := Some(row)) else db.ports[p]))
    case MarkDeleted(row) =>
      Ok(if row in db.containers then db.(containers := db.containers[row := db.containers[row].(existing := false)]) else db)
    case DeletePorts(row) =>
      Ok(db.(ports := map p | p in db.ports && db.ports[p].owner != Some(row) :: db.ports[p]))
    case UpdateExpiration(row, expires) =>
      Ok(if row in db.containers then db.(containers := db.containers[row := db.containers[row].(expires := expires)]) else db)
    case SetPrimaryGroup(username, gid) =>
      if HasUser(db, username) && gid !in Gids(db) then Err(ForeignKey)
      else Ok(db.(users := map i | i in db.users ::
                    if db.users[i].username == username then db.users[i].(gid := Some(gid)) else db.users[i]))
    case InsertMembership(uid, gid) =>
      // INSERT IGNORE: a row that would violate a key is silently dropped.
      Ok(if uid in Uids(db) && gid in Gids(db) then db.(memberships := db.memberships + {(uid, gid)}) else db)
    case DeleteMembership(uid, gid) => Ok(db.(memberships := db.memberships - {(uid, gid)}))
    case DeleteGroupMemberships(gid) =>
      Ok(db.(memberships := set m | m in db.memberships && m.1 != gid))
    case DeleteGroup(gid) =>
      if gid in Gids(db) && (gid in PrimaryGids(db) || exists m :: m in db.memberships && m.1 == gid) then Err(ForeignKey)
      else Ok(db.(groups := map g | g in db.groups && db.groups[g].gid != gid :: db.groups[g]))
    case DeletePortsOfUsers(usernames) =>
      var rows := ContainersOfUsers(db, usernames);
      Ok(db.(ports := map p | p in db.ports && !(db.ports[p].owner.Some? && db.ports[p].owner.value in rows) :: db.ports[p]))
    case DeleteContainersOfUsers(usernames) =>
      var rows := ContainersOfUsers(db, usernames);
      if exists p :: p in db.ports && db.ports[p].owner.Some? && db.ports[p].owner.value in rows then Err(ForeignKey)
      else Ok(db.(containers := db.containers - rows))
    case DeleteUsers(usernames) =>
      if UsersReferenced(db, IdsNamed(db, usernames)) then Err(ForeignKey)
      else Ok(db.(users := db.users - IdsNamed(db, usernames)))
    case DeleteUnusedGroups(gids) =>
      var doomed := gids - PrimaryGids(db);
      if exists m :: m in db.memberships && m.1 in doomed then Err(ForeignKey)
      else Ok(db.(groups := map g | g in db.groups && db.groups[g].gid !in doomed :: db.groups[g]))
    case DeleteUnusedIds(ids) =>
      var doomed := ids - Gids(db);
      if Uids(db) * doomed != {} then Err(ForeignKey) else Ok(db.(usedIds := db.usedIds - doomed))
  }

  function ContainersOfUsers(db: Tables, usernames: set<string>): set<int> {
    set c | c in db.containers && db.containers[c].userId.Some? && db.containers[c].userId.value in IdsNamed(db, usernames)
  }

  function PortsOfUsers(db: Tables, usernames: set<string>): set<int> {
    set p | p in db.ports && db.ports[p].owner.Some? && db.ports[p].owner.value in ContainersOfUsers(db, usernames)
  }

  /** Whether a membership, identity or container row still points at one of these users. */
  predicate UsersReferenced(db: Tables, ids: set<int>) {
    || (exists m :: m in db.memberships && exists i :: i in ids && i in db.users && db.users[i].uid == m.0)
    || (exists u :: u in db.identities && db.identities[u].userId.Some? && db.identities[u].userId.value in ids)
    || (exists c :: c in db.containers && db.containers[c].userId.Some? && db.containers[c].userId.value in ids)
  }

  /** `cursor.rowcount`: the number of rows an UPDATE changed. */
  function RowCount(db: Tables, s: Statement): nat {
    match s
    case MarkDeleted(row) => if row in db.containers then 1 else 0
    case UpdateExpiration(row, expires) =>
      if row in db.containers && db.containers[row].expires != expires then 1 else 0
    case _ => 0
  }

  /** The statements of one transaction, in order; the first refusal refuses them all. */
  function ExecAll(db: Tables, ss: seq<Statement>, auto: int): SqlResult
    decreases |ss|
  {
    if ss == [] then Ok(db)
    else
      var r := Exec(db, ss[0], auto);
      if r.Err? then r else ExecAll(r.value, ss[1..], auto + 1)
  }
}
