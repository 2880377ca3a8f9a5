/** The AD identity of a user: building it from AD metadata, checking it against the stored one, finding it. */
module KerberosIdentity {
  import opened Wrappers
  import opened Text
  import opened Schema
  import opened Invariants
  import opened Repositories
  import opened Planner

  /** The key=value lines AD prints; an empty text is a missing key. */
  datatype Metadata = Metadata(
    adUsername: string, realm: string, netbios: string, domainSid: string, objectSid: string,
    uidNumber: string, gidNumber: string)

  /** `_build_kerberos_identity_record`; None stands for ValidationError. */
  function BuildIdentity(r: Request, p: Plan, m: Metadata): Option<AdIdentity> {
    if "" in {m.adUsername, m.realm, m.netbios, m.domainSid, m.objectSid, m.uidNumber, m.gidNumber} then None
    else
      var uid, gid := ParseInt(m.uidNumber), ParseInt(m.gidNumber);
      if uid != Some(p.uid) || gid != Some(p.gid) || m.adUsername != p.adUsername then None
      else Some(AdIdentity(r.username, m.adUsername, m.realm, m.netbios, m.domainSid, m.objectSid, uid.value, gid.value))
  }

  /** Each value AD reported stands under its own name, and account and numbers are also the plan's. */
  ghost predicate HoldsReport(ad: AdIdentity, p: Plan, m: Metadata) {
    && ad.adUsername == m.adUsername == p.adUsername
    && ad.realm == m.realm && ad.netbios == m.netbios
    && ad.domainSid == m.domainSid && ad.objectSid == m.objectSid
    && ParseInt(m.uidNumber) == Some(p.uid) && ad.uidNumber == p.uid
    && ParseInt(m.gidNumber) == Some(p.gid) && ad.gidNumber == p.gid
  }

  lemma BuiltNamesThePlan(r: Request, p: Plan, m: Metadata)
    requires BuildIdentity(r, p, m).Some?
    ensures var ad := BuildIdentity(r, p, m).value;
            ad.username == r.username && HoldsReport(ad, p, m) && TextsSet(ad)
  {
  }

  /** What AD prints of the planned account is accepted as long as nothing is missing. */
  lemma PlannedAccountIsBuilt(r: Request, p: Plan, m: Metadata)
    requires m.adUsername == p.adUsername && m.uidNumber == PrintInt(p.uid) && m.gidNumber == PrintInt(p.gid)
    ensures BuildIdentity(r, p, m).Some?
            <==> m.adUsername != "" && m.realm != "" && m.netbios != "" && m.domainSid != "" && m.objectSid != ""
  {
    ParseIntPrintInt(p.uid);
    ParseIntPrintInt(p.gid);
  }

  predicate TextsSet(ad: AdIdentity) {
    ad.adUsername != "" && ad.realm != "" && ad.netbios != "" && ad.domainSid != "" && ad.objectSid != ""
  }

  /** A stored field that is set must not change. */
  predicate Agrees(stored: AdIdentity, current: AdIdentity) {
    && stored.adUsername in {"", current.adUsername}
    && stored.realm in {"", current.realm}
    && stored.netbios in {"", current.netbios}
    && stored.domainSid in {"", current.domainSid}
    && stored.objectSid in {"", current.objectSid}
    && stored.uidNumber in {0, current.uidNumber}
    && stored.gidNumber in {0, current.gidNumber}
  }

  predicate AllSet(ad: AdIdentity) {
    TextsSet(ad) && ad.uidNumber != 0 && ad.gidNumber != 0
  }

  /** The fields AD defines; the username is the key of the row. */
  predicate SameAccount(a: AdIdentity, b: AdIdentity) {
    a.(username := b.username) == b
  }

  lemma SetFieldsAreFixed(stored: AdIdentity, current: AdIdentity)
    requires AllSet(stored)
    ensures Agrees(stored, current) <==> SameAccount(stored, current)
  {
    assert stored.(username := current.username) == current <==>
      && stored.adUsername == current.adUsername && stored.realm == current.realm && stored.netbios == current.netbios
      && stored.domainSid == current.domainSid && stored.objectSid == current.objectSid
      && stored.uidNumber == current.uidNumber && stored.gidNumber == current.gidNumber;
  }

  /** The stored row with every unset field taken from AD. */
  ghost function FilledIn(stored: AdIdentity, current: AdIdentity): AdIdentity {
    AdIdentity(
      stored.username,
      if stored.adUsername == "" then current.adUsername else stored.adUsername,
      if stored.realm == "" then current.realm else stored.realm,
      if stored.netbios == "" then current.netbios else stored.netbios,
      if stored.domainSid == "" then current.domainSid else stored.domainSid,
      if stored.objectSid == "" then current.objectSid else stored.objectSid,
      if stored.uidNumber == 0 then current.uidNumber else stored.uidNumber,
      if stored.gidNumber == 0 then current.gidNumber else stored.gidNumber)
  }

  /** Validation passes exactly when filling in what is unset turns the stored account into the reported one. */
  lemma AgreesExactly(stored: AdIdentity, current: AdIdentity)
    ensures Agrees(stored, current) <==> SameAccount(FilledIn(stored, current), current)
  {
    var filled := FilledIn(stored, current);
    assert SameAccount(filled, current) <==>
      && filled.adUsername == current.adUsername && filled.realm == current.realm && filled.netbios == current.netbios
      && filled.domainSid == current.domainSid && filled.objectSid == current.objectSid
      && filled.uidNumber == current.uidNumber && filled.gidNumber == current.gidNumber;
  }

  /** The rows `find_kerberos_identity` may return: by username, or by the user id the name stands for. */
  function IdentityKeys(db: Tables, username: string): set<string> {
    set u | u in db.identities &&
            (u == username || (db.identities[u].userId.Some? && UserIdSubquery(db, username) == Ok(db.identities[u].userId)))
  }

  /** A row stored under the username, or pointing at the user of that name. */
  ghost predicate IdentityRowOf(db: Tables, username: string, u: string) {
    u in db.identities &&
    (u == username ||
     exists i :: i in db.users && db.users[i].username == username && db.identities[u].userId == Some(i))
  }

  lemma KeysAreRows(db: Tables, username: string)
    requires UserIdSubquery(db, username).Ok?
    ensures forall u :: u in IdentityKeys(db, username) <==> IdentityRowOf(db, username, u)
  {
    UserIdSubqueryFinds(db, username);
    forall u | u in IdentityKeys(db, username) && u != username ensures IdentityRowOf(db, username, u) {
      assert UserIdSubquery(db, username) == Ok(db.identities[u].userId);
      var i := db.identities[u].userId.value;
      assert i in db.users && db.users[i].username == username;
    }
    forall i | i in db.users && db.users[i].username == username ensures UserIdSubquery(db, username) == Ok(Some(i)) {
      assert i in IdsNamed(db, {username});
      SingletonElement(IdsNamed(db, {username}), i);
    }
  }

  /** `find_kerberos_identity`: some matching row, in whatever order the rows come. */
  method FindIdentity(repo: Repository, username: string) returns (outcome: Outcome, stored: Option<AdIdentity>)
    ensures outcome.Done? ==>
      match stored
      case None => IdentityKeys(repo.View(), username) == {}
      case Some(ad) => exists u :: u in IdentityKeys(repo.View(), username) && ad == repo.View().identities[u].ad
    ensures outcome.Done? ==>
      match stored
      case None => forall u :: !IdentityRowOf(repo.View(), username, u)
      case Some(ad) => exists u :: IdentityRowOf(repo.View(), username, u) && ad == repo.View().identities[u].ad
    ensures repo.faultless ==> (outcome.Done? <==> UserIdSubquery(repo.View(), username).Ok?)
  {
    var read, db := repo.Read();
    if read.Raised? || UserIdSubquery(db, username).Err? {
      return Raised, None;
    }
    KeysAreRows(db, username);
    var keys := IdentityKeys(db, username);
    if keys == {} {
      return Done, None;
    }
    var u :| u in keys;
    return Done, Some(db.identities[u].ad);
  }

  /** AD reports the planned account, and whichever stored row validation finds agrees with it. */
  ghost predicate ReportFits(db: Tables, r: Request, p: Plan, report: Metadata) {
    var built := BuildIdentity(r, p, report);
    && built.Some? && UserIdSubquery(db, r.username).Ok?
    && forall u :: u in IdentityKeys(db, r.username) ==> Agrees(db.identities[u].ad, built.value)
  }

  /** The record a create enters its transaction with. */
  function RecordFor(r: Request, p: Plan, report: Metadata): Option<AdIdentity> {
    if r.kerberos then BuildIdentity(r, p, report) else None
  }

  /** Some row the validation may have compared with agrees. */
  ghost predicate AgreesWithStored(db: Tables, current: AdIdentity) {
    var keys := IdentityKeys(db, current.username);
    keys == {} || exists u :: u in keys && Agrees(db.identities[u].ad, current)
  }

  /** `_validate_kerberos_identity`. */
  method ValidateIdentity(repo: Repository, current: AdIdentity) returns (outcome: Outcome)
    ensures outcome.Done? ==> AgreesWithStored(repo.View(), current)
    ensures outcome.Done? ==>
      || (forall u :: !IdentityRowOf(repo.View(), current.username, u))
      || exists u :: IdentityRowOf(repo.View(), current.username, u) && Agrees(repo.View().identities[u].ad, current)
    ensures repo.faultless && outcome.Raised? && UserIdSubquery(repo.View(), current.username).Ok? ==>
      exists u :: u in IdentityKeys(repo.View(), current.username) && !Agrees(repo.View().identities[u].ad, current)
  {
    var stored;
    outcome, stored := FindIdentity(repo, current.username);
    if outcome.Done? && stored.Some? && !Agrees(stored.value, current) {
      outcome := Raised;
    }
  }
}
