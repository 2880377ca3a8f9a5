/** The extend service: collect matches in every domain, refuse as a whole, then update row by row. */
module ContainerExtend {
  import opened Wrappers
  import opened Schema
  import opened Calendar
  import opened DateText
  import opened Repositories

  /** Empty texts and None are absent filters. */
  datatype Request = Request(
    expiration: string, name: string, username: string, port: Option<int>, apply: bool, allMatches: bool)

  datatype ExtendResult = Refused | Planned | Extended | Failed

  /** The WHERE clause of `matching_active_containers`, joined with the owning user. */
  predicate Matches(db: Tables, r: Request, row: int) {
    && Active(db, row)
    && db.containers[row].userId.Some? && db.containers[row].userId.value in db.users
    && (r.name == "" || db.users[db.containers[row].userId.value].name == r.name)
    && (r.username == "" || db.users[db.containers[row].userId.value].username == r.username)
    && (r.port.None? || r.port.value in PortsOf(db, row))
  }

  function WithExpiry(db: Tables, rows: set<int>, expires: StoredDate): Tables {
    db.(containers := map c | c in db.containers ::
          if c in rows then db.containers[c].(expires := expires) else db.containers[c])
  }

  function RowsIn(matches: seq<(Domain, int)>, domain: Domain): set<int> {
    set m | m in matches && m.0 == domain :: m.1
  }

  function Matching(db: Tables, r: Request): set<int> {
    set row | row in db.containers && Matches(db, r, row)
  }

  /** An active row with an owner that has everything the request names. */
  ghost predicate Wanted(db: Tables, r: Request, row: int) {
    && row in db.containers && db.containers[row].existing
    && (exists owner :: && owner in db.users && db.containers[row].userId == Some(owner)
                        && (r.name != "" ==> db.users[owner].name == r.name)
                        && (r.username != "" ==> db.users[owner].username == r.username))
    && (r.port.Some? ==> r.port.value in db.ports && db.ports[r.port.value].owner == Some(row))
  }

  ghost function WantedRows(db: Tables, r: Request): set<int> {
    set row | row in db.containers && Wanted(db, r, row)
  }

  lemma MatchingIsWanted(db: Tables, r: Request)
    ensures Matching(db, r) == WantedRows(db, r)
  {
    forall row | row in Matching(db, r) ensures Wanted(db, r, row) {
      var owner := db.containers[row].userId.value;
      assert owner in db.users && db.containers[row].userId == Some(owner);
    }
    forall row | Wanted(db, r, row) ensures row in Matching(db, r) {
      assert db.containers[row].userId.value in db.users;
    }
  }

  /** Every match of every domain may take the new expiry. */
  ghost predicate AllLater(dbs: map<Domain, Tables>, domains: seq<Domain>, r: Request) {
    forall d, row :: d in domains && d in dbs && row in WantedRows(dbs[d], r) ==>
      TextLess(FormatDate(dbs[d].containers[row].expires), r.expiration)
  }

  /** What one extend may do to a table set: move some expiries to the requested date, each textually later. */
  ghost predicate ExtendStep(before: Tables, after: Tables, r: Request)
    requires ParseDate(r.expiration).Some?
  {
    exists rows :: && after == WithExpiry(before, rows, ParseDate(r.expiration).value)
                   && forall c :: c in rows && c in before.containers ==>
                        TextLess(FormatDate(before.containers[c].expires), r.expiration)
  }

  ghost predicate Separate(repos: map<Domain, Repository>) {
    forall d, e :: d in repos && e in repos && d != e ==> repos[d] != repos[e]
  }

  ghost predicate AllFaultless(repos: map<Domain, Repository>) {
    forall d :: d in repos ==> repos[d].faultless
  }

  ghost predicate Distinct<T>(s: seq<T>) {
    forall i, j :: 0 <= i < j < |s| ==> s[i] != s[j]
  }

  /** `find_matches`: (domain, row) pairs, the domains in order. */
  method FindMatches(repos: map<Domain, Repository>, domains: seq<Domain>, r: Request)
    returns (outcome: Outcome, matches: seq<(Domain, int)>)
    requires forall d :: d in domains ==> d in repos
    ensures outcome.Done? ==> forall d, row :: (d, row) in matches <==> d in domains && row in WantedRows(repos[d].View(), r)
    ensures Distinct(domains) ==> Distinct(matches)
    ensures AllFaultless(repos) ==> outcome.Done?
  {
    matches := [];
    for k := 0 to |domains|
      invariant Distinct(domains) ==> Distinct(matches)
      invariant forall d, row :: (d, row) in matches <==> d in domains[..k] && row in WantedRows(repos[d].View(), r)
    {
      var domain := domains[k];
      var read, db := repos[domain].Read();
      if read.Raised? {
        return Raised, [];
      }
      ghost var earlier := matches;
      MatchingIsWanted(db, r);
      var remaining := Matching(db, r);
      while remaining != {}
        invariant remaining <= Matching(db, r) == WantedRows(db, r)
        invariant forall d, row :: (d, row) in matches <==>
          (d, row) in earlier || (d == domain && row in WantedRows(db, r) - remaining)
        invariant Distinct(domains) ==> Distinct(matches)
        decreases remaining
      {
        var row :| row in remaining;
        if Distinct(domains) {
          assert domain !in domains[..k];
        }
        remaining := remaining - {row};
        matches := matches + [(domain, row)];
      }
      assert forall d :: d in domains[..k + 1] <==> d in domains[..k] || d == domain;
    }
    assert domains[..|domains|] == domains;
    return Done, matches;
  }

  /** Whether some match would not move forward, comparing texts. */
  method AnyNotLater(repos: map<Domain, Repository>, matches: seq<(Domain, int)>, r: Request) returns (invalid: bool)
    requires forall m :: m in matches ==> m.0 in repos && m.1 in repos[m.0].View().containers
    ensures invalid <==> exists m :: m in matches && !TextLess(FormatDate(repos[m.0].View().containers[m.1].expires), r.expiration)
  {
    invalid := false;
    for k := 0 to |matches|
      invariant invalid <==> exists i :: 0 <= i < k && !TextLess(FormatDate(repos[matches[i].0].View().containers[matches[i].1].expires), r.expiration)
    {
      var m := matches[k];
      invalid := invalid || !TextLess(FormatDate(repos[m.0].View().containers[m.1].expires), r.expiration);
    }
    assert forall i :: 0 <= i < |matches| ==> matches[i] in matches;
  }

  lemma RowsInSnoc(matches: seq<(Domain, int)>, k: nat, d: Domain)
    requires k < |matches|
    ensures RowsIn(matches[..k + 1], d) == RowsIn(matches[..k], d) + (if matches[k].0 == d then {matches[k].1} else {})
  {
    var longer := matches[..k + 1];
    assert longer == matches[..k] + [matches[k]];
    forall row | row in RowsIn(matches[..k], d) ensures row in RowsIn(longer, d) {
      assert (d, row) in matches[..k];
      assert (d, row) in longer;
    }
    if matches[k].0 == d {
      assert matches[k] == (d, matches[k].1) && (d, matches[k].1) in longer;
    }
  }

  lemma WithExpiryOneMore(db: Tables, rows: set<int>, row: int, expires: StoredDate, auto: int)
    requires row in db.containers
    ensures var updated := Exec(WithExpiry(db, rows, expires), UpdateExpiration(row, expires), auto);
            updated.Ok? && updated.value == WithExpiry(db, rows + {row}, expires)
  {
    var some, more := WithExpiry(db, rows, expires), WithExpiry(db, rows + {row}, expires);
    assert some.containers[row := some.containers[row].(expires := expires)] == more.containers;
  }

  ghost function Committed(repos: map<Domain, Repository>): map<Domain, Tables>
    reads repos.Values
  {
    map d | d in repos :: repos[d].committed
  }

  /** What the first `done` updates leave in every domain. */
  ghost function Updated(before: map<Domain, Tables>, matches: seq<(Domain, int)>,
      expires: StoredDate): map<Domain, Tables> {
    map d | d in before :: WithExpiry(before[d], RowsIn(matches, d), expires)
  }

  lemma UpdatedSnoc(before: map<Domain, Tables>, matches: seq<(Domain, int)>, k: nat, expires: StoredDate, auto: int)
    requires k < |matches| && matches[k].0 in before && matches[k].1 in before[matches[k].0].containers
    ensures var (domain, row) := matches[k];
            var some, more := Updated(before, matches[..k], expires), Updated(before, matches[..k + 1], expires);
            && Exec(some[domain], UpdateExpiration(row, expires), auto) == Ok(more[domain])
            && more == some[domain := more[domain]]
  {
    var (domain, row) := matches[k];
    forall d | d in before ensures RowsIn(matches[..k + 1], d) == RowsIn(matches[..k], d) + (if domain == d then {row} else {}) {
      RowsInSnoc(matches, k, d);
    }
    WithExpiryOneMore(before[domain], RowsIn(matches[..k], domain), row, expires, auto);
    var some, more := Updated(before, matches[..k], expires), Updated(before, matches[..k + 1], expires);
    forall d | d in before && d != domain ensures more[d] == some[d] {
      assert RowsIn(matches[..k], d) + {} == RowsIn(matches[..k], d);
    }
  }

  /** The rows a raising update loop leaves behind are the first ones of the list. */
  ghost predicate PrefixUpdated(before: map<Domain, Tables>, after: map<Domain, Tables>, matches: seq<(Domain, int)>,
      expires: StoredDate) {
    exists done :: 0 <= done <= |matches| && after == Updated(before, matches[..done], expires)
  }

  /** No match has the new expiry already, so every update reports one changed row. */
  ghost predicate AllMove(before: map<Domain, Tables>, matches: seq<(Domain, int)>, expires: StoredDate) {
    forall m :: m in matches && m.0 in before && m.1 in before[m.0].containers ==> before[m.0].containers[m.1].expires != expires
  }

  lemma StillMoves(before: map<Domain, Tables>, matches: seq<(Domain, int)>, k: nat, expires: StoredDate, auto: int)
    requires k < |matches| && matches[k].0 in before && matches[k].1 in before[matches[k].0].containers
    requires Distinct(matches) && AllMove(before, matches, expires)
    ensures var db := Updated(before, matches[..k], expires)[matches[k].0];
            RowCount(db, UpdateExpiration(matches[k].1, expires)) == 1
  {
    var (domain, row) := matches[k];
    assert matches[k] in matches;
    forall m | m in matches[..k] ensures !(m.0 == domain && m.1 == row) {
      var i :| 0 <= i < k && matches[i] == m;
      var (d, c) := m;
    }
    assert row !in RowsIn(matches[..k], domain);
  }

  lemma ChangedRowMoved(before: map<Domain, Tables>, matches: seq<(Domain, int)>, k: nat, expires: StoredDate)
    requires k < |matches| && matches[k].0 in before && matches[k].1 in before[matches[k].0].containers
    requires RowCount(Updated(before, matches[..k], expires)[matches[k].0], UpdateExpiration(matches[k].1, expires)) == 1
    ensures before[matches[k].0].containers[matches[k].1].expires != expires
  {
  }

  lemma EachMoved(before: map<Domain, Tables>, matches: seq<(Domain, int)>, expires: StoredDate)
    requires forall m :: m in matches ==> m.0 in before && m.1 in before[m.0].containers
    requires forall i :: 0 <= i < |matches| ==> before[matches[i].0].containers[matches[i].1].expires != expires
    ensures AllMove(before, matches, expires)
  {
  }

  lemma NothingUpdated(before: map<Domain, Tables>, matches: seq<(Domain, int)>, expires: StoredDate)
    ensures Updated(before, matches[..0], expires) == before
  {
    forall d | d in before ensures WithExpiry(before[d], RowsIn(matches[..0], d), expires) == before[d] {
      assert WithExpiry(before[d], {}, expires).containers == before[d].containers;
    }
  }

  /** The update loop, each row in its own autocommitted statement. */
  method UpdateAll(repos: map<Domain, Repository>, matches: seq<(Domain, int)>, expires: StoredDate)
    returns (outcome: Outcome, done: nat)
    requires Separate(repos) && forall d :: d in repos ==> !repos[d].inTransaction
    requires forall m :: m in matches ==> m.0 in repos && m.1 in repos[m.0].committed.containers
    modifies repos.Values
    ensures done <= |matches| && (outcome.Done? ==> done == |matches|)
    ensures Committed(repos) == Updated(old(Committed(repos)), matches[..done], expires)
    ensures outcome.Done? ==> AllMove(old(Committed(repos)), matches, expires)
    ensures AllFaultless(repos) && Distinct(matches) && AllMove(old(Committed(repos)), matches, expires) ==> outcome.Done?
  {
    hide Exec, WithExpiry, AllMove, RowCount;
    ghost var before := Committed(repos);
    done := 0;
    NothingUpdated(before, matches, expires);
    while done < |matches|
      invariant done <= |matches|
      invariant forall d :: d in repos ==> !repos[d].inTransaction
      invariant Committed(repos) == Updated(before, matches[..done], expires)
      invariant forall i :: 0 <= i < done ==> before[matches[i].0].containers[matches[i].1].expires != expires
    {
      assert matches[done] in matches;
      var domain, row := matches[done].0, matches[done].1;
      UpdatedSnoc(before, matches, done, expires, repos[domain].autoIncrement);
      if Distinct(matches) && AllMove(before, matches, expires) {
        StillMoves(before, matches, done, expires, repos[domain].autoIncrement);
      }
      var updated, rowCount := UpdateOne(repos, domain, row, expires);
      if updated.Raised? {
        return Raised, done;
      }
      done := done + 1;
      if rowCount != 1 {
        return Raised, done;
      }
      ChangedRowMoved(before, matches, done - 1, expires);
    }
    EachMoved(before, matches, expires);
    return Done, done;
  }

  /** One autocommitted update leaves the other domains alone. */
  method UpdateOne(repos: map<Domain, Repository>, domain: Domain, row: int, expires: StoredDate)
    returns (outcome: Outcome, rowCount: nat)
    requires Separate(repos) && domain in repos && forall d :: d in repos ==> !repos[d].inTransaction
    modifies repos.Values
    ensures forall d :: d in repos ==> !repos[d].inTransaction
    ensures outcome.Raised? ==> Committed(repos) == old(Committed(repos))
    ensures repos[domain].faultless ==>
      (outcome.Done? <==> Exec(old(repos[domain].committed), UpdateExpiration(row, expires), old(repos[domain].autoIncrement)).Ok?)
    ensures outcome.Done? ==>
      && rowCount == RowCount(old(repos[domain].committed), UpdateExpiration(row, expires))
      && Exec(old(repos[domain].committed), UpdateExpiration(row, expires), old(repos[domain].autoIncrement)).Ok?
      && Committed(repos) == old(Committed(repos))[
           domain := Exec(old(repos[domain].committed), UpdateExpiration(row, expires), old(repos[domain].autoIncrement)).value]
  {
    outcome, rowCount := repos[domain].Execute(UpdateExpiration(row, expires));
    assert forall d :: d in repos && d != domain ==> repos[d] != repos[domain] && repos[d].committed == old(repos[d].committed);
  }

  /** Everything that can refuse the request before a write: date, filters, reads, a match not later. */
  method CheckedMatches(repos: map<Domain, Repository>, domains: seq<Domain>, r: Request)
    returns (accepted: bool, matches: seq<(Domain, int)>)
    requires forall d :: d in repos ==> !repos[d].inTransaction
    requires forall d :: d in domains ==> d in repos
    ensures accepted ==>
      && ParseDate(r.expiration).Some? && (r.name != "" || r.username != "" || r.port.Some?)
      && (forall d, row :: (d, row) in matches <==> d in domains && row in WantedRows(repos[d].committed, r))
      && (forall d, row :: (d, row) in matches <==> d in domains && Wanted(Committed(repos)[d], r, row))
      && (forall m :: m in matches ==> m.0 in repos && m.1 in repos[m.0].committed.containers)
      && AllLater(Committed(repos), domains, r)
    ensures Distinct(domains) ==> Distinct(matches)
    ensures AllFaultless(repos) && ParseDate(r.expiration).Some? && (r.name != "" || r.username != "" || r.port.Some?)
            && AllLater(Committed(repos), domains, r)
            ==> accepted
  {
    if ParseDate(r.expiration).None? || (r.name == "" && r.username == "" && r.port.None?) {
      return false, [];
    }
    var found, all := FindMatches(repos, domains, r);
    matches := all;
    if found.Raised? {
      return false, matches;
    }
    forall m | m in matches ensures m.0 in repos && m.1 in repos[m.0].View().containers {
      var (d, row) := m;
      assert (d, row) in matches;
      assert row in WantedRows(repos[d].View(), r);
    }
    var invalid := AnyNotLater(repos, matches, r);
    if invalid {
      var m :| m in matches && !TextLess(FormatDate(repos[m.0].View().containers[m.1].expires), r.expiration);
      var (d, row) := m;
      assert row in WantedRows(Committed(repos)[d], r);
      return false, matches;
    }
    forall d, row | d in domains && d in repos && row in WantedRows(repos[d].committed, r)
      ensures TextLess(FormatDate(repos[d].committed.containers[row].expires), r.expiration)
    {
      assert (d, row) in matches;
    }
    return true, matches;
  }

  lemma UpdatesAreSteps(before: Tables, matches: seq<(Domain, int)>, done: nat, d: Domain, r: Request)
    requires ParseDate(r.expiration).Some? && done <= |matches|
    requires forall row :: (d, row) in matches && row in before.containers ==>
      TextLess(FormatDate(before.containers[row].expires), r.expiration)
    ensures ExtendStep(before, WithExpiry(before, RowsIn(matches[..done], d), ParseDate(r.expiration).value), r)
  {
    var rows := RowsIn(matches[..done], d);
    forall c | c in rows && c in before.containers ensures TextLess(FormatDate(before.containers[c].expires), r.expiration) {
      var m :| m in matches[..done] && m.0 == d && m.1 == c;
      var (d', c') := m;
      assert (d, c) in matches;
    }
  }

  lemma NoUpdateIsStep(before: Tables, r: Request)
    requires ParseDate(r.expiration).Some?
    ensures ExtendStep(before, before, r)
  {
    assert WithExpiry(before, {}, ParseDate(r.expiration).value) == before;
  }

  lemma RowsInAre(matches: seq<(Domain, int)>, d: Domain, rows: set<int>)
    requires forall row :: (d, row) in matches <==> row in rows
    ensures RowsIn(matches, d) == rows
  {
    forall row | row in RowsIn(matches, d) ensures row in rows {
      var m :| m in matches && m.0 == d && m.1 == row;
      var (d', row') := m;
      assert (d, row) in matches;
    }
    forall row | row in rows ensures row in RowsIn(matches, d) {
      assert (d, row) in matches;
    }
  }

  /** What the update loop leaves: a step in every domain and, when it finished, the requested rows. */
  lemma UpdatedIs(before: map<Domain, Tables>, domains: seq<Domain>, matches: seq<(Domain, int)>, done: nat, r: Request)
    requires ParseDate(r.expiration).Some? && done <= |matches| && AllLater(before, domains, r)
    requires forall d :: d in domains ==> d in before
    requires forall d, row :: (d, row) in matches <==> d in domains && row in WantedRows(before[d], r)
    ensures var after := Updated(before, matches[..done], ParseDate(r.expiration).value);
            && (forall d :: d in before ==> ExtendStep(before[d], after[d], r))
            && (done == |matches| ==> after == WithRequested(before, domains, r))
  {
    forall d | d in before
      ensures ExtendStep(before[d], Updated(before, matches[..done], ParseDate(r.expiration).value)[d], r)
    {
      UpdatesAreSteps(before[d], matches, done, d, r);
    }
    if done == |matches| {
      assert matches[..done] == matches;
      forall d | d in before ensures RowsIn(matches, d) == if d in domains then WantedRows(before[d], r) else {} {
        RowsInAre(matches, d, if d in domains then WantedRows(before[d], r) else {});
      }
    }
  }

  /** Every matching row of every requested domain with the requested expiry. */
  ghost function WithRequested(before: map<Domain, Tables>, domains: seq<Domain>, r: Request): map<Domain, Tables>
    requires ParseDate(r.expiration).Some?
  {
    map d | d in before :: WithExpiry(before[d], if d in domains then WantedRows(before[d], r) else {}, ParseDate(r.expiration).value)
  }

  /** Nothing refuses the request: a date, a filter, and every match moves forward textually. */
  ghost predicate Acceptable(dbs: map<Domain, Tables>, domains: seq<Domain>, r: Request) {
    ParseDate(r.expiration).Some? && (r.name != "" || r.username != "" || r.port.Some?) && AllLater(dbs, domains, r)
  }

  lemma LaterMoves(before: map<Domain, Tables>, domains: seq<Domain>, matches: seq<(Domain, int)>, r: Request)
    requires ParseDate(r.expiration).Some? && |r.expiration| == 10 && AllLater(before, domains, r)
    requires forall d :: d in domains ==> d in before
    requires forall d, row :: (d, row) in matches <==> d in domains && row in WantedRows(before[d], r)
    ensures AllMove(before, matches, ParseDate(r.expiration).value)
  {
    forall m | m in matches && m.0 in before && m.1 in before[m.0].containers
      ensures before[m.0].containers[m.1].expires != ParseDate(r.expiration).value
    {
      var (d, row) := m;
      assert (d, row) in matches;
      TenCharactersCompare(r.expiration, before[d].containers[row].expires);
    }
  }

  /**
   Refuses as a whole, before any write, when any match of any domain is not later or when matches are
   ambiguous; on success every match of every domain has the new expiry.
   */
  method Execute(repos: map<Domain, Repository>, domains: seq<Domain>, r: Request)
    returns (result: ExtendResult, matches: seq<(Domain, int)>)
    requires Separate(repos) && forall d :: d in repos ==> !repos[d].inTransaction
    requires forall d :: d in domains ==> d in repos
    modifies repos.Values
    ensures ParseDate(r.expiration).None? || (r.name == "" && r.username == "" && r.port.None?) ==> result.Refused?
    ensures result.Refused? || result.Planned? ==> Committed(repos) == old(Committed(repos))
    ensures !result.Refused? ==> ParseDate(r.expiration).Some? && AllLater(old(Committed(repos)), domains, r)
    ensures !result.Refused? ==>
      forall d, row :: (d, row) in matches <==> d in domains && Wanted(old(Committed(repos))[d], r, row)
    ensures result.Planned? ==> !r.apply
    ensures result.Extended? || result.Failed? ==> r.apply && (|matches| > 1 ==> r.allMatches)
    ensures result.Extended? ==> Committed(repos) == WithRequested(old(Committed(repos)), domains, r)
    ensures result.Extended? ==> AllMove(old(Committed(repos)), matches, ParseDate(r.expiration).value)
    ensures result.Failed? ==> PrefixUpdated(old(Committed(repos)), Committed(repos), matches, ParseDate(r.expiration).value)
    ensures ParseDate(r.expiration).Some? ==>
      forall d :: d in repos ==> ExtendStep(old(Committed(repos))[d], Committed(repos)[d], r)
    ensures AllFaultless(repos) && Acceptable(old(Committed(repos)), domains, r) && r.apply
            && |r.expiration| == 10 && Distinct(domains) && (|matches| > 1 ==> r.allMatches)
            ==> result.Extended?
    ensures AllFaultless(repos) ==>
      (result.Refused? <==> !Acceptable(old(Committed(repos)), domains, r) || (r.apply && |matches| > 1 && !r.allMatches))
  {
    hide Wanted, AllLater, AllMove, Updated, WithExpiry, ExtendStep;
    var accepted;
    accepted, matches := CheckedMatches(repos, domains, r);
    if ParseDate(r.expiration).Some? {
      forall d | d in repos ensures ExtendStep(Committed(repos)[d], Committed(repos)[d], r) {
        NoUpdateIsStep(Committed(repos)[d], r);
      }
    }
    if !accepted {
      return Refused, matches;
    }
    if !r.apply {
      return Planned, matches;
    }
    if |matches| > 1 && !r.allMatches {
      return Refused, matches;
    }
    ghost var before := Committed(repos);
    var expires: StoredDate := ParseDate(r.expiration).value;
    if |r.expiration| == 10 {
      LaterMoves(before, domains, matches, r);
    }
    var outcome, done := UpdateAll(repos, matches, expires);
    UpdatedIs(before, domains, matches, done, r);
    return if outcome.Raised? then Failed else Extended, matches;
  }

  // ---------- Runs of extends ----------

  /** A run: successive table sets and the requests that led from each to the next. */
  ghost predicate ExtendRun(dbs: seq<Tables>, requests: seq<Request>) {
    && |dbs| == |requests| + 1
    && forall i :: 0 <= i < |requests| ==>
         ParseDate(requests[i].expiration).Some? && ExtendStep(dbs[i], dbs[i + 1], requests[i])
  }

  predicate NotAfter(a: Date, b: Date) {
    a == b || Before(a, b)
  }

  lemma ExtendStepMonotone(before: Tables, after: Tables, r: Request, c: int)
    requires ParseDate(r.expiration).Some? && |r.expiration| == 10
    requires ExtendStep(before, after, r) && c in before.containers
    ensures c in after.containers && after.containers[c] == before.containers[c].(expires := after.containers[c].expires)
    ensures after.containers[c].expires == before.containers[c].expires
         || Before(before.containers[c].expires, after.containers[c].expires)
  {
    TenCharactersCompare(r.expiration, before.containers[c].expires);
  }

  /** Over any run of extends with ten-character dates an expiry only ever moves forward in time. */
  lemma {:induction false} ExpiryOnlyIncreases(dbs: seq<Tables>, requests: seq<Request>, i: nat, j: nat, c: int)
    requires ExtendRun(dbs, requests) && i <= j < |dbs|
    requires forall k :: 0 <= k < |requests| ==> |requests[k].expiration| == 10
    requires c in dbs[i].containers
    ensures c in dbs[j].containers && NotAfter(dbs[i].containers[c].expires, dbs[j].containers[c].expires)
    decreases j
  {
    if i < j {
      ExpiryOnlyIncreases(dbs, requests, i, j - 1, c);
      ExtendStepMonotone(dbs[j - 1], dbs[j], requests[j - 1], c);
    }
  }

  /**
   With a shorter accepted text the service can move an expiry backwards: for each such text there
   is a stored date it would replace by one that is not later.
   */
  lemma ShortRequestCanMoveBack(r: Request, db: Tables, c: int) returns (stored: StoredDate)
    requires ParseDate(r.expiration).Some? && |r.expiration| != 10 && c in db.containers
    ensures var before := WithExpiry(db, {c}, stored);
            var after := WithExpiry(before, {c}, ParseDate(r.expiration).value);
            && ExtendStep(before, after, r)
            && !Before(before.containers[c].expires, after.containers[c].expires)
  {
    stored := ShortTextMisleads(r.expiration);
    var before := WithExpiry(db, {c}, stored);
    assert before.containers[c].expires == stored;
  }
}
