/**
 The purpose string: create stores each mapping's purpose in used_ports, the container query prints
 `port:purpose` entries joined by `|`, and sync parses them back into docker port bindings.
 */
module PortSpecs {
  import opened Wrappers
  import opened Text
  import opened PortAllocator

  // ---------- Fixed mappings on the command line ----------

  datatype CliRefusal = BadEntry | NotNumeric | DuplicateHostPort | RequiredPortMissing

  function DefaultPurpose(containerPort: int): string {
    if containerPort == 22 then "ssh"
    else if containerPort == 8888 then "jupyter notebook"
    else if containerPort == 6080 then "vnc"
    else ExtraPurpose(containerPort)
  }

  /** One stripped, non-empty `host:container[:purpose]` entry. */
  function ParseFixedEntry(item: string): Result<PortMapping, CliRefusal> {
    match SplitOnce(item, ':')
    case None => Err(BadEntry)
    case Some((hostText, rest)) =>
      var tail := SplitOnce(rest, ':');
      var host := ParseInt(hostText);
      var container := ParseInt(if tail.Some? then tail.value.0 else rest);
      if host.None? || container.None? then Err(NotNumeric)
      else
        var custom := if tail.Some? then Strip(tail.value.1) else [];
        Ok(PortMapping(host.value, container.value, if custom != [] then custom else DefaultPurpose(container.value)))
  }

  /** A list item: blank ones are skipped. */
  function ReadFixedItem(raw: string): Result<Option<PortMapping>, CliRefusal> {
    var item := Strip(raw);
    if item == [] then Ok(None)
    else
      match ParseFixedEntry(item)
      case Err(e) => Err(e)
      case Ok(m) => Ok(Some(m))
  }

  function ReadFixedItems(items: seq<string>): (rs: seq<Result<Option<PortMapping>, CliRefusal>>)
    ensures |rs| == |items| && forall i :: 0 <= i < |items| ==> rs[i] == ReadFixedItem(items[i])
  {
    seq(|items|, i requires 0 <= i < |items| => ReadFixedItem(items[i]))
  }

  /** The mappings of a comma-separated argument before the whole-list checks. */
  function FixedMappings(raw: string): Result<seq<PortMapping>, CliRefusal> {
    Collect(ReadFixedItems(Split(raw, ',')))
  }

  /** `raw` is, up to white space at its ends, host and container port with a colon between them and maybe a purpose behind another. */
  ghost predicate Writes(raw: string, m: PortMapping, purpose: Option<string>) {
    exists host, container ::
      && Text.Free(host, ':') && Text.Free(container, ':')
      && ParseInt(host) == Some(m.hostPort) && ParseInt(container) == Some(m.containerPort)
      && Strip(raw) == host + [':'] + container + (if purpose.Some? then [':'] + purpose.value else [])
  }

  /** The mapping takes the written purpose, or the usual one of its container port if that is missing or blank. */
  ghost predicate HasPurpose(m: PortMapping, purpose: Option<string>) {
    m.purpose == if purpose.Some? && Strip(purpose.value) != "" then Strip(purpose.value) else DefaultPurpose(m.containerPort)
  }

  lemma EntryIsWritten(raw: string, m: PortMapping)
    requires ReadFixedItem(raw) == Ok(Some(m))
    ensures exists purpose :: Writes(raw, m, purpose) && HasPurpose(m, purpose)
  {
    hide ParseInt, Strip;
    var item := Strip(raw);
    var (host, rest) := SplitOnce(item, ':').value;
    SplitOnceParts(item, ':');
    var tail := SplitOnce(rest, ':');
    if tail.Some? {
      SplitOnceParts(rest, ':');
      var (container, purpose) := tail.value;
      assert item == host + [':'] + container + ([':'] + purpose);
      assert Writes(raw, m, Some(purpose)) && HasPurpose(m, Some(purpose));
    } else {
      NoSeparator(rest, ':');
      assert item == host + [':'] + rest + [];
      assert Writes(raw, m, None) && HasPurpose(m, None);
    }
  }

  lemma WrittenEntryReads(raw: string, m: PortMapping, purpose: Option<string>)
    requires Writes(raw, m, purpose) && HasPurpose(m, purpose)
    ensures ReadFixedItem(raw) == Ok(Some(m))
  {
    hide ParseInt, Strip;
    var host, container :|
      && Text.Free(host, ':') && Text.Free(container, ':')
      && ParseInt(host) == Some(m.hostPort) && ParseInt(container) == Some(m.containerPort)
      && Strip(raw) == host + [':'] + container + (if purpose.Some? then [':'] + purpose.value else []);
    if purpose.Some? {
      assert Strip(raw) == host + [':'] + (container + [':'] + purpose.value);
      SplitOnceAppend(host, ':', container + [':'] + purpose.value);
      SplitOnceAppend(container, ':', purpose.value);
    } else {
      assert Strip(raw) == host + [':'] + container;
      SplitOnceAppend(host, ':', container);
      NoSplit(container, ':');
    }
  }

  /** A list item is skipped if it is blank, and read as a mapping exactly if it is written as one. */
  lemma FixedItemExactly(raw: string, m: PortMapping)
    ensures ReadFixedItem(raw) == Ok(None) <==> Strip(raw) == ""
    ensures ReadFixedItem(raw) == Ok(Some(m)) <==> exists purpose :: Writes(raw, m, purpose) && HasPurpose(m, purpose)
  {
    hide Writes, HasPurpose;
    if ReadFixedItem(raw) == Ok(Some(m)) {
      EntryIsWritten(raw, m);
    }
    if purpose :| Writes(raw, m, purpose) && HasPurpose(m, purpose) {
      WrittenEntryReads(raw, m, purpose);
    }
  }

  ghost predicate Maps(ms: seq<PortMapping>, containerPort: int) {
    exists i :: 0 <= i < |ms| && ms[i].containerPort == containerPort
  }

  method ParseFixedPortMappings(raw: string) returns (r: Result<seq<PortMapping>, CliRefusal>)
    ensures Strip(raw) == [] ==> r == Ok([])
    ensures Strip(raw) != [] ==>
      var parsed := FixedMappings(raw);
      if parsed.Err? then r == Err(parsed.error)
      else if !DistinctHosts(parsed.value) then r == Err(DuplicateHostPort)
      else if Maps(parsed.value, 22) && Maps(parsed.value, 8888) then r == parsed
      else r == Err(RequiredPortMissing)
  {
    if Strip(raw) == [] {
      return Ok([]);
    }
    var items := Split(raw, ',');
    ghost var rs := ReadFixedItems(items);
    var ms: seq<PortMapping> := [];
    for k := 0 to |items|
      invariant Collect(rs[..k]) == Ok(ms)
    {
      assert rs[..k + 1][..k] == rs[..k];
      var item := ReadFixedItem(items[k]);
      if item.Err? {
        FirstErrorIsTheResult(rs, k + 1);
        return Err(item.error);
      } else if item.value.Some? {
        ms := ms + [item.value.value];
      }
    }
    assert rs[..|items|] == rs;
    var distinct := HostsDistinct(ms);
    if !distinct {
      return Err(DuplicateHostPort);
    }
    var ssh := AnyMaps(ms, 22);
    var jupyter := AnyMaps(ms, 8888);
    if !ssh || !jupyter {
      return Err(RequiredPortMissing);
    }
    return Ok(ms);
  }

  method HostsDistinct(ms: seq<PortMapping>) returns (distinct: bool)
    ensures distinct <==> DistinctHosts(ms)
  {
    var hosts: set<int> := {};
    for k := 0 to |ms|
      invariant forall i :: 0 <= i < k ==> ms[i].hostPort in hosts
      invariant forall p :: p in hosts ==> exists i :: 0 <= i < k && ms[i].hostPort == p
      invariant forall i, j :: 0 <= i < j < k ==> ms[i].hostPort != ms[j].hostPort
    {
      if ms[k].hostPort in hosts {
        return false;
      }
      hosts := hosts + {ms[k].hostPort};
    }
    return true;
  }

  method AnyMaps(ms: seq<PortMapping>, containerPort: int) returns (found: bool)
    ensures found <==> Maps(ms, containerPort)
  {
    for k := 0 to |ms|
      invariant forall i :: 0 <= i < k ==> ms[i].containerPort != containerPort
    {
      if ms[k].containerPort == containerPort {
        return true;
      }
    }
    return false;
  }

  // ---------- Printing and parsing port specs ----------

  /** `CONCAT(port_number, ':', purpose_of_use)`. */
  function SpecEntry(m: PortMapping): string {
    PrintInt(m.hostPort) + ":" + m.purpose
  }

  function SpecEntries(ms: seq<PortMapping>): (es: seq<string>)
    ensures |es| == |ms| && forall i :: 0 <= i < |ms| ==> es[i] == SpecEntry(ms[i])
  {
    if ms == [] then [] else [SpecEntry(ms[0])] + SpecEntries(ms[1..])
  }

  function Insert(m: PortMapping, ms: seq<PortMapping>): (r: seq<PortMapping>)
    ensures multiset(r) == multiset{m} + multiset(ms)
  {
    if ms == [] then [m]
    else if m.hostPort <= ms[0].hostPort then
      assert multiset([m] + ms) == multiset{m} + multiset(ms);
      [m] + ms
    else
      assert ms == [ms[0]] + ms[1..];
      [ms[0]] + Insert(m, ms[1..])
  }

  /** `ORDER BY port_number`. */
  function ByPort(ms: seq<PortMapping>): (r: seq<PortMapping>)
    ensures multiset(r) == multiset(ms)
  {
    if ms == [] then []
    else
      assert ms == [ms[0]] + ms[1..];
      Insert(ms[0], ByPort(ms[1..]))
  }

  function SpecText(ms: seq<PortMapping>): string {
    Join(SpecEntries(ms), '|')
  }

  /** `GROUP_CONCAT(... ORDER BY port_number SEPARATOR '|')`, empty for a container without ports. */
  function PortSpecsOf(ms: seq<PortMapping>): string {
    SpecText(ByPort(ms))
  }

  /** `_container_port_for_purpose`; None stands for the ValueError of int(). */
  function ContainerPortForPurpose(hostPort: int, purpose: string): Option<int> {
    var prefix := "container port ";
    if purpose == "ssh" then Some(22)
    else if purpose == "jupyter notebook" then Some(8888)
    else if purpose == "vnc" then Some(6080)
    else if prefix <= purpose then ParseInt(purpose[|prefix|..])
    else Some(hostPort)
  }

  datatype SpecError = ValueError

  /** One raw `port:purpose` text; empty ones are skipped. */
  function ReadSpec(raw: string): Result<Option<(int, string)>, SpecError> {
    if raw == [] then Ok(None)
    else
      match SplitOnce(raw, ':')
      case None => Err(ValueError)
      case Some((hostText, purpose)) =>
        match ParseInt(hostText)
        case None => Err(ValueError)
        case Some(host) => Ok(Some((host, purpose)))
  }

  function ReadSpecs(parts: seq<string>): (rs: seq<Result<Option<(int, string)>, SpecError>>)
    ensures |rs| == |parts| && forall i :: 0 <= i < |parts| ==> rs[i] == ReadSpec(parts[i])
  {
    seq(|parts|, i requires 0 <= i < |parts| => ReadSpec(parts[i]))
  }

  /** The specs a record's stored text denotes. */
  function StoredSpecs(portSpecs: string): Result<seq<(int, string)>, SpecError> {
    Collect(ReadSpecs(Split(portSpecs, '|')))
  }

  /** The docker binding `-p host:container` sync passes for one spec. */
  function Binding(spec: (int, string)): Result<Option<(int, int)>, SpecError> {
    match ContainerPortForPurpose(spec.0, spec.1)
    case None => Err(ValueError)
    case Some(port) => Ok(Some((spec.0, port)))
  }

  function Bindings(specs: seq<(int, string)>): (rs: seq<Result<Option<(int, int)>, SpecError>>)
    ensures |rs| == |specs| && forall i :: 0 <= i < |specs| ==> rs[i] == Binding(specs[i])
  {
    seq(|specs|, i requires 0 <= i < |specs| => Binding(specs[i]))
  }

  /** Everything sync derives from a record's stored port specs. */
  function SyncBindings(portSpecs: string): Result<seq<(int, int)>, SpecError> {
    match StoredSpecs(portSpecs)
    case Err(e) => Err(e)
    case Ok(specs) => Collect(Bindings(specs))
  }

  /** `_parse_port_specs` on a record with specs. */
  method ParsePortSpecs(portSpecs: string) returns (r: Result<seq<(int, string)>, SpecError>)
    ensures r == StoredSpecs(portSpecs)
  {
    var parts := Split(portSpecs, '|');
    ghost var rs := ReadSpecs(parts);
    var specs: seq<(int, string)> := [];
    for k := 0 to |parts|
      invariant Collect(rs[..k]) == Ok(specs)
    {
      assert rs[..k + 1][..k] == rs[..k];
      var spec := ReadSpec(parts[k]);
      if spec.Err? {
        FirstErrorIsTheResult(rs, k + 1);
        return Err(spec.error);
      } else if spec.value.Some? {
        specs := specs + [spec.value.value];
      }
    }
    assert rs[..|parts|] == rs;
    return Ok(specs);
  }

  /** The port arguments of `build_create_command`. */
  method BuildPortArguments(portSpecs: string) returns (r: Result<seq<(int, int)>, SpecError>)
    ensures r == SyncBindings(portSpecs)
  {
    var parsed := ParsePortSpecs(portSpecs);
    if parsed.Err? {
      return Err(parsed.error);
    }
    var specs := parsed.value;
    ghost var rs := Bindings(specs);
    var bindings: seq<(int, int)> := [];
    for k := 0 to |specs|
      invariant Collect(rs[..k]) == Ok(bindings)
    {
      assert rs[..k + 1][..k] == rs[..k];
      var port := ContainerPortForPurpose(specs[k].0, specs[k].1);
      if port.None? {
        FirstErrorIsTheResult(rs, k + 1);
        return Err(ValueError);
      }
      bindings := bindings + [(specs[k].0, port.value)];
    }
    assert rs[..|specs|] == rs;
    return Ok(bindings);
  }

  // ---------- The round trip ----------

  function DockerBindings(ms: seq<PortMapping>): seq<(int, int)> {
    seq(|ms|, i requires 0 <= i < |ms| => (ms[i].hostPort, ms[i].containerPort))
  }

  /** A purpose is cut at every `|` when it is read back: only empty pieces may follow the first. */
  predicate OnePiece(purpose: string) {
    var parts := Split(purpose, '|');
    forall i :: 1 <= i < |parts| ==> parts[i] == []
  }

  /** Whether the stored purpose still tells which container port it was. */
  predicate PurposeFaithful(m: PortMapping) {
    OnePiece(m.purpose) && ContainerPortForPurpose(m.hostPort, Split(m.purpose, '|')[0]) == Some(m.containerPort)
  }

  /** What is read back first of each entry. */
  function Specs(ms: seq<PortMapping>): (specs: seq<(int, string)>)
    ensures |specs| == |ms|
    ensures forall i :: 0 <= i < |ms| ==> specs[i] == (ms[i].hostPort, Split(ms[i].purpose, '|')[0])
  {
    seq(|ms|, i requires 0 <= i < |ms| => (ms[i].hostPort, Split(ms[i].purpose, '|')[0]))
  }

  lemma FirstPieceParses(host: int, purpose: string)
    ensures ReadSpec(PrintInt(host) + ":" + purpose) == Ok(Some((host, purpose)))
  {
    var text := PrintInt(host);
    assert Text.Free(text, ':');
    assert text + ":" + purpose == text + [':'] + purpose;
    SplitOnceAppend(text, ':', purpose);
    ParseIntPrintInt(host);
  }

  lemma OtherPiecesRead(purpose: string)
    ensures OnePiece(purpose) <==> Collect(ReadSpecs(Split(purpose, '|')[1..])) == Ok([])
  {
    var parts := Split(purpose, '|');
    var rest := parts[1..];
    CollectNothing(ReadSpecs(rest));
    assert forall i :: 0 <= i < |rest| ==> rest[i] == parts[i + 1];
    assert forall i :: 1 <= i < |parts| ==> parts[i] == rest[i - 1];
  }

  ghost predicate AllOnePiece(ms: seq<PortMapping>) {
    forall m :: m in ms ==> OnePiece(m.purpose)
  }

  /** Mappings read back as at least their first pieces, and as no more if and only if each purpose is one piece. */
  ghost predicate Reads(rs: Result<seq<(int, string)>, SpecError>, ms: seq<PortMapping>) {
    && (rs.Ok? ==> |rs.value| >= |ms|)
    && (rs.Ok? && |rs.value| == |ms| ==> AllOnePiece(ms))
    && (AllOnePiece(ms) ==> rs == Ok(Specs(ms)))
  }

  /** One entry reads back as its first piece and whatever its other pieces read as. */
  lemma EntryReads(m: PortMapping)
    ensures Reads(StoredSpecs(SpecEntry(m)), [m])
  {
    hide OnePiece, ReadSpec;
    var front, parts := PrintInt(m.hostPort) + ":", Split(m.purpose, '|');
    SplitAfterFree(front, m.purpose, '|');
    var first, rest := [front + parts[0]], parts[1..];
    assert SpecEntry(m) == front + m.purpose;
    assert ReadSpecs(first + rest) == ReadSpecs(first) + ReadSpecs(rest);
    CollectAppend(ReadSpecs(first), ReadSpecs(rest));
    FirstPieceParses(m.hostPort, parts[0]);
    assert Specs([m]) == [(m.hostPort, parts[0])];
    CollectAll(ReadSpecs(first), Specs([m]));
    OtherPiecesRead(m.purpose);
    assert Specs([m]) + [] == Specs([m]);
    assert AllOnePiece([m]) <==> OnePiece(m.purpose) by {
      assert m in [m];
    }
  }

  /** Two results one after the other; the first error is the result. */
  ghost function Then(xs: Result<seq<(int, string)>, SpecError>, ys: Result<seq<(int, string)>, SpecError>):
      Result<seq<(int, string)>, SpecError> {
    if xs.Err? then xs else if ys.Err? then ys else Ok(xs.value + ys.value)
  }

  lemma SpecsConcat(s: string, t: string)
    ensures StoredSpecs(s + ['|'] + t) == Then(StoredSpecs(s), StoredSpecs(t))
  {
    hide ReadSpec, Split, Collect;
    SplitConcat(s, '|', t);
    var xs, ys := Split(s, '|'), Split(t, '|');
    assert ReadSpecs(xs + ys) == ReadSpecs(xs) + ReadSpecs(ys);
    CollectAppend(ReadSpecs(xs), ReadSpecs(ys));
  }

  lemma ReadsThen(xs: Result<seq<(int, string)>, SpecError>, m: PortMapping, ys: Result<seq<(int, string)>, SpecError>,
      ms: seq<PortMapping>)
    requires Reads(xs, [m]) && Reads(ys, ms)
    ensures Reads(Then(xs, ys), [m] + ms)
  {
    hide OnePiece;
    assert Specs([m] + ms) == Specs([m]) + Specs(ms);
    assert AllOnePiece([m] + ms) <==> AllOnePiece([m]) && AllOnePiece(ms) by {
      assert forall x :: x in [m] + ms <==> x in [m] || x in ms;
    }
  }

  /** The whole text reads back as the entries do, one after another. */
  lemma {:induction false} TextReads(ms: seq<PortMapping>)
    ensures Reads(StoredSpecs(SpecText(ms)), ms)
    decreases |ms|
  {
    hide OnePiece, StoredSpecs, SpecEntry, Reads;
    if ms == [] {
      NothingReads();
    } else if |ms| == 1 {
      EntryReads(ms[0]);
      assert ms == [ms[0]];
    } else {
      var entry, rest := SpecEntry(ms[0]), SpecText(ms[1..]);
      assert SpecEntries(ms)[1..] == SpecEntries(ms[1..]);
      assert SpecText(ms) == entry + ['|'] + rest;
      SpecsConcat(entry, rest);
      EntryReads(ms[0]);
      TextReads(ms[1..]);
      ReadsThen(StoredSpecs(entry), ms[0], StoredSpecs(rest), ms[1..]);
      assert ms == [ms[0]] + ms[1..];
    }
  }

  lemma NothingReads()
    ensures Reads(StoredSpecs(SpecText([])), [])
  {
    assert ReadSpecs(Split([], '|')) == [Ok(None)];
    CollectNothing(ReadSpecs(Split([], '|')));
  }

  /** The container port can be told from what is read back first. */
  ghost predicate TellsPort(m: PortMapping) {
    ContainerPortForPurpose(m.hostPort, Split(m.purpose, '|')[0]) == Some(m.containerPort)
  }

  lemma BindingsAre(ms: seq<PortMapping>)
    ensures Collect(Bindings(Specs(ms))) == Ok(DockerBindings(ms)) <==> forall m :: m in ms ==> TellsPort(m)
  {
    hide ContainerPortForPurpose, Split;
    var rs, want := Bindings(Specs(ms)), DockerBindings(ms);
    forall i | 0 <= i < |ms| ensures rs[i] == Ok(Some(want[i])) <==> TellsPort(ms[i]) {
    }
    if forall m :: m in ms ==> TellsPort(m) {
      forall i | 0 <= i < |ms| ensures rs[i] == Ok(Some(want[i])) {
        assert ms[i] in ms;
      }
      CollectAll(rs, want);
    }
    if Collect(rs) == Ok(want) {
      CollectIs(rs, want);
    }
  }

  /** For rows in the order they are printed. */
  lemma OrderedRoundTrip(ms: seq<PortMapping>)
    ensures SyncBindings(SpecText(ms)) == Ok(DockerBindings(ms)) <==> forall m :: m in ms ==> PurposeFaithful(m)
  {
    hide SpecText, StoredSpecs, Collect, OnePiece, TellsPort, Specs, Split;
    TextReads(ms);
    BindingsAre(ms);
    var stored := StoredSpecs(SpecText(ms));
    if stored.Ok? && Collect(Bindings(stored.value)).Ok? {
      CollectFull(Bindings(stored.value));
    }
    FaithfulExactly(ms);
  }

  lemma FaithfulExactly(ms: seq<PortMapping>)
    ensures (forall m :: m in ms ==> PurposeFaithful(m)) <==> AllOnePiece(ms) && forall m :: m in ms ==> TellsPort(m)
  {
    forall m ensures PurposeFaithful(m) <==> OnePiece(m.purpose) && TellsPort(m) {
    }
  }

  lemma BindingsCons(m: PortMapping, ms: seq<PortMapping>)
    ensures multiset(DockerBindings([m] + ms)) == multiset{(m.hostPort, m.containerPort)} + multiset(DockerBindings(ms))
  {
    assert DockerBindings([m] + ms) == [(m.hostPort, m.containerPort)] + DockerBindings(ms);
  }

  lemma {:induction false} InsertedBindings(m: PortMapping, ms: seq<PortMapping>)
    ensures multiset(DockerBindings(Insert(m, ms))) == multiset{(m.hostPort, m.containerPort)} + multiset(DockerBindings(ms))
    decreases |ms|
  {
    hide DockerBindings;
    if ms == [] {
      assert [m] == [m] + ms;
      BindingsCons(m, ms);
    } else if m.hostPort <= ms[0].hostPort {
      BindingsCons(m, ms);
    } else {
      InsertedBindings(m, ms[1..]);
      BindingsCons(ms[0], Insert(m, ms[1..]));
      BindingsCons(ms[0], ms[1..]);
      assert ms == [ms[0]] + ms[1..];
    }
  }

  lemma {:induction false} SortedBindings(ms: seq<PortMapping>)
    ensures multiset(DockerBindings(ByPort(ms))) == multiset(DockerBindings(ms))
    decreases |ms|
  {
    if ms != [] {
      SortedBindings(ms[1..]);
      InsertedBindings(ms[0], ByPort(ms[1..]));
      BindingsCons(ms[0], ms[1..]);
      assert ms == [ms[0]] + ms[1..];
    }
  }

  predicate Ascending(ms: seq<PortMapping>) {
    forall i, j :: 0 <= i < j < |ms| ==> ms[i].hostPort <= ms[j].hostPort
  }

  lemma AscendingCons(head: PortMapping, rest: seq<PortMapping>)
    requires Ascending(rest) && forall m :: m in rest ==> head.hostPort <= m.hostPort
    ensures Ascending([head] + rest)
  {
    forall i, j | 0 <= i < j < |[head] + rest| ensures ([head] + rest)[i].hostPort <= ([head] + rest)[j].hostPort {
      assert ([head] + rest)[j] == rest[j - 1];
    }
  }

  lemma {:induction false} InsertKeepsOrder(m: PortMapping, ms: seq<PortMapping>)
    requires Ascending(ms)
    ensures Ascending(Insert(m, ms))
    decreases |ms|
  {
    if ms == [] {
    } else if m.hostPort <= ms[0].hostPort {
      AscendingCons(m, ms);
    } else {
      var rest := Insert(m, ms[1..]);
      InsertKeepsOrder(m, ms[1..]);
      forall x | x in rest ensures ms[0].hostPort <= x.hostPort {
        assert x in multiset(rest);
      }
      AscendingCons(ms[0], rest);
    }
  }

  lemma {:induction false} RowsAscend(ms: seq<PortMapping>)
    ensures Ascending(ByPort(ms))
    decreases |ms|
  {
    if ms != [] {
      RowsAscend(ms[1..]);
      InsertKeepsOrder(ms[0], ByPort(ms[1..]));
    }
  }

  lemma SameRows(ms: seq<PortMapping>)
    ensures forall m :: m in ByPort(ms) <==> m in ms
  {
    forall m ensures m in ByPort(ms) <==> m in ms {
      assert m in multiset(ms) <==> m in multiset(ByPort(ms));
    }
  }

  /**
   For every list of mappings, in whatever order and with whatever purposes, sync recreates exactly the
   bindings create allocated, by increasing host port, if and only if each purpose is one its container
   port can be read back from.
   */
  lemma RoundTripExactly(ms: seq<PortMapping>)
    ensures SyncBindings(PortSpecsOf(ms)) == Ok(DockerBindings(ByPort(ms)))
            <==> forall m :: m in ms ==> PurposeFaithful(m)
    ensures Ascending(ByPort(ms)) && multiset(DockerBindings(ByPort(ms))) == multiset(DockerBindings(ms))
  {
    hide SyncBindings, SpecText, DockerBindings, ByPort, PurposeFaithful, Ascending;
    OrderedRoundTrip(ByPort(ms));
    SameRows(ms);
    SortedBindings(ms);
    RowsAscend(ms);
  }

  /** Mappings already in increasing order are printed as they come. */
  lemma {:induction false} IncreasingStays(ms: seq<PortMapping>)
    requires forall i, j :: 0 <= i < j < |ms| ==> ms[i].hostPort < ms[j].hostPort
    ensures ByPort(ms) == ms
    decreases |ms|
  {
    if ms != [] {
      IncreasingStays(ms[1..]);
      assert ms == [ms[0]] + ms[1..];
    }
  }

  lemma ExtraPurposeReads(hostPort: int, containerPort: int)
    ensures ContainerPortForPurpose(hostPort, ExtraPurpose(containerPort)) == Some(containerPort)
  {
    var purpose := ExtraPurpose(containerPort);
    assert purpose[|"container port "|..] == PrintInt(containerPort);
    assert purpose[0] == 'c';
    ParseIntPrintInt(containerPort);
  }

  lemma FreePurposeFaithful(m: PortMapping)
    requires Text.Free(m.purpose, '|') && ContainerPortForPurpose(m.hostPort, m.purpose) == Some(m.containerPort)
    ensures PurposeFaithful(m)
  {
    hide ContainerPortForPurpose;
    SplitFree(m.purpose, '|');
  }

  lemma ExtraPurposeFaithful(hostPort: int, containerPort: int)
    ensures PurposeFaithful(PortMapping(hostPort, containerPort, ExtraPurpose(containerPort)))
  {
    hide ContainerPortForPurpose, PurposeFaithful;
    ExtraPurposeReads(hostPort, containerPort);
    FreePurposeFaithful(PortMapping(hostPort, containerPort, ExtraPurpose(containerPort)));
  }

  lemma DefaultPurposeFaithful(hostPort: int, containerPort: int)
    ensures PurposeFaithful(PortMapping(hostPort, containerPort, DefaultPurpose(containerPort)))
  {
    if containerPort in {22, 8888, 6080} {
      FreePurposeFaithful(PortMapping(hostPort, containerPort, DefaultPurpose(containerPort)));
    } else {
      ExtraPurposeFaithful(hostPort, containerPort);
    }
  }

  lemma AutoPurposeFaithful(hostPort: int, index: nat, requested: seq<int>, vnc: bool)
    requires index < |Wanted(requested, vnc)|
    ensures var wanted := Wanted(requested, vnc)[index];
            PurposeFaithful(PortMapping(hostPort, wanted, AutoPurpose(index, wanted, vnc)))
  {
    var wanted := Wanted(requested, vnc)[index];
    if index < (if vnc then 3 else 2) {
      DefaultPurposeFaithful(hostPort, wanted);
    } else {
      ExtraPurposeFaithful(hostPort, wanted);
    }
  }

  /** Every automatic allocation survives the trip through the database. */
  lemma AllocationRoundTrip(ms: seq<PortMapping>, server: int, used: set<int>, requested: seq<int>, vnc: bool)
    requires Allocated(ms, server, used, requested, vnc)
    ensures SyncBindings(PortSpecsOf(ms)) == Ok(DockerBindings(ms))
  {
    hide PurposeFaithful, Wanted, SyncBindings, AutoPurpose;
    forall i | 0 <= i < |ms| ensures PurposeFaithful(ms[i]) {
      AutoPurposeFaithful(ms[i].hostPort, i, requested, vnc);
    }
    RoundTripExactly(ms);
    forall i, j | 0 <= i < j < |ms| ensures ms[i].hostPort < ms[j].hostPort {
      assert HostPorts(ms)[i] < HostPorts(ms)[j];
    }
    IncreasingStays(ms);
  }

  // ---------- Fixed mappings without custom purposes ----------

  function FixedEntry(m: PortMapping): string {
    PrintInt(m.hostPort) + ":" + PrintInt(m.containerPort)
  }

  function FixedEntries(ms: seq<PortMapping>): (es: seq<string>)
    ensures |es| == |ms| && forall i :: 0 <= i < |ms| ==> es[i] == FixedEntry(ms[i])
  {
    if ms == [] then [] else [FixedEntry(ms[0])] + FixedEntries(ms[1..])
  }

  ghost predicate DefaultPurposes(ms: seq<PortMapping>) {
    forall i :: 0 <= i < |ms| ==> ms[i].purpose == DefaultPurpose(ms[i].containerPort)
  }

  lemma FixedEntryParses(m: PortMapping)
    requires m.purpose == DefaultPurpose(m.containerPort)
    ensures ReadFixedItem(FixedEntry(m)) == Ok(Some(m))
    ensures Text.Free(FixedEntry(m), ',')
  {
    var host, container := PrintInt(m.hostPort), PrintInt(m.containerPort);
    var s := FixedEntry(m);
    assert forall i :: 0 <= i < |s| ==> IsDigit(s[i]) || s[i] == '-' || s[i] == ':';
    StripKeeps(s);
    assert s == host + [':'] + container;
    SplitOnceAppend(host, ':', container);
    NoSplit(container, ':');
    ParseIntPrintInt(m.hostPort);
    ParseIntPrintInt(m.containerPort);
  }

  /**
   A fixed mapping typed as `host:container,...`, in any order, is read as typed, and once stored is read
   back by sync as the same bindings, by increasing host port.
   */
  lemma FixedRoundTrip(ms: seq<PortMapping>)
    requires DefaultPurposes(ms)
    ensures FixedMappings(Join(FixedEntries(ms), ',')) == Ok(ms)
    ensures SyncBindings(PortSpecsOf(ms)) == Ok(DockerBindings(ByPort(ms)))
    ensures multiset(DockerBindings(ByPort(ms))) == multiset(DockerBindings(ms))
  {
    RoundTripExactly(ms);
    if ms == [] {
      CollectNothing(ReadFixedItems(Split([], ',')));
      return;
    }
    forall i | 0 <= i < |ms|
      ensures Text.Free(FixedEntries(ms)[i], ',') && ReadFixedItem(FixedEntries(ms)[i]) == Ok(Some(ms[i]))
      ensures PurposeFaithful(ms[i])
    {
      FixedEntryParses(ms[i]);
      DefaultPurposeFaithful(ms[i].hostPort, ms[i].containerPort);
    }
    SplitJoin(FixedEntries(ms), ',');
    CollectAll(ReadFixedItems(FixedEntries(ms)), ms);
  }

  lemma CustomEntryReads(m: PortMapping)
    requires m.purpose != [] && !IsSpace(m.purpose[0]) && !IsSpace(m.purpose[|m.purpose| - 1])
    ensures ReadFixedItem(FixedEntry(m) + ":" + m.purpose) == Ok(Some(m))
  {
    hide ParseInt;
    var host, container := PrintInt(m.hostPort), PrintInt(m.containerPort);
    var s := FixedEntry(m) + ":" + m.purpose;
    assert s == host + [':'] + (container + [':'] + m.purpose);
    SplitOnceAppend(host, ':', container + [':'] + m.purpose);
    SplitOnceAppend(container, ':', m.purpose);
    assert s[0] == host[0] && s[|s| - 1] == m.purpose[|m.purpose| - 1];
    StripKeeps(s);
    StripKeeps(m.purpose);
    ParseIntPrintInt(m.hostPort);
    ParseIntPrintInt(m.containerPort);
  }

  /**
   A custom purpose is stored as typed, and unless it imitates an automatic one sync binds the
   container port to the host port's own number: right only if the two were equal and nothing
   follows a `|`.
   */
  lemma CustomPurposeRoundTrip(m: PortMapping)
    requires m.purpose != [] && !IsSpace(m.purpose[0]) && !IsSpace(m.purpose[|m.purpose| - 1])
    requires var piece := Split(m.purpose, '|')[0];
             piece !in {"ssh", "jupyter notebook", "vnc"} && !("container port " <= piece)
    ensures ReadFixedItem(FixedEntry(m) + ":" + m.purpose) == Ok(Some(m))
    ensures SyncBindings(PortSpecsOf([m])) == Ok(DockerBindings([m]))
            <==> m.hostPort == m.containerPort && OnePiece(m.purpose)
  {
    hide SyncBindings, PortSpecsOf, ReadFixedItem, OnePiece;
    CustomEntryReads(m);
    RoundTripExactly([m]);
    assert ByPort([m]) == [m] && m in [m];
  }
}
