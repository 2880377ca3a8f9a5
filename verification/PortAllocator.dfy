/** Host port allocation from a server's block of one hundred ports (script/uid_manager/ports.py). */
module PortAllocator {
  import opened Wrappers
  import opened Text

  datatype PortMapping = PortMapping(hostPort: int, containerPort: int, purpose: string)

  ghost predicate DistinctHosts(ms: seq<PortMapping>) {
    forall i, j :: 0 <= i < j < |ms| ==> ms[i].hostPort != ms[j].hostPort
  }

  /** The refusal text is abstract: only whether and why allocation fails matters. */
  datatype PortRefusal = NotEnoughPorts

  function BlockStart(server: int): int {
    9000 + 100 * (server - 1)
  }

  function BlockEnd(server: int): int {
    9000 + 100 * server - 1
  }

  predicate InBlock(server: int, port: int) {
    BlockStart(server) <= port <= BlockEnd(server)
  }

  predicate Free(server: int, used: set<int>, port: int) {
    InBlock(server, port) && port !in used
  }

  function FreeSet(server: int, used: set<int>): set<int> {
    set p | BlockStart(server) <= p <= BlockEnd(server) && p !in used
  }

  function HostPorts(ms: seq<PortMapping>): seq<int> {
    seq(|ms|, i requires 0 <= i < |ms| => ms[i].hostPort)
  }

  ghost predicate Increasing(s: seq<int>) {
    forall i, j :: 0 <= i < j < |s| ==> s[i] < s[j]
  }

  /** `ports` lists, in order, the |ports| smallest free ports of the server's block. */
  ghost predicate SmallestFree(ports: seq<int>, server: int, used: set<int>) {
    && Increasing(ports)
    && (forall p :: p in ports ==> Free(server, used, p))
    && (forall p, q :: p in ports && Free(server, used, q) && q < p ==> q in ports)
  }

  /** The extra container ports in request order; 6080 is dropped when vnc already maps it. */
  function Extras(requested: seq<int>, vnc: bool): seq<int> {
    if requested == [] then []
    else (if requested[0] == 6080 && vnc then [] else [requested[0]]) + Extras(requested[1..], vnc)
  }

  function Wanted(requested: seq<int>, vnc: bool): seq<int> {
    [22, 8888] + (if vnc then [6080] else []) + Extras(requested, vnc)
  }

  function ExtraPurpose(containerPort: int): string {
    "container port " + PrintInt(containerPort)
  }

  function AutoPurpose(index: nat, containerPort: int, vnc: bool): string {
    if index == 0 then "ssh"
    else if index == 1 then "jupyter notebook"
    else if index == 2 && vnc then "vnc"
    else ExtraPurpose(containerPort)
  }

  /** `ms` pairs the leading entries of `hosts` with `wanted`, each under its automatic purpose. */
  ghost predicate Pairs(ms: seq<PortMapping>, hosts: seq<int>, wanted: seq<int>, vnc: bool) {
    && |ms| == |wanted| <= |hosts|
    && forall i :: 0 <= i < |ms| ==> ms[i] == PortMapping(hosts[i], wanted[i], AutoPurpose(i, wanted[i], vnc))
  }

  /** The mappings an allocation may return. */
  ghost predicate Allocated(ms: seq<PortMapping>, server: int, used: set<int>, requested: seq<int>, vnc: bool) {
    SmallestFree(HostPorts(ms), server, used) && Pairs(ms, HostPorts(ms), Wanted(requested, vnc), vnc)
  }

  lemma ExtrasSnoc(requested: seq<int>, k: nat, vnc: bool)
    requires k < |requested|
    ensures Extras(requested[..k + 1], vnc)
         == Extras(requested[..k], vnc) + (if requested[k] == 6080 && vnc then [] else [requested[k]])
    ensures |Extras(requested[..k], vnc)| <= k
    decreases k
  {
    if k > 0 {
      ExtrasSnoc(requested[1..], k - 1, vnc);
      assert requested[..k + 1][1..] == requested[1..][..k];
      assert requested[..k][1..] == requested[1..][..k - 1];
    }
  }

  /** Without vnc every extra is kept; with it exactly the 6080s go. Together with `ExtrasAppend` this fixes the order. */
  lemma {:induction false} ExtrasExactly(requested: seq<int>, vnc: bool)
    ensures if vnc then multiset(Extras(requested, vnc)) == multiset(requested)[6080 := 0] else Extras(requested, vnc) == requested
    decreases |requested|
  {
    if requested != [] {
      ExtrasExactly(requested[1..], vnc);
      assert requested == [requested[0]] + requested[1..];
      assert multiset(requested) == multiset{requested[0]} + multiset(requested[1..]);
    }
  }

  lemma {:induction false} ExtrasAppend(some: seq<int>, more: seq<int>, vnc: bool)
    ensures Extras(some + more, vnc) == Extras(some, vnc) + Extras(more, vnc)
    decreases |some|
  {
    if some == [] {
      assert some + more == more;
    } else {
      assert (some + more)[1..] == some[1..] + more;
      ExtrasAppend(some[1..], more, vnc);
    }
  }

  function ContainerPorts(ms: seq<PortMapping>): seq<int> {
    seq(|ms|, i requires 0 <= i < |ms| => ms[i].containerPort)
  }

  /** What is mapped: 22, 8888, 6080 once if vnc is on, and every extra asked for. */
  ghost predicate MapsAsked(ms: seq<PortMapping>, requested: seq<int>, vnc: bool) {
    multiset(ContainerPorts(ms)) == multiset{22, 8888} + (if vnc then multiset(requested)[6080 := 1] else multiset(requested))
  }

  lemma AllocationMapsAsked(ms: seq<PortMapping>, hosts: seq<int>, requested: seq<int>, vnc: bool)
    requires Pairs(ms, hosts, Wanted(requested, vnc), vnc)
    ensures MapsAsked(ms, requested, vnc)
    ensures ms[0].containerPort == 22 && ms[1].containerPort == 8888 && (vnc ==> ms[2].containerPort == 6080)
    ensures !vnc ==> ContainerPorts(ms)[2..] == requested
  {
    hide AutoPurpose, Extras;
    ExtrasExactly(requested, vnc);
    assert ContainerPorts(ms) == Wanted(requested, vnc);
    if vnc {
      assert Wanted(requested, vnc) == [22, 8888, 6080] + Extras(requested, vnc);
    } else {
      assert Wanted(requested, vnc) == [22, 8888] + requested;
    }
  }

  lemma AllocatedInBlock(ms: seq<PortMapping>, server: int, used: set<int>)
    requires SmallestFree(HostPorts(ms), server, used)
    ensures forall m :: m in ms ==> 9000 + 100 * (server - 1) <= m.hostPort < 9000 + 100 * server && m.hostPort !in used
  {
    forall m | m in ms ensures Free(server, used, m.hostPort) {
      var i :| 0 <= i < |ms| && ms[i] == m;
      assert HostPorts(ms)[i] in HostPorts(ms);
    }
  }

  lemma IncreasingCardinality(s: seq<int>, elements: set<int>)
    requires Increasing(s) && forall p :: p in elements <==> p in s
    ensures |elements| == |s|
  {
    if s == [] {
      assert forall p :: p !in elements;
      assert |elements| > 0 ==> exists p :: p in elements by {
        if |elements| > 0 {
          var p := AnElement(elements);
        }
      }
    } else {
      var last := s[|s| - 1];
      var rest := elements - {last};
      forall p ensures p in rest <==> p in s[..|s| - 1] {
        if p in s[..|s| - 1] {
          var i :| 0 <= i < |s| - 1 && s[i] == p;
        }
      }
      IncreasingCardinality(s[..|s| - 1], rest);
    }
  }

  lemma PairsSnoc(ms: seq<PortMapping>, hosts: seq<int>, wanted: seq<int>, vnc: bool, next: int)
    requires Pairs(ms, hosts, wanted, vnc) && (if vnc then 3 else 2) <= |ms| < |hosts|
    ensures Pairs(ms + [PortMapping(hosts[|ms|], next, ExtraPurpose(next))], hosts, wanted + [next], vnc)
  {
  }

  method AvailablePorts(server: int, used: set<int>) returns (available: seq<int>)
    ensures Increasing(available)
    ensures forall p :: p in available <==> Free(server, used, p)
  {
    available := [];
    for port := BlockStart(server) to BlockEnd(server) + 1
      invariant Increasing(available)
      invariant forall i :: 0 <= i < |available| ==> available[i] < port
      invariant forall p :: p in available <==> BlockStart(server) <= p < port && p !in used
    {
      if port !in used {
        available := available + [port];
      }
    }
  }

  lemma WantedSnoc(requested: seq<int>, k: nat, vnc: bool)
    requires k < |requested|
    ensures Wanted(requested[..k + 1], vnc)
         == if requested[k] == 6080 && vnc then Wanted(requested[..k], vnc) else Wanted(requested[..k], vnc) + [requested[k]]
    ensures (if vnc then 3 else 2) <= |Wanted(requested[..k], vnc)| <= (if vnc then 3 else 2) + k
  {
    ExtrasSnoc(requested, k, vnc);
    var front := [22, 8888] + (if vnc then [6080] else []);
    assert front + (Extras(requested[..k], vnc) + []) == front + Extras(requested[..k], vnc);
  }

  lemma FixedPairs(free: seq<int>, vnc: bool)
    requires |free| >= if vnc then 3 else 2
    ensures var front := [PortMapping(free[0], 22, "ssh"), PortMapping(free[1], 8888, "jupyter notebook")];
            Pairs(front + (if vnc then [PortMapping(free[2], 6080, "vnc")] else []), free, Wanted([], vnc), vnc)
  {
  }

  /** Pops the head of `available` for each mapping in turn; the list never runs empty. */
  method TakePorts(free: seq<int>, requested: seq<int>, vnc: bool) returns (ms: seq<PortMapping>)
    requires |free| >= 2 + (if vnc then 1 else 0) + |requested|
    ensures Pairs(ms, free, Wanted(requested, vnc), vnc)
  {
    hide Wanted, Extras, Pairs;
    FixedPairs(free, vnc);
    var available := free;
    ms := [PortMapping(available[0], 22, "ssh"), PortMapping(available[1], 8888, "jupyter notebook")];
    available := available[2..];
    if vnc {
      ms := ms + [PortMapping(available[0], 6080, "vnc")];
      available := available[1..];
    } else {
      assert ms + [] == ms;
    }
    assert requested[..0] == [];
    for k := 0 to |requested|
      invariant (if vnc then 3 else 2) <= |ms| <= (if vnc then 3 else 2) + k
      invariant available == free[|ms|..]
      invariant Pairs(ms, free, Wanted(requested[..k], vnc), vnc)
    {
      var containerPort := requested[k];
      WantedSnoc(requested, k, vnc);
      if containerPort == 6080 && vnc {
        continue;
      }
      PairsSnoc(ms, free, Wanted(requested[..k], vnc), vnc, containerPort);
      assert available[0] == free[|ms|];
      ms := ms + [PortMapping(available[0], containerPort, ExtraPurpose(containerPort))];
      available := available[1..];
    }
    assert requested[..|requested|] == requested;
  }

  /** Refuses exactly when the block has fewer free ports than two plus vnc plus the extras. */
  method AllocatePorts(server: int, used: set<int>, requested: seq<int>, vnc: bool)
    returns (r: Result<seq<PortMapping>, PortRefusal>)
    ensures r.Err? <==> |FreeSet(server, used)| < 2 + (if vnc then 1 else 0) + |requested|
    ensures r.Ok? ==> Allocated(r.value, server, used, requested, vnc) && MapsAsked(r.value, requested, vnc)
    ensures r.Ok? ==>
      forall m :: m in r.value ==> 9000 + 100 * (server - 1) <= m.hostPort < 9000 + 100 * server && m.hostPort !in used
  {
    var available := AvailablePorts(server, used);
    IncreasingCardinality(available, FreeSet(server, used));
    var required := 2 + (if vnc then 1 else 0) + |requested|;
    if |available| < required {
      return Err(NotEnoughPorts);
    }
    var ms := TakePorts(available, requested, vnc);
    assert HostPorts(ms) == available[..|ms|];
    PrefixIsSmallest(available, |ms|, server, used);
    AllocationMapsAsked(ms, HostPorts(ms), requested, vnc);
    AllocatedInBlock(ms, server, used);
    return Ok(ms);
  }

  lemma PrefixIsSmallest(all: seq<int>, n: nat, server: int, used: set<int>)
    requires Increasing(all) && n <= |all|
    requires forall p :: p in all <==> Free(server, used, p)
    ensures SmallestFree(all[..n], server, used)
  {
    forall p, q | p in all[..n] && Free(server, used, q) && q < p ensures q in all[..n] {
      var i :| 0 <= i < n && all[i] == p;
      var j :| 0 <= j < |all| && all[j] == q;
      assert j < i;
      assert all[..n][j] == q;
    }
  }

  /** Allocation is a function of its inputs: the description above pins every mapping down. */
  lemma {:induction false} SmallestFreeUnique(ports: seq<int>, others: seq<int>, server: int, used: set<int>)
    requires SmallestFree(ports, server, used) && SmallestFree(others, server, used) && |ports| == |others|
    ensures ports == others
  {
    var n := |ports|;
    if n > 0 {
      PrefixOfSmallest(ports, server, used);
      PrefixOfSmallest(others, server, used);
      SmallestFreeUnique(ports[..n - 1], others[..n - 1], server, used);
      var p, q := ports[n - 1], others[n - 1];
      assert p in ports && q in others;
      assert Free(server, used, p) && Free(server, used, q);
      var shared := ports[..n - 1];
      assert q < p ==> q in ports && q in shared;
      assert p < q ==> p in others && p in shared;
    }
  }

  lemma PrefixOfSmallest(ports: seq<int>, server: int, used: set<int>)
    requires SmallestFree(ports, server, used) && |ports| > 0
    ensures SmallestFree(ports[..|ports| - 1], server, used)
    ensures ports[|ports| - 1] !in ports[..|ports| - 1]
  {
    var short := ports[..|ports| - 1];
    forall p, q | p in short && Free(server, used, q) && q < p ensures q in short {
      assert p in ports;
      var i :| 0 <= i < |ports| && ports[i] == q;
      assert short[i] == q;
    }
  }

  /** Automatic allocations on different servers never share a port, whatever was in use. */
  lemma ServersNeverCollide(server: int, other: int, ms: seq<PortMapping>, ns: seq<PortMapping>,
                            used: set<int>, used': set<int>, req: seq<int>, req': seq<int>, vnc: bool, vnc': bool)
    requires server != other
    requires Allocated(ms, server, used, req, vnc) && Allocated(ns, other, used', req', vnc')
    ensures forall i, j :: 0 <= i < |ms| && 0 <= j < |ns| ==> ms[i].hostPort != ns[j].hostPort
  {
    forall i, j | 0 <= i < |ms| && 0 <= j < |ns| ensures ms[i].hostPort != ns[j].hostPort {
      assert HostPorts(ms)[i] in HostPorts(ms) && HostPorts(ns)[j] in HostPorts(ns);
      assert InBlock(server, ms[i].hostPort) && InBlock(other, ns[j].hostPort);
    }
  }
}
