/** The pool of one Ingress backend (build_pool.go). Reads of Services and endpoints are functions of the request. */
module IngressPools {
  import opened GlbTypes
  import opened Sorting
  import opened Names

  datatype ServicePort = ServicePort(name: string, number: nat)

  datatype Backend = Backend(service: string, portName: string, portNumber: nat)

  datatype PortRef = Named(name: string) | Numbered(number: nat)

  datatype Endpoint = Endpoint(ip: string, port: int, name: string)

  datatype PoolMember = PoolMember(ip: string, port: int, monitorPort: int, name: string)

  datatype L7Pool = L7Pool(name: string, members: seq<PoolMember>)

  /** Looking up a Service finds its ports, finds that there is none, or fails. */
  datatype Lookup = Found(ports: seq<ServicePort>) | Missing | Failed

  /** What the compiler reads about one Ingress' cluster: names, Services, endpoints (absent on an error). */
  datatype Cluster = Cluster(
    hash: string, namespace: string,
    services: string -> Lookup, endpoints: (string, PortRef) -> Option<seq<Endpoint>>,
    healthcheckPort: Option<int>)

  // ----- Which port -----

  predicate Asks(b: Backend, p: ServicePort) {
    (b.portName != "" && b.portName == p.name) || b.portNumber == p.number
  }

  function PortOf(b: Backend, ports: seq<ServicePort>): (r: Option<ServicePort>)
    ensures r.Some? ==> r.value in ports && Asks(b, r.value)
    ensures r.None? ==> forall i :: 0 <= i < |ports| ==> !Asks(b, ports[i])
  {
    if ports == [] then None else if Asks(b, ports[0]) then Some(ports[0]) else PortOf(b, ports[1..])
  }

  lemma {:induction false} FirstPortIs(b: Backend, ports: seq<ServicePort>, n: nat)
    requires n < |ports| && Asks(b, ports[n]) && forall i :: 0 <= i < n ==> !Asks(b, ports[i])
    ensures PortOf(b, ports) == Some(ports[n])
  {
    if n > 0 {
      FirstPortIs(b, ports[1..], n - 1);
    }
  }

  method FindServicePort(b: Backend, ports: seq<ServicePort>) returns (r: Option<ServicePort>)
    ensures r == PortOf(b, ports)
    ensures r.None? <==>
            forall i :: 0 <= i < |ports| ==>
              ports[i].number != b.portNumber && (b.portName == "" || ports[i].name != b.portName)
    ensures r.Some? ==> FirstAsked(ports, b, r.value)
  {
    for i := 0 to |ports|
      invariant forall k :: 0 <= k < i ==> !Asks(b, ports[k])
    {
      if (b.portName != "" && b.portName == ports[i].name) || b.portNumber == ports[i].number {
        FirstPortIs(b, ports, i);
        return Some(ports[i]);
      }
    }
    r := None;
  }

  // ----- What becomes of a backend -----

  datatype Resolution = Resolved(port: ServicePort, endpoints: seq<Endpoint>) | Unresolvable | Fatal

  function RefOf(b: Backend): PortRef {
    if b.portName != "" then Named(b.portName) else Numbered(b.portNumber)
  }

  /** A missing Service or port leaves the backend out; every other failure is fatal. */
  function Resolve(c: Cluster, b: Backend): Resolution {
    match c.services(b.service)
    case Missing => Unresolvable
    case Failed => Fatal
    case Found(ports) =>
      match PortOf(b, ports)
      case None => Unresolvable
      case Some(port) =>
        match c.endpoints(b.service, RefOf(b))
        case None => Fatal
        case Some(endpoints) => Resolved(port, endpoints)
  }

  /** The first port of the Service that the backend asks for, by number or by a name that is not empty. */
  ghost predicate FirstAsked(ports: seq<ServicePort>, b: Backend, port: ServicePort) {
    exists n :: 0 <= n < |ports| && ports[n] == port
             && (port.number == b.portNumber || (b.portName != "" && port.name == b.portName))
             && forall i :: 0 <= i < n ==>
                  ports[i].number != b.portNumber && (b.portName == "" || ports[i].name != b.portName)
  }

  lemma {:induction false} PortOfIsFirst(b: Backend, ports: seq<ServicePort>)
    ensures PortOf(b, ports).Some? ==> FirstAsked(ports, b, PortOf(b, ports).value)
    ensures PortOf(b, ports).None? <==>
            forall i :: 0 <= i < |ports| ==>
              ports[i].number != b.portNumber && (b.portName == "" || ports[i].name != b.portName)
  {
    if ports != [] && !Asks(b, ports[0]) {
      PortOfIsFirst(b, ports[1..]);
      if PortOf(b, ports).Some? {
        var n :| 0 <= n < |ports[1..]| && ports[1..][n] == PortOf(b, ports).value
              && (ports[1..][n].number == b.portNumber || (b.portName != "" && ports[1..][n].name == b.portName))
              && forall i :: 0 <= i < n ==>
                   ports[1..][i].number != b.portNumber && (b.portName == "" || ports[1..][i].name != b.portName);
        forall i | 0 <= i < n + 1
          ensures ports[i].number != b.portNumber && (b.portName == "" || ports[i].name != b.portName)
        {
          if i > 0 {
            assert ports[1..][i - 1] == ports[i];
          }
        }
        assert ports[n + 1] == PortOf(b, ports).value;
      } else {
        forall i | 0 <= i < |ports|
          ensures ports[i].number != b.portNumber && (b.portName == "" || ports[i].name != b.portName)
        {
          if i > 0 {
            assert ports[1..][i - 1] == ports[i];
          }
        }
      }
    }
  }

  /** What becomes of a backend, read off the cluster. Endpoints are asked for by the name if there is one. */
  lemma ResolveIs(c: Cluster, b: Backend)
    ensures Resolve(c, b).Unresolvable? <==>
            || c.services(b.service).Missing?
            || (c.services(b.service).Found? && forall i :: 0 <= i < |c.services(b.service).ports| ==>
                  var p := c.services(b.service).ports[i];
                  p.number != b.portNumber && (b.portName == "" || p.name != b.portName))
    ensures Resolve(c, b).Resolved? ==>
            && c.services(b.service).Found? && FirstAsked(c.services(b.service).ports, b, Resolve(c, b).port)
            && c.endpoints(b.service, if b.portName == "" then Numbered(b.portNumber) else Named(b.portName))
               == Some(Resolve(c, b).endpoints)
    ensures Resolve(c, b).Fatal? <==>
            || c.services(b.service).Failed?
            || (c.services(b.service).Found? && !Resolve(c, b).Unresolvable?
                && c.endpoints(b.service, if b.portName == "" then Numbered(b.portNumber) else Named(b.portName)).None?)
  {
    if c.services(b.service).Found? {
      PortOfIsFirst(b, c.services(b.service).ports);
    }
  }

  // ----- Members -----

  function MemberFor(c: Cluster, e: Endpoint): PoolMember {
    PoolMember(e.ip, e.port, if c.healthcheckPort.Some? then c.healthcheckPort.value else e.port, e.name)
  }

  datatype Address = Address(ip: string, port: int)

  function AddressOf(m: PoolMember): Address {
    Address(m.ip, m.port)
  }

  predicate AddressLess(a: Address, b: Address) {
    if a.ip != b.ip then StringLess(a.ip, b.ip) else a.port < b.port
  }

  predicate MemberLess(a: PoolMember, b: PoolMember) {
    AddressLess(AddressOf(a), AddressOf(b))
  }

  lemma AddressOrder()
    ensures TotalOrder(AddressLess) && WeakOrder(MemberLess)
  {
    StringOrder();
    forall a, b, c: Address
      ensures !AddressLess(a, a) && (a != b ==> AddressLess(a, b) || AddressLess(b, a))
      ensures AddressLess(a, b) && AddressLess(b, c) ==> AddressLess(a, c)
      ensures !AddressLess(a, b) && !AddressLess(b, c) ==> !AddressLess(a, c)
    {
    }
    assert TotalOrder(AddressLess);
  }

  /** The endpoints as members, in address order. */
  ghost predicate Serves(c: Cluster, members: seq<PoolMember>, endpoints: seq<Endpoint>) {
    && multiset(members) == multiset(Keys(endpoints, (e: Endpoint) => MemberFor(c, e)))
    && SortedBy(members, AddressOf, AddressLess)
  }

  /** The pool the backend asks for. */
  ghost predicate IsPoolFor(c: Cluster, pool: L7Pool, b: Backend) {
    var r := Resolve(c, b);
    && r.Resolved?
    && pool.name == PoolName(c.hash, c.namespace, b.service, r.port.number)
    && Serves(c, pool.members, r.endpoints)
  }

  datatype PoolResult = BuiltPool(pool: L7Pool) | NoBackend | PoolError

  method BuildPool(c: Cluster, b: Backend) returns (r: PoolResult)
    ensures r.NoBackend? <==> Resolve(c, b).Unresolvable?
    ensures r.PoolError? <==> Resolve(c, b).Fatal?
    ensures r.BuiltPool? ==> IsPoolFor(c, r.pool, b)
  {
    var service := c.services(b.service);
    if service.Missing? {
      return NoBackend;
    }
    if service.Failed? {
      return PoolError;
    }
    var port := FindServicePort(b, service.ports);
    if port.None? {
      return NoBackend;
    }
    var found := c.endpoints(b.service, RefOf(b));
    if found.None? {
      return PoolError;
    }
    var members := BuildMembers(c, found.value);
    r := BuiltPool(L7Pool(PoolName(c.hash, c.namespace, b.service, port.value.number), members));
  }

  method BuildMembers(c: Cluster, endpoints: seq<Endpoint>) returns (members: seq<PoolMember>)
    ensures Serves(c, members, endpoints)
  {
    members := [];
    for i := 0 to |endpoints|
      invariant members == Keys(endpoints[..i], (e: Endpoint) => MemberFor(c, e))
    {
      members := members + [MemberFor(c, endpoints[i])];
      assert members == Keys(endpoints[..i + 1], (e: Endpoint) => MemberFor(c, e));
    }
    assert endpoints[..|endpoints|] == endpoints;
    AddressOrder();
    members := SortSlice(members, MemberLess);
  }

  /** The member of an endpoint: its address, port and name, checked on the given port or else its own. */
  predicate MemberOf(c: Cluster, m: PoolMember, e: Endpoint) {
    && m.ip == e.ip && m.port == e.port && m.name == e.name
    && m.monitorPort == if c.healthcheckPort.Some? then c.healthcheckPort.value else e.port
  }

  /** One member for each endpoint and no other, by address and then by port. */
  lemma ServesAll(c: Cluster, members: seq<PoolMember>, endpoints: seq<Endpoint>)
    requires Serves(c, members, endpoints)
    ensures |members| == |endpoints|
    ensures forall e :: e in endpoints ==> exists m :: m in members && MemberOf(c, m, e)
    ensures forall m :: m in members ==> exists e :: e in endpoints && MemberOf(c, m, e)
    ensures forall i, j :: 0 <= i < j < |members| ==>
              !StringLess(members[j].ip, members[i].ip)
              && (members[i].ip == members[j].ip ==> members[i].port <= members[j].port)
  {
    var f := (e: Endpoint) => MemberFor(c, e);
    var keys := Keys(endpoints, f);
    assert |multiset(members)| == |members| && |multiset(keys)| == |keys|;
    forall e | e in endpoints ensures exists m :: m in members && MemberOf(c, m, e) {
      var i :| 0 <= i < |endpoints| && endpoints[i] == e;
      assert keys[i] in multiset(members) && MemberOf(c, keys[i], e);
    }
    forall m | m in members ensures exists e :: e in endpoints && MemberOf(c, m, e) {
      assert m in multiset(keys);
      var i :| 0 <= i < |keys| && keys[i] == m;
      assert MemberOf(c, m, endpoints[i]);
    }
    forall i, j | 0 <= i < j < |members|
      ensures !StringLess(members[j].ip, members[i].ip)
      ensures members[i].ip == members[j].ip ==> members[i].port <= members[j].port
    {
      assert !AddressLess(AddressOf(members[j]), AddressOf(members[i]));
      StringLessTotal(members[i].ip, members[i].ip);
    }
  }

  /** The member list does not depend on the order in which the endpoints were listed. */
  lemma MembersHaveOneOrder(c: Cluster, a: seq<PoolMember>, b: seq<PoolMember>, e1: seq<Endpoint>, e2: seq<Endpoint>)
    requires Serves(c, a, e1) && Serves(c, b, e2) && multiset(e1) == multiset(e2)
    requires DistinctKeys(e1, (e: Endpoint) => Address(e.ip, e.port))
    ensures a == b
  {
    var f := (e: Endpoint) => MemberFor(c, e);
    KeysRearranged(e1, e2, f);
    assert DistinctKeys(Keys(e1, f), AddressOf) by {
      forall i, j | 0 <= i < j < |e1| ensures AddressOf(Keys(e1, f)[i]) != AddressOf(Keys(e1, f)[j]) {
        assert Address(e1[i].ip, e1[i].port) != Address(e1[j].ip, e1[j].port);
      }
    }
    RearrangedStaysDistinct(Keys(e1, f), a, AddressOf);
    AddressOrder();
    SortedFormUnique(a, b, AddressOf, AddressLess);
  }
}
