/**
 The entities of the global load balancer reconciler: what a configuration asks for (`...Spec`),
 what the cloud holds (`Listener`, `Pool`, `Group`, `LiveMember`), and what the configuration's
 status records as created (`Created...`).
 */
module GlbTypes {
  datatype Option<+T> = None | Some(value: T)

  type Id = string

  // A listener whose pool id is empty has no pool attached.
  const NO_ID: Id := ""

  /** A member as a spec or a status writes it: weight, monitor port and description may be unset. */
  datatype Member = Member(
    name: string, address: string, port: int, subnetId: string, backupRole: bool,
    description: Option<string>, monitorPort: Option<int>, weight: Option<int>)

  /** A member as the cloud reports it. */
  datatype LiveMember = LiveMember(
    name: string, address: string, port: int, subnetId: string, backupRole: bool,
    monitorPort: int, weight: int)

  /** Members are identified by address and port. */
  datatype Key = Key(address: string, port: int)

  datatype GroupSpec = GroupSpec(
    name: string, region: string, vpcId: string, kind: string,
    trafficDial: Option<int>, members: seq<Member>)

  datatype Group = Group(
    name: string, region: string, vpcId: string, kind: string,
    trafficDial: int, members: seq<LiveMember>)

  datatype HealthProtocol = TCP | HTTP | HTTPS | Other(text: string)

  datatype HealthSpec = HealthSpec(
    protocol: HealthProtocol,
    healthyThreshold: Option<int>, unhealthyThreshold: Option<int>, interval: Option<int>, timeout: Option<int>,
    httpMethod: Option<string>, path: Option<string>, successCode: Option<string>,
    httpVersion: Option<string>, domainName: Option<string>)

  datatype Health = Health(
    protocol: HealthProtocol,
    healthyThreshold: int, unhealthyThreshold: int, interval: int, timeout: int,
    httpMethod: Option<string>, path: Option<string>, successCode: Option<string>,
    httpVersion: Option<string>, domainName: Option<string>)

  datatype PoolSpec = PoolSpec(
    name: string, protocol: string, algorithm: Option<string>, health: HealthSpec, groups: seq<GroupSpec>)

  datatype Pool = Pool(
    name: string, protocol: string, algorithm: string, health: Health, groups: map<Id, Group>)

  datatype ListenerSpec = ListenerSpec(
    name: string, protocol: string, port: int, defaultPoolName: Option<string>,
    timeoutClient: Option<int>, timeoutMember: Option<int>, timeoutConnection: Option<int>,
    allowedCidrs: Option<string>, headers: seq<string>)

  datatype Listener = Listener(
    name: string, protocol: string, port: int, poolId: Id,
    timeoutClient: int, timeoutMember: int, timeoutConnection: int,
    allowedCidrs: string, headers: Option<string>)

  datatype LB = LB(name: string, package: string, listeners: map<Id, Listener>, pools: map<Id, Pool>)

  datatype Spec = Spec(
    name: string, lbId: Option<Id>, packageId: Option<string>,
    listeners: seq<ListenerSpec>, pools: seq<PoolSpec>)

  datatype CreatedListener = CreatedListener(id: Id, port: int, name: string)

  datatype CreatedGroup = CreatedGroup(id: Id, name: string, members: seq<Member>)

  datatype CreatedPool = CreatedPool(id: Id, name: string, groups: seq<CreatedGroup>)

  datatype Status = Status(lbId: Option<Id>, listeners: seq<CreatedListener>, pools: seq<CreatedPool>)

  /** The controller's defaults for fields a spec leaves unset. */
  datatype Config = Config(
    packageId: string,
    healthyThreshold: int, unhealthyThreshold: int, interval: int, timeout: int, algorithm: string,
    timeoutClient: int, timeoutMember: int, timeoutConnection: int, allowedCidrs: string)

  predicate Distinct<T(==)>(s: seq<T>) {
    forall i, j :: 0 <= i < j < |s| ==> s[i] != s[j]
  }

  /** A string field given as a pointer counts as set only when it is present and not empty. */
  predicate IsSet(s: Option<string>) {
    s.Some? && s.value != ""
  }
}
