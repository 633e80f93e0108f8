/**
 The reconciler as a protocol. A `World` is the cloud together with this configuration's status
 and the copy of it (`snap`) that a pass reads when it starts. An `Act` is one write to the cloud
 or to the status, the start of a pass, or an edit by somebody else between passes. `Allowed` is
 the ownership discipline: the condition under which the reconciler takes each act. The theorems
 hold of every run of allowed acts, however passes are cut short.
 */
module Protocol {
  import opened GlbTypes
  import opened Equality
  import opened Diffs
  import opened Members

  // ----- Reading the record -----

  /** The first record with that id. */
  function FindPool(pools: seq<CreatedPool>, id: Id): (r: Option<CreatedPool>)
    ensures r.Some? ==> r.value in pools && r.value.id == id
    ensures r.None? ==> forall p :: p in pools ==> p.id != id
  {
    if pools == [] then None
    else if pools[0].id == id then Some(pools[0])
    else FindPool(pools[1..], id)
  }

  function GroupNames(groups: seq<CreatedGroup>): set<string> {
    set g | g in groups :: g.name
  }

  function RecordedNames(st: Status, poolId: Id): set<string> {
    var r := FindPool(st.pools, poolId);
    if r.Some? then GroupNames(r.value.groups) else {}
  }

  /** Group name to recorded addresses; a name recorded twice keeps its last entry. */
  function OwnedGroups(groups: seq<CreatedGroup>): (m: map<string, set<Key>>)
    ensures m.Keys == GroupNames(groups)
  {
    if groups == [] then map[] else
      var n := |groups| - 1;
      assert groups == groups[..n] + [groups[n]];
      OwnedGroups(groups[..n])[groups[n].name := Keys(groups[n].members)]
  }

  /** The last record of that name. */
  predicate LastNamed(groups: seq<CreatedGroup>, k: nat, name: string) {
    k < |groups| && groups[k].name == name && forall j :: k < j < |groups| ==> groups[j].name != name
  }

  /** A group owns the addresses of its last record. */
  lemma {:induction false} OwnedGroupsAre(groups: seq<CreatedGroup>, name: string, k: nat)
    requires LastNamed(groups, k, name)
    ensures name in OwnedGroups(groups) && OwnedGroups(groups)[name] == Keys(groups[k].members)
  {
    var n := |groups| - 1;
    if k < n {
      assert groups[n].name != name && LastNamed(groups[..n], k, name);
      OwnedGroupsAre(groups[..n], name, k);
    }
  }

  /** A name without a record owns nothing. */
  lemma {:induction false} LastRecordOf(groups: seq<CreatedGroup>, name: string) returns (k: nat)
    requires name in OwnedGroups(groups)
    ensures LastNamed(groups, k, name)
  {
    var n := |groups| - 1;
    if groups[n].name == name {
      k := n;
    } else {
      assert OwnedGroups(groups) == OwnedGroups(groups[..n])[groups[n].name := Keys(groups[n].members)];
      k := LastRecordOf(groups[..n], name);
    }
  }

  predicate ListedPool(pools: seq<CreatedPool>, id: Id) {
    exists i :: 0 <= i < |pools| && pools[i].id == id
  }

  predicate ListedListener(listeners: seq<CreatedListener>, id: Id) {
    exists i :: 0 <= i < |listeners| && listeners[i].id == id
  }

  predicate RecordsListener(st: Status, id: Id) {
    exists i :: 0 <= i < |st.listeners| && st.listeners[i].id == id
  }

  predicate RecordsPool(st: Status, id: Id) {
    exists i :: 0 <= i < |st.pools| && st.pools[i].id == id
  }

  predicate RecordsGroup(st: Status, poolId: Id, name: string) {
    exists i, k :: 0 <= i < |st.pools| && st.pools[i].id == poolId
                && 0 <= k < |st.pools[i].groups| && st.pools[i].groups[k].name == name
  }

  /** Every group of the pool, and every member in it, is on record. */
  predicate PoolOwned(record: CreatedPool, pool: Pool) {
    var owned := OwnedGroups(record.groups);
    forall g :: g in pool.groups ==>
      pool.groups[g].name in owned && LiveKeys(pool.groups[g].members) <= owned[pool.groups[g].name]
  }

  predicate PoolCovered(st: Status, pools: map<Id, Pool>, id: Id)
    requires id in pools
  {
    FindPool(st.pools, id).Some? && PoolOwned(FindPool(st.pools, id).value, pools[id])
  }

  predicate RecordsAddress(members: seq<Member>, m: LiveMember) {
    exists n :: 0 <= n < |members| && members[n].address == m.address && members[n].port == m.port
  }

  /** The last record of the group's name lists every one of its members. */
  predicate GroupCovered(record: CreatedPool, g: Group, k: nat) {
    LastNamed(record.groups, k, g.name) && forall m :: m in g.members ==> RecordsAddress(record.groups[k].members, m)
  }

  lemma RecordsAddressIsKey(members: seq<Member>, m: LiveMember)
    ensures RecordsAddress(members, m) <==> LiveKeyOf(m) in Keys(members)
  {
    if n :| 0 <= n < |members| && members[n].address == m.address && members[n].port == m.port {
      assert members[n] in members && KeyOf(members[n]) == LiveKeyOf(m);
    }
    if LiveKeyOf(m) in Keys(members) {
      var x :| x in members && KeyOf(x) == LiveKeyOf(m);
      var n :| 0 <= n < |members| && members[n] == x;
    }
  }

  lemma GroupCoveredIs(record: CreatedPool, g: Group)
    ensures g.name in OwnedGroups(record.groups) && LiveKeys(g.members) <= OwnedGroups(record.groups)[g.name] <==>
            exists k: nat :: GroupCovered(record, g, k)
  {
    forall k: nat | LastNamed(record.groups, k, g.name)
      ensures LiveKeys(g.members) <= Keys(record.groups[k].members) <==> GroupCovered(record, g, k)
    {
      forall m ensures RecordsAddress(record.groups[k].members, m) <==> LiveKeyOf(m) in Keys(record.groups[k].members) {
        RecordsAddressIsKey(record.groups[k].members, m);
      }
      if LiveKeys(g.members) <= Keys(record.groups[k].members) {
        forall m | m in g.members ensures RecordsAddress(record.groups[k].members, m) {
          assert LiveKeyOf(m) in LiveKeys(g.members);
        }
      }
    }
    if g.name in OwnedGroups(record.groups) {
      var k := LastRecordOf(record.groups, g.name);
      OwnedGroupsAre(record.groups, g.name, k);
    }
    if k: nat :| GroupCovered(record, g, k) {
      OwnedGroupsAre(record.groups, g.name, k);
    }
  }

  /** The pool is on record, and the last record of each of its groups' names lists the group's members. */
  ghost predicate PoolListed(st: Status, pool: Pool, id: Id) {
    && FindPool(st.pools, id).Some?
    && forall g :: g in pool.groups ==> exists k: nat :: GroupCovered(FindPool(st.pools, id).value, pool.groups[g], k)
  }

  /** Such pools are ours, and no others. */
  lemma PoolCoveredExactlyWhen(st: Status, pools: map<Id, Pool>, id: Id)
    requires id in pools
    ensures PoolCovered(st, pools, id) <==> PoolListed(st, pools[id], id)
  {
    if FindPool(st.pools, id).Some? {
      forall g | g in pools[id].groups
        ensures var owned, group := OwnedGroups(FindPool(st.pools, id).value.groups), pools[id].groups[g];
                group.name in owned && LiveKeys(group.members) <= owned[group.name] <==>
                exists k: nat :: GroupCovered(FindPool(st.pools, id).value, group, k)
      {
        GroupCoveredIs(FindPool(st.pools, id).value, pools[id].groups[g]);
      }
    }
  }

  predicate ListenerOwned(st: Status, pools: map<Id, Pool>, l: Listener) {
    l.poolId == NO_ID || (l.poolId in pools && PoolCovered(st, pools, l.poolId))
  }

  /** Everything on the load balancer, down to each member's address and port, is on record. */
  predicate Covered(st: Status, lb: LB) {
    && (forall l :: l in lb.listeners ==> RecordsListener(st, l))
    && (forall p :: p in lb.pools ==> PoolCovered(st, lb.pools, p))
  }

  /** A load balancer is covered when every listener on it has a record and every pool is ours. */
  lemma CoveredExactlyWhen(st: Status, lb: LB)
    ensures Covered(st, lb) <==>
            && (forall l :: l in lb.listeners ==> exists i :: 0 <= i < |st.listeners| && st.listeners[i].id == l)
            && (forall p :: p in lb.pools ==> PoolListed(st, lb.pools[p], p))
  {
    forall p | p in lb.pools ensures PoolCovered(st, lb.pools, p) <==> PoolListed(st, lb.pools[p], p) {
      PoolCoveredExactlyWhen(st, lb.pools, p);
    }
    forall l | l in lb.listeners
      ensures RecordsListener(st, l) <==> exists i :: 0 <= i < |st.listeners| && st.listeners[i].id == l
    {
    }
  }

  /** A listener is ours when it has no pool, or a live one that is ours. */
  lemma ListenerOwnedExactlyWhen(st: Status, pools: map<Id, Pool>, l: Listener)
    ensures ListenerOwned(st, pools, l) <==>
            l.poolId == "" || (l.poolId in pools && PoolListed(st, pools[l.poolId], l.poolId))
  {
    if l.poolId in pools {
      PoolCoveredExactlyWhen(st, pools, l.poolId);
    }
  }

  // ----- Reading the spec -----

  predicate WantsPort(spec: Spec, port: int) {
    exists i :: 0 <= i < |spec.listeners| && spec.listeners[i].port == port
  }

  predicate WantsPool(spec: Spec, name: string) {
    exists i :: 0 <= i < |spec.pools| && spec.pools[i].name == name
  }

  predicate ListsGroup(groups: seq<GroupSpec>, name: string) {
    exists k :: 0 <= k < |groups| && groups[k].name == name
  }

  predicate WantsGroup(spec: Spec, pool: string, name: string) {
    exists i :: 0 <= i < |spec.pools| && spec.pools[i].name == pool && ListsGroup(spec.pools[i].groups, name)
  }

  predicate DistinctPorts(s: seq<ListenerSpec>) {
    forall i, j :: 0 <= i < j < |s| ==> s[i].port != s[j].port
  }

  predicate DistinctPools(s: seq<PoolSpec>) {
    forall i, j :: 0 <= i < j < |s| ==> s[i].name != s[j].name
  }

  predicate DistinctGroups(s: seq<GroupSpec>) {
    forall i, j :: 0 <= i < j < |s| ==> s[i].name != s[j].name
  }

  predicate WellFormed(spec: Spec) {
    && DistinctPorts(spec.listeners) && DistinctPools(spec.pools)
    && forall i :: 0 <= i < |spec.pools| ==> DistinctGroups(spec.pools[i].groups)
  }

  /** Nothing is named twice, and no group has an address twice. */
  predicate SpecRegular(spec: Spec) {
    && WellFormed(spec)
    && forall i, k :: 0 <= i < |spec.pools| && 0 <= k < |spec.pools[i].groups| ==>
         DistinctKeys(spec.pools[i].groups[k].members)
  }

  predicate MembersDistinct(specs: seq<GroupSpec>) {
    forall k :: 0 <= k < |specs| ==> DistinctKeys(specs[k].members)
  }

  // ----- Reading the cloud -----

  predicate PoolIdUsed(lbs: map<Id, LB>, id: Id) {
    exists b :: b in lbs && id in lbs[b].pools
  }

  predicate ListenerIdUsed(lbs: map<Id, LB>, id: Id) {
    exists b :: b in lbs && id in lbs[b].listeners
  }

  /** The cloud gives no pool or listener id out twice, and no empty id. */
  predicate IdsProper(lbs: map<Id, LB>) {
    && NO_ID !in lbs
    && (forall b :: b in lbs ==> NO_ID !in lbs[b].pools && NO_ID !in lbs[b].listeners)
    && (forall b, c, p :: b in lbs && c in lbs && p in lbs[b].pools && p in lbs[c].pools ==> b == c)
    && (forall b, c, l :: b in lbs && c in lbs && l in lbs[b].listeners && l in lbs[c].listeners ==> b == c)
  }

  predicate PoolInUse(lb: LB, id: Id) {
    exists l :: l in lb.listeners && lb.listeners[l].poolId == id
  }

  predicate LbIntegrity(lb: LB) {
    forall l :: l in lb.listeners ==> lb.listeners[l].poolId == NO_ID || lb.listeners[l].poolId in lb.pools
  }

  /** Every listener points at no pool or at a pool that exists. */
  predicate Integrity(lbs: map<Id, LB>) {
    forall b :: b in lbs ==> LbIntegrity(lbs[b])
  }

  predicate UniqueGroups(groups: map<Id, Group>) {
    forall g, h :: g in groups && h in groups && g != h ==> groups[g].name != groups[h].name
  }

  predicate UniquePools(pools: map<Id, Pool>) {
    && (forall p, q :: p in pools && q in pools && p != q ==> pools[p].name != pools[q].name)
    && (forall p :: p in pools ==> UniqueGroups(pools[p].groups))
  }

  predicate UniquePorts(listeners: map<Id, Listener>) {
    forall l, m :: l in listeners && m in listeners && l != m ==> listeners[l].port != listeners[m].port
  }

  predicate UniqueOn(lb: LB) {
    UniquePools(lb.pools) && UniquePorts(lb.listeners)
  }

  predicate Unique(lbs: map<Id, LB>) {
    forall b :: b in lbs ==> UniqueOn(lbs[b])
  }

  predicate MembersOnce(groups: map<Id, Group>) {
    forall g :: g in groups ==> DistinctLiveKeys(groups[g].members)
  }

  predicate PoolsOnce(pools: map<Id, Pool>) {
    forall p :: p in pools ==> MembersOnce(pools[p].groups)
  }

  /** No group has an address twice. */
  predicate Once(lbs: map<Id, LB>) {
    forall b :: b in lbs ==> PoolsOnce(lbs[b].pools)
  }

  predicate PoolsRegular(pools: map<Id, Pool>) {
    UniquePools(pools) && forall p :: p in pools ==> MembersOnce(pools[p].groups)
  }

  /** The record as the reconciler keeps it: nothing is listed twice. */
  predicate RecordsTidy(st: Status) {
    Tidy(st.pools) && DistinctListenerIds(st.listeners)
  }

  predicate HoldsNamed(groups: map<Id, Group>, name: string) {
    exists g :: g in groups && groups[g].name == name
  }

  predicate HoldsGroups(groups: map<Id, Group>, specs: seq<GroupSpec>) {
    forall k :: 0 <= k < |specs| ==> HoldsNamed(groups, specs[k].name)
  }

  predicate HoldsPool(lb: LB, sp: PoolSpec) {
    exists p :: p in lb.pools && lb.pools[p].name == sp.name && HoldsGroups(lb.pools[p].groups, sp.groups)
  }

  predicate HoldsListener(lb: LB, s: ListenerSpec) {
    exists l :: l in lb.listeners && lb.listeners[l].port == s.port && lb.listeners[l].protocol == s.protocol
  }

  /** Every pool of the spec with all its groups, and every listener, is on the load balancer. */
  predicate Deployed(spec: Spec, lb: LB) {
    && (forall i :: 0 <= i < |spec.pools| ==> HoldsPool(lb, spec.pools[i]))
    && (forall i :: 0 <= i < |spec.listeners| ==> HoldsListener(lb, spec.listeners[i]))
  }

  // ----- What can be in the way of a spec -----

  /** No listener on the port speaks another protocol. */
  predicate ProtocolMatches(listeners: map<Id, Listener>, s: ListenerSpec) {
    forall l :: l in listeners && listeners[l].port == s.port ==> listeners[l].protocol == s.protocol
  }

  predicate ProtocolsMatch(listeners: map<Id, Listener>, specs: seq<ListenerSpec>) {
    forall i :: 0 <= i < |specs| ==> ProtocolMatches(listeners, specs[i])
  }

  predicate DialIn(specs: seq<GroupSpec>, g: Group) {
    forall k :: 0 <= k < |specs| && specs[k].name == g.name ==> Agrees(specs[k].trafficDial, g.trafficDial)
  }

  predicate DialsAgree(sp: PoolSpec, pool: Pool) {
    forall g, k :: g in pool.groups && 0 <= k < |sp.groups| && pool.groups[g].name == sp.groups[k].name ==>
      Agrees(sp.groups[k].trafficDial, pool.groups[g].trafficDial)
  }

  predicate AllDialsAgree(spec: Spec, pools: map<Id, Pool>) {
    forall p, i :: p in pools && 0 <= i < |spec.pools| && pools[p].name == spec.pools[i].name ==>
      DialsAgree(spec.pools[i], pools[p])
  }

  /** No listener has another protocol, and no group another dial, than the spec asks for. */
  predicate Suits(spec: Spec, lb: LB) {
    ProtocolsMatch(lb.listeners, spec.listeners) && AllDialsAgree(spec, lb.pools)
  }

  /** A new group of a pool is the spec's: no address twice, and with the dial it asks for. */
  predicate GroupFits(spec: Spec, pool: string, g: Group) {
    SpecRegular(spec) ==>
      && DistinctLiveKeys(g.members)
      && forall i :: 0 <= i < |spec.pools| && spec.pools[i].name == pool ==> DialIn(spec.pools[i].groups, g)
  }

  predicate NewGroupsFit(spec: Spec, pool: string, groups: map<Id, Group>) {
    forall g :: g in groups ==> GroupFits(spec, pool, groups[g])
  }

  predicate NewListenerFits(spec: Spec, l: Listener) {
    DistinctPorts(spec.listeners) ==>
      forall i :: 0 <= i < |spec.listeners| && spec.listeners[i].port == l.port ==> spec.listeners[i].protocol == l.protocol
  }

  // ----- State and acts -----

  datatype GroupUpdate = GroupUpdate(trafficDial: int, members: Option<seq<LiveMember>>)

  /**
   `born` holds the load balancers created in this pass; `deployed` says on which one this pass has put
   the whole spec in place; `deleting` tells a delete pass from a deploy pass.
   */
  datatype World = World(
    lbs: map<Id, LB>, status: Status, spec: Spec, snap: Status,
    deleting: bool, born: set<Id>, deployed: Option<Id>)

  datatype Act =
    | BeginPass(newSpec: Spec, delete: bool)
    | Outside(edited: map<Id, LB>)
    | MarkDeployed(lb: Id)
    | CreateLb(lb: Id, content: LB)
    | ResizeLb(lb: Id, package: string)
    | DeleteLb(lb: Id)
    | CreatePool(lb: Id, pool: Id, value: Pool)
    | UpdatePool(lb: Id, pool: Id, poolPatch: PoolPatch)
    | PatchGroups(lb: Id, pool: Id, added: map<Id, Group>, updates: map<Id, GroupUpdate>, removed: set<Id>)
    | DeletePool(lb: Id, pool: Id)
    | CreateListener(lb: Id, listener: Id, body: Listener)
    | UpdateListener(lb: Id, listener: Id, patch: ListenerPatch)
    | DeleteListener(lb: Id, listener: Id)
    | PatchStatus(newStatus: Status)

  function UpdateGroup(g: Group, u: GroupUpdate): Group {
    g.(trafficDial := u.trafficDial, members := if u.members.Some? then u.members.value else g.members)
  }

  /** An update keeps the dial and brings in no address twice. */
  predicate UpdateFits(g: Group, u: GroupUpdate) {
    && u.trafficDial == g.trafficDial
    && (u.members.Some? && DistinctLiveKeys(g.members) ==> DistinctLiveKeys(u.members.value))
  }

  function PatchedGroups(
    groups: map<Id, Group>, added: map<Id, Group>, updates: map<Id, GroupUpdate>, removed: set<Id>): map<Id, Group>
  {
    (map g | g in groups && g !in removed ::
       if g in updates then UpdateGroup(groups[g], updates[g]) else groups[g]) + added
  }

  lemma PatchedUnique(
    groups: map<Id, Group>, added: map<Id, Group>, updates: map<Id, GroupUpdate>, removed: set<Id>)
    requires UniqueGroups(groups) && UniqueGroups(added)
    requires forall g, h :: g in added && h in groups ==> added[g].name != groups[h].name
    ensures UniqueGroups(PatchedGroups(groups, added, updates, removed))
  {
    var after := PatchedGroups(groups, added, updates, removed);
    forall g | g in after ensures after[g].name == (if g in added then added[g] else groups[g]).name {
    }
  }

  function SetLb(w: World, id: Id, lb: LB): World {
    w.(lbs := w.lbs[id := lb])
  }

  lemma SetLbTwice(w: World, id: Id, a: LB, b: LB)
    ensures SetLb(SetLb(w, id, a), id, b) == SetLb(w, id, b)
    ensures id in w.lbs ==> SetLb(w, id, w.lbs[id]) == w
  {
    assert w.lbs[id := a][id := b] == w.lbs[id := b];
    if id in w.lbs { assert w.lbs[id := w.lbs[id]] == w.lbs; }
  }

  function SetPool(w: World, id: Id, pool: Id, value: Pool): World
    requires id in w.lbs
  {
    SetLb(w, id, w.lbs[id].(pools := w.lbs[id].pools[pool := value]))
  }

  function SetListener(w: World, id: Id, listener: Id, value: Listener): World
    requires id in w.lbs
  {
    SetLb(w, id, w.lbs[id].(listeners := w.lbs[id].listeners[listener := value]))
  }

  /** The act names things that exist, and new ids are new. */
  predicate Possible(w: World, a: Act) {
    match a
    case BeginPass(_, _) => true
    case Outside(_) => true
    case MarkDeployed(lb) => lb in w.lbs
    case CreateLb(lb, content) =>
      && lb != NO_ID && lb !in w.lbs
      && (forall p :: p in content.pools ==> p != NO_ID && !PoolIdUsed(w.lbs, p))
      && (forall l :: l in content.listeners ==> l != NO_ID && !ListenerIdUsed(w.lbs, l))
    case ResizeLb(lb, _) => lb in w.lbs
    case DeleteLb(lb) => lb in w.lbs
    case CreatePool(lb, pool, _) => lb in w.lbs && pool != NO_ID && !PoolIdUsed(w.lbs, pool)
    case UpdatePool(lb, pool, _) => lb in w.lbs && pool in w.lbs[lb].pools
    case PatchGroups(lb, pool, added, updates, removed) =>
      && lb in w.lbs && pool in w.lbs[lb].pools
      && (var groups := w.lbs[lb].pools[pool].groups;
          added.Keys !! groups.Keys && updates.Keys <= groups.Keys && removed <= groups.Keys)
    case DeletePool(lb, pool) => lb in w.lbs && pool in w.lbs[lb].pools
    case CreateListener(lb, listener, _) =>
      lb in w.lbs && listener != NO_ID && !ListenerIdUsed(w.lbs, listener)
    case UpdateListener(lb, listener, _) => lb in w.lbs && listener in w.lbs[lb].listeners
    case DeleteListener(lb, listener) => lb in w.lbs && listener in w.lbs[lb].listeners
    case PatchStatus(_) => true
  }

  function Apply(w: World, a: Act): World
    requires Possible(w, a)
  {
    match a
    case BeginPass(spec, delete) => World(w.lbs, w.status, spec, w.status, delete, {}, None)
    case Outside(edited) => w.(lbs := edited, born := {})
    case MarkDeployed(lb) => w.(deployed := Some(lb))
    case CreateLb(lb, content) => SetLb(w, lb, content).(born := w.born + {lb})
    case ResizeLb(lb, package) => SetLb(w, lb, w.lbs[lb].(package := package))
    case DeleteLb(lb) => w.(lbs := w.lbs - {lb})
    case CreatePool(lb, pool, value) => SetPool(w, lb, pool, value)
    case UpdatePool(lb, pool, patch) => SetPool(w, lb, pool, PatchPool(w.lbs[lb].pools[pool], patch))
    case PatchGroups(lb, pool, added, updates, removed) =>
      var p := w.lbs[lb].pools[pool];
      SetPool(w, lb, pool, p.(groups := PatchedGroups(p.groups, added, updates, removed)))
    case DeletePool(lb, pool) => SetLb(w, lb, w.lbs[lb].(pools := w.lbs[lb].pools - {pool}))
    case CreateListener(lb, listener, value) => SetListener(w, lb, listener, value)
    case UpdateListener(lb, listener, patch) =>
      SetListener(w, lb, listener, PatchListener(w.lbs[lb].listeners[listener], patch))
    case DeleteListener(lb, listener) =>
      SetLb(w, lb, w.lbs[lb].(listeners := w.lbs[lb].listeners - {listener}))
    case PatchStatus(st) => w.(status := st)
  }

  /** The pass works on the load balancer it is leaving for another one. */
  predicate Migrating(w: World) {
    IsSet(w.snap.lbId) && IsSet(w.spec.lbId) && w.spec.lbId != w.snap.lbId
  }

  /**
   A listener, pool or group of the load balancer may go: the config is deleted or moved away from
   it, or the new spec is in place on it.
   */
  predicate MayDelete(w: World, lb: Id) {
    || (w.snap.lbId == Some(lb) && (w.deleting || Migrating(w)))
    || w.deployed == Some(lb)
  }

  /** No pool and no listener has come. */
  predicate LbShrinks(a: LB, b: LB) {
    b.pools.Keys <= a.pools.Keys && b.listeners.Keys <= a.listeners.Keys
  }

  /** No pool and no listener has come on the load balancers there were. */
  predicate NothingNew(lbs: map<Id, LB>, after: map<Id, LB>) {
    forall b :: b in lbs && b in after ==> LbShrinks(lbs[b], after[b])
  }

  /** The record is as it was, and nothing has come. */
  predicate Shrinks(w: World, after: World) {
    var all :=
      after.status == w.status && NothingNew(w.lbs, after.lbs);
    all
  }

  /** The load balancer that the pass builds on: the one on record when it began, or one it has created. */
  predicate Works(w: World, lb: Id) {
    w.snap.lbId == Some(lb) || lb in w.born
  }

  /** Or the one the spec points at, by id or by name, which a pass may adopt. */
  predicate Mine(w: World, lb: Id) {
    || Works(w, lb) || w.spec.lbId == Some(lb)
    || (w.spec.name != "" && lb in w.lbs && w.lbs[lb].name == w.spec.name)
  }

  predicate LbNamed(lbs: map<Id, LB>, name: string) {
    exists b :: b in lbs && lbs[b].name == name
  }

  predicate PoolExistsOrNone(lb: LB, pool: Id) {
    pool == NO_ID || pool in lb.pools
  }

  predicate AddedGroupsAllowed(w: World, pool: Pool, added: map<Id, Group>) {
    && (forall g :: g in added ==> WantsGroup(w.spec, pool.name, added[g].name))
    && (WellFormed(w.spec) ==>
          && UniqueGroups(added)
          && forall g, h :: g in added && h in pool.groups ==> added[g].name != pool.groups[h].name)
  }

  /** Whatever a status patch newly records is, where it lives, something the spec asks for. */
  ghost predicate RecordAllowed(w: World, st: Status) {
    && (forall l, b :: RecordsListener(st, l) && !RecordsListener(w.status, l) && b in w.lbs && l in w.lbs[b].listeners
          ==> WantsPort(w.spec, w.lbs[b].listeners[l].port))
    && (forall p, b :: RecordsPool(st, p) && !RecordsPool(w.status, p) && b in w.lbs && p in w.lbs[b].pools
          ==> WantsPool(w.spec, w.lbs[b].pools[p].name))
    && (forall p, g, b :: RecordsGroup(st, p, g) && !RecordsGroup(w.status, p, g) && b in w.lbs && p in w.lbs[b].pools
          ==> WantsGroup(w.spec, w.lbs[b].pools[p].name, g))
  }

  ghost predicate Allowed(w: World, a: Act)
    requires Possible(w, a)
  {
    match a
    case BeginPass(_, _) => true
    // somebody else's edit: the cloud itself refuses dangling pools, duplicate names and duplicate ids
    case Outside(edited) => Integrity(edited) && Unique(edited) && IdsProper(edited)
    case MarkDeployed(lb) => Deployed(w.spec, w.lbs[lb])
    case CreateLb(_, content) =>
      && LbIntegrity(content) && (WellFormed(w.spec) ==> UniqueOn(content))
      && (SpecRegular(w.spec) ==> PoolsOnce(content.pools) && Suits(w.spec, content))
      && content.name == w.spec.name && !IsSet(w.snap.lbId)
      && (w.spec.name != "" ==> !LbNamed(w.lbs, w.spec.name))
    case ResizeLb(lb, _) => Mine(w, lb)
    case DeleteLb(lb) =>
      (lb in w.born && w.status.lbId != Some(lb)) || (w.deleting && w.snap.lbId == Some(lb) && Covered(w.snap, w.lbs[lb]))
    case CreatePool(lb, _, value) =>
      && Works(w, lb) && WantsPool(w.spec, value.name) && NewGroupsFit(w.spec, value.name, value.groups)
      && (WellFormed(w.spec) ==>
            && UniqueGroups(value.groups)
            && forall p :: p in w.lbs[lb].pools ==> w.lbs[lb].pools[p].name != value.name)
    case UpdatePool(lb, pool, _) => Works(w, lb) && WantsPool(w.spec, w.lbs[lb].pools[pool].name)
    case PatchGroups(lb, pool, added, updates, removed) =>
      var p := w.lbs[lb].pools[pool];
      && Works(w, lb) && AddedGroupsAllowed(w, p, added) && NewGroupsFit(w.spec, p.name, added)
      && (forall g :: g in updates ==> WantsGroup(w.spec, p.name, p.groups[g].name) && UpdateFits(p.groups[g], updates[g]))
      && (removed != {} ==> MayDelete(w, lb))
      && (forall g :: g in removed ==> p.groups[g].name in RecordedNames(w.snap, pool))
    case DeletePool(lb, pool) =>
      && Works(w, lb) && MayDelete(w, lb) && RecordsPool(w.snap, pool) && !PoolInUse(w.lbs[lb], pool)
      && (var groups := w.lbs[lb].pools[pool].groups;
          forall g :: g in groups ==> groups[g].name in RecordedNames(w.snap, pool))
    case CreateListener(lb, _, value) =>
      && Works(w, lb) && WantsPort(w.spec, value.port) && PoolExistsOrNone(w.lbs[lb], value.poolId)
      && NewListenerFits(w.spec, value)
      && (WellFormed(w.spec) ==> forall l :: l in w.lbs[lb].listeners ==> w.lbs[lb].listeners[l].port != value.port)
    case UpdateListener(lb, listener, patch) =>
      Works(w, lb) && WantsPort(w.spec, w.lbs[lb].listeners[listener].port) && PoolExistsOrNone(w.lbs[lb], patch.poolId)
    case DeleteListener(lb, listener) =>
      && Works(w, lb) && MayDelete(w, lb) && RecordsListener(w.snap, listener)
      && ListenerOwned(w.snap, w.lbs[lb].pools, w.lbs[lb].listeners[listener])
    case PatchStatus(st) =>
      && RecordAllowed(w, st)
      && (SpecRegular(w.spec) && Once(w.lbs) && RecordsTidy(w.status) ==> RecordsTidy(st))
      && (st.lbId == w.status.lbId || st.lbId.None? || (st.lbId.value in w.lbs && Mine(w, st.lbId.value)))
  }

  ghost predicate Step(w: World, a: Act) {
    Possible(w, a) && Allowed(w, a)
  }

  /** The act stays within the load balancers there are. */
  predicate Inside(a: Act) {
    !a.BeginPass? && !a.Outside? && !a.CreateLb? && !a.DeleteLb?
  }

  // ----- Runs -----

  /** The k-th act is allowed in the k-th state and leads to the next. */
  ghost predicate Link(states: seq<World>, acts: seq<Act>, k: nat)
    requires k < |acts| && |states| == |acts| + 1
  {
    Step(states[k], acts[k]) && states[k + 1] == Apply(states[k], acts[k])
  }

  /** A run: the states a sequence of allowed acts goes through, from a cloud with unique ids. */
  ghost predicate Run(states: seq<World>, acts: seq<Act>) {
    && |states| == |acts| + 1 && IdsProper(states[0].lbs)
    && forall k :: 0 <= k < |acts| ==> Link(states, acts, k)
  }

  lemma RunExtend(states: seq<World>, acts: seq<Act>, a: Act)
    requires Run(states, acts) && Step(states[|acts|], a)
    ensures Run(states + [Apply(states[|acts|], a)], acts + [a])
  {
    var states', acts' := states + [Apply(states[|acts|], a)], acts + [a];
    forall k | 0 <= k < |acts'| ensures Link(states', acts', k) {
      if k < |acts| {
        assert Link(states, acts, k);
      }
    }
  }

  /** Replacing or adding one load balancer keeps ids unique if its new ids are used nowhere else. */
  lemma SetLbKeepsIds(lbs: map<Id, LB>, id: Id, lb: LB)
    requires IdsProper(lbs) && id != NO_ID
    requires forall p :: p in lb.pools ==> (id in lbs && p in lbs[id].pools) || (p != NO_ID && !PoolIdUsed(lbs, p))
    requires forall l :: l in lb.listeners ==>
               (id in lbs && l in lbs[id].listeners) || (l != NO_ID && !ListenerIdUsed(lbs, l))
    ensures IdsProper(lbs[id := lb])
  {
    var after := lbs[id := lb];
    forall b, c, p | b in after && c in after && p in after[b].pools && p in after[c].pools ensures b == c {
      assert b != id ==> PoolIdUsed(lbs, p);
      assert c != id ==> PoolIdUsed(lbs, p);
    }
    forall b, c, l | b in after && c in after && l in after[b].listeners && l in after[c].listeners ensures b == c {
      assert b != id ==> ListenerIdUsed(lbs, l);
      assert c != id ==> ListenerIdUsed(lbs, l);
    }
  }

  lemma StepKeepsIds(w: World, a: Act)
    requires Step(w, a) && IdsProper(w.lbs)
    ensures IdsProper(Apply(w, a).lbs)
  {
    var after := Apply(w, a).lbs;
    match a
    case BeginPass(_, _) =>
    case Outside(_) =>
    case MarkDeployed(_) =>
    case PatchStatus(_) =>
    case DeleteLb(_) =>
    case _ => SetLbKeepsIds(w.lbs, a.lb, after[a.lb]);
  }

  lemma {:induction false} IdsStayProper(states: seq<World>, acts: seq<Act>, k: nat)
    requires Run(states, acts) && k <= |acts|
    ensures IdsProper(states[k].lbs)
  {
    if k > 0 {
      IdsStayProper(states, acts, k - 1);
      assert Link(states, acts, k - 1);
      StepKeepsIds(states[k - 1], acts[k - 1]);
    }
  }
}
