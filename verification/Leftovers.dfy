/** What a successful deploy pass leaves behind or takes away against the spec's wording. */
module Leftovers {
  import opened GlbTypes
  import opened Equality
  import opened Diffs
  import opened Protocol
  import opened CloudApi
  import opened DeployPoolMember
  import opened DeployPool
  import opened DeployListener
  import opened DeployLb
  import opened DeployPass
  import opened Quiescence
  import DL = DeleteListener
  import DP = DeletePool
  import Pools = PoolPhase
  import Listeners = ListenerPhase
  import DeleteLb

  // ----- What the phases did, from the start of the pass -----

  /** `a` is the load balancer when the pass begins, `b` before its sweep. */
  ghost predicate Phases(spec: Spec, a: LB, b: LB, listeners: seq<CreatedListener>, pools: seq<CreatedPool>) {
    && ExactPools(b.pools, spec.pools, pools) && PoolsRegular(b.pools) && UniquePorts(b.listeners)
    && Listeners.AllExact(b.listeners, spec.listeners, listeners)
    && Listeners.AllAgree(b.listeners, spec.listeners, listeners, pools)
    && PoolsMoved(spec, a.pools, b.pools) && ListenersMoved(spec, a.listeners, b.listeners)
  }

  /** Pools the spec does not name are as they were; those it gives no groups keep theirs, and start with none. */
  predicate PoolsMoved(spec: Spec, a: map<Id, Pool>, b: map<Id, Pool>) {
    PoolsKept(spec, a, b) && EmptyKept(spec, a, b)
  }

  predicate PoolsKept(spec: Spec, a: map<Id, Pool>, b: map<Id, Pool>) {
    && (forall p :: p in a ==> p in b && b[p].name == a[p].name && (WantsPool(spec, a[p].name) || b[p] == a[p]))
    && (forall p :: p in b && p !in a ==> WantsPool(spec, b[p].name))
  }

  predicate EmptyKept(spec: Spec, a: map<Id, Pool>, b: map<Id, Pool>) {
    forall p, j :: p in b && 0 <= j < |spec.pools| && spec.pools[j].name == b[p].name && spec.pools[j].groups == [] ==>
      b[p].groups == if p in a then a[p].groups else map[]
  }

  predicate ListenersMoved(spec: Spec, a: map<Id, Listener>, b: map<Id, Listener>) {
    && (forall l :: l in a ==> l in b && b[l].port == a[l].port && (WantsPort(spec, a[l].port) || b[l] == a[l]))
    && (forall l :: l in b && l !in a ==> WantsPort(spec, b[l].port))
  }

  lemma OnlyPoolsKept(spec: Spec, a: map<Id, LB>, b: map<Id, LB>, lb: Id)
    requires Pools.OnlyPoolsOf(a, b, lb, spec.pools)
    ensures PoolsKept(spec, a[lb].pools, b[lb].pools)
  {
    forall name: string ensures Pools.NamedIn(spec.pools, name) <==> WantsPool(spec, name) {
    }
    forall p | p in a[lb].pools && !WantsPool(spec, a[lb].pools[p].name) ensures b[lb].pools[p] == a[lb].pools[p] {
      assert Pools.KeptUnlessNamed(a[lb].pools, b[lb].pools, spec.pools, p);
    }
    forall p | p in b[lb].pools && p !in a[lb].pools ensures WantsPool(spec, b[lb].pools[p].name) {
      assert Pools.NewIsNamed(a[lb].pools, b[lb].pools, spec.pools, p);
    }
  }

  lemma SteppedEmptyKept(
    cfg: Config, st: Status, spec: Spec, a: map<Id, Pool>, b: map<Id, Pool>, pools: seq<CreatedPool>)
    requires Pools.AllExact(cfg, st, a, b, spec.pools, pools) && UniquePools(b)
    ensures EmptyKept(spec, a, b)
  {
    forall p, j | p in b && 0 <= j < |spec.pools| && spec.pools[j].name == b[p].name && spec.pools[j].groups == []
      ensures b[p].groups == if p in a then a[p].groups else map[]
    {
      assert PoolExact(b, spec.pools[j], pools[j]) && pools[j].id == p;
      EmptyStep(cfg, st, spec.pools[j], p, a, b);
    }
  }

  lemma PassPools(cfg: Config, t: Passage, after: World)
    requires Passed(cfg, t, after) && SpecRegular(t.begun.spec) && Sane(t.begun.lbs[t.lb], t.begun.status)
    ensures PoolsMoved(t.begun.spec, t.begun.lbs[t.lb].pools, t.listened.lbs[t.lb].pools)
  {
    var spec, a, b := t.begun.spec, t.begun.lbs[t.lb].pools, t.pooled.lbs[t.lb].pools;
    assert spec.pools[..|spec.pools|] == spec.pools;
    PhasesBuild(cfg, t, after);
    OnlyPoolsKept(spec, t.begun.lbs, t.pooled.lbs, t.lb);
    SteppedEmptyKept(cfg, t.begun.snap, spec, a, b, t.pools);
  }

  lemma EmptyStep(cfg: Config, st: Status, sp: PoolSpec, id: Id, before: map<Id, Pool>, after: map<Id, Pool>)
    requires PoolStepped(cfg, st, sp, id, before, after) && sp.groups == []
    ensures after[id].groups == if id in before then before[id].groups else map[]
  {
  }

  lemma OnlyListenersKept(spec: Spec, a: map<Id, LB>, b: map<Id, LB>, lb: Id)
    requires Listeners.OnlyListenersOf(a, b, lb, spec.listeners)
    ensures ListenersMoved(spec, a[lb].listeners, b[lb].listeners)
  {
    var began, now := a[lb].listeners, b[lb].listeners;
    forall port: int ensures Listeners.PortIn(spec.listeners, port) <==> WantsPort(spec, port) {
    }
    forall l | l in began && !WantsPort(spec, began[l].port) ensures l in now && now[l] == began[l] {
      assert Listeners.KeptUnlessOn(began, now, spec.listeners, l);
    }
    forall l | l in now && l !in began ensures WantsPort(spec, now[l].port) {
      assert Listeners.NewIsOn(began, now, spec.listeners, l);
    }
  }

  lemma PassListeners(cfg: Config, t: Passage, after: World)
    requires Passed(cfg, t, after)
    ensures ListenersMoved(t.begun.spec, t.begun.lbs[t.lb].listeners, t.listened.lbs[t.lb].listeners)
  {
    var spec := t.begun.spec;
    assert spec.listeners[..|spec.listeners|] == spec.listeners;
    OnlyListenersKept(spec, t.pooled.lbs, t.listened.lbs, t.lb);
  }

  lemma PassPhases(cfg: Config, t: Passage, after: World)
    requires Passed(cfg, t, after) && SpecRegular(t.begun.spec) && Sane(t.begun.lbs[t.lb], t.begun.status)
    ensures Phases(t.begun.spec, t.begun.lbs[t.lb], t.listened.lbs[t.lb], t.listeners, t.pools)
    ensures t.listened.snap == t.begun.snap
    ensures t.lb in after.lbs && after.lbs[t.lb] == Swept(t.begun.snap, t.listened.lbs[t.lb], t.listeners, t.pools)
  {
    PhasesBuild(cfg, t, after);
    PassPools(cfg, t, after);
    PassListeners(cfg, t, after);
  }

  // ----- Listeners that are forgotten -----

  /** A pass forgets the listener: it is live afterwards, and the record does not mention it. */
  ghost predicate Forgotten(after: World, lb: Id, l: Id) {
    lb in after.lbs && l in after.lbs[lb].listeners && !RecordsListener(after.status, l)
  }

  /** The listener's pool is still wanted, or somebody else has a part in it. */
  predicate Held(spec: Spec, st: Status, lb: LB, l: Id)
    requires l in lb.listeners && LbIntegrity(lb)
  {
    var p := lb.listeners[l].poolId;
    p != NO_ID && (WantsPool(spec, lb.pools[p].name) || !PoolCovered(st, lb.pools, p))
  }

  lemma WantedIsListed(spec: Spec, live: map<Id, Pool>, pools: seq<CreatedPool>, p: Id)
    requires ExactPools(live, spec.pools, pools) && UniquePools(live) && p in live
    ensures ListedPool(pools, p) <==> WantsPool(spec, live[p].name)
  {
    if WantsPool(spec, live[p].name) {
      var i :| 0 <= i < |spec.pools| && spec.pools[i].name == live[p].name;
      assert PoolExact(live, spec.pools[i], pools[i]);
    }
    if ListedPool(pools, p) {
      var i :| 0 <= i < |pools| && pools[i].id == p;
      assert PoolExact(live, spec.pools[i], pools[i]);
    }
  }

  lemma OffSpecNotListed(spec: Spec, live: map<Id, Listener>, listeners: seq<CreatedListener>, l: Id)
    requires Listeners.AllExact(live, spec.listeners, listeners) && l in live && !WantsPort(spec, live[l].port)
    ensures !ListedListener(listeners, l)
  {
    forall i | 0 <= i < |listeners| ensures listeners[i].id != l {
      assert ListenerExact(live, spec.listeners[i], listeners[i]);
    }
  }

  /** The sweep keeps a recorded listener that the spec dropped exactly when its pool is held. */
  lemma DroppedStays(
    spec: Spec, st: Status, a: LB, b: LB, listeners: seq<CreatedListener>, pools: seq<CreatedPool>, l: Id)
    requires Phases(spec, a, b, listeners, pools) && LbIntegrity(a) && l in a.listeners
    requires RecordsListener(st, l) && !WantsPort(spec, a.listeners[l].port)
    ensures l in Swept(st, b, listeners, pools).listeners <==> Held(spec, st, a, l)
  {
    var p := a.listeners[l].poolId;
    var i :| 0 <= i < |st.listeners| && st.listeners[i].id == l;
    assert st.listeners[i] in st.listeners;
    OffSpecNotListed(spec, b.listeners, listeners, l);
    if p != NO_ID {
      WantedIsListed(spec, b.pools, pools, p);
    }
  }

  /**
   A recorded listener on a port that the spec does not list is left live and off the record, so that
   no later pass deletes it either, exactly when it has a pool that the spec still names or that is
   not ours down to each member. Otherwise it is deleted.
   */
  lemma ForgottenExactlyWhen(cfg: Config, t: Passage, after: World, l: Id)
    requires Passed(cfg, t, after) && SpecRegular(t.begun.spec) && Sane(t.begun.lbs[t.lb], t.begun.status)
    requires LbIntegrity(t.begun.lbs[t.lb]) && l in t.begun.lbs[t.lb].listeners
    requires RecordsListener(t.begun.snap, l) && !WantsPort(t.begun.spec, t.begun.lbs[t.lb].listeners[l].port)
    ensures Forgotten(after, t.lb, l) <==> Held(t.begun.spec, t.begun.snap, t.begun.lbs[t.lb], l)
    ensures !Forgotten(after, t.lb, l) ==> t.lb in after.lbs && l !in after.lbs[t.lb].listeners
  {
    PassPhases(cfg, t, after);
    DroppedStays(t.begun.spec, t.begun.snap, t.begun.lbs[t.lb], t.listened.lbs[t.lb], t.listeners, t.pools, l);
    OffSpecNotListed(t.begun.spec, t.listened.lbs[t.lb].listeners, t.listeners, l);
    NotRecordedAfter(after.status, t.listeners, t.pools, l);
  }

  lemma NotRecordedAfter(st: Status, listeners: seq<CreatedListener>, pools: seq<CreatedPool>, l: Id)
    requires Recorded(st, listeners, pools) && !ListedListener(listeners, l)
    ensures !RecordsListener(st, l)
  {
    forall i | 0 <= i < |st.listeners| ensures st.listeners[i].id != l {
      assert st.listeners[i] in st.listeners && st.listeners[i] in listeners;
      var j :| 0 <= j < |listeners| && listeners[j] == st.listeners[i];
    }
  }

  // ----- Groups and pools that the spec drops -----

  /** The new record of a pool lists just the groups of the spec. */
  lemma RecordLists(live: map<Id, Pool>, specs: seq<PoolSpec>, pools: seq<CreatedPool>, i: nat, name: string)
    requires ExactPools(live, specs, pools) && DistinctPools(specs) && i < |specs|
    ensures FindPool(pools, pools[i].id) == Some(pools[i])
    ensures (exists k :: 0 <= k < |pools[i].groups| && pools[i].groups[k].name == name) <==> ListsGroup(specs[i].groups, name)
  {
    assert PoolExact(live, specs[i], pools[i]);
    ExactIdsDistinct(live, specs, pools);
    FindDistinct(pools, i);
    forall k | 0 <= k < |specs[i].groups| ensures pools[i].groups[k].name == specs[i].groups[k].name {
      assert GroupExact(live[pools[i].id].groups, specs[i].groups[k].name, pools[i].groups[k]);
    }
  }

  /** Deploying leaves a group the spec does not list as it was. */
  lemma UnlistedUntouched(
    cfg: Config, st: Status, sp: PoolSpec, id: Id, before: map<Id, Pool>, after: map<Id, Pool>, g: Id)
    requires PoolStepped(cfg, st, sp, id, before, after) && id in before && g in before[id].groups
    requires !ListsGroup(sp.groups, before[id].groups[g].name)
    ensures g in after[id].groups && after[id].groups[g] == before[id].groups[g]
  {
  }

  /**
   A group in a spec pool that the spec does not list: after the pass it is there, as it was, exactly
   when it was not on record. The pool itself stays, for it has groups to keep.
   */
  lemma UnlistedGroupStaysExactlyWhen(cfg: Config, t: Passage, after: World, i: nat, p: Id, g: Id)
    requires Passed(cfg, t, after) && SpecRegular(t.begun.spec) && Sane(t.begun.lbs[t.lb], t.begun.status)
    requires i < |t.begun.spec.pools| && t.begun.spec.pools[i].groups != []
    requires p in t.begun.lbs[t.lb].pools && t.begun.lbs[t.lb].pools[p].name == t.begun.spec.pools[i].name
    requires g in t.begun.lbs[t.lb].pools[p].groups
    requires !ListsGroup(t.begun.spec.pools[i].groups, t.begun.lbs[t.lb].pools[p].groups[g].name)
    ensures t.lb in after.lbs && p in after.lbs[t.lb].pools
    ensures var group := t.begun.lbs[t.lb].pools[p].groups[g];
            && (g in after.lbs[t.lb].pools[p].groups <==> group.name !in RecordedNames(t.begun.snap, p))
            && (g in after.lbs[t.lb].pools[p].groups ==> after.lbs[t.lb].pools[p].groups[g] == group)
  {
    var spec, before, pooled := t.begun.spec, t.begun.lbs[t.lb].pools, t.pooled.lbs[t.lb].pools;
    PassPhases(cfg, t, after);
    PhasesBuild(cfg, t, after);
    PassStep(cfg, t, after, i);
    FoundPool(t.begun.lbs, t.pooled.lbs, t.lb, spec.pools[i], t.pools[i], p);
    UnlistedUntouched(cfg, t.begun.snap, spec.pools[i], p, before, pooled, g);
    SweptGroup(t.begun.snap, spec, t.listened.lbs[t.lb], t.listeners, t.pools, i, g);
  }

  /** What the sweep does to one group of a spec pool. */
  lemma SweptGroup(
    st: Status, spec: Spec, b: LB, listeners: seq<CreatedListener>, pools: seq<CreatedPool>, i: nat, g: Id)
    requires ExactPools(b.pools, spec.pools, pools) && DistinctPools(spec.pools) && i < |pools|
    requires pools[i].id in b.pools && g in b.pools[pools[i].id].groups && spec.pools[i].groups != []
    ensures var after, group := Swept(st, b, listeners, pools), b.pools[pools[i].id].groups[g];
            && pools[i].id in after.pools
            && (g in after.pools[pools[i].id].groups <==>
                  group.name !in RecordedNames(st, pools[i].id) || ListsGroup(spec.pools[i].groups, group.name))
            && (g in after.pools[pools[i].id].groups ==> after.pools[pools[i].id].groups[g] == group)
  {
    var p, one := pools[i].id, b.(listeners := DL.SweptListeners(st, b, listeners, pools));
    assert PoolExact(b.pools, spec.pools[i], pools[i]);
    var kept := pools[i].groups[0].id;
    assert GroupExact(b.pools[p].groups, spec.pools[i].groups[0].name, pools[i].groups[0]);
    RecordLists(b.pools, spec.pools, pools, i, b.pools[p].groups[g].name);
    RecordLists(b.pools, spec.pools, pools, i, b.pools[p].groups[kept].name);
    assert DP.Keeps(st, pools, p, b.pools[p].groups[kept].name);
    DP.SweptPoolsExactly(st, one, pools, p);
    assert b.pools[p].groups[g].name in RecordedNames(st, p) ==> RecordsPool(st, p) by {
      if b.pools[p].groups[g].name in RecordedNames(st, p) {
        var r := FindPool(st.pools, p).value;
        var n :| 0 <= n < |st.pools| && st.pools[n] == r;
      }
    }
  }

  /**
   A pool that the spec does not name survives the pass exactly when it was not on record, a listener
   that is left uses it, or it holds a group that was not on record.
   */
  lemma UnlistedPoolStaysExactlyWhen(cfg: Config, t: Passage, after: World, p: Id)
    requires Passed(cfg, t, after) && SpecRegular(t.begun.spec) && Sane(t.begun.lbs[t.lb], t.begun.status)
    requires p in t.begun.lbs[t.lb].pools && !WantsPool(t.begun.spec, t.begun.lbs[t.lb].pools[p].name)
    ensures t.lb in after.lbs
    ensures p in after.lbs[t.lb].pools <==>
            || !RecordsPool(t.begun.snap, p)
            || (exists l :: l in after.lbs[t.lb].listeners && after.lbs[t.lb].listeners[l].poolId == p)
            || (exists g :: g in t.begun.lbs[t.lb].pools[p].groups
                         && t.begun.lbs[t.lb].pools[p].groups[g].name !in RecordedNames(t.begun.snap, p))
  {
    var spec, b := t.begun.spec, t.listened.lbs[t.lb];
    PassPhases(cfg, t, after);
    var one := b.(listeners := DL.SweptListeners(t.begun.snap, b, t.listeners, t.pools));
    assert b.pools[p] == t.begun.lbs[t.lb].pools[p];
    WantedIsListed(spec, b.pools, t.pools, p);
    assert FindPool(t.pools, p).None?;
    DP.SweptPoolsExactly(t.begun.snap, one, t.pools, p);
    assert after.lbs[t.lb].listeners == one.listeners;
  }

  // ----- Spec pools without groups -----

  /** A listener on a port the spec does not list uses the pool. */
  predicate UsedElsewhere(spec: Spec, lb: LB, p: Id) {
    exists l :: l in lb.listeners && lb.listeners[l].poolId == p && !WantsPort(spec, lb.listeners[l].port)
  }

  lemma {:induction false} FoundEntry(pools: seq<CreatedPool>, name: string) returns (i: nat)
    requires PoolIdByName(pools, name) != NO_ID
    ensures i < |pools| && pools[i].name == name && pools[i].id == PoolIdByName(pools, name)
  {
    if pools[0].name == name {
      i := 0;
    } else {
      var k := FoundEntry(pools[1..], name);
      i := k + 1;
    }
  }

  /** A listener on a spec port points at the pool only if the spec says so. */
  lemma UserIsTargeting(
    spec: Spec, b: LB, listeners: seq<CreatedListener>, pools: seq<CreatedPool>, j: nat, l: Id)
    requires DistinctPools(spec.pools) && ExactPools(b.pools, spec.pools, pools) && j < |pools| && pools[j].id != NO_ID
    requires Listeners.AllExact(b.listeners, spec.listeners, listeners) && UniquePorts(b.listeners)
    requires Listeners.AllAgree(b.listeners, spec.listeners, listeners, pools)
    requires l in b.listeners && WantsPort(spec, b.listeners[l].port) && b.listeners[l].poolId == pools[j].id
    ensures Targeted(spec, spec.pools[j].name)
  {
    var i :| 0 <= i < |spec.listeners| && spec.listeners[i].port == b.listeners[l].port;
    assert ListenerExact(b.listeners, spec.listeners[i], listeners[i]) && listeners[i].id == l;
    ExactIdsDistinct(b.pools, spec.pools, pools);
    var k := FoundEntry(pools, spec.listeners[i].defaultPoolName.value);
    assert k == j;
    assert PoolExact(b.pools, spec.pools[j], pools[j]);
  }

  /** After the sweep a wanted pool is in use exactly when the spec targets it or somebody else's listener uses it. */
  lemma InUseAfter(
    spec: Spec, st: Status, a: LB, b: LB, listeners: seq<CreatedListener>, pools: seq<CreatedPool>, j: nat)
    requires Phases(spec, a, b, listeners, pools) && DistinctPools(spec.pools) && j < |pools| && pools[j].id != NO_ID
    ensures PoolInUse(Swept(st, b, listeners, pools), pools[j].id) <==>
            Targeted(spec, spec.pools[j].name) || UsedElsewhere(spec, a, pools[j].id)
  {
    var id, after := pools[j].id, Swept(st, b, listeners, pools);
    if Targeted(spec, spec.pools[j].name) {
      TargetInUse(spec, b, listeners, pools, j);
      var i :| 0 <= i < |listeners| && listeners[i].id in b.listeners && b.listeners[listeners[i].id].poolId == id;
      assert ListedListener(listeners, listeners[i].id);
      assert listeners[i].id in after.listeners;
    }
    if UsedElsewhere(spec, a, id) {
      var l :| l in a.listeners && a.listeners[l].poolId == id && !WantsPort(spec, a.listeners[l].port);
      assert ListedPool(pools, id);
      assert l in after.listeners;
    }
    if PoolInUse(after, id) {
      var l :| l in after.listeners && after.listeners[l].poolId == id;
      if WantsPort(spec, b.listeners[l].port) {
        UserIsTargeting(spec, b, listeners, pools, j, l);
      } else {
        assert l in a.listeners && a.listeners[l] == b.listeners[l];
      }
    }
  }

  /** The pool holds a group that is not on record; a pool that did not exist holds none. */
  predicate HoldsForeign(st: Status, pools: map<Id, Pool>, p: Id) {
    p in pools && DeleteLb.HoldsUnrecordedGroup(st, pools, p)
  }

  /** Nothing is wanted of the groups of such a pool, so all of it is redundant unless a group is foreign. */
  lemma EmptyIsRedundant(st: Status, live: map<Id, Pool>, spec: Spec, pools: seq<CreatedPool>, j: nat)
    requires ExactPools(live, spec.pools, pools) && DistinctPools(spec.pools) && j < |pools|
             && spec.pools[j].groups == []
    ensures pools[j].id in live
    ensures DP.Redundant(st, pools[j].id, live[pools[j].id].groups, pools) == live[pools[j].id].groups.Keys <==>
            !DeleteLb.HoldsUnrecordedGroup(st, live, pools[j].id)
  {
    assert PoolExact(live, spec.pools[j], pools[j]);
    ExactIdsDistinct(live, spec.pools, pools);
    FindDistinct(pools, j);
    assert DP.NewNames(pools, pools[j].id) == {};
  }

  lemma EmptySweep(
    spec: Spec, st: Status, a: LB, b: LB, listeners: seq<CreatedListener>, pools: seq<CreatedPool>, j: nat)
    requires Phases(spec, a, b, listeners, pools) && DistinctPools(spec.pools) && j < |pools| && pools[j].id != NO_ID
    requires spec.pools[j].groups == []
    ensures pools[j].id in Swept(st, b, listeners, pools).pools <==>
            || !RecordsPool(st, pools[j].id)
            || Targeted(spec, spec.pools[j].name) || UsedElsewhere(spec, a, pools[j].id)
            || HoldsForeign(st, a.pools, pools[j].id)
  {
    var id, one := pools[j].id, b.(listeners := DL.SweptListeners(st, b, listeners, pools));
    InUseAfter(spec, st, a, b, listeners, pools, j);
    assert PoolInUse(one, id) <==> PoolInUse(Swept(st, b, listeners, pools), id);
    EmptyIsRedundant(st, b.pools, spec, pools, j);
    assert PoolExact(b.pools, spec.pools[j], pools[j]);
    SameGroups(spec, st, a.pools, b.pools, pools, j);
    DP.SurvivesExactlyWhen(st, one, pools, id);
  }

  lemma SameGroups(spec: Spec, st: Status, a: map<Id, Pool>, b: map<Id, Pool>, pools: seq<CreatedPool>, j: nat)
    requires PoolsMoved(spec, a, b) && j < |spec.pools| == |pools| && spec.pools[j].groups == []
    requires PoolExact(b, spec.pools[j], pools[j])
    ensures DeleteLb.HoldsUnrecordedGroup(st, b, pools[j].id) <==> HoldsForeign(st, a, pools[j].id)
  {
    assert b[pools[j].id].groups == if pools[j].id in a then a[pools[j].id].groups else map[];
  }

  /**
   A spec pool without groups, found live or newly created, survives the pass exactly when it was not on
   record, the spec or a listener off the spec's ports points at it, or it holds an unrecorded group.
   */
  lemma EmptyPoolStaysExactlyWhen(cfg: Config, t: Passage, after: World, j: nat)
    requires Passed(cfg, t, after) && SpecRegular(t.begun.spec) && Sane(t.begun.lbs[t.lb], t.begun.status)
    requires j < |t.begun.spec.pools| && t.begun.spec.pools[j].groups == []
    requires |t.pools| == |t.begun.spec.pools|
    ensures t.lb in after.lbs
    ensures var spec, lb, id := t.begun.spec, t.begun.lbs[t.lb], t.pools[j].id;
            id in after.lbs[t.lb].pools <==>
            || !RecordsPool(t.begun.snap, id)
            || Targeted(spec, spec.pools[j].name) || UsedElsewhere(spec, lb, id) || HoldsForeign(t.begun.snap, lb.pools, id)
  {
    PassPhases(cfg, t, after);
    assert PoolExact(t.listened.lbs[t.lb].pools, t.begun.spec.pools[j], t.pools[j]);
    EmptySweep(t.begun.spec, t.begun.snap, t.begun.lbs[t.lb], t.listened.lbs[t.lb], t.listeners, t.pools, j);
  }

  // ----- Deleted by one pass, created by the next -----

  /** The spec gives the pool no groups and no listener. */
  predicate Idle(spec: Spec, j: nat) {
    j < |spec.pools| && spec.pools[j].groups == [] && !Targeted(spec, spec.pools[j].name)
  }

  /** The pool is live and on record, holds nothing, and nobody uses it. */
  predicate Stands(spec: Spec, j: nat, lb: LB, st: Status)
    requires j < |spec.pools|
  {
    exists p :: p in lb.pools && lb.pools[p].name == spec.pools[j].name && RecordsPool(st, p)
             && lb.pools[p].groups == map[] && !PoolInUse(lb, p)
  }

  predicate Absent(spec: Spec, j: nat, lb: LB)
    requires j < |spec.pools|
  {
    forall p :: p in lb.pools ==> lb.pools[p].name != spec.pools[j].name
  }

  lemma SweptIsPart(st: Status, b: LB, listeners: seq<CreatedListener>, pools: seq<CreatedPool>)
    ensures var after := Swept(st, b, listeners, pools);
            && (forall p :: p in after.pools ==> p in b.pools && after.pools[p].name == b.pools[p].name)
            && (forall p :: p in after.pools && !RecordsPool(st, p) ==> after.pools[p] == b.pools[p])
            && (forall l :: l in after.listeners ==> l in b.listeners && after.listeners[l] == b.listeners[l])
            && (forall p :: p in b.pools && PoolInUse(after, p) ==> p in after.pools)
  {
    var after := Swept(st, b, listeners, pools);
    var one := b.(listeners := DL.SweptListeners(st, b, listeners, pools));
    forall p | p in b.pools ensures PoolInUse(after, p) ==> p in after.pools {
      DP.SurvivesExactlyWhen(st, one, pools, p);
    }
    forall p | p in after.pools && !RecordsPool(st, p) ensures after.pools[p] == b.pools[p] {
      DP.RecordedIdsAre(st, p);
    }
  }

  /** Swept away: a pool on record that nobody needs is gone after the pass. */
  lemma StandingIsSwept(cfg: Config, t: Passage, after: World, j: nat)
    requires Passed(cfg, t, after) && SpecRegular(t.begun.spec) && Sane(t.begun.lbs[t.lb], t.begun.status)
    requires Idle(t.begun.spec, j) && Stands(t.begun.spec, j, t.begun.lbs[t.lb], t.begun.snap)
    ensures t.lb in after.lbs && Absent(t.begun.spec, j, after.lbs[t.lb])
  {
    var spec, a, b := t.begun.spec, t.begun.lbs[t.lb], t.listened.lbs[t.lb];
    PassPhases(cfg, t, after);
    assert PoolExact(b.pools, spec.pools[j], t.pools[j]);
    var p :| p in a.pools && a.pools[p].name == spec.pools[j].name && RecordsPool(t.begun.snap, p)
          && a.pools[p].groups == map[] && !PoolInUse(a, p);
    assert p in b.pools && b.pools[p].name == spec.pools[j].name && p == t.pools[j].id;
    EmptyPoolStaysExactlyWhen(cfg, t, after, j);
    SweptIsPart(t.begun.snap, b, t.listeners, t.pools);
  }

  lemma RecordedAfter(st: Status, pools: seq<CreatedPool>, j: nat)
    requires Tidy(st.pools) && PoolsEqual(st.pools, pools) && j < |pools|
    ensures RecordsPool(st, pools[j].id)
  {
    var i := EqualPoolsCover(st.pools, pools, j);
  }

  /** Created again: a pool that is not there stands after the pass, under an id the record did not have. */
  lemma AbsentIsCreated(cfg: Config, t: Passage, after: World, j: nat)
    requires Passed(cfg, t, after) && SpecRegular(t.begun.spec) && Sane(t.begun.lbs[t.lb], t.begun.status)
    requires LbIntegrity(t.begun.lbs[t.lb]) && Idle(t.begun.spec, j) && Absent(t.begun.spec, j, t.begun.lbs[t.lb])
    requires j < |t.pools| && !RecordsPool(t.begun.snap, t.pools[j].id)
    ensures t.lb in after.lbs && Stands(t.begun.spec, j, after.lbs[t.lb], after.status)
  {
    var spec, a, b, id := t.begun.spec, t.begun.lbs[t.lb], t.listened.lbs[t.lb], t.pools[j].id;
    PassPhases(cfg, t, after);
    assert PoolExact(b.pools, spec.pools[j], t.pools[j]);
    assert id !in a.pools && b.pools[id].groups == map[];
    EmptyPoolStaysExactlyWhen(cfg, t, after, j);
    InUseAfter(spec, t.begun.snap, a, b, t.listeners, t.pools, j);
    assert !UsedElsewhere(spec, a, id);
    SweptIsPart(t.begun.snap, b, t.listeners, t.pools);
    PassRecord(cfg, t, after);
    RecordedAfter(after.status, t.pools, j);
  }

  /** The record after a pass says what was deployed and lists nothing twice. */
  lemma PassRecord(cfg: Config, t: Passage, after: World)
    requires Passed(cfg, t, after) && SpecRegular(t.begun.spec) && Sane(t.begun.lbs[t.lb], t.begun.status)
    ensures Tidy(after.status.pools) && DistinctListenerIds(after.status.listeners)
    ensures PoolsEqual(after.status.pools, t.pools)
  {
    PhasesBuild(cfg, t, after);
    RecordIsSane(t.begun.spec, t.listened.lbs[t.lb], t.listened.status, after.status, t.listeners, t.pools);
  }

  /** Before the sweep no listener dangles: those of the spec point at deployed pools, the others where they did. */
  lemma PhasesKeepIntegrity(spec: Spec, a: LB, b: LB, listeners: seq<CreatedListener>, pools: seq<CreatedPool>)
    requires Phases(spec, a, b, listeners, pools) && LbIntegrity(a)
    ensures LbIntegrity(b)
  {
    forall l | l in b.listeners && b.listeners[l].poolId != NO_ID ensures b.listeners[l].poolId in b.pools {
      if WantsPort(spec, b.listeners[l].port) {
        var i :| 0 <= i < |spec.listeners| && spec.listeners[i].port == b.listeners[l].port;
        assert ListenerExact(b.listeners, spec.listeners[i], listeners[i]) && listeners[i].id == l;
        var k := FoundEntry(pools, spec.listeners[i].defaultPoolName.value);
        assert PoolExact(b.pools, spec.pools[k], pools[k]);
      } else {
        assert a.listeners[l] == b.listeners[l] && a.listeners[l].poolId in a.pools;
      }
    }
  }

  lemma ExactIsMatching(spec: Spec, live: map<Id, Listener>, listeners: seq<CreatedListener>)
    requires UniquePorts(live) && Listeners.AllExact(live, spec.listeners, listeners)
    ensures ProtocolsMatch(live, spec.listeners)
  {
    forall i, l | 0 <= i < |spec.listeners| && l in live && live[l].port == spec.listeners[i].port
      ensures live[l].protocol == spec.listeners[i].protocol
    {
      assert ListenerExact(live, spec.listeners[i], listeners[i]);
    }
  }

  lemma PassKeepsSane(cfg: Config, t: Passage, after: World)
    requires Passed(cfg, t, after) && SpecRegular(t.begun.spec) && Sane(t.begun.lbs[t.lb], t.begun.status)
    requires LbIntegrity(t.begun.lbs[t.lb])
    ensures t.lb in after.lbs && Sane(after.lbs[t.lb], after.status) && Fitting(t.begun.spec, after.lbs[t.lb])
  {
    var b := t.listened.lbs[t.lb];
    PassPhases(cfg, t, after);
    PassRecord(cfg, t, after);
    SweepKeepsSane(t.begun.snap, b, t.listeners, t.pools);
    PhasesKeepIntegrity(t.begun.spec, t.begun.lbs[t.lb], b, t.listeners, t.pools);
    ExactIsMatching(t.begun.spec, b.listeners, t.listeners);
    SweptIsPart(t.begun.snap, b, t.listeners, t.pools);
    var swept := after.lbs[t.lb];
    forall l | l in swept.listeners && swept.listeners[l].poolId != NO_ID ensures swept.listeners[l].poolId in swept.pools {
      assert PoolInUse(swept, swept.listeners[l].poolId);
    }
  }

  /** If the pass creates pool j, the cloud gives it an id that the record does not have. */
  predicate NewId(t: Passage, j: nat) {
    && t.lb in t.begun.lbs && j < |t.pools|
    && (t.pools[j].id !in t.begun.lbs[t.lb].pools ==> !RecordsPool(t.begun.snap, t.pools[j].id))
  }

  /** The configuration sits on `lb`, where everything is in order. */
  predicate Settled(w: World, lb: Id) {
    && w.status.lbId == Some(lb) && lb in w.lbs && Sane(w.lbs[lb], w.status) && LbIntegrity(w.lbs[lb])
  }

  /** A whole pass over the spec that starts in `w`. */
  ghost predicate PassOver(cfg: Config, spec: Spec, w: World, t: Passage, after: World) {
    Passed(cfg, t, after) && Follows(t, w, spec)
  }

  /** Everything is in order, and the idle pool stands or is absent. */
  ghost predicate Flickering(spec: Spec, j: nat, w: World, lb: Id, standing: bool)
    requires j < |spec.pools|
  {
    Settled(w, lb) && if standing then Stands(spec, j, w.lbs[lb], w.status) else Absent(spec, j, w.lbs[lb])
  }

  predicate Even(k: nat) {
    k == 0 || !Even(k - 1)
  }

  /** One pass turns standing into absent and absent into standing. */
  lemma PassFlips(cfg: Config, spec: Spec, w: World, t: Passage, after: World, lb: Id, j: nat, standing: bool)
    requires SpecRegular(spec) && Idle(spec, j) && Flickering(spec, j, w, lb, standing)
    requires PassOver(cfg, spec, w, t, after) && NewId(t, j)
    ensures Flickering(spec, j, after, lb, !standing) && Fitting(spec, after.lbs[lb])
  {
    PassKeepsSane(cfg, t, after);
    if standing {
      var p :| p in w.lbs[lb].pools && w.lbs[lb].pools[p].name == spec.pools[j].name && RecordsPool(w.status, p)
            && w.lbs[lb].pools[p].groups == map[] && !PoolInUse(w.lbs[lb], p);
      assert !PoolInUse(t.begun.lbs[lb], p);
      assert Stands(spec, j, t.begun.lbs[lb], t.begun.snap);
      StandingIsSwept(cfg, t, after, j);
    } else {
      PassPhases(cfg, t, after);
      assert PoolExact(t.listened.lbs[lb].pools, spec.pools[j], t.pools[j]);
      AbsentIsCreated(cfg, t, after, j);
    }
  }

  /** Pass i of a row leads from state i to the next. */
  ghost predicate PassAt(cfg: Config, spec: Spec, ws: seq<World>, ts: seq<Passage>, j: nat, i: nat)
    requires i < |ts| && |ws| == |ts| + 1
  {
    PassOver(cfg, spec, ws[i], ts[i], ws[i + 1]) && NewId(ts[i], j)
  }

  /**
   A spec pool without groups and without a listener is never at rest: of passes in a row, every
   other one deletes it and every other one creates it again.
   */
  lemma {:induction false} EmptyPoolFlickers(
    cfg: Config, spec: Spec, ws: seq<World>, ts: seq<Passage>, lb: Id, j: nat, k: nat)
    requires |ws| == |ts| + 1 && k <= |ts|
    requires forall i :: 0 <= i < |ts| ==> PassAt(cfg, spec, ws, ts, j, i)
    requires SpecRegular(spec) && Idle(spec, j) && Flickering(spec, j, ws[0], lb, true)
    ensures Flickering(spec, j, ws[k], lb, Even(k))
    decreases k
  {
    if k > 0 {
      EmptyPoolFlickers(cfg, spec, ws, ts, lb, j, k - 1);
      FlipAt(cfg, spec, ws, ts, lb, j, k);
    }
  }

  lemma FlipAt(cfg: Config, spec: Spec, ws: seq<World>, ts: seq<Passage>, lb: Id, j: nat, k: nat)
    requires |ws| == |ts| + 1 && 0 < k <= |ts|
    requires SpecRegular(spec) && Idle(spec, j) && Flickering(spec, j, ws[k - 1], lb, Even(k - 1))
    requires PassAt(cfg, spec, ws, ts, j, k - 1)
    ensures Flickering(spec, j, ws[k], lb, Even(k))
  {
    var before := Even(k - 1);
    assert Even(k) == !before;
    PassFlips(cfg, spec, ws[k - 1], ts[k - 1], ws[k], lb, j, before);
  }

  // ----- Passes, and inputs on which they do this -----

  /** A pass over a spec that drops the listener. Without failing calls it runs to its end. */
  method PassForgets(c: Cloud, cfg: Config, spec: Spec, lb: Id, l: Id) returns (ok: bool)
    requires c.Valid() && Settled(c.w, lb) && lb != NO_ID && SpecRegular(spec) && l in c.w.lbs[lb].listeners
    requires RecordsListener(c.w.status, l) && !WantsPort(spec, c.w.lbs[lb].listeners[l].port)
    modifies c
    ensures ok ==> (Forgotten(c.w, lb, l) <==> Held(spec, old(c.w).status, old(c.w).lbs[lb], l))
    ensures !c.Faulty() && Fitting(spec, old(c.w).lbs[lb]) && (IsSet(spec.lbId) ==> spec.lbId == Some(lb)) ==> ok
  {
    ghost var t;
    ok, t := DeployPass.Deploy(c, cfg, spec);
    if ok {
      ForgottenExactlyWhen(cfg, t, c.w, l);
    }
  }

  /** The state between passes over a spec with an idle pool. */
  ghost predicate Between(spec: Spec, j: nat, w: World, lb: Id, standing: bool)
    requires j < |spec.pools|
  {
    Flickering(spec, j, w, lb, standing) && Fitting(spec, w.lbs[lb])
  }

  /** One pass over a spec with an idle pool; `known` says that the pool is known to stand or to be absent. */
  method PassFlicks(c: Cloud, cfg: Config, spec: Spec, lb: Id, j: nat, ghost standing: bool, ghost known: bool)
    returns (ok: bool, ghost t: Passage)
    requires c.Valid() && lb != NO_ID && SpecRegular(spec) && Idle(spec, j) && c.w.status.lbId == Some(lb)
    requires known ==> Between(spec, j, c.w, lb, standing)
    requires IsSet(spec.lbId) ==> spec.lbId == Some(lb)
    modifies c
    ensures c.Valid() && old(c.faults) <= c.faults
    ensures known && !ok ==> c.Faulty()
    ensures ok ==> PassOver(cfg, spec, old(c.w), t, c.w) && c.w.status.lbId == Some(lb)
    ensures ok && known && NewId(t, j) ==> Between(spec, j, c.w, lb, !standing)
  {
    ok, t := DeployPass.Deploy(c, cfg, spec);
    if ok && known && NewId(t, j) {
      PassFlips(cfg, spec, old(c.w), t, c.w, lb, j, standing);
    }
  }

  /** A pass that finds the idle pool standing takes it away. */
  method PassSweeps(c: Cloud, cfg: Config, spec: Spec, lb: Id, j: nat) returns (ok: bool)
    requires c.Valid() && lb != NO_ID && SpecRegular(spec) && Idle(spec, j) && Between(spec, j, c.w, lb, true)
    requires IsSet(spec.lbId) ==> spec.lbId == Some(lb)
    modifies c
    ensures (!ok ==> c.Faulty()) && (ok ==> lb in c.w.lbs && Absent(spec, j, c.w.lbs[lb]))
  {
    ghost var t;
    ok, t := DeployPass.Deploy(c, cfg, spec);
    if ok {
      SizeKeepsStanding(spec, j, old(c.w).lbs[lb], old(c.w).status);
      StandingIsSwept(cfg, t, c.w, j);
    }
  }

  lemma SizeKeepsStanding(spec: Spec, j: nat, lb: LB, st: Status)
    requires j < |spec.pools| && Stands(spec, j, lb, st)
    ensures Stands(spec, j, Resized(spec, lb), st)
  {
    var p :| p in lb.pools && lb.pools[p].name == spec.pools[j].name && RecordsPool(st, p)
          && lb.pools[p].groups == map[] && !PoolInUse(lb, p);
    assert !PoolInUse(Resized(spec, lb), p);
  }

  /** Each of the passages leads from one of the states to the next. */
  ghost predicate Row(cfg: Config, spec: Spec, ws: seq<World>, ts: seq<Passage>) {
    |ws| == |ts| + 1 && forall i :: 0 <= i < |ts| ==> PassOver(cfg, spec, ws[i], ts[i], ws[i + 1])
  }

  lemma RowNext(cfg: Config, spec: Spec, ws: seq<World>, ts: seq<Passage>, t: Passage, w: World)
    requires Row(cfg, spec, ws, ts) && PassOver(cfg, spec, ws[|ts|], t, w)
    ensures Row(cfg, spec, ws + [w], ts + [t])
  {
    var more, all := ws + [w], ts + [t];
    forall i | 0 <= i < |all| ensures PassOver(cfg, spec, more[i], all[i], more[i + 1]) {
      if i < |ts| {
        assert PassOver(cfg, spec, ws[i], ts[i], ws[i + 1]);
      }
    }
  }

  /** Whenever the cloud creates the pool, it gives it an id that the record does not have. */
  predicate AllNew(ts: seq<Passage>, j: nat) {
    forall i :: 0 <= i < |ts| ==> NewId(ts[i], j)
  }

  /** The states and passages so far, from `w0` to `w`. */
  ghost predicate Flicked(
    cfg: Config, spec: Spec, lb: Id, j: nat, w0: World, w: World, ws: seq<World>, ts: seq<Passage>)
    requires j < |spec.pools|
  {
    var all :=
      && Row(cfg, spec, ws, ts) && ws[0] == w0 && ws[|ts|] == w && w.status.lbId == Some(lb)
      && (AllNew(ts, j) ==> Between(spec, j, w, lb, Even(|ts|)));
    all
  }

  lemma FlickedNext(
    cfg: Config, spec: Spec, lb: Id, j: nat, w0: World, w: World, ws: seq<World>, ts: seq<Passage>, t: Passage,
    after: World)
    requires j < |spec.pools| && Flicked(cfg, spec, lb, j, w0, w, ws, ts) && PassOver(cfg, spec, w, t, after)
    requires after.status.lbId == Some(lb)
    requires AllNew(ts, j) && NewId(t, j) ==> Between(spec, j, after, lb, !Even(|ts|))
    ensures Flicked(cfg, spec, lb, j, w0, after, ws + [after], ts + [t])
  {
    RowNext(cfg, spec, ws, ts, t, after);
    AllNewNext(ts, t, j);
  }

  /**
   Passes over a spec with an idle pool that stands: gone after every other one, as long as the cloud
   does not give it an id that is on record. Without failing calls all of them run to their end.
   */
  method PassesFlicker(c: Cloud, cfg: Config, spec: Spec, lb: Id, j: nat, n: nat)
    returns (ghost ws: seq<World>, ghost ts: seq<Passage>)
    requires c.Valid() && lb != NO_ID && SpecRegular(spec) && Idle(spec, j) && Between(spec, j, c.w, lb, true)
    requires IsSet(spec.lbId) ==> spec.lbId == Some(lb)
    modifies c
    ensures Row(cfg, spec, ws, ts) && ws[0] == old(c.w) && |ts| <= n && (|ts| == n ==> ws[n] == c.w)
    ensures AllNew(ts, j) ==> (|ts| < n ==> c.Faulty()) && Between(spec, j, ws[|ts|], lb, Even(|ts|))
  {
    ws, ts := [c.w], [];
    for i := 0 to n
      invariant c.Valid() && old(c.faults) <= c.faults
      invariant |ts| == i && Flicked(cfg, spec, lb, j, old(c.w), c.w, ws, ts)
    {
      ghost var w, t := c.w, *;
      var ok;
      ok, t := PassFlicks(c, cfg, spec, lb, j, Even(i), AllNew(ts, j));
      if !ok {
        return;
      }
      FlickedNext(cfg, spec, lb, j, old(c.w), w, ws, ts, t, c.w);
      ws, ts := ws + [c.w], ts + [t];
    }
  }

  lemma AllNewNext(ts: seq<Passage>, t: Passage, j: nat)
    ensures AllNew(ts + [t], j) <==> AllNew(ts, j) && NewId(t, j)
    ensures Even(|ts| + 1) == !Even(|ts|)
  {
    var all := ts + [t];
    if AllNew(all, j) {
      forall i | 0 <= i < |ts| ensures NewId(ts[i], j) {
        assert all[i] == ts[i];
      }
      assert NewId(all[|ts|], j);
    }
  }

  /** One of them. */
  method PassResends(c: Cloud, cfg: Config, spec: Spec, lb: Id) returns (ok: bool)
    requires c.Valid() && lb != NO_ID && SpecRegular(spec) && Settled(c.w, lb) && Fitting(spec, c.w.lbs[lb])
    requires (IsSet(spec.lbId) ==> spec.lbId == Some(lb)) && Pools.DialsOff(c.w.lbs[lb].pools, spec.pools)
    modifies c
    ensures c.Valid() && old(c.faults) <= c.faults && (!ok ==> c.Faulty())
    ensures old(c.calls) <= c.calls && (ok ==> c.calls > old(c.calls))
    ensures ok ==> Settled(c.w, lb) && Fitting(spec, c.w.lbs[lb]) && Pools.DialsOff(c.w.lbs[lb].pools, spec.pools)
  {
    ghost var t;
    ok, t := DeployPass.Deploy(c, cfg, spec);
    if ok {
      PassKeepsSane(cfg, t, c.w);
      PassKeepsDialsOff(cfg, t, c.w);
    }
  }

  /**
   Passes over a spec that asks for another traffic dial than a live group has: each of them sends a
   write, and the dial is off after each. Without failing calls all of them run to their end.
   */
  method PassesResend(c: Cloud, cfg: Config, spec: Spec, lb: Id, n: nat) returns (done: nat)
    requires c.Valid() && lb != NO_ID && SpecRegular(spec) && Settled(c.w, lb) && Fitting(spec, c.w.lbs[lb])
    requires (IsSet(spec.lbId) ==> spec.lbId == Some(lb)) && !AllDialsAgree(spec, c.w.lbs[lb].pools)
    modifies c
    ensures done <= n && (done < n ==> c.Faulty()) && c.calls >= old(c.calls) + done
    ensures done == n ==> Settled(c.w, lb) && !AllDialsAgree(spec, c.w.lbs[lb].pools)
  {
    done := 0;
    DialsOffExactlyWhen(spec, c.w.lbs[lb].pools);
    while done < n
      invariant c.Valid() && old(c.faults) <= c.faults && done <= n && c.calls >= old(c.calls) + done
      invariant Settled(c.w, lb) && Fitting(spec, c.w.lbs[lb]) && Pools.DialsOff(c.w.lbs[lb].pools, spec.pools)
    {
      var ok := PassResends(c, cfg, spec, lb);
      if !ok {
        return;
      }
      done := done + 1;
    }
    DialsOffExactlyWhen(spec, c.w.lbs[lb].pools);
  }

  // A spec that lists one pool without groups and no listener, and a load balancer with that pool.
  const ONE_POOL: Spec := Spec("lb", None, None, [],
    [PoolSpec("p", "TCP", None, HealthSpec(TCP, None, None, None, None, None, None, None, None, None), [])])
  const EMPTY_POOL: Pool := Pool("p", "TCP", "RR", Health(TCP, 1, 1, 1, 1, None, None, None, None, None), map[])
  const ON_PORT_80: Listener := Listener("l", "TCP", 80, "p1", 1, 1, 1, "", None)

  function Example(listeners: map<Id, Listener>, records: seq<CreatedListener>): World {
    World(map["lb1" := LB("lb", "", listeners, map["p1" := EMPTY_POOL])],
          Status(Some("lb1"), records, [CreatedPool("p1", "p", [])]), ONE_POOL, Status(None, [], []), false, {}, None)
  }

  lemma ExampleIsSettled(listeners: map<Id, Listener>, records: seq<CreatedListener>)
    requires listeners == map[] || listeners == map["l1" := ON_PORT_80]
    requires records == [] || records == [CreatedListener("l1", 80, "l")]
    ensures Settled(Example(listeners, records), "lb1") && SpecRegular(ONE_POOL)
    ensures Fitting(ONE_POOL, Example(listeners, records).lbs["lb1"])
            && RecordsPool(Example(listeners, records).status, "p1")
  {
    var w := Example(listeners, records);
    assert w.status.pools[0].id == "p1";
  }

  /** The listener on port 80 was dropped from the spec, its pool was not: it is left live and forgotten. */
  method ForgottenExample(c: Cloud, cfg: Config) returns (ok: bool)
    requires c.Valid() && c.w == Example(map["l1" := ON_PORT_80], [CreatedListener("l1", 80, "l")])
    modifies c
    ensures (ok ==> Forgotten(c.w, "lb1", "l1")) && (!ok ==> c.Faulty())
  {
    ExampleIsSettled(map["l1" := ON_PORT_80], [CreatedListener("l1", 80, "l")]);
    assert c.w.status.listeners[0].id == "l1" && ONE_POOL.pools[0].name == "p";
    assert WantsPool(ONE_POOL, "p");
    ok := PassForgets(c, cfg, ONE_POOL, "lb1", "l1");
  }

  /** The pool alone, on record and standing: the pass takes it away, although the spec lists it. */
  method FlickerExample(c: Cloud, cfg: Config) returns (ok: bool)
    requires c.Valid() && c.w == Example(map[], [])
    modifies c
    ensures (!ok ==> c.Faulty()) && (ok ==> "lb1" in c.w.lbs && Absent(ONE_POOL, 0, c.w.lbs["lb1"]))
  {
    ExampleIsSettled(map[], []);
    assert "p1" in c.w.lbs["lb1"].pools && !PoolInUse(c.w.lbs["lb1"], "p1");
    assert Stands(ONE_POOL, 0, c.w.lbs["lb1"], c.w.status);
    ok := PassSweeps(c, cfg, ONE_POOL, "lb1", 0);
  }
}
