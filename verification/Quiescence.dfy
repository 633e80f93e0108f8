/**
 Quiescence: on a load balancer the configuration has settled on, two successful passes over the
 same spec leave nothing for a third to do.
 */
module Quiescence {
  import opened GlbTypes
  import opened Equality
  import opened Members
  import opened Text
  import opened Diffs
  import opened Protocol
  import opened CloudApi
  import opened Growth
  import opened StatusRecord
  import opened DeployPoolMember
  import opened DeployPool
  import opened DeployListener
  import opened DeployLb
  import opened DeployPass
  import DL = DeleteListener
  import DP = DeletePool
  import Pools = PoolPhase
  import Listeners = ListenerPhase

  // ----- What one deployment does to a pool, seen from the spec -----

  predicate KeysReached(sp: PoolSpec, pool: Pool) {
    forall g, k :: g in pool.groups && 0 <= k < |sp.groups| && pool.groups[g].name == sp.groups[k].name ==>
      LiveKeys(pool.groups[g].members) == Keys(sp.groups[k].members)
  }

  /** One more update settles the pool's own fields. */
  predicate Near(sp: PoolSpec, pool: Pool) {
    PoolAgrees(sp, PoolWanted(sp, pool))
  }

  /** Every live member of the spec's groups is on record. */
  predicate MembersRecorded(st: Status, id: Id, sp: PoolSpec, pool: Pool) {
    forall g, k :: g in pool.groups && 0 <= k < |sp.groups| && pool.groups[g].name == sp.groups[k].name ==>
      LiveKeys(pool.groups[g].members) <= Keys(RecordedMembers(st, id, g))
  }

  lemma FromSpecIs(specs: seq<GroupSpec>, g: Group, k: nat)
    requires DistinctGroups(specs) && k < |specs| && FromSpec(specs, g) && g.name == specs[k].name
    ensures g == NewGroup(specs[k])
  {
    var j :| 0 <= j < |specs| && g == NewGroup(specs[j]);
    assert specs[j].name == specs[k].name;
  }

  lemma StepIsNear(cfg: Config, st: Status, sp: PoolSpec, id: Id, before: map<Id, Pool>, after: map<Id, Pool>)
    requires PoolStepped(cfg, st, sp, id, before, after)
    ensures Near(sp, after[id])
  {
    if id in before {
      if PoolAgrees(sp, before[id]) {
        PoolAgreesIsFixed(sp, after[id]);
      } else {
        PoolDiffClosesInTwo(sp, before[id]);
      }
    } else {
      PoolAgreesIsFixed(sp, after[id]);
    }
  }

  lemma SteppedKeepsName(
    st: Status, pool: Id, before: map<Id, Group>, specs: seq<GroupSpec>, after: map<Id, Group>, g: Id)
    requires GroupsStepped(st, pool, before, specs, after) && g in before
    ensures after[g].name == before[g].name && after[g].trafficDial == before[g].trafficDial
  {
    if ListsGroup(specs, before[g].name) {
      var k :| 0 <= k < |specs| && specs[k].name == before[g].name;
    }
  }

  lemma StepKeepsDials(cfg: Config, st: Status, sp: PoolSpec, id: Id, before: map<Id, Pool>, after: map<Id, Pool>)
    requires PoolStepped(cfg, st, sp, id, before, after) && DistinctGroups(sp.groups)
    requires id in before ==> DialsAgree(sp, before[id])
    ensures DialsAgree(sp, after[id])
  {
    forall g, k | g in after[id].groups && 0 <= k < |sp.groups| && after[id].groups[g].name == sp.groups[k].name
      ensures Agrees(sp.groups[k].trafficDial, after[id].groups[g].trafficDial)
    {
      if id in before && g in before[id].groups {
        SteppedKeepsName(st, id, before[id].groups, sp.groups, after[id].groups, g);
      } else {
        FromSpecIs(sp.groups, after[id].groups[g], k);
      }
    }
  }

  /** A step from a state whose members are all on record reaches exactly the spec's addresses. */
  lemma StepReaches(cfg: Config, st: Status, sp: PoolSpec, id: Id, before: map<Id, Pool>, after: map<Id, Pool>)
    requires PoolStepped(cfg, st, sp, id, before, after) && DistinctGroups(sp.groups)
    requires id in before && Near(sp, before[id]) && MembersRecorded(st, id, sp, before[id])
    ensures PoolAgrees(sp, after[id]) && KeysReached(sp, after[id])
  {
    forall g, k | g in after[id].groups && 0 <= k < |sp.groups| && after[id].groups[g].name == sp.groups[k].name
      ensures LiveKeys(after[id].groups[g].members) == Keys(sp.groups[k].members)
    {
      if g in before[id].groups {
        SteppedKeepsName(st, id, before[id].groups, sp.groups, after[id].groups, g);
        NextKeys(RecordedMembers(st, id, g), before[id].groups[g].members, sp.groups[k].members);
      } else {
        FromSpecIs(sp.groups, after[id].groups[g], k);
        RequestKeys(sp.groups[k].members);
      }
    }
  }

  // ----- Fit inputs -----

  predicate Targeted(spec: Spec, name: string) {
    exists j :: 0 <= j < |spec.listeners| && spec.listeners[j].defaultPoolName == Some(name) && name != ""
  }

  /** Nothing twice, headers that survive their encoding, and no pool that is both empty and unused. */
  predicate Fit(spec: Spec) {
    && SpecRegular(spec)
    && (forall j :: 0 <= j < |spec.listeners| ==> HeadersRoundTrip(spec.listeners[j].headers))
    && (forall i :: 0 <= i < |spec.pools| ==> spec.pools[i].groups != [] || Targeted(spec, spec.pools[i].name))
  }

  predicate Sane(lb: LB, st: Status) {
    && PoolsRegular(lb.pools) && UniquePorts(lb.listeners)
    && Tidy(st.pools) && DistinctListenerIds(st.listeners)
  }

  // ----- What the sweep leaves of the spec -----

  lemma ExactIdsDistinct(live: map<Id, Pool>, specs: seq<PoolSpec>, pools: seq<CreatedPool>)
    requires ExactPools(live, specs, pools) && DistinctPools(specs)
    ensures DistinctPoolIds(pools)
  {
    forall i, j | 0 <= i < j < |pools| ensures pools[i].id != pools[j].id {
      assert PoolExact(live, specs[i], pools[i]) && PoolExact(live, specs[j], pools[j]);
    }
  }

  lemma {:induction false} FindDistinct(pools: seq<CreatedPool>, j: nat)
    requires DistinctPoolIds(pools) && j < |pools|
    ensures FindPool(pools, pools[j].id) == Some(pools[j])
  {
    if j > 0 {
      assert pools[1..][j - 1] == pools[j];
      FindDistinct(pools[1..], j - 1);
    }
  }

  lemma {:induction false} FindByName(pools: seq<CreatedPool>, j: nat)
    requires j < |pools| && forall i :: 0 <= i < j ==> pools[i].name != pools[j].name
    ensures PoolIdByName(pools, pools[j].name) == pools[j].id
  {
    if j > 0 {
      assert pools[1..][j - 1] == pools[j];
      FindByName(pools[1..], j - 1);
    }
  }

  /** A pool the spec targets is used by a listener that the pass has built. */
  lemma TargetInUse(
    spec: Spec, lb: LB, listeners: seq<CreatedListener>, pools: seq<CreatedPool>, i: nat)
    requires DistinctPools(spec.pools) && i < |spec.pools| && Targeted(spec, spec.pools[i].name)
    requires ExactPools(lb.pools, spec.pools, pools)
    requires Listeners.AllExact(lb.listeners, spec.listeners, listeners)
    requires Listeners.AllAgree(lb.listeners, spec.listeners, listeners, pools)
    ensures exists j :: 0 <= j < |listeners| && listeners[j].id in lb.listeners
                     && lb.listeners[listeners[j].id].poolId == pools[i].id
  {
    var j :| 0 <= j < |spec.listeners| && spec.listeners[j].defaultPoolName == Some(spec.pools[i].name)
          && spec.pools[i].name != "";
    forall m | 0 <= m <= i ensures pools[m].name == spec.pools[m].name {
      assert PoolExact(lb.pools, spec.pools[m], pools[m]);
    }
    FindByName(pools, i);
    assert ListenerExact(lb.listeners, spec.listeners[j], listeners[j]);
    assert lb.listeners[listeners[j].id].poolId == pools[i].id;
  }

  /** `b` is `a` without some of its groups, none of those the spec names. */
  predicate OnlyLost(a: Pool, b: Pool, sp: PoolSpec) {
    && b == a.(groups := b.groups)
    && (forall g :: g in b.groups ==> g in a.groups && b.groups[g] == a.groups[g])
    && (forall g :: g in a.groups && ListsGroup(sp.groups, a.groups[g].name) ==> g in b.groups)
  }

  lemma TrimKeepsSpec(st: Status, live: map<Id, Pool>, sp: PoolSpec, pools: seq<CreatedPool>, r: CreatedPool)
    requires PoolExact(live, sp, r) && FindPool(pools, r.id) == Some(r)
    ensures OnlyLost(live[r.id], DP.Trimmed(st, r.id, live[r.id], pools), sp)
    ensures sp.groups != [] ==> DP.Redundant(st, r.id, live[r.id].groups, pools) != live[r.id].groups.Keys
  {
    var groups := live[r.id].groups;
    forall g | g in groups && ListsGroup(sp.groups, groups[g].name) ensures groups[g].name in DP.NewNames(pools, r.id) {
      var k :| 0 <= k < |sp.groups| && sp.groups[k].name == groups[g].name;
      assert GroupExact(groups, sp.groups[k].name, r.groups[k]);
      assert r.groups[k] in r.groups;
    }
    if sp.groups != [] {
      assert GroupExact(groups, sp.groups[0].name, r.groups[0]);
      assert ListsGroup(sp.groups, groups[r.groups[0].id].name);
      assert r.groups[0].id !in DP.Redundant(st, r.id, groups, pools);
    }
  }

  /** The sweep takes nothing of the spec: its listeners stay, and its pools lose only unlisted groups. */
  lemma SweepKeepsPool(
    st: Status, spec: Spec, lb: LB, listeners: seq<CreatedListener>, pools: seq<CreatedPool>, i: nat)
    requires DistinctPools(spec.pools) && i < |spec.pools| && ExactPools(lb.pools, spec.pools, pools)
    requires spec.pools[i].groups != [] || Targeted(spec, spec.pools[i].name)
    requires Listeners.AllExact(lb.listeners, spec.listeners, listeners)
    requires Listeners.AllAgree(lb.listeners, spec.listeners, listeners, pools)
    ensures var after := Swept(st, lb, listeners, pools);
            pools[i].id in after.pools && OnlyLost(lb.pools[pools[i].id], after.pools[pools[i].id], spec.pools[i])
  {
    var one := lb.(listeners := DL.SweptListeners(st, lb, listeners, pools));
    assert PoolExact(lb.pools, spec.pools[i], pools[i]);
    ExactIdsDistinct(lb.pools, spec.pools, pools);
    FindDistinct(pools, i);
    TrimKeepsSpec(st, lb.pools, spec.pools[i], pools, pools[i]);
    if spec.pools[i].groups == [] {
      TargetInUse(spec, lb, listeners, pools, i);
      var j :| 0 <= j < |listeners| && listeners[j].id in lb.listeners
            && lb.listeners[listeners[j].id].poolId == pools[i].id;
      assert ListedListener(listeners, listeners[j].id);
      assert listeners[j].id in one.listeners;
      assert PoolInUse(one, pools[i].id);
    }
  }

  lemma LostKeepsExact(a: Pool, b: Pool, sp: PoolSpec, r: CreatedPool)
    requires OnlyLost(a, b, sp) && GroupsExact(a.groups, sp.groups, r.groups)
    ensures GroupsExact(b.groups, sp.groups, r.groups)
  {
    forall k | 0 <= k < |sp.groups| ensures GroupExact(b.groups, sp.groups[k].name, r.groups[k]) {
      assert GroupExact(a.groups, sp.groups[k].name, r.groups[k]);
      assert ListsGroup(sp.groups, a.groups[r.groups[k].id].name);
    }
  }

  lemma SweepKeepsListeners(
    st: Status, spec: Spec, lb: LB, listeners: seq<CreatedListener>, pools: seq<CreatedPool>)
    requires Listeners.AllExact(lb.listeners, spec.listeners, listeners)
    requires Listeners.AllAgree(lb.listeners, spec.listeners, listeners, pools)
    ensures var after := Swept(st, lb, listeners, pools).listeners;
            && Listeners.AllExact(after, spec.listeners, listeners)
            && Listeners.AllAgree(after, spec.listeners, listeners, pools)
  {
    var after := Swept(st, lb, listeners, pools).listeners;
    forall j | 0 <= j < |listeners| ensures listeners[j].id in after && after[listeners[j].id] == lb.listeners[listeners[j].id] {
      assert ListenerExact(lb.listeners, spec.listeners[j], listeners[j]);
      assert ListedListener(listeners, listeners[j].id);
    }
    forall j | 0 <= j < |listeners| ensures ListenerExact(after, spec.listeners[j], listeners[j]) {
      assert ListenerExact(lb.listeners, spec.listeners[j], listeners[j]);
    }
  }

  lemma SweepKeepsSane(st: Status, lb: LB, listeners: seq<CreatedListener>, pools: seq<CreatedPool>)
    requires PoolsRegular(lb.pools) && UniquePorts(lb.listeners)
    ensures var after := Swept(st, lb, listeners, pools);
            PoolsRegular(after.pools) && UniquePorts(after.listeners)
  {
    var after := Swept(st, lb, listeners, pools);
    forall p | p in after.pools
      ensures p in lb.pools && after.pools[p].name == lb.pools[p].name
      ensures forall g :: g in after.pools[p].groups ==>
                g in lb.pools[p].groups && after.pools[p].groups[g] == lb.pools[p].groups[g]
    {
    }
    forall p | p in after.pools
      ensures UniqueGroups(after.pools[p].groups) && MembersOnce(after.pools[p].groups)
    {
      assert UniqueGroups(lb.pools[p].groups) && MembersOnce(lb.pools[p].groups);
    }
  }

  // ----- The state a successful pass leaves -----

  /** The spec stands on the load balancer, and the status records it as it stands. */
  ghost predicate Built(spec: Spec, lb: LB, st: Status, listeners: seq<CreatedListener>, pools: seq<CreatedPool>) {
    && Fit(spec) && Sane(lb, st)
    && ExactPools(lb.pools, spec.pools, pools)
    && Listeners.AllExact(lb.listeners, spec.listeners, listeners)
    && Listeners.AllAgree(lb.listeners, spec.listeners, listeners, pools)
    && SlicesEqual(st.listeners, listeners) && PoolsEqual(st.pools, pools)
  }

  lemma ExactIsTidyRecord(live: map<Id, Pool>, specs: seq<PoolSpec>, pools: seq<CreatedPool>)
    requires ExactPools(live, specs, pools) && DistinctPools(specs) && PoolsRegular(live)
    requires forall i :: 0 <= i < |specs| ==> DistinctGroups(specs[i].groups)
    ensures Tidy(pools)
  {
    ExactIdsDistinct(live, specs, pools);
    forall i | 0 <= i < |pools| ensures TidyGroups(pools[i].groups) {
      assert PoolExact(live, specs[i], pools[i]);
      ExactIsTidy(live[pools[i].id].groups, specs[i].groups, pools[i].groups);
    }
  }

  lemma ExactListenerIds(live: map<Id, Listener>, specs: seq<ListenerSpec>, listeners: seq<CreatedListener>)
    requires Listeners.AllExact(live, specs, listeners) && DistinctPorts(specs)
    ensures DistinctListenerIds(listeners)
  {
    forall i, j | 0 <= i < j < |listeners| ensures listeners[i].id != listeners[j].id {
      assert ListenerExact(live, specs[i], listeners[i]) && ListenerExact(live, specs[j], listeners[j]);
    }
  }

  /** Before the sweep: what the two phases have established. */
  lemma PhasesBuild(cfg: Config, t: Passage, after: World)
    requires Passed(cfg, t, after) && SpecRegular(t.begun.spec) && Sane(t.begun.lbs[t.lb], t.begun.status)
    ensures var lb, spec := t.listened.lbs[t.lb], t.begun.spec;
            && lb.pools == t.pooled.lbs[t.lb].pools && ExactPools(lb.pools, spec.pools, t.pools)
            && PoolsRegular(lb.pools) && UniquePorts(lb.listeners)
            && Listeners.AllExact(lb.listeners, spec.listeners, t.listeners)
            && Listeners.AllAgree(lb.listeners, spec.listeners, t.listeners, t.pools)
            && Tidy(t.listened.status.pools) && DistinctListenerIds(t.listened.status.listeners)
  {
    assert t.begun.spec.pools[..|t.begun.spec.pools|] == t.begun.spec.pools;
    assert t.begun.spec.listeners[..|t.begun.spec.listeners|] == t.begun.spec.listeners;
  }

  lemma SweepKeepsExact(
    st: Status, spec: Spec, lb: LB, listeners: seq<CreatedListener>, pools: seq<CreatedPool>)
    requires Fit(spec) && ExactPools(lb.pools, spec.pools, pools)
    requires Listeners.AllExact(lb.listeners, spec.listeners, listeners)
    requires Listeners.AllAgree(lb.listeners, spec.listeners, listeners, pools)
    ensures ExactPools(Swept(st, lb, listeners, pools).pools, spec.pools, pools)
  {
    var after := Swept(st, lb, listeners, pools).pools;
    forall i | 0 <= i < |pools| ensures PoolExact(after, spec.pools[i], pools[i]) {
      SweepKeepsPool(st, spec, lb, listeners, pools, i);
      assert PoolExact(lb.pools, spec.pools[i], pools[i]);
      LostKeepsExact(lb.pools[pools[i].id], after[pools[i].id], spec.pools[i], pools[i]);
    }
  }

  lemma RecordIsSane(
    spec: Spec, lb: LB, before: Status, st: Status, listeners: seq<CreatedListener>, pools: seq<CreatedPool>)
    requires SpecRegular(spec) && ExactPools(lb.pools, spec.pools, pools) && PoolsRegular(lb.pools)
    requires Listeners.AllExact(lb.listeners, spec.listeners, listeners)
    requires Tidy(before.pools) && DistinctListenerIds(before.listeners) && Recorded(st, listeners, pools)
    requires SameRecords(st, before) || (st.listeners == listeners && st.pools == pools)
    ensures Tidy(st.pools) && DistinctListenerIds(st.listeners)
    ensures SlicesEqual(st.listeners, listeners) && PoolsEqual(st.pools, pools)
  {
    ExactIsTidyRecord(lb.pools, spec.pools, pools);
    ExactListenerIds(lb.listeners, spec.listeners, listeners);
    PoolsEqualReflexive(pools);
  }

  lemma PassBuilds(cfg: Config, t: Passage, after: World)
    requires Passed(cfg, t, after) && Fit(t.begun.spec) && Sane(t.begun.lbs[t.lb], t.begun.status)
    ensures t.lb in after.lbs && Built(t.begun.spec, after.lbs[t.lb], after.status, t.listeners, t.pools)
  {
    var lb, spec := t.listened.lbs[t.lb], t.begun.spec;
    PhasesBuild(cfg, t, after);
    SweepKeepsExact(t.listened.snap, spec, lb, t.listeners, t.pools);
    SweepKeepsListeners(t.listened.snap, spec, lb, t.listeners, t.pools);
    SweepKeepsSane(t.listened.snap, lb, t.listeners, t.pools);
    RecordIsSane(spec, lb, t.listened.status, after.status, t.listeners, t.pools);
  }

  // ----- The record covers every live member -----

  lemma {:induction false} FindGroupDistinct(groups: seq<CreatedGroup>, m: nat)
    requires DistinctGroupIds(groups) && m < |groups|
    ensures FindGroup(groups, groups[m].id) == Some(groups[m])
  {
    if m > 0 {
      assert groups[1..][m - 1] == groups[m];
      FindGroupDistinct(groups[1..], m - 1);
    }
  }

  lemma SameMultisetKeys(a: seq<Member>, b: seq<Member>)
    requires multiset(a) == multiset(b)
    ensures Keys(a) == Keys(b)
  {
    PermutationSameElements(a, b);
  }

  /** A record equal to what was built, in whatever order, names every live member of the spec's groups. */
  lemma BuiltIsRecorded(
    spec: Spec, lb: LB, st: Status, listeners: seq<CreatedListener>, pools: seq<CreatedPool>, j: nat)
    requires Built(spec, lb, st, listeners, pools) && j < |spec.pools|
    ensures MembersRecorded(st, pools[j].id, spec.pools[j], lb.pools[pools[j].id])
  {
    var sp, id := spec.pools[j], pools[j].id;
    assert PoolExact(lb.pools, sp, pools[j]);
    var groups := lb.pools[id].groups;
    var i := EqualPoolsCover(st.pools, pools, j);
    FindDistinct(st.pools, i);
    forall g, k | g in groups && 0 <= k < |sp.groups| && groups[g].name == sp.groups[k].name
      ensures LiveKeys(groups[g].members) <= Keys(RecordedMembers(st, id, g))
    {
      assert GroupExact(groups, sp.groups[k].name, pools[j].groups[k]) && pools[j].groups[k].id == g;
      var m := EqualGroupsCover(st.pools[i].groups, pools[j].groups, k);
      FindGroupDistinct(st.pools[i].groups, m);
      SameMultisetKeys(st.pools[i].groups[m].members, pools[j].groups[k].members);
      ConvertKeys(groups[g].members);
    }
  }

  // ----- What each pass brings the pools to -----

  lemma LostKeeps(a: Pool, b: Pool, sp: PoolSpec)
    requires OnlyLost(a, b, sp)
    ensures Near(sp, a) ==> Near(sp, b)
    ensures PoolAgrees(sp, a) ==> PoolAgrees(sp, b)
    ensures DialsAgree(sp, a) ==> DialsAgree(sp, b)
    ensures KeysReached(sp, a) ==> KeysReached(sp, b)
  {
  }

  /** The pool of spec j after the pool phase, with the step it made; the sweep takes only unlisted groups from it. */
  lemma PassStep(cfg: Config, t: Passage, after: World, j: nat)
    requires Passed(cfg, t, after) && SpecRegular(t.begun.spec) && Sane(t.begun.lbs[t.lb], t.begun.status)
    requires j < |t.begun.spec.pools|
    requires t.begun.spec.pools[j].groups != [] || Targeted(t.begun.spec, t.begun.spec.pools[j].name)
    ensures var sp, id := t.begun.spec.pools[j], t.pools[j].id;
            && Grows(t.begun.lbs, t.pooled.lbs, t.lb) && t.lb in after.lbs && UniquePools(t.pooled.lbs[t.lb].pools)
            && PoolExact(t.pooled.lbs[t.lb].pools, sp, t.pools[j])
            && PoolStepped(cfg, t.begun.snap, sp, id, t.begun.lbs[t.lb].pools, t.pooled.lbs[t.lb].pools)
            && id in after.lbs[t.lb].pools
            && OnlyLost(t.pooled.lbs[t.lb].pools[id], after.lbs[t.lb].pools[id], sp)
  {
    assert t.begun.spec.pools[..|t.begun.spec.pools|] == t.begun.spec.pools;
    PhasesBuild(cfg, t, after);
    SweepKeepsPool(t.listened.snap, t.begun.spec, t.listened.lbs[t.lb], t.listeners, t.pools, j);
  }

  /** Every pool of the spec is one update away from agreeing, with the dials it asks for. */
  predicate AllNear(spec: Spec, live: map<Id, Pool>, pools: seq<CreatedPool>)
    requires ExactPools(live, spec.pools, pools)
  {
    forall j :: 0 <= j < |spec.pools| ==>
      PoolExact(live, spec.pools[j], pools[j]) &&
      Near(spec.pools[j], live[pools[j].id]) && DialsAgree(spec.pools[j], live[pools[j].id])
  }

  /** Every pool of the spec agrees with it, down to the addresses of its members. */
  predicate AllReached(spec: Spec, live: map<Id, Pool>, pools: seq<CreatedPool>)
    requires ExactPools(live, spec.pools, pools)
  {
    forall j :: 0 <= j < |spec.pools| ==>
      PoolExact(live, spec.pools[j], pools[j]) &&
      PoolAgrees(spec.pools[j], live[pools[j].id]) && DialsAgree(spec.pools[j], live[pools[j].id])
      && KeysReached(spec.pools[j], live[pools[j].id])
  }

  lemma FirstPass(cfg: Config, t: Passage, after: World)
    requires Passed(cfg, t, after) && Fit(t.begun.spec) && Sane(t.begun.lbs[t.lb], t.begun.status)
    requires AllDialsAgree(t.begun.spec, t.begun.lbs[t.lb].pools)
    ensures t.lb in after.lbs && Built(t.begun.spec, after.lbs[t.lb], after.status, t.listeners, t.pools)
    ensures AllNear(t.begun.spec, after.lbs[t.lb].pools, t.pools)
  {
    PassBuilds(cfg, t, after);
    var spec, live := t.begun.spec, after.lbs[t.lb].pools;
    forall j | 0 <= j < |spec.pools|
      ensures PoolExact(live, spec.pools[j], t.pools[j])
      ensures Near(spec.pools[j], live[t.pools[j].id]) && DialsAgree(spec.pools[j], live[t.pools[j].id])
    {
      var sp, id := spec.pools[j], t.pools[j].id;
      var before, pooled := t.begun.lbs[t.lb].pools, t.pooled.lbs[t.lb].pools;
      PassStep(cfg, t, after, j);
      if id in before {
        assert before[id].name == sp.name;
      }
      StepIsNear(cfg, t.begun.snap, sp, id, before, pooled);
      StepKeepsDials(cfg, t.begun.snap, sp, id, before, pooled);
      LostKeeps(pooled[id], live[id], sp);
    }
  }

  lemma SamePool(a: map<Id, LB>, b: map<Id, LB>, lb: Id, sp: PoolSpec, r: CreatedPool, id: Id)
    requires Grows(a, b, lb) && lb in a && PoolExact(a[lb].pools, sp, r) && UniquePools(b[lb].pools)
    requires id in b[lb].pools && b[lb].pools[id].name == sp.name
    ensures id == r.id
  {
    assert r.id in b[lb].pools && b[lb].pools[r.id].name == sp.name;
  }

  /** A pass that starts from a built and recorded state reaches the spec. */
  lemma SecondPass(
    cfg: Config, t: Passage, after: World, listeners: seq<CreatedListener>, pools: seq<CreatedPool>)
    requires Passed(cfg, t, after)
    requires Built(t.begun.spec, t.begun.lbs[t.lb], t.begun.snap, listeners, pools)
    requires SameRecords(t.begun.status, t.begun.snap)
    requires AllNear(t.begun.spec, t.begun.lbs[t.lb].pools, pools)
    ensures t.lb in after.lbs && Built(t.begun.spec, after.lbs[t.lb], after.status, t.listeners, t.pools)
    ensures AllReached(t.begun.spec, after.lbs[t.lb].pools, t.pools)
  {
    PassBuilds(cfg, t, after);
    PhasesBuild(cfg, t, after);
    var spec, live := t.begun.spec, after.lbs[t.lb].pools;
    forall j | 0 <= j < |spec.pools|
      ensures PoolExact(live, spec.pools[j], t.pools[j])
      ensures PoolAgrees(spec.pools[j], live[t.pools[j].id]) && DialsAgree(spec.pools[j], live[t.pools[j].id])
      ensures KeysReached(spec.pools[j], live[t.pools[j].id])
    {
      var sp, id := spec.pools[j], t.pools[j].id;
      var before, pooled := t.begun.lbs[t.lb].pools, t.pooled.lbs[t.lb].pools;
      PassStep(cfg, t, after, j);
      SamePool(t.begun.lbs, t.pooled.lbs, t.lb, sp, pools[j], id);
      BuiltIsRecorded(spec, t.begun.lbs[t.lb], t.begun.snap, listeners, pools, j);
      StepReaches(cfg, t.begun.snap, sp, id, before, pooled);
      StepKeepsDials(cfg, t.begun.snap, sp, id, before, pooled);
      LostKeeps(pooled[id], live[id], sp);
    }
  }

  // ----- A state that has reached the spec is still -----

  lemma ExactGroupsUnique(groups: map<Id, Group>, specs: seq<GroupSpec>, a: seq<CreatedGroup>, b: seq<CreatedGroup>)
    requires UniqueGroups(groups) && GroupsExact(groups, specs, a) && GroupsExact(groups, specs, b)
    ensures a == b
  {
    forall k | 0 <= k < |specs| ensures a[k] == b[k] {
      assert GroupExact(groups, specs[k].name, a[k]) && GroupExact(groups, specs[k].name, b[k]);
    }
  }

  lemma ExactPoolsUnique(live: map<Id, Pool>, specs: seq<PoolSpec>, a: seq<CreatedPool>, b: seq<CreatedPool>)
    requires UniquePools(live) && ExactPools(live, specs, a) && ExactPools(live, specs, b)
    ensures a == b
  {
    forall j | 0 <= j < |specs| ensures a[j] == b[j] {
      assert PoolExact(live, specs[j], a[j]) && PoolExact(live, specs[j], b[j]);
      ExactGroupsUnique(live[a[j].id].groups, specs[j].groups, a[j].groups, b[j].groups);
    }
  }

  lemma ExactListenersUnique(
    live: map<Id, Listener>, specs: seq<ListenerSpec>, a: seq<CreatedListener>, b: seq<CreatedListener>)
    requires UniquePorts(live) && Listeners.AllExact(live, specs, a) && Listeners.AllExact(live, specs, b)
    ensures a == b
  {
    forall j | 0 <= j < |specs| ensures a[j] == b[j] {
      assert ListenerExact(live, specs[j], a[j]) && ListenerExact(live, specs[j], b[j]);
    }
  }

  /** Each pool of a state that has reached the spec needs nothing. */
  lemma ReachedIsQuiet(
    spec: Spec, w: World, lb: Id, listeners: seq<CreatedListener>, pools: seq<CreatedPool>, j: nat)
    requires lb in w.lbs && w.spec == spec && j < |spec.pools|
    requires Built(spec, w.lbs[lb], w.status, listeners, pools) && AllReached(spec, w.lbs[lb].pools, pools)
    ensures HasQuietPool(w, lb, spec.pools[j])
  {
    var sp, id := spec.pools[j], pools[j].id;
    assert PoolExact(w.lbs[lb].pools, sp, pools[j]);
    var groups := w.lbs[lb].pools[id].groups;
    Pools.ExactIsLive(w.lbs[lb].pools, sp, pools[j]);
    forall g, k | g in groups && 0 <= k < |sp.groups| && groups[g].name == sp.groups[k].name
      ensures Settled(groups[g], sp.groups[k], RecordedMembers(w.snap, id, g))
    {
      NoUpdateExactlyWhen(groups[g], sp.groups[k], RecordedMembers(w.snap, id, g));
    }
    var i := EqualPoolsCover(w.status.pools, pools, j);
    forall records | GroupsExact(groups, sp.groups, records) ensures HasPool(w.status.pools, id, sp.name, records) {
      ExactGroupsUnique(groups, sp.groups, records, pools[j].groups);
      assert w.status.pools[i].id == id;
    }
    assert PoolQuiet(w, lb, id, sp);
  }

  lemma BuiltListenersQuiet(
    spec: Spec, lb: LB, st: Status, listeners: seq<CreatedListener>, pools: seq<CreatedPool>)
    requires Built(spec, lb, st, listeners, pools)
    ensures Listeners.AllQuiet(spec, lb.listeners, pools)
  {
    forall i | 0 <= i < |spec.listeners| ensures HasQuietListener(lb.listeners, spec.listeners[i], pools) {
      assert ListenerExact(lb.listeners, spec.listeners[i], listeners[i]);
      assert HeadersRoundTrip(spec.listeners[i].headers);
    }
  }

  lemma RecordedIsListed(st: Status, pools: seq<CreatedPool>, p: Id)
    requires Tidy(st.pools) && PoolsEqual(st.pools, pools) && DistinctPoolIds(pools) && p in DP.RecordedIds(st.pools)
    ensures exists j :: 0 <= j < |pools| && pools[j].id == p
    ensures RecordedNames(st, p) <= DP.NewNames(pools, p)
  {
    var r :| r in st.pools && r.id == p;
    var i :| 0 <= i < |st.pools| && st.pools[i] == r;
    assert Contains(pools, st.pools[i], PoolEqual);
    var j :| 0 <= j < |pools| && PoolEqual(st.pools[i], pools[j]);
    FindDistinct(st.pools, i);
    FindDistinct(pools, j);
    forall g | g in st.pools[i].groups ensures g.name in GroupNames(pools[j].groups) {
      var k :| 0 <= k < |st.pools[i].groups| && st.pools[i].groups[k] == g;
      assert Contains(pools[j].groups, st.pools[i].groups[k], GroupEqual);
      var m :| 0 <= m < |pools[j].groups| && GroupEqual(g, pools[j].groups[m]);
      assert pools[j].groups[m] in pools[j].groups;
    }
  }

  lemma BuiltPoolStays(
    spec: Spec, lb: LB, st: Status, listeners: seq<CreatedListener>, pools: seq<CreatedPool>, p: Id)
    requires Built(spec, lb, st, listeners, pools) && DistinctPoolIds(pools)
    requires p in lb.pools && p in DP.RecordedIds(st.pools)
    ensures !DP.Doomed(st, lb, p, pools) && DP.Trimmed(st, p, lb.pools[p], pools) == lb.pools[p]
  {
    RecordedIsListed(st, pools, p);
    var j :| 0 <= j < |pools| && pools[j].id == p;
    var groups := lb.pools[p].groups;
    assert DP.Redundant(st, p, groups, pools) == {};
    assert groups - {} == groups;
    assert PoolExact(lb.pools, spec.pools[j], pools[j]);
    if spec.pools[j].groups == [] {
      TargetInUse(spec, lb, listeners, pools, j);
    } else {
      assert GroupExact(groups, spec.pools[j].groups[0].name, pools[j].groups[0]);
    }
  }

  /** With the record saying exactly what is built, the sweep finds nothing. */
  lemma BuiltNothingToSweep(
    spec: Spec, lb: LB, st: Status, listeners: seq<CreatedListener>, pools: seq<CreatedPool>)
    requires Built(spec, lb, st, listeners, pools)
    ensures NothingToSweep(st, lb, listeners, pools)
  {
    forall r | r in st.listeners ensures ListedListener(listeners, r.id) {
      var i :| 0 <= i < |listeners| && listeners[i] == r;
    }
    ExactIdsDistinct(lb.pools, spec.pools, pools);
    forall p | p in lb.pools && p in DP.RecordedIds(st.pools)
      ensures !DP.Doomed(st, lb, p, pools) && DP.Trimmed(st, p, lb.pools[p], pools) == lb.pools[p]
    {
      BuiltPoolStays(spec, lb, st, listeners, pools, p);
    }
  }

  /** Nothing is left to do once a built state has reached the spec. */
  lemma ReachedIsStill(spec: Spec, w: World, lb: Id, listeners: seq<CreatedListener>, pools: seq<CreatedPool>)
    requires lb in w.lbs && w.spec == spec && w.snap == w.status
    requires Built(spec, w.lbs[lb], w.status, listeners, pools) && AllReached(spec, w.lbs[lb].pools, pools)
    ensures Still(w, lb)
  {
    forall j | 0 <= j < |spec.pools| ensures HasQuietPool(w, lb, spec.pools[j]) {
      ReachedIsQuiet(spec, w, lb, listeners, pools, j);
    }
    forall pools' | ExactPools(w.lbs[lb].pools, spec.pools, pools') ensures StillWith(w, lb, pools') {
      ExactPoolsUnique(w.lbs[lb].pools, spec.pools, pools, pools');
      BuiltListenersQuiet(spec, w.lbs[lb], w.status, listeners, pools);
      forall listeners' | Listeners.AllExact(w.lbs[lb].listeners, spec.listeners, listeners')
        ensures listeners' == listeners
      {
        ExactListenersUnique(w.lbs[lb].listeners, spec.listeners, listeners, listeners');
      }
      BuiltNothingToSweep(spec, w.lbs[lb], w.status, listeners, pools);
    }
  }

  // ----- Three passes -----

  /** The second pass began where the first one ended, on the same load balancer and for the same spec. */
  ghost predicate Follows(t: Passage, w: World, spec: Spec) {
    && w.status.lbId == Some(t.lb) && t.lb in w.lbs && t.begun.spec == spec && t.begun.snap == w.status
    && t.begun.lbs == w.lbs[t.lb := Resized(spec, w.lbs[t.lb])]
    && SameRecords(t.begun.status, w.status) && t.begun.status.lbId == Some(t.lb)
    && IsSet(w.status.lbId) && (IsSet(spec.lbId) ==> spec.lbId == Some(t.lb))
  }

  lemma ResizedBuilt(spec: Spec, lb: LB, st: Status, listeners: seq<CreatedListener>, pools: seq<CreatedPool>)
    requires Built(spec, lb, st, listeners, pools)
    ensures Built(spec, Resized(spec, lb), st, listeners, pools)
  {
  }

  lemma PassKeepsAnchor(cfg: Config, t: Passage, w: World, after: World, spec: Spec)
    requires Follows(t, w, spec) && Passed(cfg, t, after)
    ensures Anchored(Apply(after, BeginPass(spec, false)))
  {
  }

  /** A pass over the spec that starts here has nothing to do. */
  ghost predicate NothingLeft(w: World, spec: Spec) {
    var begun := Apply(w, BeginPass(spec, false));
    Anchored(begun) && Still(begun, begun.snap.lbId.value)
  }

  /** Two successful passes reach a state in which a third finds nothing to do. */
  lemma TwoPassesSettle(
    cfg: Config, w0: World, t1: Passage, w1: World, t2: Passage, w2: World, spec: Spec)
    requires Fit(spec) && Follows(t1, w0, spec) && Sane(w0.lbs[t1.lb], w0.status)
    requires AllDialsAgree(spec, w0.lbs[t1.lb].pools)
    requires Passed(cfg, t1, w1) && Follows(t2, w1, spec) && Passed(cfg, t2, w2)
    ensures NothingLeft(w2, spec)
  {
    FirstPass(cfg, t1, w1);
    assert t2.lb == t1.lb;
    ResizedBuilt(spec, w1.lbs[t1.lb], w1.status, t1.listeners, t1.pools);
    SecondPass(cfg, t2, w2, t1.listeners, t1.pools);
    PassKeepsAnchor(cfg, t2, w1, w2, spec);
    ReachedIsStill(spec, Apply(w2, BeginPass(spec, false)), t2.lb, t2.listeners, t2.pools);
  }

  /** The load balancer lets a pass over the spec run to its end. */
  predicate Fitting(spec: Spec, lb: LB) {
    LbIntegrity(lb) && ProtocolsMatch(lb.listeners, spec.listeners)
  }

  lemma BuiltIsFitting(spec: Spec, lb: LB, st: Status, listeners: seq<CreatedListener>, pools: seq<CreatedPool>)
    requires Built(spec, lb, st, listeners, pools)
    ensures ProtocolsMatch(lb.listeners, spec.listeners)
  {
    forall i, l | 0 <= i < |spec.listeners| && l in lb.listeners && lb.listeners[l].port == spec.listeners[i].port
      ensures lb.listeners[l].protocol == spec.listeners[i].protocol
    {
      assert ListenerExact(lb.listeners, spec.listeners[i], listeners[i]);
    }
  }

  /** The configuration is settled on `lb`, with dials the spec can live with. */
  predicate Placed(spec: Spec, w: World, lb: Id) {
    var all :=
      && Fit(spec) && w.status.lbId == Some(lb) && lb != NO_ID && lb in w.lbs
      && Sane(w.lbs[lb], w.status) && AllDialsAgree(spec, w.lbs[lb].pools);
    all
  }

  /** The first of two passes. */
  method PassOnce(c: Cloud, cfg: Config, spec: Spec, lb: Id) returns (ok: bool, ghost t: Passage)
    requires c.Valid() && Placed(spec, c.w, lb)
    modifies c
    ensures c.Valid() && old(c.faults) <= c.faults && GoesOn(old(c.log), c.log, spec)
    ensures ok ==> t.lb == lb && Follows(t, old(c.w), spec) && Passed(cfg, t, c.w) && c.w.status.lbId == Some(lb)
    ensures ok && LbIntegrity(old(c.w).lbs[lb]) ==> lb in c.w.lbs && LbIntegrity(c.w.lbs[lb])
    ensures !c.Faulty() && Fitting(spec, old(c.w).lbs[lb]) && (IsSet(spec.lbId) ==> spec.lbId == Some(lb)) ==> ok
  {
    ok, t := DeployPass.Deploy(c, cfg, spec);
    if ok && LbIntegrity(old(c.w).lbs[lb]) {
      StillSound(c.came, c.states, c.log, lb);
    }
  }

  /** The second of two passes. */
  method PassAgain(c: Cloud, cfg: Config, spec: Spec, lb: Id, ghost w0: World, ghost t1: Passage) returns (settled: bool)
    requires c.Valid() && Placed(spec, w0, lb) && t1.lb == lb && Follows(t1, w0, spec) && Passed(cfg, t1, c.w)
    requires c.w.status.lbId == Some(lb)
    modifies c
    ensures c.Valid() && old(c.faults) <= c.faults && (settled ==> NothingLeft(c.w, spec))
    ensures GoesOn(old(c.log), c.log, spec)
    ensures lb in old(c.w).lbs && (!settled ==> c.Faulty() || !LbIntegrity(old(c.w).lbs[lb]))
  {
    ghost var w1, t2 := c.w, *;
    FirstPass(cfg, t1, w1);
    BuiltIsFitting(spec, w1.lbs[lb], w1.status, t1.listeners, t1.pools);
    settled, t2 := DeployPass.Deploy(c, cfg, spec);
    if settled {
      TwoPassesSettle(cfg, w0, t1, w1, t2, c.w, spec);
    }
  }

  lemma TwoInLog(log: seq<Act>, mid: seq<Act>, more: seq<Act>, spec: Spec)
    requires GoesOn(log, mid, spec) && GoesOn(mid, more, spec)
    ensures log <= more && PassesOver(more, |log|, spec, [|log|, |mid|])
  {
    PassesOverNext(log, mid, |log|, spec, []);
    PassesOverNext(mid, more, |log|, spec, [|log|]);
  }

  /** Two passes over the spec, beginning on `lb`. */
  method PassTwice(c: Cloud, cfg: Config, spec: Spec, lb: Id) returns (settled: bool, ghost mid: seq<Act>)
    requires c.Valid() && Placed(spec, c.w, lb)
    modifies c
    ensures c.Valid() && old(c.faults) <= c.faults && GoesOn(old(c.log), mid, spec) && mid <= c.log
    ensures settled ==> NothingLeft(c.w, spec) && GoesOn(mid, c.log, spec)
    ensures !c.Faulty() && Fitting(spec, old(c.w).lbs[lb]) && (IsSet(spec.lbId) ==> spec.lbId == Some(lb)) ==> settled
  {
    ghost var t;
    settled, t := PassOnce(c, cfg, spec, lb);
    mid := c.log;
    if settled {
      settled := PassAgain(c, cfg, spec, lb, old(c.w), t);
    }
  }

  /**
   Two passes over the same spec, nobody interfering. If no call fails, both run to their end, and
   then nothing is left to do.
   */
  method TwoPasses(c: Cloud, cfg: Config, spec: Spec) returns (settled: bool, ghost starts: seq<nat>)
    requires c.Valid() && Fit(spec) && IsSet(c.w.status.lbId) && c.w.status.lbId.value in c.w.lbs
    requires Sane(c.w.lbs[c.w.status.lbId.value], c.w.status)
    requires AllDialsAgree(spec, c.w.lbs[c.w.status.lbId.value].pools)
    modifies c
    ensures c.Valid() && old(c.faults) <= c.faults && old(c.log) <= c.log
    ensures settled ==> NothingLeft(c.w, spec) && |starts| == 2 && PassesOver(c.log, |old(c.log)|, spec, starts)
    ensures !c.Faulty() && Fitting(spec, old(c.w).lbs[old(c.w).status.lbId.value])
            && (IsSet(spec.lbId) ==> spec.lbId == old(c.w).status.lbId)
            ==> settled
  {
    ghost var mid;
    settled, mid := PassTwice(c, cfg, spec, c.w.status.lbId.value);
    starts := [|old(c.log)|, |mid|];
    if settled {
      TwoInLog(old(c.log), mid, c.log, spec);
    }
  }

  /**
   From then on, any number of passes sends no create, update, patch or delete call and leaves
   cloud and status as they are, even when some of their reads fail.
   */
  method IdlePasses(c: Cloud, cfg: Config, spec: Spec, n: nat) returns (ghost starts: seq<nat>)
    requires c.Valid() && NothingLeft(c.w, spec)
    modifies c
    ensures c.Valid() && NothingLeft(c.w, spec)
    ensures |starts| == n && PassesOver(c.log, |old(c.log)|, spec, starts)
    ensures c.calls == old(c.calls) && c.w.lbs == old(c.w).lbs && c.w.status == old(c.w).status
  {
    starts := [];
    for i := 0 to n
      invariant c.Valid() && NothingLeft(c.w, spec)
      invariant |starts| == i && |old(c.log)| <= |c.log| && PassesOver(c.log, |old(c.log)|, spec, starts)
      invariant c.calls == old(c.calls) && c.w.lbs == old(c.w).lbs && c.w.status == old(c.w).status
    {
      ghost var begun, log := Apply(c.w, BeginPass(spec, false)), c.log;
      ghost var t;
      var ok;
      ok, t := DeployPass.Deploy(c, cfg, spec);
      assert Apply(c.w, BeginPass(spec, false)) == begun;
      PassesOverNext(log, c.log, |old(c.log)|, spec, starts);
      starts := starts + [|log|];
    }
  }

  // ----- Traffic dials -----

  /** No dial is off, exactly where all agree. */
  lemma DialsOffExactlyWhen(spec: Spec, pools: map<Id, Pool>)
    requires WellFormed(spec) && UniquePools(pools)
    ensures Pools.DialsOff(pools, spec.pools) <==> !AllDialsAgree(spec, pools)
  {
    if p, i, g, k :|
      && p in pools && 0 <= i < |spec.pools| && pools[p].name == spec.pools[i].name
      && g in pools[p].groups && 0 <= k < |spec.pools[i].groups|
      && pools[p].groups[g].name == spec.pools[i].groups[k].name
      && !Agrees(spec.pools[i].groups[k].trafficDial, pools[p].groups[g].trafficDial)
    {
      assert DistinctGroups(spec.pools[i].groups) && UniqueGroups(pools[p].groups);
      assert DialOff(pools[p].groups, spec.pools[i].groups);
      assert PoolResends(pools, spec.pools[i]);
    }
    if Pools.DialsOff(pools, spec.pools) {
      var i :| 0 <= i < |spec.pools| && PoolResends(pools, spec.pools[i]);
      var p :| p in pools && pools[p].name == spec.pools[i].name && Resends(pools[p].groups, spec.pools[i].groups);
      assert !DialsAgree(spec.pools[i], pools[p]);
    }
  }

  /** Where nothing is left to do, every dial is the spec's: with one off there is no rest. */
  lemma StillDialsAgree(w: World, spec: Spec)
    requires NothingLeft(w, spec)
    ensures w.status.lbId.Some? && w.status.lbId.value in w.lbs
    ensures AllDialsAgree(spec, w.lbs[w.status.lbId.value].pools)
  {
    var begun := Apply(w, BeginPass(spec, false));
    var lb := w.status.lbId.value;
    var pools := w.lbs[lb].pools;
    forall p, i | p in pools && 0 <= i < |spec.pools| && pools[p].name == spec.pools[i].name
      ensures DialsAgree(spec.pools[i], pools[p])
    {
      assert HasQuietPool(begun, lb, spec.pools[i]);
      assert PoolQuiet(begun, lb, p, spec.pools[i]);
      forall g, k | g in pools[p].groups && 0 <= k < |spec.pools[i].groups|
                 && pools[p].groups[g].name == spec.pools[i].groups[k].name
        ensures Agrees(spec.pools[i].groups[k].trafficDial, pools[p].groups[g].trafficDial)
      {
        NoUpdateExactlyWhen(pools[p].groups[g], spec.pools[i].groups[k], RecordedMembers(begun.snap, p, g));
      }
    }
  }

  /** A pass sends the live dial back, so a dial that is off stays off. */
  lemma PassKeepsDialsOff(cfg: Config, t: Passage, after: World)
    requires Passed(cfg, t, after) && SpecRegular(t.begun.spec) && Sane(t.begun.lbs[t.lb], t.begun.status)
    requires Pools.DialsOff(t.begun.lbs[t.lb].pools, t.begun.spec.pools)
    ensures t.lb in after.lbs && Pools.DialsOff(after.lbs[t.lb].pools, t.begun.spec.pools)
  {
    var i, p := ResendingPool(t.begun.lbs[t.lb].pools, t.begun.spec.pools);
    PassKeepsDialOff(cfg, t, after, i, p);
  }

  lemma ResendingPool(pools: map<Id, Pool>, specs: seq<PoolSpec>) returns (i: nat, p: Id)
    requires Pools.DialsOff(pools, specs)
    ensures i < |specs| && p in pools && pools[p].name == specs[i].name && Resends(pools[p].groups, specs[i].groups)
  {
    i :| 0 <= i < |specs| && PoolResends(pools, specs[i]);
    p :| p in pools && pools[p].name == specs[i].name && Resends(pools[p].groups, specs[i].groups);
  }

  lemma PassKeepsDialOff(cfg: Config, t: Passage, after: World, i: nat, p: Id)
    requires Passed(cfg, t, after) && SpecRegular(t.begun.spec) && Sane(t.begun.lbs[t.lb], t.begun.status)
    requires i < |t.begun.spec.pools| && p in t.begun.lbs[t.lb].pools
    requires var sp, pool := t.begun.spec.pools[i], t.begun.lbs[t.lb].pools[p];
             pool.name == sp.name && Resends(pool.groups, sp.groups)
    ensures t.lb in after.lbs && PoolResends(after.lbs[t.lb].pools, t.begun.spec.pools[i])
  {
    var sp, before, pooled := t.begun.spec.pools[i], t.begun.lbs[t.lb].pools, t.pooled.lbs[t.lb].pools;
    PassStep(cfg, t, after, i);
    FoundPool(t.begun.lbs, t.pooled.lbs, t.lb, sp, t.pools[i], p);
    PoolKeepsDialOff(cfg, t.begun.snap, sp, p, before, pooled, after.lbs[t.lb].pools);
  }

  lemma FoundPool(a: map<Id, LB>, b: map<Id, LB>, lb: Id, sp: PoolSpec, r: CreatedPool, id: Id)
    requires Grows(a, b, lb) && lb in a && PoolExact(b[lb].pools, sp, r) && UniquePools(b[lb].pools)
    requires id in a[lb].pools && a[lb].pools[id].name == sp.name
    ensures id == r.id && UniqueGroups(b[lb].pools[id].groups)
  {
    assert id in b[lb].pools && b[lb].pools[id].name == sp.name;
  }

  lemma PoolKeepsDialOff(
    cfg: Config, st: Status, sp: PoolSpec, id: Id, before: map<Id, Pool>, pooled: map<Id, Pool>, after: map<Id, Pool>)
    requires PoolStepped(cfg, st, sp, id, before, pooled) && id in before && Resends(before[id].groups, sp.groups)
    requires pooled[id].name == sp.name && UniqueGroups(pooled[id].groups)
    requires id in after && OnlyLost(pooled[id], after[id], sp)
    ensures PoolResends(after, sp)
  {
    StepKeepsDialOff(cfg, st, sp, id, before, pooled);
    LostKeepsDialOff(pooled[id], after[id], sp);
  }

  lemma StepKeepsDialOff(cfg: Config, st: Status, sp: PoolSpec, id: Id, before: map<Id, Pool>, after: map<Id, Pool>)
    requires PoolStepped(cfg, st, sp, id, before, after) && id in before && DialOff(before[id].groups, sp.groups)
    ensures DialOff(after[id].groups, sp.groups)
  {
    var g, k :| g in before[id].groups && 0 <= k < |sp.groups| && before[id].groups[g].name == sp.groups[k].name
             && !Agrees(sp.groups[k].trafficDial, before[id].groups[g].trafficDial);
    SteppedKeepsName(st, id, before[id].groups, sp.groups, after[id].groups, g);
  }

  lemma LostKeepsDialOff(a: Pool, b: Pool, sp: PoolSpec)
    requires OnlyLost(a, b, sp) && DialOff(a.groups, sp.groups)
    ensures DialOff(b.groups, sp.groups)
  {
    var g, k :| g in a.groups && 0 <= k < |sp.groups| && a.groups[g].name == sp.groups[k].name
             && !Agrees(sp.groups[k].trafficDial, a.groups[g].trafficDial);
    assert g in b.groups && b.groups[g] == a.groups[g];
  }

  // ----- What rest means -----

  /** The group has just the addresses of the spec, and its dial if it sets one. */
  predicate GroupServes(g: Group, gs: GroupSpec) {
    && g.name == gs.name && (gs.trafficDial.Some? ==> g.trafficDial == gs.trafficDial.value)
    && (forall m :: m in gs.members ==> exists n :: n in g.members && n.address == m.address && n.port == m.port)
    && (forall n :: n in g.members ==> exists m :: m in gs.members && n.address == m.address && n.port == m.port)
  }

  predicate IsServed(groups: map<Id, Group>, gs: GroupSpec) {
    exists g :: g in groups && GroupServes(groups[g], gs)
  }

  /** The pool has every field the spec sets, and every group of the spec with its addresses. */
  predicate PoolServes(p: Pool, sp: PoolSpec) {
    var s, h := sp.health, p.health;
    && p.name == sp.name && h.protocol == s.protocol
    && (sp.algorithm.Some? && sp.algorithm.value != "" ==> p.algorithm == sp.algorithm.value)
    && (s.healthyThreshold.Some? ==> h.healthyThreshold == s.healthyThreshold.value)
    && (s.unhealthyThreshold.Some? ==> h.unhealthyThreshold == s.unhealthyThreshold.value)
    && (s.interval.Some? ==> h.interval == s.interval.value) && (s.timeout.Some? ==> h.timeout == s.timeout.value)
    && (s.protocol.HTTP? || s.protocol.HTTPS? ==>
          && (s.httpMethod.Some? ==> h.httpMethod == s.httpMethod) && (s.path.Some? ==> h.path == s.path)
          && (s.successCode.Some? ==> h.successCode == s.successCode)
          && (s.httpVersion.Some? ==> h.httpVersion == s.httpVersion)
          && (s.domainName.Some? ==> h.domainName == s.domainName))
    && forall k :: 0 <= k < |sp.groups| ==> IsServed(p.groups, sp.groups[k])
  }

  /** The listener has every field the spec sets, and points at the live pool it names, or at none. */
  predicate ListenerServes(lb: LB, l: Listener, s: ListenerSpec, specs: seq<PoolSpec>) {
    && l.port == s.port
    && (s.timeoutClient.Some? ==> l.timeoutClient == s.timeoutClient.value)
    && (s.timeoutMember.Some? ==> l.timeoutMember == s.timeoutMember.value)
    && (s.timeoutConnection.Some? ==> l.timeoutConnection == s.timeoutConnection.value)
    && (s.allowedCidrs.Some? && s.allowedCidrs.value != "" ==> l.allowedCidrs == s.allowedCidrs.value)
    && SlicesEqual(DecodeHeaders(l.headers), LowerAll(s.headers))
    && if s.defaultPoolName.Some? && s.defaultPoolName.value != ""
          && exists i :: 0 <= i < |specs| && specs[i].name == s.defaultPoolName.value
       then l.poolId in lb.pools && lb.pools[l.poolId].name == s.defaultPoolName.value
       else l.poolId == ""
  }

  predicate HasServingPool(lb: LB, sp: PoolSpec) {
    exists p :: p in lb.pools && PoolServes(lb.pools[p], sp)
  }

  predicate HasServingListener(lb: LB, s: ListenerSpec, specs: seq<PoolSpec>) {
    exists l :: l in lb.listeners && ListenerServes(lb, lb.listeners[l], s, specs)
  }

  lemma KeysAre(g: Group, members: seq<Member>)
    requires LiveKeys(g.members) == Keys(members)
    ensures forall m :: m in members ==> exists n :: n in g.members && n.address == m.address && n.port == m.port
    ensures forall n :: n in g.members ==> exists m :: m in members && n.address == m.address && n.port == m.port
  {
    forall m | m in members ensures exists n :: n in g.members && n.address == m.address && n.port == m.port {
      assert KeyOf(m) in LiveKeys(g.members);
      var n :| n in g.members && LiveKeyOf(n) == KeyOf(m);
    }
    forall n | n in g.members ensures exists m :: m in members && n.address == m.address && n.port == m.port {
      assert LiveKeyOf(n) in Keys(members);
      var m :| m in members && KeyOf(m) == LiveKeyOf(n);
    }
  }

  /** What the read-back would find. */
  lemma {:induction false} ReadBackOf(groups: map<Id, Group>, specs: seq<GroupSpec>) returns (records: seq<CreatedGroup>)
    requires HoldsGroups(groups, specs)
    ensures GroupsExact(groups, specs, records)
  {
    if specs == [] {
      records := [];
    } else {
      var n := |specs| - 1;
      forall k | 0 <= k < n ensures HoldsNamed(groups, specs[..n][k].name) {
        assert HoldsNamed(groups, specs[k].name);
      }
      var rest := ReadBackOf(groups, specs[..n]);
      assert HoldsNamed(groups, specs[n].name);
      var g :| g in groups && groups[g].name == specs[n].name;
      records := rest + [CreatedGroup(g, specs[n].name, ConvertList(groups[g].members))];
      forall k | 0 <= k < |specs| ensures GroupExact(groups, specs[k].name, records[k]) {
        if k < n {
          assert GroupExact(groups, specs[..n][k].name, rest[k]);
        }
      }
    }
  }

  /** What a deployment would build of the pools. */
  lemma {:induction false} BuiltOf(w: World, lb: Id, n: nat) returns (pools: seq<CreatedPool>)
    requires Pools.AllQuiet(w, lb) && n <= |w.spec.pools|
    ensures ExactPools(w.lbs[lb].pools, w.spec.pools[..n], pools)
  {
    if n == 0 {
      pools := [];
    } else {
      var rest := BuiltOf(w, lb, n - 1);
      var sp := w.spec.pools[n - 1];
      assert HasQuietPool(w, lb, sp);
      var p :| p in w.lbs[lb].pools && w.lbs[lb].pools[p].name == sp.name && PoolQuiet(w, lb, p, sp);
      var groups := ReadBackOf(w.lbs[lb].pools[p].groups, sp.groups);
      pools := rest + [CreatedPool(p, sp.name, groups)];
      forall j | 0 <= j < n ensures PoolExact(w.lbs[lb].pools, w.spec.pools[j], pools[j]) {
        if j < n - 1 {
          assert PoolExact(w.lbs[lb].pools, w.spec.pools[..n - 1][j], rest[j]);
        }
      }
    }
  }

  /** A quiet pool's record lists all that is live in the groups of the spec. */
  lemma QuietIsRecorded(w: World, lb: Id, p: Id, sp: PoolSpec, k: nat, g: Id)
    requires lb in w.lbs && p in w.lbs[lb].pools && PoolQuiet(w, lb, p, sp) && Tidy(w.status.pools) && w.snap == w.status
    requires UniqueGroups(w.lbs[lb].pools[p].groups) && k < |sp.groups|
    requires g in w.lbs[lb].pools[p].groups && w.lbs[lb].pools[p].groups[g].name == sp.groups[k].name
    ensures Keys(RecordedMembers(w.snap, p, g)) == LiveKeys(w.lbs[lb].pools[p].groups[g].members)
  {
    var groups, st := w.lbs[lb].pools[p].groups, w.status;
    var records := ReadBackOf(groups, sp.groups);
    assert HasPool(st.pools, p, sp.name, records);
    var i :| 0 <= i < |st.pools| && st.pools[i].id == p && GroupsEqual(st.pools[i].groups, records);
    FindDistinct(st.pools, i);
    assert GroupExact(groups, sp.groups[k].name, records[k]) && records[k].id == g;
    var m := EqualGroupsCover(st.pools[i].groups, records, k);
    FindGroupDistinct(st.pools[i].groups, m);
    SameMultisetKeys(st.pools[i].groups[m].members, records[k].members);
    ConvertKeys(groups[g].members);
  }

  lemma QuietPoolServes(w: World, lb: Id, p: Id, sp: PoolSpec)
    requires lb in w.lbs && p in w.lbs[lb].pools && PoolQuiet(w, lb, p, sp) && Tidy(w.status.pools) && w.snap == w.status
    requires UniqueGroups(w.lbs[lb].pools[p].groups) && w.lbs[lb].pools[p].name == sp.name
    ensures PoolServes(w.lbs[lb].pools[p], sp)
  {
    var groups := w.lbs[lb].pools[p].groups;
    forall k | 0 <= k < |sp.groups| ensures IsServed(groups, sp.groups[k]) {
      assert HoldsNamed(groups, sp.groups[k].name);
      var g :| g in groups && groups[g].name == sp.groups[k].name;
      var recorded := RecordedMembers(w.snap, p, g);
      assert DeployPoolMember.Settled(groups[g], sp.groups[k], recorded);
      NoUpdateExactlyWhen(groups[g], sp.groups[k], recorded);
      QuietIsRecorded(w, lb, p, sp, k, g);
      assert LiveKeys(groups[g].members) == Keys(sp.groups[k].members);
      KeysAre(groups[g], sp.groups[k].members);
      assert GroupServes(groups[g], sp.groups[k]);
    }
  }

  /** A listener that agrees with the spec serves it. */
  lemma AgreeingServes(w: World, lb: Id, l: Listener, s: ListenerSpec, pools: seq<CreatedPool>)
    requires lb in w.lbs && ExactPools(w.lbs[lb].pools, w.spec.pools, pools) && DistinctPools(w.spec.pools)
    requires l.port == s.port && ListenerAgrees(s, l, pools)
    ensures ListenerServes(w.lbs[lb], l, s, w.spec.pools)
  {
    var specs := w.spec.pools;
    forall i | 0 <= i < |specs| ensures pools[i].name == specs[i].name && PoolExact(w.lbs[lb].pools, specs[i], pools[i]) {
      assert PoolExact(w.lbs[lb].pools, specs[i], pools[i]);
    }
    TargetPoolIs(s, pools);
    if s.defaultPoolName.Some? && s.defaultPoolName.value != "" {
      if i :| 0 <= i < |specs| && specs[i].name == s.defaultPoolName.value {
        assert s.defaultPoolName == Some(pools[i].name);
        assert forall n :: 0 <= n < i ==> pools[n].name != pools[i].name;
      }
    }
  }

  /** Where nothing is left to do, the load balancer serves the spec: every pool, group, address, dial and listener. */
  lemma RestServes(w: World, spec: Spec)
    requires NothingLeft(w, spec) && Tidy(w.status.pools)
    ensures w.status.lbId.Some? && w.status.lbId.value in w.lbs && (IsSet(spec.lbId) ==> spec.lbId == w.status.lbId)
    ensures var lb := w.lbs[w.status.lbId.value];
            && (spec.packageId.Some? && spec.packageId.value != "" ==> lb.package == spec.packageId.value)
            && (forall i :: 0 <= i < |spec.pools| ==> HasServingPool(lb, spec.pools[i]))
            && (forall j :: 0 <= j < |spec.listeners| ==> HasServingListener(lb, spec.listeners[j], spec.pools))
  {
    var begun, id := Apply(w, BeginPass(spec, false)), w.status.lbId.value;
    var lb := w.lbs[id];
    forall i | 0 <= i < |spec.pools| ensures HasServingPool(lb, spec.pools[i]) {
      assert HasQuietPool(begun, id, spec.pools[i]);
      var p :| p in lb.pools && lb.pools[p].name == spec.pools[i].name && PoolQuiet(begun, id, p, spec.pools[i]);
      QuietPoolServes(begun, id, p, spec.pools[i]);
    }
    var pools := BuiltOf(begun, id, |spec.pools|);
    assert spec.pools[..|spec.pools|] == spec.pools;
    assert StillWith(begun, id, pools);
    forall j | 0 <= j < |spec.listeners|
      ensures HasServingListener(lb, spec.listeners[j], spec.pools)
    {
      assert HasQuietListener(lb.listeners, spec.listeners[j], pools);
      var l :| l in lb.listeners && lb.listeners[l].port == spec.listeners[j].port
            && ListenerAgrees(spec.listeners[j], lb.listeners[l], pools);
      AgreeingServes(begun, id, lb.listeners[l], spec.listeners[j], pools);
    }
  }
}
