/** The delete pass (delete_lb.go) and the state a teardown leaves behind. */
module DeleteLb {
  import opened GlbTypes
  import opened Equality
  import opened Members
  import opened Protocol
  import opened CloudApi
  import DL = DeleteListener
  import DP = DeletePool

  // ----- Whole load balancer -----

  method CanDeleteWholePool(c: Cloud, lb: Id, id: Id) returns (r: Option<bool>)
    modifies c`faults
    ensures old(c.faults) <= c.faults
    ensures r.None? ==> c.Faulty() || lb !in c.w.lbs || id !in c.w.lbs[lb].pools
    ensures r.Some? && lb in c.w.lbs && id in c.w.lbs[lb].pools ==>
      (r.value <==> PoolCovered(c.w.snap, c.w.lbs[lb].pools, id))
  {
    var record := FindPool(c.w.snap.pools, id);
    if record.None? {
      return Some(false);
    }
    var groups := c.ListGroups(lb, id);
    if groups.None? {
      return None;
    }
    var owned := DL.BuildOwnedGroups(record.value.groups);
    var all := DL.OwnsAll(owned, groups.value);
    return Some(all);
  }

  /** Every listener and every pool must be on record, the pools down to their members. */
  method CanDeleteWholeLoadBalancer(c: Cloud, lb: Id) returns (r: Option<bool>)
    modifies c`faults
    ensures old(c.faults) <= c.faults && (r.None? ==> c.Faulty() || lb !in c.w.lbs)
    ensures r.Some? ==> lb in c.w.lbs && (r.value <==> Covered(c.w.snap, c.w.lbs[lb]))
  {
    var listeners := c.ListListeners(lb);
    if listeners.None? {
      return None;
    }
    var ids := listeners.value.ids;
    for i := 0 to |ids|
      invariant forall k :: 0 <= k < i ==> RecordsListener(c.w.snap, ids[k])
    {
      if !RecordsListener(c.w.snap, ids[i]) {
        assert ids[i] in ids;
        return Some(false);
      }
    }
    var pools := c.ListPools(lb);
    if pools.None? {
      return None;
    }
    ids := pools.value.ids;
    for i := 0 to |ids|
      invariant old(c.faults) <= c.faults
      invariant forall k :: 0 <= k < i ==>
                  ids[k] in c.w.lbs[lb].pools && PoolCovered(c.w.snap, c.w.lbs[lb].pools, ids[k])
    {
      assert ids[i] in ids;
      var covered := CanDeleteWholePool(c, lb, ids[i]);
      if covered.None? || !covered.value {
        return covered;
      }
    }
    return Some(true);
  }

  method IsLoadBalancerEmpty(c: Cloud, lb: Id) returns (r: Option<bool>)
    modifies c`faults
    ensures old(c.faults) <= c.faults && (r.None? ==> c.Faulty() || lb !in c.w.lbs)
    ensures r.Some? ==> lb in c.w.lbs && (r.value <==> IsEmpty(c.w.lbs[lb]))
  {
    var listeners := c.ListListeners(lb);
    if listeners.None? {
      return None;
    }
    if |listeners.value.ids| > 0 {
      assert listeners.value.ids[0] in listeners.value.ids;
      return Some(false);
    }
    var pools := c.ListPools(lb);
    if pools.None? {
      return None;
    }
    if |pools.value.ids| > 0 {
      assert pools.value.ids[0] in pools.value.ids;
      return Some(false);
    }
    return Some(true);
  }

  predicate IsEmpty(lb: LB) {
    lb.listeners == map[] && lb.pools == map[]
  }

  // ----- Teardown -----

  /** What removing everything recorded leaves: listeners first, then pools. */
  function Teardown(st: Status, lb: LB): LB {
    var one := lb.(listeners := DL.SweptListeners(st, lb, [], []));
    one.(pools := DP.SweptPools(st, one, []))
  }

  /** Nothing that a sweep is to delete is on record twice. */
  predicate SweepsOnce(st: Status, lb: LB, listeners: seq<CreatedListener>, pools: seq<CreatedPool>) {
    && DL.DoomedOnce(st, lb, st.listeners, listeners, pools)
    && DP.DoomedOnce(st, lb.(listeners := DL.SweptListeners(st, lb, listeners, pools)), st.pools, pools)
  }

  /** What a sweep relies on. */
  predicate CanSweep(st: Status, lb: LB, listeners: seq<CreatedListener>, pools: seq<CreatedPool>) {
    LbIntegrity(lb) && SweepsOnce(st, lb, listeners, pools)
  }

  /** The API server keys both lists by id, so that this always holds of a record it has stored. */
  lemma DistinctSweepsOnce(st: Status, lb: LB, listeners: seq<CreatedListener>, pools: seq<CreatedPool>)
    requires DistinctRecords(st)
    ensures SweepsOnce(st, lb, listeners, pools)
  {
    DL.DistinctDoomedOnce(st, lb, st.listeners, listeners, pools);
    DP.DistinctDoomedOnce(st, lb.(listeners := DL.SweptListeners(st, lb, listeners, pools)), st.pools, pools);
  }

  predicate CanRemove(st: Status, lb: LB) {
    CanSweep(st, lb, [], [])
  }

  /** Both phases with nothing wanted any more, shared by the delete and the migrate pass. */
  method RemoveRecorded(c: Cloud, lb: Id) returns (ok: bool)
    requires c.Valid() && Works(c.w, lb) && MayDelete(c.w, lb)
    modifies c
    ensures c.Continues() && Shrinks(old(c.w), c.w)
    ensures !ok ==> c.Faulty() || lb !in old(c.w).lbs || !CanRemove(old(c.w).snap, old(c.w).lbs[lb])
    ensures ok ==> lb in old(c.w).lbs && SweepsOnce(c.w.snap, old(c.w).lbs[lb], [], [])
    ensures ok ==> c.w == SetLb(old(c.w), lb, Teardown(old(c.w).snap, old(c.w).lbs[lb]))
  {
    ok := DL.DeleteRedundantListeners(c, lb, [], []);
    if !ok {
      return;
    }
    ghost var one := c.w.lbs[lb];
    ok := DP.DeleteRedundantPools(c, lb, []);
    if ok {
      SetLbTwice(old(c.w), lb, one, c.w.lbs[lb]);
    }
  }

  /** The state a successful delete pass reaches. */
  function DeletedFrom(st: Status, lbs: map<Id, LB>, lb: Id): map<Id, LB> {
    if lb !in lbs then lbs
    else if Covered(st, lbs[lb]) || IsEmpty(Teardown(st, lbs[lb])) then lbs - {lb}
    else lbs[lb := Teardown(st, lbs[lb])]
  }

  /** Everything on the load balancer is recorded and ours: wholly, or group by group once its listeners are gone. */
  ghost predicate AllOurs(st: Status, lb: LB) {
    || Covered(st, lb)
    || ((forall l :: l in lb.listeners ==> RecordsListener(st, l) && ListenerOwned(st, lb.pools, lb.listeners[l]))
        && (forall p :: p in lb.pools ==> RecordsPool(st, p) && !HoldsUnrecordedGroup(st, lb.pools, p)))
  }

  /** A load balancer that was there goes exactly when all on it is ours; all others stay as they are. */
  lemma DeletedExactlyWhen(st: Status, lbs: map<Id, LB>, lb: Id)
    ensures var after := DeletedFrom(st, lbs, lb);
            && (lb in lbs ==> (lb !in after <==> AllOurs(st, lbs[lb])))
            && (lb in after ==> lb in lbs && after[lb] == Teardown(st, lbs[lb]))
            && (forall b :: b != lb ==> (b in after <==> b in lbs) && (b in after ==> after[b] == lbs[b]))
  {
    if lb in lbs {
      EmptiedExactlyWhen(st, lbs[lb]);
    }
  }

  method DeleteWhenNotEmpty(c: Cloud, lb: Id) returns (ok: bool)
    requires c.Valid() && c.w.deleting && c.w.snap.lbId == Some(lb)
    requires lb in c.w.lbs && !Covered(c.w.snap, c.w.lbs[lb])
    modifies c
    ensures c.Proceeds()
    ensures !ok ==> c.Faulty() || !CanRemove(old(c.w).snap, old(c.w).lbs[lb])
    ensures ok ==> SweepsOnce(c.w.snap, old(c.w).lbs[lb], [], [])
    ensures ok ==> c.w == old(c.w).(lbs := DeletedFrom(old(c.w).snap, old(c.w).lbs, lb))
  {
    ok := RemoveRecorded(c, lb);
    if !ok {
      return;
    }
    var empty := IsLoadBalancerEmpty(c, lb);
    if empty.None? {
      return false;
    }
    if empty.value {
      assert old(c.w).lbs[lb := c.w.lbs[lb]] - {lb} == old(c.w).lbs - {lb};
      ok := c.Try(Act.DeleteLb(lb));
    }
  }

  /** Nothing is deleted twice from a load balancer that is there and does not go as a whole. */
  predicate DeletableOnce(st: Status, lbs: map<Id, LB>, lb: Id) {
    lb in lbs && !Covered(st, lbs[lb]) ==> SweepsOnce(st, lbs[lb], [], [])
  }

  predicate Deletable(st: Status, lbs: map<Id, LB>, lb: Id) {
    lb in lbs && !Covered(st, lbs[lb]) ==> CanRemove(st, lbs[lb])
  }

  method DeleteLoadBalancer(c: Cloud, lb: Id) returns (ok: bool)
    requires c.Valid() && c.w.deleting && c.w.snap.lbId == Some(lb)
    modifies c
    ensures c.Proceeds()
    ensures !ok ==> c.Faulty() || !Deletable(old(c.w).snap, old(c.w).lbs, lb)
    ensures ok ==> DeletableOnce(old(c.w).snap, old(c.w).lbs, lb)
    ensures ok ==> c.w == old(c.w).(lbs := DeletedFrom(old(c.w).snap, old(c.w).lbs, lb))
  {
    ok := c.Wait();
    if !ok {
      return;
    }
    if lb !in c.w.lbs {
      return true;
    }
    var whole := CanDeleteWholeLoadBalancer(c, lb);
    if whole.None? {
      return false;
    }
    if whole.value {
      ok := c.Try(Act.DeleteLb(lb));
    } else {
      ok := DeleteWhenNotEmpty(c, lb);
    }
  }

  /**
   A delete pass: with no load balancer on record there is nothing to do. If no call fails and no
   listener dangles, it succeeds exactly when the load balancer is gone, is covered, or has nothing
   to be deleted on record twice.
   */
  method Delete(c: Cloud, spec: Spec) returns (ok: bool)
    requires c.Valid()
    modifies c
    ensures c.Valid() && c.past == old(c.log) + [BeginPass(spec, true)] && old(c.faults) <= c.faults
    ensures c.came == old(c.states) + [Apply(old(c.w), BeginPass(spec, true))]
    ensures !ok ==> c.Faulty() || (IsSet(old(c.w).status.lbId)
                                   && !Deletable(old(c.w).status, old(c.w).lbs, old(c.w).status.lbId.value))
    ensures ok && IsSet(old(c.w).status.lbId) ==>
              DeletableOnce(old(c.w).status, old(c.w).lbs, old(c.w).status.lbId.value)
    ensures ok ==> c.w.status == old(c.w).status
    ensures ok ==> c.w.lbs == if IsSet(old(c.w).status.lbId)
                              then DeletedFrom(old(c.w).status, old(c.w).lbs, old(c.w).status.lbId.value)
                              else old(c.w).lbs
    // the load balancer on record is gone exactly when all on it was ours, and no other is touched
    ensures ok && IsSet(old(c.w).status.lbId) && old(c.w).status.lbId.value in old(c.w).lbs ==>
              var b := old(c.w).status.lbId.value;
              b !in c.w.lbs <==> AllOurs(old(c.w).status, old(c.w).lbs[b])
    ensures ok ==> forall b :: Some(b) != old(c.w).status.lbId ==>
                     (b in c.w.lbs <==> b in old(c.w).lbs) && (b in c.w.lbs ==> c.w.lbs[b] == old(c.w).lbs[b])
  {
    c.Take(BeginPass(spec, true));
    if !IsSet(c.w.snap.lbId) {
      return true;
    }
    ok := DeleteLoadBalancer(c, c.w.snap.lbId.value);
    DeletedExactlyWhen(old(c.w).status, old(c.w).lbs, old(c.w).status.lbId.value);
  }

  // ----- Exact post-state of a teardown -----

  /** Some group of the pool, or some member of one, is not on record. */
  predicate HoldsUnrecorded(st: Status, pools: map<Id, Pool>, id: Id)
    requires id in pools && FindPool(st.pools, id).Some?
  {
    var owned := OwnedGroups(FindPool(st.pools, id).value.groups);
    exists g :: g in pools[id].groups && (pools[id].groups[g].name !in owned ||
      exists m :: m in pools[id].groups[g].members && LiveKeyOf(m) !in owned[pools[id].groups[g].name])
  }

  /** A recorded listener stays exactly when its pool is not ours or holds something not ours. */
  lemma TeardownListeners(st: Status, lb: LB, l: Id)
    requires l in lb.listeners && LbIntegrity(lb)
    ensures var pool := lb.listeners[l].poolId;
            l in Teardown(st, lb).listeners <==>
            || !RecordsListener(st, l)
            || (pool != NO_ID && (FindPool(st.pools, pool).None? || HoldsUnrecorded(st, lb.pools, pool)))
    ensures l in Teardown(st, lb).listeners ==> Teardown(st, lb).listeners[l] == lb.listeners[l]
  {
    var pool := lb.listeners[l].poolId;
    assert l in DL.DoomedListeners(st, lb, st.listeners, [], []) <==>
           RecordsListener(st, l) && DL.Deletable(st, lb.pools, lb.listeners[l], []) by {
      if RecordsListener(st, l) {
        var i :| 0 <= i < |st.listeners| && st.listeners[i].id == l;
        assert st.listeners[i] in st.listeners;
      }
    }
    if pool != NO_ID && FindPool(st.pools, pool).Some? {
      CoveredOrUnrecorded(st, lb.pools, pool);
    }
  }

  lemma CoveredOrUnrecorded(st: Status, pools: map<Id, Pool>, id: Id)
    requires id in pools && FindPool(st.pools, id).Some?
    ensures PoolCovered(st, pools, id) <==> !HoldsUnrecorded(st, pools, id)
  {
    var owned := OwnedGroups(FindPool(st.pools, id).value.groups);
    var groups := pools[id].groups;
    forall g | g in groups && groups[g].name in owned
      ensures LiveKeys(groups[g].members) <= owned[groups[g].name] <==>
              !exists m :: m in groups[g].members && LiveKeyOf(m) !in owned[groups[g].name]
    {
      if LiveKeys(groups[g].members) <= owned[groups[g].name] {
        forall m | m in groups[g].members ensures LiveKeyOf(m) in owned[groups[g].name] {
          assert LiveKeyOf(m) in LiveKeys(groups[g].members);
        }
      }
    }
  }

  predicate HoldsUnrecordedGroup(st: Status, pools: map<Id, Pool>, id: Id)
    requires id in pools
  {
    exists g :: g in pools[id].groups && pools[id].groups[g].name !in RecordedNames(st, id)
  }

  /**
   A recorded pool stays exactly when a surviving listener uses it or it holds a group that is not
   on record. In the second case it keeps exactly those groups; in the first, alone, all it had.
   Pools not on record are untouched.
   */
  lemma TeardownPools(st: Status, lb: LB, p: Id)
    requires p in lb.pools
    ensures p in Teardown(st, lb).pools <==>
            || !RecordsPool(st, p)
            || (exists l :: l in Teardown(st, lb).listeners && Teardown(st, lb).listeners[l].poolId == p)
            || HoldsUnrecordedGroup(st, lb.pools, p)
    ensures p in Teardown(st, lb).pools ==>
              Teardown(st, lb).pools[p] ==
              if RecordsPool(st, p) && HoldsUnrecordedGroup(st, lb.pools, p)
              then lb.pools[p].(groups := map g | g in lb.pools[p].groups
                                               && lb.pools[p].groups[g].name !in RecordedNames(st, p)
                                            :: lb.pools[p].groups[g])
              else lb.pools[p]
  {
    var one := lb.(listeners := DL.SweptListeners(st, lb, [], []));
    var groups, redundant := lb.pools[p].groups, DP.Redundant(st, p, lb.pools[p].groups, []);
    DP.RecordedIdsAre(st, p);
    assert redundant == groups.Keys <==> !HoldsUnrecordedGroup(st, lb.pools, p);
    assert groups - redundant == map g | g in groups && groups[g].name !in RecordedNames(st, p) :: groups[g];
    assert one.pools == lb.pools;
  }

  // ----- What is lost with it -----

  /** The partial delete empties the load balancer exactly when all listeners, and the groups of all pools, are recorded. */
  lemma EmptiedExactlyWhen(st: Status, lb: LB)
    ensures IsEmpty(Teardown(st, lb)) <==>
            && (forall l :: l in lb.listeners ==> RecordsListener(st, l) && ListenerOwned(st, lb.pools, lb.listeners[l]))
            && (forall p :: p in lb.pools ==> RecordsPool(st, p) && !HoldsUnrecordedGroup(st, lb.pools, p))
  {
    var after := Teardown(st, lb);
    forall l | l in lb.listeners
      ensures l in after.listeners <==> !(RecordsListener(st, l) && ListenerOwned(st, lb.pools, lb.listeners[l]))
    {
      DoomedIsOurs(st, lb, l);
    }
    forall p | p in lb.pools
      ensures p in after.pools <==> !RecordsPool(st, p) || PoolInUse(after, p) || HoldsUnrecordedGroup(st, lb.pools, p)
    {
      TeardownPools(st, lb, p);
    }
    assert after.listeners == map[] <==> forall l :: l in lb.listeners ==> l !in after.listeners;
    assert after.pools == map[] <==> forall p :: p in lb.pools ==> p !in after.pools;
  }

  lemma DoomedIsOurs(st: Status, lb: LB, l: Id)
    requires l in lb.listeners
    ensures l in Teardown(st, lb).listeners <==>
            !(RecordsListener(st, l) && ListenerOwned(st, lb.pools, lb.listeners[l]))
  {
    if RecordsListener(st, l) {
      var i :| 0 <= i < |st.listeners| && st.listeners[i].id == l;
      assert st.listeners[i] in st.listeners;
    }
  }

  /** The member is in the group of the pool. */
  predicate HoldsMember(pools: map<Id, Pool>, p: Id, g: Id, m: LiveMember) {
    p in pools && g in pools[p].groups && m in pools[p].groups[g].members
  }

  /** The record names the member's address for the group of that name in that pool. */
  predicate RecordsMember(st: Status, p: Id, group: string, m: LiveMember) {
    FindPool(st.pools, p).Some? &&
    var owned := OwnedGroups(FindPool(st.pools, p).value.groups);
    group in owned && LiveKeyOf(m) in owned[group]
  }

  /** Who takes a member that is not on record: its pool and group are, and the pool is trimmed or goes. */
  predicate MemberExposed(st: Status, lb: LB, p: Id, g: Id)
    requires p in lb.pools && g in lb.pools[p].groups
  {
    && RecordsPool(st, p) && lb.pools[p].groups[g].name in RecordedNames(st, p)
    && (HoldsUnrecordedGroup(st, lb.pools, p) || !PoolInUse(lb, p))
  }

  /** A listener that uses a pool with an unrecorded member stays, and keeps the pool in use. */
  lemma UserStays(st: Status, lb: LB, p: Id, g: Id, m: LiveMember)
    requires LbIntegrity(lb) && p != NO_ID && HoldsMember(lb.pools, p, g, m)
    requires !RecordsMember(st, p, lb.pools[p].groups[g].name, m)
    ensures PoolInUse(Teardown(st, lb), p) <==> PoolInUse(lb, p)
  {
    if PoolInUse(lb, p) {
      var l :| l in lb.listeners && lb.listeners[l].poolId == p;
      assert LiveKeyOf(m) in LiveKeys(lb.pools[p].groups[g].members);
      assert !PoolCovered(st, lb.pools, p);
      DoomedIsOurs(st, lb, l);
    }
  }

  /**
   A teardown takes a member that is not on record exactly when its pool and its group's name are,
   and the pool either holds an unrecorded group, so that it is trimmed, or is used by no listener.
   */
  lemma MemberLostExactlyWhen(st: Status, lb: LB, p: Id, g: Id, m: LiveMember)
    requires LbIntegrity(lb) && p != NO_ID && HoldsMember(lb.pools, p, g, m)
    requires !RecordsMember(st, p, lb.pools[p].groups[g].name, m)
    ensures !HoldsMember(Teardown(st, lb).pools, p, g, m) <==> MemberExposed(st, lb, p, g)
  {
    UserStays(st, lb, p, g, m);
    TeardownPools(st, lb, p);
  }

  /** The whole delete pass takes it exactly then, whether or not the load balancer goes with it. */
  lemma DeletePassLosesMemberExactlyWhen(st: Status, lbs: map<Id, LB>, b: Id, p: Id, g: Id, m: LiveMember)
    requires b in lbs && LbIntegrity(lbs[b]) && p != NO_ID && HoldsMember(lbs[b].pools, p, g, m)
    requires !RecordsMember(st, p, lbs[b].pools[p].groups[g].name, m)
    ensures var after := DeletedFrom(st, lbs, b);
            !(b in after && HoldsMember(after[b].pools, p, g, m)) <==> MemberExposed(st, lbs[b], p, g)
  {
    assert LiveKeyOf(m) in LiveKeys(lbs[b].pools[p].groups[g].members);
    assert !PoolCovered(st, lbs[b].pools, p);
    MemberLostExactlyWhen(st, lbs[b], p, g, m);
  }

  /** A delete pass can take a load balancer down together with a member it never recorded. */
  lemma UnrecordedMemberLost()
    ensures var foreign := LiveMember("m", "10.0.0.9", 80, "net", false, 80, 1);
            var health := Health(TCP, 1, 1, 1, 1, None, None, None, None, None);
            var pool := Pool("p", "TCP", "RR", health, map["g1" := Group("g", "", "", "", 100, [foreign])]);
            var lb := LB("lb", "", map[], map["p1" := pool]);
            var st := Status(Some("lb1"), [], [CreatedPool("p1", "p", [CreatedGroup("g1", "g", [])])]);
            !Covered(st, lb) && DeletedFrom(st, map["lb1" := lb], "lb1") == map[]
  {
    var foreign := LiveMember("m", "10.0.0.9", 80, "net", false, 80, 1);
    var health := Health(TCP, 1, 1, 1, 1, None, None, None, None, None);
    var groups := map["g1" := Group("g", "", "", "", 100, [foreign])];
    var pool := Pool("p", "TCP", "RR", health, groups);
    var lb := LB("lb", "", map[], map["p1" := pool]);
    var record := CreatedPool("p1", "p", [CreatedGroup("g1", "g", [])]);
    var st := Status(Some("lb1"), [], [record]);
    assert FindPool(st.pools, "p1") == Some(record);
    assert record.groups[0] in record.groups && "g" in RecordedNames(st, "p1");
    assert OwnedGroups(record.groups)["g"] == {};
    assert groups["g1"].members[0] in groups["g1"].members;
    assert LiveKeyOf(foreign) in LiveKeys(groups["g1"].members);
    assert !PoolCovered(st, lb.pools, "p1");
    TeardownPools(st, lb, "p1");
    assert Teardown(st, lb).pools == map[];
  }

  /** A listener in use does not protect the member if somebody else's group is in the pool as well: the pool is trimmed. */
  lemma UnrecordedMemberTrimmed()
    ensures var foreign := LiveMember("m", "10.0.0.9", 80, "net", false, 80, 1);
            var health := Health(TCP, 1, 1, 1, 1, None, None, None, None, None);
            var groups := map["g1" := Group("ours", "", "", "", 100, [foreign]), "g2" := Group("theirs", "", "", "", 100, [])];
            var listener := Listener("l", "TCP", 80, "p1", 1, 1, 1, "", None);
            var lb := LB("lb", "", map["l1" := listener], map["p1" := Pool("p", "TCP", "RR", health, groups)]);
            var st := Status(Some("lb1"), [CreatedListener("l1", 80, "l")], [CreatedPool("p1", "p", [CreatedGroup("g1", "ours", [])])]);
            var after := DeletedFrom(st, map["lb1" := lb], "lb1");
            "lb1" in after && "l1" in after["lb1"].listeners && !HoldsMember(after["lb1"].pools, "p1", "g1", foreign)
  {
    var foreign := LiveMember("m", "10.0.0.9", 80, "net", false, 80, 1);
    var health := Health(TCP, 1, 1, 1, 1, None, None, None, None, None);
    var groups := map["g1" := Group("ours", "", "", "", 100, [foreign]), "g2" := Group("theirs", "", "", "", 100, [])];
    var listener := Listener("l", "TCP", 80, "p1", 1, 1, 1, "", None);
    var lb := LB("lb", "", map["l1" := listener], map["p1" := Pool("p", "TCP", "RR", health, groups)]);
    var record := CreatedPool("p1", "p", [CreatedGroup("g1", "ours", [])]);
    var st := Status(Some("lb1"), [CreatedListener("l1", 80, "l")], [record]);
    assert FindPool(st.pools, "p1") == Some(record) && st.pools[0].id == "p1";
    assert record.groups[0] in record.groups && OwnedGroups(record.groups)["ours"] == {};
    assert groups["g1"].members[0] == foreign;
    assert HoldsMember(lb.pools, "p1", "g1", foreign);
    assert groups["g2"].name !in RecordedNames(st, "p1");
    assert LiveKeyOf(foreign) in LiveKeys(groups["g1"].members);
    assert !PoolCovered(st, lb.pools, "p1");
    MemberLostExactlyWhen(st, lb, "p1", "g1", foreign);
    DoomedIsOurs(st, lb, "l1");
  }

  /** A listener that is on record twice and is to go: no delete pass of this configuration succeeds. */
  lemma RecordedTwiceExample(st: Status, lb: LB)
    requires lb == LB("lb", "", map["l1" := Listener("l", "TCP", 80, NO_ID, 1, 1, 1, "", None),
                                    "l2" := Listener("m", "TCP", 81, NO_ID, 1, 1, 1, "", None)], map[])
    requires st == Status(Some("lb1"), [CreatedListener("l1", 80, "l"), CreatedListener("l1", 80, "l")], [])
    ensures LbIntegrity(lb) && !DeletableOnce(st, map["lb1" := lb], "lb1")
  {
    assert "l2" in lb.listeners && !RecordsListener(st, "l2");
    assert DL.Doomed(st, lb, st.listeners[0].id, [], []) && st.listeners[0].id == st.listeners[1].id;
  }
}
