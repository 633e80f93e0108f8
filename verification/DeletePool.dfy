/** Deleting the pools and groups a configuration created and no longer wants (delete_pool.go). */
module DeletePool {
  import opened GlbTypes
  import opened Equality
  import opened Protocol
  import opened CloudApi

  function NewNames(newPools: seq<CreatedPool>, id: Id): set<string> {
    var r := FindPool(newPools, id);
    if r.Some? then GroupNames(r.value.groups) else {}
  }

  /** The groups recorded for the pool and not wanted any more. */
  function Redundant(st: Status, pool: Id, groups: map<Id, Group>, newPools: seq<CreatedPool>): set<Id> {
    set g | g in groups && groups[g].name in RecordedNames(st, pool) && groups[g].name !in NewNames(newPools, pool)
  }

  predicate Doomed(st: Status, lb: LB, id: Id, newPools: seq<CreatedPool>) {
    && id in lb.pools && !PoolInUse(lb, id)
    && Redundant(st, id, lb.pools[id].groups, newPools) == lb.pools[id].groups.Keys
  }

  /** Only the redundant groups go, and none of them when there is nothing else in the pool. */
  function Trimmed(st: Status, id: Id, pool: Pool, newPools: seq<CreatedPool>): Pool {
    var redundant := Redundant(st, id, pool.groups, newPools);
    if redundant == pool.groups.Keys then pool else pool.(groups := pool.groups - redundant)
  }

  /** The pools after the candidates in `done` were handled. */
  function SweptBy(st: Status, lb: LB, newPools: seq<CreatedPool>, done: set<Id>): map<Id, Pool> {
    map p | p in lb.pools && !(p in done && Doomed(st, lb, p, newPools)) ::
      if p in done then Trimmed(st, p, lb.pools[p], newPools) else lb.pools[p]
  }

  function RecordedIds(pools: seq<CreatedPool>): set<Id> {
    set p | p in pools :: p.id
  }

  function SweptPools(st: Status, lb: LB, newPools: seq<CreatedPool>): map<Id, Pool> {
    SweptBy(st, lb, newPools, RecordedIds(st.pools))
  }

  predicate SweepsNothing(st: Status, lb: LB, newPools: seq<CreatedPool>) {
    SweptPools(st, lb, newPools) == lb.pools
  }

  /**
   Sorts the live groups into those to keep and those to delete. The whole pool can go when
   nothing is to be kept.
   */
  method CanDeleteWholePool(c: Cloud, lb: Id, id: Id, newPools: seq<CreatedPool>)
    returns (ok: bool, whole: bool, removed: set<Id>)
    modifies c`faults
    ensures old(c.faults) <= c.faults
    ensures !ok ==> c.Faulty() || lb !in c.w.lbs || id !in c.w.lbs[lb].pools
    ensures ok ==> lb in c.w.lbs && id in c.w.lbs[lb].pools
    ensures ok ==> var groups := c.w.lbs[lb].pools[id].groups;
                   && (whole <==> Redundant(c.w.snap, id, groups, newPools) == groups.Keys)
                   && removed == if whole then {} else Redundant(c.w.snap, id, groups, newPools)
  {
    var listed := c.ListGroups(lb, id);
    if listed.None? {
      return false, false, {};
    }
    var groups := listed.value;
    var createdNames, newNames := RecordedNames(c.w.snap, id), NewNames(newPools, id);
    var keep: seq<Id>, redundant: set<Id> := [], {};
    for i := 0 to |groups.ids|
      invariant redundant == set k | 0 <= k < i && groups.at[groups.ids[k]].name in createdNames
                                             && groups.at[groups.ids[k]].name !in newNames :: groups.ids[k]
      invariant forall k :: 0 <= k < i && groups.ids[k] !in redundant ==> groups.ids[k] in keep
      invariant forall g :: g in keep ==>
        g in groups.ids && (groups.at[g].name in newNames || groups.at[g].name !in createdNames)
    {
      assert groups.ids[i] in groups.ids;
      var name := groups.at[groups.ids[i]].name;
      if name in newNames || name !in createdNames {
        keep := keep + [groups.ids[i]];
      } else {
        redundant := redundant + {groups.ids[i]};
      }
    }
    assert redundant == Redundant(c.w.snap, id, groups.at, newPools);
    if keep == [] {
      assert groups.at.Keys <= redundant;
      return true, true, {};
    }
    assert keep[0] in keep;
    return true, false, redundant;
  }

  /** A second look at a pool changes nothing: what was redundant in it is already gone. */
  lemma TrimmedTwice(st: Status, id: Id, pool: Pool, newPools: seq<CreatedPool>)
    requires Redundant(st, id, pool.groups, newPools) != pool.groups.Keys
    ensures var trimmed := Trimmed(st, id, pool, newPools);
            Redundant(st, id, trimmed.groups, newPools) == {} && trimmed.groups.Keys != {}
  {
    var g :| g in pool.groups && g !in Redundant(st, id, pool.groups, newPools);
    assert g in Trimmed(st, id, pool, newPools).groups;
  }

  /** What handling one more candidate does, read off the pools as they are now. */
  lemma SweptStep(st: Status, lb: LB, newPools: seq<CreatedPool>, done: set<Id>, id: Id)
    requires id in lb.pools && id in SweptBy(st, lb, newPools, done)
    ensures var now := SweptBy(st, lb, newPools, done);
            var redundant := Redundant(st, id, now[id].groups, newPools);
            SweptBy(st, lb, newPools, done + {id}) ==
            if redundant == now[id].groups.Keys then (if PoolInUse(lb, id) then now else now - {id})
            else if redundant == {} then now
            else now[id := now[id].(groups := now[id].groups - redundant)]
  {
    var now, next := SweptBy(st, lb, newPools, done), SweptBy(st, lb, newPools, done + {id});
    var pool := lb.pools[id];
    if id in done {
      assert done + {id} == done;
      if Redundant(st, id, pool.groups, newPools) != pool.groups.Keys {
        TrimmedTwice(st, id, pool, newPools);
      }
    } else {
      assert now[id] == pool;
      assert forall p :: p in lb.pools && p != id ==> (p in now <==> p in next) && (p in now ==> now[p] == next[p]);
      if Redundant(st, id, pool.groups, newPools) == {} {
        assert pool.groups - {} == pool.groups;
      }
    }
  }

  method DropPool(c: Cloud, lb: Id, id: Id) returns (ok: bool)
    requires c.Valid() && Works(c.w, lb) && MayDelete(c.w, lb) && RecordsPool(c.w.snap, id)
    requires lb in c.w.lbs && id in c.w.lbs[lb].pools && !PoolInUse(c.w.lbs[lb], id)
    requires forall g :: g in c.w.lbs[lb].pools[id].groups ==>
               c.w.lbs[lb].pools[id].groups[g].name in RecordedNames(c.w.snap, id)
    modifies c
    ensures c.Continues() && Shrinks(old(c.w), c.w) && (!ok ==> c.Faulty())
    ensures ok ==> c.w == SetLb(old(c.w), lb, old(c.w).lbs[lb].(pools := old(c.w).lbs[lb].pools - {id}))
  {
    ok := c.Try(Act.DeletePool(lb, id));
    if ok {
      ok := c.Wait();
    }
  }

  method TrimPool(c: Cloud, lb: Id, id: Id, removed: set<Id>) returns (ok: bool)
    requires c.Valid() && Works(c.w, lb) && MayDelete(c.w, lb) && lb in c.w.lbs && id in c.w.lbs[lb].pools
    requires removed <= c.w.lbs[lb].pools[id].groups.Keys
    requires forall g :: g in removed ==> c.w.lbs[lb].pools[id].groups[g].name in RecordedNames(c.w.snap, id)
    modifies c
    ensures c.Continues() && Shrinks(old(c.w), c.w) && (!ok ==> c.Faulty())
    ensures ok ==> var pools := old(c.w).lbs[lb].pools;
                   c.w == SetLb(old(c.w), lb,
                     old(c.w).lbs[lb].(pools := pools[id := pools[id].(groups := pools[id].groups - removed)]))
  {
    PatchRemoves(c.w.lbs[lb].pools[id].groups, removed);
    ok := c.Try(PatchGroups(lb, id, map[], map[], removed));
    if ok {
      ok := c.Wait();
    }
  }

  /** One recorded pool that was there. `lb0` is the load balancer at the start, `done` the candidates handled since. */
  method DeleteKnown(
    c: Cloud, lb: Id, id: Id, newPools: seq<CreatedPool>, inUse: bool, ghost lb0: LB, ghost done: set<Id>)
    returns (ok: bool)
    requires c.Valid() && Works(c.w, lb) && MayDelete(c.w, lb) && RecordsPool(c.w.snap, id) && lb in c.w.lbs
    requires c.w.lbs[lb] == lb0.(pools := SweptBy(c.w.snap, lb0, newPools, done)) && id in lb0.pools
    requires inUse <==> PoolInUse(lb0, id)
    modifies c
    ensures c.Continues() && Shrinks(old(c.w), c.w)
    ensures ok ==> c.w == SetLb(old(c.w), lb, lb0.(pools := SweptBy(c.w.snap, lb0, newPools, done + {id})))
    ensures SweptBy(c.w.snap, lb0, newPools, done + {id}) == SweptBy(c.w.snap, lb0, newPools, done) == lb0.pools ==>
              c.Untouched()
    ensures !ok ==> c.Faulty() || (id in done && Doomed(c.w.snap, lb0, id, newPools))
    ensures ok && id in done ==> !Doomed(c.w.snap, lb0, id, newPools)
  {
    SetLbTwice(c.w, lb, c.w.lbs[lb], c.w.lbs[lb]);
    var whole, removed;
    ok, whole, removed := CanDeleteWholePool(c, lb, id, newPools);
    if !ok {
      return;
    }
    SweptStep(c.w.snap, lb0, newPools, done, id);
    if !inUse && whole {
      ok := DropPool(c, lb, id);
    } else if removed != {} {
      ok := TrimPool(c, lb, id, removed);
    }
  }

  lemma AbsentNotSwept(st: Status, lb: LB, newPools: seq<CreatedPool>, done: set<Id>, id: Id)
    requires id !in lb.pools
    ensures SweptBy(st, lb, newPools, done + {id}) == SweptBy(st, lb, newPools, done)
    ensures !Doomed(st, lb, id, newPools)
  {
  }

  /** One recorded pool, which may not have been there. */
  method DeleteCandidate(
    c: Cloud, lb: Id, id: Id, newPools: seq<CreatedPool>, exists0: bool, inUse: bool,
    ghost lb0: LB, ghost done: set<Id>) returns (ok: bool)
    requires c.Valid() && Works(c.w, lb) && MayDelete(c.w, lb) && RecordsPool(c.w.snap, id) && lb in c.w.lbs
    requires c.w.lbs[lb] == lb0.(pools := SweptBy(c.w.snap, lb0, newPools, done))
    requires done <= RecordedIds(c.w.snap.pools)
    requires exists0 <==> id in lb0.pools
    requires inUse <==> PoolInUse(lb0, id)
    modifies c
    ensures c.Continues() && Shrinks(old(c.w), c.w)
    ensures ok ==> c.w == SetLb(old(c.w), lb, lb0.(pools := SweptBy(c.w.snap, lb0, newPools, done + {id})))
    ensures SweepsNothing(c.w.snap, lb0, newPools) ==> c.Untouched()
    ensures !ok ==> c.Faulty() || (id in done && Doomed(c.w.snap, lb0, id, newPools))
    ensures ok && id in done ==> !Doomed(c.w.snap, lb0, id, newPools)
  {
    NothingSweptNext(c.w.snap, lb0, newPools, done, id);
    if !exists0 {
      SetLbTwice(c.w, lb, c.w.lbs[lb], c.w.lbs[lb]);
      AbsentNotSwept(c.w.snap, lb0, newPools, done, id);
      return true;
    }
    ok := DeleteKnown(c, lb, id, newPools, inUse, lb0, done);
  }

  /** If the whole sweep changes nothing, no part of it does. */
  lemma NothingSwept(st: Status, lb: LB, newPools: seq<CreatedPool>, done: set<Id>)
    requires SweepsNothing(st, lb, newPools) && done <= RecordedIds(st.pools)
    ensures SweptBy(st, lb, newPools, done) == lb.pools
  {
    var all := SweptPools(st, lb, newPools);
    forall p | p in lb.pools && p in done
      ensures !Doomed(st, lb, p, newPools) && Trimmed(st, p, lb.pools[p], newPools) == lb.pools[p]
    {
      assert p in all && all[p] == Trimmed(st, p, lb.pools[p], newPools);
    }
  }

  lemma NothingSweptNext(st: Status, lb: LB, newPools: seq<CreatedPool>, done: set<Id>, id: Id)
    requires done <= RecordedIds(st.pools) && RecordsPool(st, id)
    ensures SweepsNothing(st, lb, newPools) ==>
              SweptBy(st, lb, newPools, done + {id}) == SweptBy(st, lb, newPools, done) == lb.pools
  {
    if SweepsNothing(st, lb, newPools) {
      RecordedIdsAre(st, id);
      NothingSwept(st, lb, newPools, done);
      NothingSwept(st, lb, newPools, done + {id});
    }
  }

  lemma RecordedIdsAre(st: Status, id: Id)
    ensures id in RecordedIds(st.pools) <==> RecordsPool(st, id)
  {
    if RecordsPool(st, id) {
      var i :| 0 <= i < |st.pools| && st.pools[i].id == id;
      assert st.pools[i] in st.pools;
    }
  }

  lemma SurvivesExactlyWhen(st: Status, lb: LB, newPools: seq<CreatedPool>, id: Id)
    requires id in lb.pools
    ensures id in SweptPools(st, lb, newPools) <==> !RecordsPool(st, id) || !Doomed(st, lb, id, newPools)
  {
    RecordedIdsAre(st, id);
  }

  lemma RecordedIdsPrefix(pools: seq<CreatedPool>, i: nat)
    requires i < |pools|
    ensures RecordedIds(pools[..i + 1]) == RecordedIds(pools[..i]) + {pools[i].id}
    ensures RecordedIds(pools[..i]) <= RecordedIds(pools)
  {
    assert pools[..i + 1] == pools[..i] + [pools[i]];
    assert forall x :: x in pools[..i + 1] <==> x in pools[..i] || x == pools[i];
  }

  /** No pool that is to go is on record twice: the second look at it would fail. */
  predicate DoomedOnce(st: Status, lb: LB, records: seq<CreatedPool>, newPools: seq<CreatedPool>) {
    forall i, j :: 0 <= i < j < |records| ==> !Repeats(st, lb, records, i, j, newPools)
  }

  predicate Repeats(st: Status, lb: LB, records: seq<CreatedPool>, i: nat, j: nat, newPools: seq<CreatedPool>)
    requires i < |records| && j < |records|
  {
    records[i].id == records[j].id && Doomed(st, lb, records[i].id, newPools)
  }

  lemma DoomedOnceNext(st: Status, lb: LB, records: seq<CreatedPool>, n: nat, newPools: seq<CreatedPool>)
    requires n < |records| && DoomedOnce(st, lb, records[..n], newPools)
    ensures DoomedOnce(st, lb, records[..n + 1], newPools) <==>
            !(records[n].id in RecordedIds(records[..n]) && Doomed(st, lb, records[n].id, newPools))
    ensures !DoomedOnce(st, lb, records[..n + 1], newPools) ==> !DoomedOnce(st, lb, records, newPools)
  {
    var id, less, more := records[n].id, records[..n], records[..n + 1];
    if id in RecordedIds(less) && Doomed(st, lb, id, newPools) {
      var r :| r in less && r.id == id;
      var i :| 0 <= i < n && records[i] == r;
      assert Repeats(st, lb, more, i, n, newPools) && Repeats(st, lb, records, i, n, newPools);
    } else {
      forall i, j | 0 <= i < j < |more| ensures !Repeats(st, lb, more, i, j, newPools) {
        assert more[i] == less[i] && less[i] in less;
        if j < n { assert !Repeats(st, lb, less, i, j, newPools); }
      }
    }
    if !DoomedOnce(st, lb, more, newPools) {
      var i, j :| 0 <= i < j < |more| && Repeats(st, lb, more, i, j, newPools);
      assert Repeats(st, lb, records, i, j, newPools);
    }
  }

  lemma DistinctDoomedOnce(st: Status, lb: LB, records: seq<CreatedPool>, newPools: seq<CreatedPool>)
    requires DistinctPoolIds(records)
    ensures DoomedOnce(st, lb, records, newPools)
  {
  }

  lemma PatchRemoves(groups: map<Id, Group>, removed: set<Id>)
    ensures PatchedGroups(groups, map[], map[], removed) == groups - removed
  {
  }

  /** The load balancer when the first n recorded pools have been dealt with. */
  function AfterFirst(w0: World, lb: Id, n: nat, newPools: seq<CreatedPool>): World
    requires lb in w0.lbs && n <= |w0.snap.pools|
  {
    SetLb(w0, lb, w0.lbs[lb].(pools := SweptBy(w0.snap, w0.lbs[lb], newPools, RecordedIds(w0.snap.pools[..n]))))
  }

  /** So far none of them was doomed and listed before. */
  ghost predicate SweptTo(w0: World, w: World, lb: Id, n: nat, newPools: seq<CreatedPool>) {
    var all :=
      && lb in w0.lbs && n <= |w0.snap.pools| && w == AfterFirst(w0, lb, n, newPools)
      && DoomedOnce(w0.snap, w0.lbs[lb], w0.snap.pools[..n], newPools);
    all
  }

  /** The i-th recorded pool. */
  method DeleteNext(
    c: Cloud, lb: Id, i: nat, pools: Listing<Pool>, listeners: Listing<Listener>, newPools: seq<CreatedPool>,
    ghost w0: World) returns (ok: bool)
    requires c.Valid() && Works(w0, lb) && MayDelete(w0, lb) && SweptTo(w0, c.w, lb, i, newPools)
    requires i < |c.w.snap.pools| && pools.at == w0.lbs[lb].pools && listeners.at == w0.lbs[lb].listeners
    modifies c
    ensures c.Continues() && Shrinks(old(c.w), c.w) && (ok ==> SweptTo(w0, c.w, lb, i + 1, newPools))
    ensures !ok ==> c.Faulty() || !DoomedOnce(w0.snap, w0.lbs[lb], w0.snap.pools, newPools)
    ensures SweepsNothing(w0.snap, w0.lbs[lb], newPools) ==> c.Untouched()
  {
    var records := c.w.snap.pools;
    var id := records[i].id;
    ghost var lb0, done := w0.lbs[lb], RecordedIds(records[..i]);
    assert records[i] in records;
    RecordedIdsPrefix(records, i);
    DoomedOnceNext(w0.snap, lb0, records, i, newPools);
    SetLbTwice(w0, lb, lb0.(pools := SweptBy(w0.snap, lb0, newPools, done)),
               lb0.(pools := SweptBy(w0.snap, lb0, newPools, done + {id})));
    var inUse := exists l :: l in listeners.at && listeners.at[l].poolId == id;
    ok := DeleteCandidate(c, lb, id, newPools, id in pools.at, inUse, lb0, done);
  }

  lemma NothingYet(w: World, lb: Id, newPools: seq<CreatedPool>)
    requires lb in w.lbs
    ensures AfterFirst(w, lb, 0, newPools) == w
  {
    SetLbTwice(w, lb, w.lbs[lb], w.lbs[lb]);
    assert RecordedIds(w.snap.pools[..0]) == {};
    assert SweptBy(w.snap, w.lbs[lb], newPools, {}) == w.lbs[lb].pools;
  }

  /** The loop over the recorded pools. */
  method DeleteAll(
    c: Cloud, lb: Id, pools: Listing<Pool>, listeners: Listing<Listener>, newPools: seq<CreatedPool>, ghost w0: World)
    returns (ok: bool)
    requires c.Valid() && c.w == w0 && Works(c.w, lb) && MayDelete(c.w, lb) && lb in w0.lbs
    requires pools.at == w0.lbs[lb].pools && listeners.at == w0.lbs[lb].listeners
    modifies c
    ensures c.Continues() && Shrinks(w0, c.w)
    ensures ok ==> SweptTo(w0, c.w, lb, |w0.snap.pools|, newPools)
    ensures !ok ==> c.Faulty() || !DoomedOnce(w0.snap, w0.lbs[lb], w0.snap.pools, newPools)
    ensures SweepsNothing(w0.snap, w0.lbs[lb], newPools) ==> c.Untouched()
  {
    NothingYet(w0, lb, newPools);
    for i := 0 to |c.w.snap.pools|
      invariant c.Continues() && Shrinks(w0, c.w) && SweptTo(w0, c.w, lb, i, newPools)
      invariant SweepsNothing(w0.snap, w0.lbs[lb], newPools) ==> c.Untouched()
    {
      ok := DeleteNext(c, lb, i, pools, listeners, newPools, w0);
      if !ok {
        return;
      }
    }
    ok := true;
  }

  lemma WholeSweep(w: World, lb: Id, newPools: seq<CreatedPool>)
    requires lb in w.lbs
    ensures w.snap.pools[..|w.snap.pools|] == w.snap.pools
    ensures AfterFirst(w, lb, |w.snap.pools|, newPools) ==
            SetLb(w, lb, w.lbs[lb].(pools := SweptPools(w.snap, w.lbs[lb], newPools)))
  {
    assert w.snap.pools[..|w.snap.pools|] == w.snap.pools;
  }

  /** The group is somebody else's, or the new record of the pool lists it. */
  ghost predicate Keeps(st: Status, newPools: seq<CreatedPool>, p: Id, name: string) {
    || name !in RecordedNames(st, p)
    || (FindPool(newPools, p).Some? &&
        exists k :: 0 <= k < |FindPool(newPools, p).value.groups| && FindPool(newPools, p).value.groups[k].name == name)
  }

  /** Some group of the pool is kept. */
  ghost predicate KeepsSome(st: Status, newPools: seq<CreatedPool>, p: Id, pool: Pool) {
    exists g :: g in pool.groups && Keeps(st, newPools, p, pool.groups[g].name)
  }

  lemma KeepsUnlessRedundant(st: Status, newPools: seq<CreatedPool>, p: Id, groups: map<Id, Group>, g: Id)
    requires g in groups
    ensures Keeps(st, newPools, p, groups[g].name) <==> g !in Redundant(st, p, groups, newPools)
  {
    var found := FindPool(newPools, p);
    if found.Some? && groups[g].name in GroupNames(found.value.groups) {
      var x :| x in found.value.groups && x.name == groups[g].name;
      var k :| 0 <= k < |found.value.groups| && found.value.groups[k] == x;
    }
  }

  /**
   A pool survives the sweep exactly when it is not on record, a listener uses it, or it holds a group
   that is kept. A recorded one then has exactly the kept groups, if there are any.
   */
  lemma SweptPoolsExactly(st: Status, lb: LB, newPools: seq<CreatedPool>, p: Id)
    requires p in lb.pools
    ensures p in SweptPools(st, lb, newPools) <==>
            || !RecordsPool(st, p)
            || (exists l :: l in lb.listeners && lb.listeners[l].poolId == p)
            || KeepsSome(st, newPools, p, lb.pools[p])
    ensures p in SweptPools(st, lb, newPools) ==>
              var pool, after := lb.pools[p], SweptPools(st, lb, newPools)[p];
              if RecordsPool(st, p) && KeepsSome(st, newPools, p, pool)
              then after == pool.(groups := after.groups)
                   && (forall g :: g in after.groups <==> g in pool.groups && Keeps(st, newPools, p, pool.groups[g].name))
                   && (forall g :: g in after.groups ==> after.groups[g] == pool.groups[g])
              else after == pool
  {
    var groups := lb.pools[p].groups;
    forall g | g in groups ensures Keeps(st, newPools, p, groups[g].name) <==> g !in Redundant(st, p, groups, newPools) {
      KeepsUnlessRedundant(st, newPools, p, groups, g);
    }
    RecordedIdsAre(st, p);
    assert KeepsSome(st, newPools, p, lb.pools[p]) <==> Redundant(st, p, groups, newPools) != groups.Keys;
  }

  /** Nothing comes with the sweep. */
  lemma SweptPoolsAreThere(st: Status, lb: LB, newPools: seq<CreatedPool>)
    ensures SweptPools(st, lb, newPools).Keys <= lb.pools.Keys
  {
  }

  /** Runs over all recorded pools; live pools and listeners are read once, at the start. */
  method DeleteRedundantPools(c: Cloud, lb: Id, newPools: seq<CreatedPool>) returns (ok: bool)
    requires c.Valid() && Works(c.w, lb) && MayDelete(c.w, lb)
    modifies c
    ensures c.Continues() && Shrinks(old(c.w), c.w)
    ensures ok ==> lb in old(c.w).lbs && DoomedOnce(c.w.snap, old(c.w).lbs[lb], c.w.snap.pools, newPools)
    ensures !ok ==> c.Faulty() || lb !in old(c.w).lbs
                    || !DoomedOnce(c.w.snap, old(c.w).lbs[lb], c.w.snap.pools, newPools)
    ensures ok ==> c.w == SetLb(old(c.w), lb,
      old(c.w).lbs[lb].(pools := SweptPools(old(c.w).snap, old(c.w).lbs[lb], newPools)))
    ensures lb in old(c.w).lbs && SweepsNothing(old(c.w).snap, old(c.w).lbs[lb], newPools)
            ==> c.Untouched()
  {
    var pools := c.ListPools(lb);
    if pools.None? {
      return false;
    }
    var listeners := c.ListListeners(lb);
    if listeners.None? {
      return false;
    }
    WholeSweep(c.w, lb, newPools);
    ok := DeleteAll(c, lb, pools.value, listeners.value, newPools, c.w);
  }
}
