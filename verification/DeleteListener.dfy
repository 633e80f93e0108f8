/** Deleting the listeners a configuration created and no longer wants (delete_listener.go). */
module DeleteListener {
  import opened GlbTypes
  import opened Equality
  import opened Members
  import opened Protocol
  import opened CloudApi

  /** The listener has no pool, or a pool that the new spec dropped and that is ours throughout. */
  predicate Deletable(st: Status, pools: map<Id, Pool>, l: Listener, newPools: seq<CreatedPool>) {
    l.poolId == NO_ID || (!ListedPool(newPools, l.poolId) && ListenerOwned(st, pools, l))
  }

  predicate Doomed(
    st: Status, lb: LB, id: Id, newListeners: seq<CreatedListener>, newPools: seq<CreatedPool>)
  {
    id in lb.listeners && !ListedListener(newListeners, id) && Deletable(st, lb.pools, lb.listeners[id], newPools)
  }

  /** Those of the recorded listeners that go. */
  function DoomedListeners(
    st: Status, lb: LB, records: seq<CreatedListener>, newListeners: seq<CreatedListener>, newPools: seq<CreatedPool>)
    : set<Id>
  {
    set r | r in records && Doomed(st, lb, r.id, newListeners, newPools) :: r.id
  }

  function SweptListeners(
    st: Status, lb: LB, newListeners: seq<CreatedListener>, newPools: seq<CreatedPool>): map<Id, Listener>
  {
    lb.listeners - DoomedListeners(st, lb, st.listeners, newListeners, newPools)
  }

  /** Fills the map from group name to owned addresses. */
  method BuildOwnedGroups(groups: seq<CreatedGroup>) returns (owned: map<string, set<Key>>)
    ensures owned == OwnedGroups(groups)
  {
    owned := map[];
    for i := 0 to |groups|
      invariant owned == OwnedGroups(groups[..i])
    {
      var members: set<Key> := {};
      for j := 0 to |groups[i].members|
        invariant members == Keys(groups[i].members[..j])
      {
        assert groups[i].members[..j + 1] == groups[i].members[..j] + [groups[i].members[j]];
        KeysAppend(groups[i].members[..j], groups[i].members[j]);
        members := members + {KeyOf(groups[i].members[j])};
      }
      assert groups[i].members[..|groups[i].members|] == groups[i].members;
      assert groups[..i + 1][..i] == groups[..i];
      owned := owned[groups[i].name := members];
    }
    assert groups[..|groups|] == groups;
  }

  /** Checks each live group and each of its members against the owned addresses. */
  method OwnsAll(owned: map<string, set<Key>>, groups: Listing<Group>) returns (all: bool)
    requires Lists(groups)
    ensures all <==> forall g :: g in groups.at ==>
                       groups.at[g].name in owned && LiveKeys(groups.at[g].members) <= owned[groups.at[g].name]
  {
    for i := 0 to |groups.ids|
      invariant forall k :: 0 <= k < i ==>
        var g := groups.at[groups.ids[k]]; g.name in owned && LiveKeys(g.members) <= owned[g.name]
    {
      assert groups.ids[i] in groups.ids;
      var g := groups.at[groups.ids[i]];
      if g.name !in owned {
        return false;
      }
      for j := 0 to |g.members|
        invariant forall k :: 0 <= k < j ==> LiveKeyOf(g.members[k]) in owned[g.name]
      {
        if LiveKeyOf(g.members[j]) !in owned[g.name] {
          assert g.members[j] in g.members;
          assert LiveKeyOf(g.members[j]) in LiveKeys(g.members);
          return false;
        }
      }
    }
    return true;
  }

  method CanDeleteWholeListener(c: Cloud, lb: Id, l: Listener, newPools: seq<CreatedPool>) returns (r: Option<bool>)
    modifies c`faults
    ensures old(c.faults) <= c.faults
    ensures r.None? ==> c.Faulty() || (lb in c.w.lbs ==> !PoolExistsOrNone(c.w.lbs[lb], l.poolId))
    ensures r.Some? && lb in c.w.lbs ==> (r.value <==> Deletable(c.w.snap, c.w.lbs[lb].pools, l, newPools))
  {
    if l.poolId == NO_ID {
      return Some(true);
    }
    if ListedPool(newPools, l.poolId) {
      return Some(false);
    }
    var record := FindPool(c.w.snap.pools, l.poolId);
    if record.None? {
      return Some(false);
    }
    var groups := c.ListGroups(lb, l.poolId);
    if groups.None? {
      return None;
    }
    var owned := BuildOwnedGroups(record.value.groups);
    var all := OwnsAll(owned, groups.value);
    return Some(all);
  }

  /** One recorded listener. `lb0` is the load balancer at the start, `gone` what was deleted since. */
  method DeleteCandidate(
    c: Cloud, lb: Id, candidate: Id, current: Listing<Listener>,
    newListeners: seq<CreatedListener>, newPools: seq<CreatedPool>, ghost lb0: LB, ghost gone: set<Id>)
    returns (ok: bool)
    requires c.Valid() && Works(c.w, lb) && MayDelete(c.w, lb) && RecordsListener(c.w.snap, candidate)
    requires lb in c.w.lbs && c.w.lbs[lb] == lb0.(listeners := lb0.listeners - gone)
    requires Lists(current) && current.at == lb0.listeners
    modifies c
    ensures c.Continues() && Shrinks(old(c.w), c.w)
    ensures ok && Doomed(c.w.snap, lb0, candidate, newListeners, newPools) ==>
      c.w == SetLb(old(c.w), lb, lb0.(listeners := lb0.listeners - (gone + {candidate})))
    ensures !Doomed(c.w.snap, lb0, candidate, newListeners, newPools) ==> c.Untouched()
    ensures !ok ==> c.Faulty() || candidate in gone || !LbIntegrity(lb0)
    ensures ok && candidate in gone ==> !Doomed(c.w.snap, lb0, candidate, newListeners, newPools)
  {
    if candidate !in current.at {
      return true;
    }
    var can := CanDeleteWholeListener(c, lb, current.at[candidate], newPools);
    if can.None? {
      return false;
    }
    if !ListedListener(newListeners, candidate) && can.value {
      assert lb0.listeners - gone - {candidate} == lb0.listeners - (gone + {candidate});
      ok := c.Try(Act.DeleteListener(lb, candidate));
      if ok {
        ok := c.Wait();
      }
    } else {
      ok := true;
    }
  }

  lemma DoomedAppend(
    st: Status, lb: LB, records: seq<CreatedListener>, r: CreatedListener,
    newListeners: seq<CreatedListener>, newPools: seq<CreatedPool>)
    ensures var before := DoomedListeners(st, lb, records, newListeners, newPools);
            DoomedListeners(st, lb, records + [r], newListeners, newPools) ==
            if Doomed(st, lb, r.id, newListeners, newPools) then before + {r.id} else before
  {
    assert forall x :: x in records + [r] <==> x in records || x == r;
  }

  /** No listener that is to go is on record twice: the second attempt to delete it would fail. */
  predicate DoomedOnce(
    st: Status, lb: LB, records: seq<CreatedListener>, newListeners: seq<CreatedListener>, newPools: seq<CreatedPool>)
  {
    forall i, j :: 0 <= i < j < |records| && records[i].id == records[j].id ==>
      !Doomed(st, lb, records[i].id, newListeners, newPools)
  }

  lemma DoomedOnceNext(
    st: Status, lb: LB, records: seq<CreatedListener>, n: nat, newListeners: seq<CreatedListener>, newPools: seq<CreatedPool>)
    requires n < |records| && DoomedOnce(st, lb, records[..n], newListeners, newPools)
    ensures DoomedOnce(st, lb, records[..n + 1], newListeners, newPools) <==>
            records[n].id !in DoomedListeners(st, lb, records[..n], newListeners, newPools)
    ensures !DoomedOnce(st, lb, records[..n + 1], newListeners, newPools) ==>
            !DoomedOnce(st, lb, records, newListeners, newPools)
  {
    var id, less, more := records[n].id, records[..n], records[..n + 1];
    if id in DoomedListeners(st, lb, less, newListeners, newPools) {
      var r :| r in less && r.id == id && Doomed(st, lb, r.id, newListeners, newPools);
      var i :| 0 <= i < n && records[i] == r;
      assert more[i].id == more[n].id && records[i].id == records[n].id;
    } else {
      forall i, j | 0 <= i < j < n + 1 && more[i].id == more[j].id
        ensures !Doomed(st, lb, more[i].id, newListeners, newPools)
      {
        assert more[i] == less[i] && less[i] in less;
        if j < n { assert more[j] == less[j]; }
      }
    }
  }

  lemma DistinctDoomedOnce(
    st: Status, lb: LB, records: seq<CreatedListener>, newListeners: seq<CreatedListener>, newPools: seq<CreatedPool>)
    requires DistinctListenerIds(records)
    ensures DoomedOnce(st, lb, records, newListeners, newPools)
  {
  }

  /** The load balancer when the first n recorded listeners have been dealt with. */
  function AfterFirst(
    w0: World, lb: Id, n: nat, newListeners: seq<CreatedListener>, newPools: seq<CreatedPool>): World
    requires lb in w0.lbs && n <= |w0.snap.listeners|
  {
    var lb0 := w0.lbs[lb];
    SetLb(w0, lb, lb0.(listeners :=
      lb0.listeners - DoomedListeners(w0.snap, lb0, w0.snap.listeners[..n], newListeners, newPools)))
  }

  /** The i-th recorded listener. */
  method DeleteNext(
    c: Cloud, lb: Id, i: nat, current: Listing<Listener>, newListeners: seq<CreatedListener>, newPools: seq<CreatedPool>,
    ghost w0: World) returns (ok: bool)
    requires c.Valid() && Works(c.w, lb) && MayDelete(c.w, lb) && lb in w0.lbs
    requires c.w.snap == w0.snap && i < |c.w.snap.listeners|
    requires DoomedOnce(w0.snap, w0.lbs[lb], w0.snap.listeners[..i], newListeners, newPools)
    requires Lists(current) && current.at == w0.lbs[lb].listeners
    requires c.w == AfterFirst(w0, lb, i, newListeners, newPools)
    modifies c
    ensures c.Continues() && Shrinks(old(c.w), c.w) && (ok ==> c.w == AfterFirst(w0, lb, i + 1, newListeners, newPools))
    ensures ok ==> DoomedOnce(w0.snap, w0.lbs[lb], w0.snap.listeners[..i + 1], newListeners, newPools)
    ensures !ok ==> c.Faulty() || !LbIntegrity(w0.lbs[lb])
                    || !DoomedOnce(w0.snap, w0.lbs[lb], w0.snap.listeners, newListeners, newPools)
    ensures DoomedListeners(w0.snap, w0.lbs[lb], w0.snap.listeners, newListeners, newPools) == {} ==> c.Untouched()
  {
    var records := c.w.snap.listeners;
    ghost var lb0 := w0.lbs[lb];
    ghost var gone := DoomedListeners(w0.snap, lb0, records[..i], newListeners, newPools);
    DoomedAppend(w0.snap, lb0, records[..i], records[i], newListeners, newPools);
    assert records[..i + 1] == records[..i] + [records[i]] && records[i] in records;
    DoomedOnceNext(w0.snap, lb0, records, i, newListeners, newPools);
    InDoomed(w0.snap, lb0, records, i, newListeners, newPools);
    SetLbTwice(w0, lb, lb0.(listeners := lb0.listeners - gone),
               lb0.(listeners := lb0.listeners - (gone + {records[i].id})));
    ok := DeleteCandidate(c, lb, records[i].id, current, newListeners, newPools, lb0, gone);
  }

  lemma InDoomed(
    st: Status, lb: LB, records: seq<CreatedListener>, i: nat, newListeners: seq<CreatedListener>, newPools: seq<CreatedPool>)
    requires i < |records|
    ensures Doomed(st, lb, records[i].id, newListeners, newPools) ==>
              records[i].id in DoomedListeners(st, lb, records, newListeners, newPools)
  {
    assert records[i] in records;
  }

  lemma NothingYet(w: World, lb: Id, newListeners: seq<CreatedListener>, newPools: seq<CreatedPool>)
    requires lb in w.lbs
    ensures AfterFirst(w, lb, 0, newListeners, newPools) == w
  {
    SetLbTwice(w, lb, w.lbs[lb], w.lbs[lb]);
    assert DoomedListeners(w.snap, w.lbs[lb], w.snap.listeners[..0], newListeners, newPools) == {};
    assert w.lbs[lb].listeners - {} == w.lbs[lb].listeners;
  }

  /** The loop over the recorded listeners. */
  method DeleteAll(
    c: Cloud, lb: Id, current: Listing<Listener>, newListeners: seq<CreatedListener>, newPools: seq<CreatedPool>,
    ghost w0: World) returns (ok: bool)
    requires c.Valid() && c.w == w0 && Works(c.w, lb) && MayDelete(c.w, lb) && lb in w0.lbs
    requires Lists(current) && current.at == w0.lbs[lb].listeners
    modifies c
    ensures c.Continues() && Shrinks(w0, c.w)
    ensures ok ==> c.w == AfterFirst(w0, lb, |w0.snap.listeners|, newListeners, newPools)
    ensures ok ==> DoomedOnce(w0.snap, w0.lbs[lb], w0.snap.listeners[..|w0.snap.listeners|], newListeners, newPools)
    ensures !ok ==> c.Faulty() || !LbIntegrity(w0.lbs[lb])
                    || !DoomedOnce(w0.snap, w0.lbs[lb], w0.snap.listeners, newListeners, newPools)
    ensures DoomedListeners(w0.snap, w0.lbs[lb], w0.snap.listeners, newListeners, newPools) == {} ==> c.Untouched()
  {
    NothingYet(w0, lb, newListeners, newPools);
    for i := 0 to |c.w.snap.listeners|
      invariant c.Continues() && Shrinks(w0, c.w) && Works(c.w, lb) && MayDelete(c.w, lb) && c.w.snap == w0.snap
      invariant c.w == AfterFirst(w0, lb, i, newListeners, newPools)
      invariant DoomedOnce(w0.snap, w0.lbs[lb], w0.snap.listeners[..i], newListeners, newPools)
      invariant DoomedListeners(w0.snap, w0.lbs[lb], w0.snap.listeners, newListeners, newPools) == {} ==> c.Untouched()
    {
      ok := DeleteNext(c, lb, i, current, newListeners, newPools, w0);
      if !ok {
        return;
      }
    }
    ok := true;
  }

  lemma WholeSweep(w: World, lb: Id, newListeners: seq<CreatedListener>, newPools: seq<CreatedPool>)
    requires lb in w.lbs
    ensures w.snap.listeners[..|w.snap.listeners|] == w.snap.listeners
    ensures AfterFirst(w, lb, |w.snap.listeners|, newListeners, newPools) ==
            SetLb(w, lb, w.lbs[lb].(listeners := SweptListeners(w.snap, w.lbs[lb], newListeners, newPools)))
  {
    assert w.snap.listeners[..|w.snap.listeners|] == w.snap.listeners;
  }

  /**
   A listener survives the sweep exactly when it is not on record, is built anew, or has a pool that is
   built anew or not ours down to each member; and then it is as it was.
   */
  lemma SweptListenersExactly(
    st: Status, lb: LB, newListeners: seq<CreatedListener>, newPools: seq<CreatedPool>, l: Id)
    requires l in lb.listeners
    ensures var after, pool := SweptListeners(st, lb, newListeners, newPools), lb.listeners[l].poolId;
            && (l in after <==>
                  || !RecordsListener(st, l)
                  || (exists i :: 0 <= i < |newListeners| && newListeners[i].id == l)
                  || (pool != "" && (exists i :: 0 <= i < |newPools| && newPools[i].id == pool))
                  || (pool != "" && !(pool in lb.pools && PoolCovered(st, lb.pools, pool))))
            && (l in after ==> after[l] == lb.listeners[l])
  {
    if RecordsListener(st, l) {
      var i :| 0 <= i < |st.listeners| && st.listeners[i].id == l;
      assert st.listeners[i] in st.listeners;
    }
  }

  /** Runs over all recorded listeners; the live list is read once, at the start. */
  method DeleteRedundantListeners(
    c: Cloud, lb: Id, newListeners: seq<CreatedListener>, newPools: seq<CreatedPool>) returns (ok: bool)
    requires c.Valid() && Works(c.w, lb) && MayDelete(c.w, lb)
    modifies c
    ensures c.Continues() && Shrinks(old(c.w), c.w)
    ensures ok ==> lb in old(c.w).lbs
                   && DoomedOnce(c.w.snap, old(c.w).lbs[lb], c.w.snap.listeners, newListeners, newPools)
    ensures !ok ==> c.Faulty() || lb !in old(c.w).lbs || !LbIntegrity(old(c.w).lbs[lb])
                    || !DoomedOnce(c.w.snap, old(c.w).lbs[lb], c.w.snap.listeners, newListeners, newPools)
    ensures ok ==> c.w == SetLb(old(c.w), lb,
      old(c.w).lbs[lb].(listeners := SweptListeners(old(c.w).snap, old(c.w).lbs[lb], newListeners, newPools)))
    ensures lb in old(c.w).lbs
            && DoomedListeners(old(c.w).snap, old(c.w).lbs[lb], old(c.w).snap.listeners, newListeners, newPools) == {}
            ==> c.Untouched()
  {
    var listed := c.ListListeners(lb);
    if listed.None? {
      return false;
    }
    WholeSweep(c.w, lb, newListeners, newPools);
    ok := DeleteAll(c, lb, listed.value, newListeners, newPools, c.w);
  }
}
