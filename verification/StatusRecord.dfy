/** Patches of the created-resource lists in the status (status.go). */
module StatusRecord {
  import opened GlbTypes
  import opened Equality
  import opened Protocol
  import opened CloudApi

  predicate HasPool(pools: seq<CreatedPool>, id: Id, name: string, groups: seq<CreatedGroup>) {
    exists i :: 0 <= i < |pools| && pools[i].id == id && pools[i].name == name && GroupsEqual(pools[i].groups, groups)
  }

  /** Every entry is the new one or stands where it stood. */
  predicate Extends(before: seq<CreatedPool>, after: seq<CreatedPool>, added: CreatedPool) {
    forall i :: 0 <= i < |after| ==> after[i] == added || (i < |before| && after[i] == before[i])
  }

  /** Finds the entry to keep, to overwrite, or appends one. */
  method UpsertPool(pools: seq<CreatedPool>, id: Id, name: string, groups: seq<CreatedGroup>)
    returns (changed: bool, result: seq<CreatedPool>)
    ensures !changed <==> HasPool(pools, id, name, groups)
    ensures !changed ==> result == pools
    ensures HasPool(result, id, name, groups)
    ensures Extends(pools, result, CreatedPool(id, name, groups))
    ensures OthersKept(pools, result, id)
    ensures DistinctPoolIds(pools) ==> DistinctPoolIds(result)
  {
    for i := 0 to |pools|
      invariant forall k :: 0 <= k < i ==>
        !(pools[k].id == id && pools[k].name == name && GroupsEqual(pools[k].groups, groups))
    {
      if pools[i].id == id && pools[i].name == name && GroupsEqual(pools[i].groups, groups) {
        return false, pools;
      }
    }
    GroupsEqualReflexive(groups);
    for i := 0 to |pools|
      invariant forall k :: 0 <= k < i ==> pools[k].id != id
    {
      if pools[i].id == id {
        result := pools[i := CreatedPool(id, name, groups)];
        forall x | ListedPool(pools, x) ensures ListedPool(result, x) {
          var k :| 0 <= k < |pools| && pools[k].id == x;
          assert result[k].id == x;
        }
        assert HasPool(result, id, name, groups) by { assert result[i].id == id; }
        forall p | p in pools && p.id != id ensures p in result {
          var k :| 0 <= k < |pools| && pools[k] == p;
          assert result[k] == p;
        }
        return true, result;
      }
    }
    result := pools + [CreatedPool(id, name, groups)];
    forall x | ListedPool(pools, x) ensures ListedPool(result, x) {
      var k :| 0 <= k < |pools| && pools[k].id == x;
      assert result[k].id == x;
    }
    assert HasPool(result, id, name, groups) by { assert result[|pools|].id == id; }
    return true, result;
  }

  /** The records of other pools stay, and this one's is not dropped. */
  ghost predicate OthersKept(before: seq<CreatedPool>, after: seq<CreatedPool>, id: Id) {
    && (forall p :: p in before && p.id != id ==> p in after)
    && PoolsStayListed(before, after)
  }

  ghost predicate PoolsStayListed(before: seq<CreatedPool>, after: seq<CreatedPool>) {
    forall id :: ListedPool(before, id) ==> ListedPool(after, id)
  }

  ghost predicate ListenersStayListed(before: seq<CreatedListener>, after: seq<CreatedListener>) {
    forall id :: ListedListener(before, id) ==> ListedListener(after, id)
  }

  /** The pool lives on `lb` and the spec asks for it and for the groups. */
  predicate Recordable(w: World, lb: Id, id: Id, groups: seq<CreatedGroup>) {
    && lb in w.lbs && id in w.lbs[lb].pools && WantsPool(w.spec, w.lbs[lb].pools[id].name)
    && forall k :: 0 <= k < |groups| ==> WantsGroup(w.spec, w.lbs[lb].pools[id].name, groups[k].name)
  }

  lemma ExtendedRecordAllowed(w: World, lb: Id, added: CreatedPool, pools: seq<CreatedPool>)
    requires IdsProper(w.lbs)
    requires Recordable(w, lb, added.id, added.groups) && Extends(w.status.pools, pools, added)
    ensures RecordAllowed(w, w.status.(pools := pools))
  {
    var st := w.status.(pools := pools);
    forall p | RecordsPool(st, p) && !RecordsPool(w.status, p) ensures p == added.id {
      var i :| 0 <= i < |st.pools| && st.pools[i].id == p;
      assert st.pools[i] == added;
    }
    forall p, g | RecordsGroup(st, p, g) && !RecordsGroup(w.status, p, g)
      ensures p == added.id && WantsGroup(w.spec, w.lbs[lb].pools[added.id].name, g)
    {
      var i, k :| 0 <= i < |st.pools| && st.pools[i].id == p
               && 0 <= k < |st.pools[i].groups| && st.pools[i].groups[k].name == g;
      assert st.pools[i] == added;
    }
    forall l ensures RecordsListener(st, l) ==> RecordsListener(w.status, l) {
    }
  }

  lemma TidyExtends(before: seq<CreatedPool>, after: seq<CreatedPool>, added: CreatedPool)
    requires Tidy(before) && TidyGroups(added.groups) && Extends(before, after, added) && DistinctPoolIds(after)
    ensures Tidy(after)
  {
    forall i | 0 <= i < |after| ensures TidyGroups(after[i].groups) {
      assert after[i] == added || after[i] == before[i];
    }
  }

  lemma PoolPatchAllowed(w: World, lb: Id, added: CreatedPool, pools: seq<CreatedPool>)
    requires IdsProper(w.lbs) && Recordable(w, lb, added.id, added.groups) && Extends(w.status.pools, pools, added)
    requires SpecRegular(w.spec) && Once(w.lbs) ==> TidyGroups(added.groups)
    requires DistinctPoolIds(w.status.pools) ==> DistinctPoolIds(pools)
    ensures Allowed(w, PatchStatus(w.status.(pools := pools)))
    ensures Tidy(w.status.pools) && TidyGroups(added.groups) ==> Tidy(pools)
  {
    ExtendedRecordAllowed(w, lb, added, pools);
    if Tidy(w.status.pools) && TidyGroups(added.groups) {
      TidyExtends(w.status.pools, pools, added);
    }
  }

  /** The status patch with the pool list in it. */
  method PatchPools(c: Cloud, ghost lb: Id, ghost added: CreatedPool, pools: seq<CreatedPool>) returns (ok: bool)
    requires c.Valid() && Recordable(c.w, lb, added.id, added.groups) && Extends(c.w.status.pools, pools, added)
    requires SpecRegular(c.w.spec) && Once(c.w.lbs) ==> TidyGroups(added.groups)
    requires DistinctPoolIds(c.w.status.pools) ==> DistinctPoolIds(pools)
    modifies c
    ensures c.Continues() && (c.w == old(c.w) || c.w == old(c.w).(status := old(c.w).status.(pools := pools)))
    ensures ok ==> c.w.status.pools == pools
    ensures !ok ==> c.Faulty() && c.Lapsed()
    ensures Tidy(old(c.w).status.pools) && TidyGroups(added.groups) ==> Tidy(c.w.status.pools)
  {
    c.HasProperIds();
    PoolPatchAllowed(c.w, lb, added, pools);
    ok := c.Try(PatchStatus(c.w.status.(pools := pools)));
  }

  /** Records a pool and its groups. Nothing is sent when the record already says so. */
  method StatusUpdatePool(c: Cloud, ghost lb: Id, id: Id, name: string, groups: seq<CreatedGroup>) returns (ok: bool)
    requires c.Valid() && Recordable(c.w, lb, id, groups)
    requires SpecRegular(c.w.spec) && Once(c.w.lbs) ==> TidyGroups(groups)
    modifies c
    ensures c.Continues() && c.w == old(c.w).(status := old(c.w).status.(pools := c.w.status.pools))
    ensures ok ==> HasPool(c.w.status.pools, id, name, groups)
    ensures !ok ==> c.Faulty() && c.Lapsed()
    ensures OthersKept(old(c.w).status.pools, c.w.status.pools, id)
    ensures HasPool(old(c.w).status.pools, id, name, groups) ==> c.Untouched()
    ensures Tidy(old(c.w).status.pools) && TidyGroups(groups) ==> Tidy(c.w.status.pools)
  {
    c.HasProperIds();
    if id == NO_ID {
      return false;
    }
    ok := c.Fetch();
    if !ok {
      return;
    }
    var changed, pools := UpsertPool(c.w.status.pools, id, name, groups);
    if !changed {
      return;
    }
    ok := PatchPools(c, lb, CreatedPool(id, name, groups), pools);
  }

  // ----- Listeners -----

  method UpsertListener(listeners: seq<CreatedListener>, r: CreatedListener)
    returns (changed: bool, result: seq<CreatedListener>)
    ensures !changed <==> r in listeners
    ensures !changed ==> result == listeners
    ensures r in result
    ensures forall i :: 0 <= i < |result| ==> result[i] == r || (i < |listeners| && result[i] == listeners[i])
    ensures DistinctListenerIds(listeners) ==> DistinctListenerIds(result)
    ensures ListenersStayListed(listeners, result)
  {
    for i := 0 to |listeners|
      invariant forall k :: 0 <= k < i ==> listeners[k] != r
    {
      if listeners[i] == r {
        return false, listeners;
      }
    }
    for i := 0 to |listeners|
      invariant forall k :: 0 <= k < i ==> listeners[k].id != r.id
    {
      if listeners[i].id == r.id {
        result := listeners[i := r];
        assert result[i] == r;
        forall x | ListedListener(listeners, x) ensures ListedListener(result, x) {
          var k :| 0 <= k < |listeners| && listeners[k].id == x;
          assert result[k].id == x;
        }
        return true, result;
      }
    }
    result := listeners + [r];
    forall x | ListedListener(listeners, x) ensures ListedListener(result, x) {
      var k :| 0 <= k < |listeners| && listeners[k].id == x;
      assert result[k].id == x;
    }
    return true, result;
  }

  lemma ListenerPatchAllowed(w: World, lb: Id, r: CreatedListener, listeners: seq<CreatedListener>)
    requires IdsProper(w.lbs) && lb in w.lbs && r.id in w.lbs[lb].listeners
    requires WantsPort(w.spec, w.lbs[lb].listeners[r.id].port)
    requires forall i :: 0 <= i < |listeners| ==>
               listeners[i] == r || (i < |w.status.listeners| && listeners[i] == w.status.listeners[i])
    requires DistinctListenerIds(w.status.listeners) ==> DistinctListenerIds(listeners)
    ensures Allowed(w, PatchStatus(w.status.(listeners := listeners)))
  {
    var st := w.status.(listeners := listeners);
    forall l | RecordsListener(st, l) && !RecordsListener(w.status, l) ensures l == r.id {
      var i :| 0 <= i < |listeners| && listeners[i].id == l;
      assert listeners[i] == r;
    }
    assert forall p :: RecordsPool(st, p) ==> RecordsPool(w.status, p);
    assert forall p, g :: RecordsGroup(st, p, g) ==> RecordsGroup(w.status, p, g);
  }

  method StatusAddListener(c: Cloud, ghost lb: Id, r: CreatedListener) returns (ok: bool)
    requires c.Valid() && lb in c.w.lbs && r.id in c.w.lbs[lb].listeners
    requires WantsPort(c.w.spec, c.w.lbs[lb].listeners[r.id].port)
    modifies c
    ensures c.Continues() && c.w == old(c.w).(status := old(c.w).status.(listeners := c.w.status.listeners))
    ensures ok ==> r in c.w.status.listeners
    ensures !ok ==> c.Faulty() && c.Lapsed()
    ensures ListenersStayListed(old(c.w).status.listeners, c.w.status.listeners)
    ensures r in old(c.w).status.listeners ==> c.Untouched()
    ensures DistinctListenerIds(old(c.w).status.listeners) ==> DistinctListenerIds(c.w.status.listeners)
  {
    c.HasProperIds();
    if r.id == NO_ID {
      return false;
    }
    ok := c.Fetch();
    if !ok {
      return;
    }
    var changed, listeners := UpsertListener(c.w.status.listeners, r);
    if !changed {
      return;
    }
    ListenerPatchAllowed(c.w, lb, r, listeners);
    ok := c.Try(PatchStatus(c.w.status.(listeners := listeners)));
  }
}
