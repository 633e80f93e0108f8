/** Deploying pools (deploy_pool.go). */
module DeployPool {
  import opened GlbTypes
  import opened Equality
  import opened Members
  import opened Diffs
  import opened Protocol
  import opened CloudApi
  import opened Growth
  import opened StatusRecord
  import opened DeployPoolMember

  /** Only pools of that name changed or appeared on `lb`; nothing disappeared. */
  predicate OnlyPoolsNamed(a: map<Id, LB>, b: map<Id, LB>, lb: Id, name: string) {
    var all :=
      && Grows(a, b, lb) && lb in a
      && b[lb].listeners == a[lb].listeners
      && (forall p :: p in a[lb].pools && a[lb].pools[p].name != name ==> b[lb].pools[p] == a[lb].pools[p])
      && (forall p :: p in b[lb].pools && p !in a[lb].pools ==> b[lb].pools[p].name == name);
    all
  }

  lemma OnlyPoolsNamedTransitive(a: map<Id, LB>, b: map<Id, LB>, c: map<Id, LB>, lb: Id, name: string)
    requires OnlyPoolsNamed(a, b, lb, name) && OnlyPoolsNamed(b, c, lb, name)
    ensures OnlyPoolsNamed(a, c, lb, name)
  {
    GrowsTransitive(a, b, c, lb);
  }

  /** Only records of live pools of that name were replaced or added, and none dropped. */
  ghost predicate RecordsKept(before: seq<CreatedPool>, after: seq<CreatedPool>, live: map<Id, Pool>, name: string) {
    var all :=
      && (forall p :: p in before && !(p.id in live && live[p.id].name == name) ==> p in after)
      && PoolsStayListed(before, after);
    all
  }

  /** Every pool that was not there before is on record. */
  predicate NewPoolsListed(before: map<Id, Pool>, after: map<Id, Pool>, record: seq<CreatedPool>) {
    forall p :: p in after && p !in before ==> ListedPool(record, p)
  }

  /** The record describes the live pool. */
  predicate PoolExact(pools: map<Id, Pool>, sp: PoolSpec, r: CreatedPool) {
    && r.id in pools && pools[r.id].name == sp.name && r.name == sp.name
    && GroupsExact(pools[r.id].groups, sp.groups, r.groups)
  }

  /** What a deployment makes of a pool: updated where it disagrees, groups one step on, or brand new. */
  predicate PoolStepped(
    cfg: Config, st: Status, sp: PoolSpec, id: Id, before: map<Id, Pool>, after: map<Id, Pool>)
  {
    && id in after
    && if id in before then
         && after[id] == (if PoolAgrees(sp, before[id]) then before[id] else PoolWanted(sp, before[id]))
                         .(groups := after[id].groups)
         && GroupsStepped(st, id, before[id].groups, sp.groups, after[id].groups)
       else
         && after[id] == NewPool(cfg, sp, after[id].groups)
         && UniqueGroups(after[id].groups)
         && forall g :: g in after[id].groups ==> FromSpec(sp.groups, after[id].groups[g])
  }

  /** Only pools of that name and their records changed. */
  ghost predicate PoolFrame(w: World, after: World, lb: Id, name: string) {
    var all :=
      && OnlyPoolsNamed(w.lbs, after.lbs, lb, name)
      && after == w.(lbs := after.lbs, status := w.status.(pools := after.status.pools))
      && RecordsKept(w.status.pools, after.status.pools, after.lbs[lb].pools, name);
    all
  }

  /** What deploying one pool achieved; `unique` says that pool names were. */
  ghost predicate PoolDone(cfg: Config, w: World, after: World, lb: Id, sp: PoolSpec, r: CreatedPool, unique: bool) {
    var all :=
      && lb in w.lbs && lb in after.lbs && PoolExact(after.lbs[lb].pools, sp, r)
      && HasPool(after.status.pools, r.id, r.name, r.groups)
      && after.lbs[lb].pools.Keys == w.lbs[lb].pools.Keys + {r.id}
      && (WellFormed(w.spec) && r.id !in w.lbs[lb].pools ==>
            forall p :: p in w.lbs[lb].pools ==> w.lbs[lb].pools[p].name != sp.name)
      && (WellFormed(w.spec) && unique ==> PoolStepped(cfg, w.snap, sp, r.id, w.lbs[lb].pools, after.lbs[lb].pools))
      && (Tidy(w.status.pools) && TidyGroups(r.groups) ==> Tidy(after.status.pools));
    all
  }

  lemma RecordsKeptThen(
    before: seq<CreatedPool>, mid: seq<CreatedPool>, after: seq<CreatedPool>, live: map<Id, Pool>, later: map<Id, Pool>,
    name: string, id: Id)
    requires RecordsKept(before, mid, live, name) && OthersKept(mid, after, id)
    requires id in live && live[id].name == name && later.Keys == live.Keys
    requires forall p :: p in live ==> later[p].name == live[p].name
    ensures RecordsKept(before, after, later, name)
  {
    forall p | p in before && !(p.id in later && later[p.id].name == name) ensures p in after {
      assert p in mid && p.id != id;
    }
  }

  lemma NewStayListed(
    before: map<Id, Pool>, mid: map<Id, Pool>, after: map<Id, Pool>, record: seq<CreatedPool>, later: seq<CreatedPool>)
    requires NewPoolsListed(before, mid, record) && after.Keys == mid.Keys && PoolsStayListed(record, later)
    ensures NewPoolsListed(before, after, later)
  {
  }

  lemma FrameThen(w: World, mid: World, after: World, lb: Id, id: Id, name: string)
    requires PoolFrame(w, mid, lb, name) && OnlyGroups(mid, lb, id, after) && mid.lbs[lb].pools[id].name == name
    requires after == mid.(lbs := after.lbs, status := mid.status.(pools := after.status.pools))
    requires OthersKept(mid.status.pools, after.status.pools, id)
    ensures PoolFrame(w, after, lb, name) && after.lbs[lb].pools.Keys == mid.lbs[lb].pools.Keys
  {
    MembersFrame(mid, lb, id, name, after);
    OnlyPoolsNamedTransitive(w.lbs, mid.lbs, after.lbs, lb, name);
    RecordsKeptThen(w.status.pools, mid.status.pools, after.status.pools, mid.lbs[lb].pools, after.lbs[lb].pools, name, id);
  }

  // ----- Creating -----

  function NewGroups(specs: seq<GroupSpec>): (r: seq<Group>)
    ensures |r| == |specs| && forall k :: 0 <= k < |specs| ==> r[k] == NewGroup(specs[k])
  {
    seq(|specs|, k requires 0 <= k < |specs| => NewGroup(specs[k]))
  }

  lemma CreateAllowed(w: World, cfg: Config, lb: Id, id: Id, sp: PoolSpec, groups: map<Id, Group>)
    requires Works(w, lb) && sp in w.spec.pools && AddedFor(groups, NewGroups(sp.groups))
    requires Possible(w, CreatePool(lb, id, NewPool(cfg, sp, groups)))
    requires WellFormed(w.spec) ==> forall p :: p in w.lbs[lb].pools ==> w.lbs[lb].pools[p].name != sp.name
    ensures Allowed(w, CreatePool(lb, id, NewPool(cfg, sp, groups)))
  {
    WantsListed(w.spec, sp, "");
    NewGroupsOfSpecFit(w.spec, sp, groups);
    if WellFormed(w.spec) {
      assert DistinctNames(NewGroups(sp.groups));
    }
  }

  lemma NewGroupsOfSpecFit(spec: Spec, sp: PoolSpec, groups: map<Id, Group>)
    requires sp in spec.pools && AddedFor(groups, NewGroups(sp.groups))
    ensures NewGroupsFit(spec, sp.name, groups)
  {
    forall g | g in groups ensures GroupFits(spec, sp.name, groups[g]) {
      assert groups[g] in NewGroups(sp.groups);
      var k :| 0 <= k < |sp.groups| && groups[g] == NewGroups(sp.groups)[k];
      assert groups[g] == NewGroup(sp.groups[k]);
      FromSpecFits(spec, sp, groups[g]);
    }
  }

  lemma CreateFrame(w: World, lb: Id, id: Id, pool: Pool)
    requires Possible(w, CreatePool(lb, id, pool))
    ensures id !in w.lbs[lb].pools
    ensures var after := Apply(w, CreatePool(lb, id, pool));
            && OnlyPoolsNamed(w.lbs, after.lbs, lb, pool.name) && after == w.(lbs := after.lbs)
            && after.lbs[lb].pools == w.lbs[lb].pools[id := pool]
  {
    assert id !in w.lbs[lb].pools;
  }

  lemma NothingFrame(lbs: map<Id, LB>, lb: Id, name: string)
    requires lb in lbs
    ensures OnlyPoolsNamed(lbs, lbs, lb, name)
  {
  }

  /** One create call. The cloud names the pool and its groups. */
  method CreatePoolCall(c: Cloud, cfg: Config, lb: Id, sp: PoolSpec) returns (ok: bool, id: Id)
    requires c.Valid() && Works(c.w, lb) && sp in c.w.spec.pools && lb in c.w.lbs
    requires WellFormed(c.w.spec) ==> forall p :: p in c.w.lbs[lb].pools ==> c.w.lbs[lb].pools[p].name != sp.name
    modifies c
    ensures c.Continues() && OnlyPoolsNamed(old(c.w).lbs, c.w.lbs, lb, sp.name) && (!ok ==> c.Faulty() && c.Lapsed())
    ensures c.w == old(c.w).(lbs := c.w.lbs)
    ensures ok ==> id !in old(c.w).lbs[lb].pools && c.w.lbs[lb].pools.Keys == old(c.w).lbs[lb].pools.Keys + {id}
    ensures ok ==> var pool := c.w.lbs[lb].pools[id];
                   pool == NewPool(cfg, sp, pool.groups) && AddedFor(pool.groups, NewGroups(sp.groups))
  {
    NothingFrame(c.w.lbs, lb, sp.name);
    id := *;
    var ids: seq<Id> := *;
    if |ids| != |sp.groups| || !Distinct(ids) || id == NO_ID || PoolIdUsed(c.w.lbs, id) {
      c.Refuse();
      return false, id;
    }
    var groups := Zip(ids, NewGroups(sp.groups));
    ZipAdds(ids, NewGroups(sp.groups));
    var pool := NewPool(cfg, sp, groups);
    CreateAllowed(c.w, cfg, lb, id, sp, groups);
    CreateFrame(c.w, lb, id, pool);
    ok := c.Try(CreatePool(lb, id, pool));
  }

  lemma NewGroupSettles(specs: seq<GroupSpec>, k: nat, recorded: seq<Member>)
    requires k < |specs|
    ensures var g := NewGroup(specs[k]);
            NextMembers(recorded, g.members, specs[k].members) == g.members
  {
    RequestKeys(specs[k].members);
    NoRequestExactlyWhen(recorded, RequestList(specs[k].members), specs[k].members);
  }

  /** Members deployed right after creation leave the new groups as they were created. */
  lemma NewPoolStays(st: Status, pool: Id, specs: seq<GroupSpec>, before: map<Id, Group>, after: map<Id, Group>)
    requires DistinctGroups(specs) && AddedFor(before, NewGroups(specs))
             && GroupsStepped(st, pool, before, specs, after)
    ensures forall g :: g in after ==> FromSpec(specs, after[g])
  {
    forall g | g in after ensures FromSpec(specs, after[g]) {
      if g in before {
        assert before[g] in NewGroups(specs);
        var k :| 0 <= k < |specs| && before[g] == NewGroup(specs[k]);
        NewGroupSettles(specs, k, RecordedMembers(st, pool, g));
      }
    }
  }

  lemma MembersFrame(w: World, lb: Id, id: Id, name: string, after: World)
    requires OnlyGroups(w, lb, id, after) && w.lbs[lb].pools[id].name == name
    ensures OnlyPoolsNamed(w.lbs, after.lbs, lb, name) && after.lbs[lb].pools.Keys == w.lbs[lb].pools.Keys
  {
    OnlyGroupsGrows(w, lb, id, after);
  }

  /** The common end of both paths. */
  method FinishPool(c: Cloud, lb: Id, id: Id, sp: PoolSpec) returns (r: Option<CreatedPool>)
    requires c.Valid() && Works(c.w, lb) && sp in c.w.spec.pools
    requires lb in c.w.lbs && id in c.w.lbs[lb].pools && c.w.lbs[lb].pools[id].name == sp.name
    modifies c
    ensures c.Continues() && OnlyGroups(old(c.w), lb, id, c.w) && OnlyPoolsNamed(old(c.w).lbs, c.w.lbs, lb, sp.name)
    ensures c.w.lbs[lb].pools.Keys == old(c.w).lbs[lb].pools.Keys && (r.None? ==> c.Faulty())
    ensures c.w == old(c.w).(lbs := c.w.lbs, status := old(c.w).status.(pools := c.w.status.pools))
    ensures OthersKept(old(c.w).status.pools, c.w.status.pools, id)
    ensures r.Some? && Resends(old(c.w).lbs[lb].pools[id].groups, sp.groups) ==> c.calls > old(c.calls)
    ensures r.Some? ==> r.value.id == id && PoolExact(c.w.lbs[lb].pools, sp, r.value)
    ensures r.Some? ==> HasPool(c.w.status.pools, id, sp.name, r.value.groups) && Stepped(old(c.w), lb, id, sp, c.w)
    ensures r.Some? && Tidy(old(c.w).status.pools) && TidyGroups(r.value.groups) ==> Tidy(c.w.status.pools)
    ensures AllSettled(c.w.snap, id, old(c.w).lbs[lb].pools[id].groups, sp.groups)
            && OnRecord(old(c.w).status, id, sp.name, old(c.w).lbs[lb].pools[id].groups, sp.groups)
            ==> c.Untouched()
  {
    var groups := DeployPoolMembers(c, lb, id, sp);
    MembersFrame(old(c.w), lb, id, sp.name, c.w);
    if groups.None? {
      return None;
    }
    return Some(CreatedPool(id, sp.name, groups.value));
  }

  lemma EmptyIsRecordable(w: World, lb: Id, id: Id, sp: PoolSpec)
    requires lb in w.lbs && id in w.lbs[lb].pools && w.lbs[lb].pools[id].name == sp.name && sp in w.spec.pools
    ensures Recordable(w, lb, id, []) && TidyGroups([])
  {
    WantsListed(w.spec, sp, "");
  }

  /** Creates the pool, records it with no groups yet, and waits. */
  method StartPool(c: Cloud, cfg: Config, lb: Id, sp: PoolSpec) returns (ok: bool, id: Id)
    requires c.Valid() && Works(c.w, lb) && sp in c.w.spec.pools && lb in c.w.lbs
    requires WellFormed(c.w.spec) ==> forall p :: p in c.w.lbs[lb].pools ==> c.w.lbs[lb].pools[p].name != sp.name
    modifies c
    ensures c.Continues() && PoolFrame(old(c.w), c.w, lb, sp.name) && (!ok ==> c.Faulty())
    ensures ok ==> HasPool(c.w.status.pools, id, sp.name, [])
    ensures c.Lapsed() || NewPoolsListed(old(c.w).lbs[lb].pools, c.w.lbs[lb].pools, c.w.status.pools)
    ensures ok ==> id !in old(c.w).lbs[lb].pools && c.w.lbs[lb].pools.Keys == old(c.w).lbs[lb].pools.Keys + {id}
    ensures ok ==> var pool := c.w.lbs[lb].pools[id];
                   pool == NewPool(cfg, sp, pool.groups) && AddedFor(pool.groups, NewGroups(sp.groups))
    ensures Tidy(old(c.w).status.pools) ==> Tidy(c.w.status.pools)
  {
    ok, id := CreatePoolCall(c, cfg, lb, sp);
    if !ok {
      return;
    }
    EmptyIsRecordable(c.w, lb, id, sp);
    ok := StatusUpdatePool(c, lb, id, sp.name, []);
    if ok {
      ok := c.Wait();
    }
  }

  lemma NewPoolSteps(cfg: Config, w: World, lb: Id, id: Id, sp: PoolSpec, after: World, before: map<Id, Pool>)
    requires OnlyGroups(w, lb, id, after) && DistinctGroups(sp.groups) && Stepped(w, lb, id, sp, after) && id !in before
    requires var pool := w.lbs[lb].pools[id];
             pool == NewPool(cfg, sp, pool.groups) && AddedFor(pool.groups, NewGroups(sp.groups))
    ensures PoolStepped(cfg, w.snap, sp, id, before, after.lbs[lb].pools)
  {
    assert DistinctNames(NewGroups(sp.groups));
    NewPoolStays(w.snap, id, sp.groups, w.lbs[lb].pools[id].groups, after.lbs[lb].pools[id].groups);
  }

  /** A pool that was not there before, created and finished. */
  lemma CreatedIsDone(
    cfg: Config, w: World, mid: World, after: World, lb: Id, id: Id, sp: PoolSpec, r: CreatedPool)
    requires PoolFrame(w, mid, lb, sp.name) && id !in w.lbs[lb].pools && sp in w.spec.pools
    requires mid.lbs[lb].pools.Keys == w.lbs[lb].pools.Keys + {id} && after.lbs.Keys == mid.lbs.Keys
    requires var pool := mid.lbs[lb].pools[id];
             pool == NewPool(cfg, sp, pool.groups) && AddedFor(pool.groups, NewGroups(sp.groups))
    requires OnlyGroups(mid, lb, id, after) && r.id == id && PoolExact(after.lbs[lb].pools, sp, r)
    requires HasPool(after.status.pools, id, sp.name, r.groups) && Stepped(mid, lb, id, sp, after)
    requires WellFormed(w.spec) ==> forall p :: p in w.lbs[lb].pools ==> w.lbs[lb].pools[p].name != sp.name
    requires Tidy(w.status.pools) && TidyGroups(r.groups) ==> Tidy(after.status.pools)
    ensures PoolDone(cfg, w, after, lb, sp, r, true)
  {
    WantsListed(w.spec, sp, "");
    MembersFrame(mid, lb, id, sp.name, after);
    if WellFormed(w.spec) {
      NewPoolSteps(cfg, mid, lb, id, sp, after, w.lbs[lb].pools);
    }
  }

  method CreateNewPool(c: Cloud, cfg: Config, lb: Id, sp: PoolSpec) returns (r: Option<CreatedPool>)
    requires c.Valid() && Works(c.w, lb) && sp in c.w.spec.pools && lb in c.w.lbs
    requires WellFormed(c.w.spec) ==> forall p :: p in c.w.lbs[lb].pools ==> c.w.lbs[lb].pools[p].name != sp.name
    modifies c
    ensures c.Continues() && PoolFrame(old(c.w), c.w, lb, sp.name) && (r.None? ==> c.Faulty())
    ensures c.Lapsed() || NewPoolsListed(old(c.w).lbs[lb].pools, c.w.lbs[lb].pools, c.w.status.pools)
    ensures r.Some? ==> r.value.id !in old(c.w).lbs[lb].pools && PoolDone(cfg, old(c.w), c.w, lb, sp, r.value, true)
  {
    var ok, id := StartPool(c, cfg, lb, sp);
    if !ok {
      return None;
    }
    ghost var mid := c.w;
    r := FinishPool(c, lb, id, sp);
    FrameThen(old(c.w), mid, c.w, lb, id, sp.name);
    if NewPoolsListed(old(c.w).lbs[lb].pools, mid.lbs[lb].pools, mid.status.pools) {
      NewStayListed(old(c.w).lbs[lb].pools, mid.lbs[lb].pools, c.w.lbs[lb].pools, mid.status.pools, c.w.status.pools);
    }
    if r.Some? {
      CreatedIsDone(cfg, old(c.w), mid, c.w, lb, id, sp, r.value);
    }
  }

  // ----- Updating -----

  lemma UpdateFrame(w: World, lb: Id, id: Id, patch: PoolPatch)
    requires Possible(w, UpdatePool(lb, id, patch))
    ensures var after := Apply(w, UpdatePool(lb, id, patch));
            && OnlyPoolsNamed(w.lbs, after.lbs, lb, w.lbs[lb].pools[id].name)
            && after.lbs[lb].pools.Keys == w.lbs[lb].pools.Keys
            && after.lbs[lb].pools[id].groups == w.lbs[lb].pools[id].groups
  {
  }

  /** One update call. */
  method UpdatePoolCall(c: Cloud, lb: Id, id: Id, sp: PoolSpec, patch: PoolPatch) returns (ok: bool)
    requires c.Valid() && Works(c.w, lb) && sp in c.w.spec.pools
    requires lb in c.w.lbs && id in c.w.lbs[lb].pools && c.w.lbs[lb].pools[id].name == sp.name
    modifies c
    ensures c.Continues() && OnlyPoolsNamed(old(c.w).lbs, c.w.lbs, lb, sp.name) && c.w == old(c.w).(lbs := c.w.lbs)
    ensures c.w.lbs[lb].pools.Keys == old(c.w).lbs[lb].pools.Keys && (!ok ==> c.Faulty())
    ensures c.w.lbs[lb].pools[id].groups == old(c.w).lbs[lb].pools[id].groups
    ensures ok ==> c.w.lbs[lb].pools[id] == PatchPool(old(c.w).lbs[lb].pools[id], patch)
  {
    NothingFrame(c.w.lbs, lb, sp.name);
    WantsListed(c.w.spec, sp, "");
    UpdateFrame(c.w, lb, id, patch);
    ok := c.Try(UpdatePool(lb, id, patch));
  }

  method UpdateLivePool(c: Cloud, lb: Id, id: Id, sp: PoolSpec, seen: Pool) returns (ok: bool)
    requires c.Valid() && Works(c.w, lb) && sp in c.w.spec.pools
    requires lb in c.w.lbs && id in c.w.lbs[lb].pools && c.w.lbs[lb].pools[id].name == sp.name
    modifies c
    ensures c.Continues() && OnlyPoolsNamed(old(c.w).lbs, c.w.lbs, lb, sp.name) && c.w == old(c.w).(lbs := c.w.lbs)
    ensures c.w.lbs[lb].pools.Keys == old(c.w).lbs[lb].pools.Keys && (!ok ==> c.Faulty())
    ensures c.w.lbs[lb].pools[id].groups == old(c.w).lbs[lb].pools[id].groups
    ensures ok && seen == old(c.w).lbs[lb].pools[id] ==>
      c.w.lbs[lb].pools[id] == if PoolAgrees(sp, seen) then seen else PoolWanted(sp, seen)
    ensures PoolAgrees(sp, seen) ==> c.Untouched()
  {
    NothingFrame(c.w.lbs, lb, sp.name);
    var request := BuildPoolUpdate(sp, seen);
    if request.None? {
      return true;
    }
    ok := UpdatePoolCall(c, lb, id, sp, request.value);
    if ok {
      ok := c.Wait();
    }
  }

  lemma UpdatedSteps(
    cfg: Config, st: Status, sp: PoolSpec, id: Id, before: map<Id, Pool>, mid: map<Id, Pool>, after: map<Id, Pool>)
    requires id in before && id in mid && id in after
    requires mid[id] == if PoolAgrees(sp, before[id]) then before[id] else PoolWanted(sp, before[id])
    requires after[id] == mid[id].(groups := after[id].groups)
    requires GroupsStepped(st, id, mid[id].groups, sp.groups, after[id].groups)
    ensures PoolStepped(cfg, st, sp, id, before, after)
  {
  }

  /** The pool of that name is live, agrees with the spec, and is on record member for member. */
  ghost predicate PoolQuiet(w: World, lb: Id, id: Id, sp: PoolSpec)
    requires lb in w.lbs && id in w.lbs[lb].pools
  {
    var pool := w.lbs[lb].pools[id];
    && PoolAgrees(sp, pool) && AllSettled(w.snap, id, pool.groups, sp.groups)
    && OnRecord(w.status, id, sp.name, pool.groups, sp.groups)
  }

  ghost predicate HasQuietPool(w: World, lb: Id, sp: PoolSpec)
    requires lb in w.lbs
  {
    exists p :: p in w.lbs[lb].pools && w.lbs[lb].pools[p].name == sp.name && PoolQuiet(w, lb, p, sp)
  }

  /** A live pool, updated where it disagreed and finished. */
  lemma UpdatedIsDone(
    cfg: Config, w: World, mid: World, after: World, lb: Id, id: Id, sp: PoolSpec, seen: Pool, r: CreatedPool)
    requires PoolFrame(w, mid, lb, sp.name) && id in w.lbs[lb].pools && sp in w.spec.pools && mid.status == w.status
    requires mid.lbs[lb].pools.Keys == w.lbs[lb].pools.Keys
             && mid.lbs[lb].pools[id].groups == w.lbs[lb].pools[id].groups
    requires seen == w.lbs[lb].pools[id] ==>
               mid.lbs[lb].pools[id] == if PoolAgrees(sp, seen) then seen else PoolWanted(sp, seen)
    requires OnlyGroups(mid, lb, id, after) && r.id == id && PoolExact(after.lbs[lb].pools, sp, r)
    requires HasPool(after.status.pools, id, sp.name, r.groups) && Stepped(mid, lb, id, sp, after)
    requires Tidy(w.status.pools) && TidyGroups(r.groups) ==> Tidy(after.status.pools)
    ensures PoolDone(cfg, w, after, lb, sp, r, seen == w.lbs[lb].pools[id] && UniqueGroups(seen.groups))
  {
    WantsListed(w.spec, sp, "");
    OnlyGroupsGrows(mid, lb, id, after);
    if WellFormed(w.spec) && seen == w.lbs[lb].pools[id] && UniqueGroups(seen.groups) {
      UpdatedSteps(cfg, w.snap, sp, id, w.lbs[lb].pools, mid.lbs[lb].pools, after.lbs[lb].pools);
    }
  }

  method EnsureLivePool(c: Cloud, cfg: Config, lb: Id, id: Id, sp: PoolSpec, seen: Pool) returns (r: Option<CreatedPool>)
    requires c.Valid() && Works(c.w, lb) && sp in c.w.spec.pools
    requires lb in c.w.lbs && id in c.w.lbs[lb].pools && c.w.lbs[lb].pools[id].name == sp.name
    modifies c
    ensures c.Continues() && PoolFrame(old(c.w), c.w, lb, sp.name) && (r.None? ==> c.Faulty())
    ensures c.w.lbs[lb].pools.Keys == old(c.w).lbs[lb].pools.Keys && (r.Some? ==> r.value.id == id)
    ensures r.Some? ==>
      PoolDone(cfg, old(c.w), c.w, lb, sp, r.value, seen == old(c.w).lbs[lb].pools[id] && UniqueGroups(seen.groups))
    ensures r.Some? && Resends(old(c.w).lbs[lb].pools[id].groups, sp.groups) ==> c.calls > old(c.calls)
    ensures seen == old(c.w).lbs[lb].pools[id] && PoolQuiet(old(c.w), lb, id, sp) ==> c.Untouched()
  {
    var ok := UpdateLivePool(c, lb, id, sp, seen);
    if !ok {
      return None;
    }
    ghost var mid := c.w;
    r := FinishPool(c, lb, id, sp);
    FrameThen(old(c.w), mid, c.w, lb, id, sp.name);
    if r.Some? {
      UpdatedIsDone(cfg, old(c.w), mid, c.w, lb, id, sp, seen, r.value);
    }
  }

  // ----- One pool, all pools -----

  function PoolNamed(name: string): Pool -> bool {
    (p: Pool) => p.name == name
  }

  /** The list read at the start of the phase still tells the truth about names, and about pools not touched yet. */
  ghost predicate StillListed(w: World, lb: Id, current: Listing<Pool>, sp: PoolSpec) {
    && lb in w.lbs && Lists(current)
    && (forall p :: p in current.at ==> p in w.lbs[lb].pools && w.lbs[lb].pools[p].name == current.at[p].name)
    && (WellFormed(w.spec) ==>
          && (forall p :: p in current.at && current.at[p].name == sp.name ==> w.lbs[lb].pools[p] == current.at[p])
          && (forall p :: p in w.lbs[lb].pools && w.lbs[lb].pools[p].name == sp.name ==> p in current.at))
  }

  /** The live pool of the spec's name has a group whose dial is off. */
  predicate PoolResends(pools: map<Id, Pool>, sp: PoolSpec) {
    exists p :: p in pools && pools[p].name == sp.name && Resends(pools[p].groups, sp.groups)
  }

  lemma FoundResends(w: World, lb: Id, current: Listing<Pool>, sp: PoolSpec)
    requires StillListed(w, lb, current, sp) && WellFormed(w.spec) && UniquePools(current.at)
    requires PoolResends(w.lbs[lb].pools, sp)
    ensures exists p :: p in current.at && current.at[p].name == sp.name
    ensures forall p :: p in current.at && current.at[p].name == sp.name ==>
              Resends(w.lbs[lb].pools[p].groups, sp.groups)
  {
  }

  /** Names being unique, the pool found by name is the quiet one. */
  lemma FoundIsQuiet(w: World, lb: Id, current: Listing<Pool>, sp: PoolSpec, id: Id)
    requires StillListed(w, lb, current, sp) && WellFormed(w.spec) && UniquePools(current.at) && HasQuietPool(w, lb, sp)
    requires id in current.at && current.at[id].name == sp.name
    ensures PoolQuiet(w, lb, id, sp)
  {
  }

  lemma NoneIsQuiet(w: World, lb: Id, current: Listing<Pool>, sp: PoolSpec)
    requires StillListed(w, lb, current, sp) && WellFormed(w.spec)
    requires forall p :: p in current.at ==> current.at[p].name != sp.name
    ensures !HasQuietPool(w, lb, sp)
    ensures forall p :: p in w.lbs[lb].pools ==> w.lbs[lb].pools[p].name != sp.name
  {
  }

  /** The state `seen` in the list is still the pool's state if the spec names nothing twice. */
  lemma SeenIsLive(w: World, lb: Id, current: Listing<Pool>, sp: PoolSpec, id: Id)
    requires StillListed(w, lb, current, sp) && id in current.at && current.at[id].name == sp.name
    ensures id in w.lbs[lb].pools && w.lbs[lb].pools[id].name == sp.name
    ensures WellFormed(w.spec) ==> current.at[id] == w.lbs[lb].pools[id]
    ensures WellFormed(w.spec) && UniquePools(current.at) ==> UniqueGroups(current.at[id].groups)
  {
  }

  /** The pool was in the list. */
  method DeployFound(c: Cloud, cfg: Config, lb: Id, sp: PoolSpec, current: Listing<Pool>, id: Id)
    returns (r: Option<CreatedPool>)
    requires c.Valid() && Works(c.w, lb) && sp in c.w.spec.pools && StillListed(c.w, lb, current, sp)
    requires id in current.at && current.at[id].name == sp.name
    modifies c
    ensures c.Continues() && PoolFrame(old(c.w), c.w, lb, sp.name) && (r.None? ==> c.Faulty())
    ensures c.Lapsed() || NewPoolsListed(old(c.w).lbs[lb].pools, c.w.lbs[lb].pools, c.w.status.pools)
    ensures r.Some? ==> PoolDone(cfg, old(c.w), c.w, lb, sp, r.value, UniquePools(current.at))
    ensures r.Some? && WellFormed(c.w.spec) && UniquePools(current.at) && PoolResends(old(c.w).lbs[lb].pools, sp) ==>
              c.calls > old(c.calls)
    ensures WellFormed(c.w.spec) && UniquePools(current.at) && HasQuietPool(old(c.w), lb, sp) ==> c.Untouched()
  {
    SeenIsLive(c.w, lb, current, sp, id);
    if WellFormed(c.w.spec) && UniquePools(current.at) {
      if HasQuietPool(c.w, lb, sp) {
        FoundIsQuiet(c.w, lb, current, sp, id);
      }
      if PoolResends(c.w.lbs[lb].pools, sp) {
        FoundResends(c.w, lb, current, sp);
      }
    }
    r := EnsureLivePool(c, cfg, lb, id, sp, current.at[id]);
  }

  /** No pool of the name was in the list. */
  method DeployMissing(c: Cloud, cfg: Config, lb: Id, sp: PoolSpec, current: Listing<Pool>) returns (r: Option<CreatedPool>)
    requires c.Valid() && Works(c.w, lb) && sp in c.w.spec.pools && StillListed(c.w, lb, current, sp)
    requires forall p :: p in current.at ==> current.at[p].name != sp.name
    modifies c
    ensures c.Continues() && PoolFrame(old(c.w), c.w, lb, sp.name) && (r.None? ==> c.Faulty())
    ensures c.Lapsed() || NewPoolsListed(old(c.w).lbs[lb].pools, c.w.lbs[lb].pools, c.w.status.pools)
    ensures r.Some? ==> PoolDone(cfg, old(c.w), c.w, lb, sp, r.value, UniquePools(current.at))
    ensures r.Some? && WellFormed(c.w.spec) && UniquePools(current.at) && PoolResends(old(c.w).lbs[lb].pools, sp) ==>
              c.calls > old(c.calls)
    ensures WellFormed(c.w.spec) && UniquePools(current.at) && HasQuietPool(old(c.w), lb, sp) ==> c.Untouched()
  {
    if WellFormed(c.w.spec) {
      NoneIsQuiet(c.w, lb, current, sp);
    }
    r := CreateNewPool(c, cfg, lb, sp);
  }

  method DeployPool(c: Cloud, cfg: Config, lb: Id, sp: PoolSpec, current: Listing<Pool>) returns (r: Option<CreatedPool>)
    requires c.Valid() && Works(c.w, lb) && sp in c.w.spec.pools && StillListed(c.w, lb, current, sp)
    modifies c
    ensures c.Continues() && PoolFrame(old(c.w), c.w, lb, sp.name) && (r.None? ==> c.Faulty())
    ensures c.Lapsed() || NewPoolsListed(old(c.w).lbs[lb].pools, c.w.lbs[lb].pools, c.w.status.pools)
    ensures r.Some? ==> PoolDone(cfg, old(c.w), c.w, lb, sp, r.value, UniquePools(current.at))
    ensures r.Some? && WellFormed(c.w.spec) && UniquePools(current.at) && PoolResends(old(c.w).lbs[lb].pools, sp) ==>
              c.calls > old(c.calls)
    ensures WellFormed(c.w.spec) && UniquePools(current.at) && HasQuietPool(old(c.w), lb, sp) ==> c.Untouched()
  {
    var found := First(current.ids, current.at, PoolNamed(sp.name));
    if found.None? {
      r := DeployMissing(c, cfg, lb, sp, current);
    } else {
      r := DeployFound(c, cfg, lb, sp, current, found.value);
    }
  }
}
