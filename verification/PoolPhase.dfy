/** The pool phase of a deploy pass: every pool of the spec, one after the other (deploy_pool.go). */
module PoolPhase {
  import opened GlbTypes
  import opened Equality
  import opened Members
  import opened Diffs
  import opened Protocol
  import opened CloudApi
  import opened Growth
  import opened StatusRecord
  import opened DeployPoolMember
  import opened DeployPool

  /** Deploying a pool lists no member address twice where none was. */
  lemma SteppedMembersOnce(
    cfg: Config, st: Status, sp: PoolSpec, id: Id, before: map<Id, Pool>, after: map<Id, Pool>)
    requires PoolStepped(cfg, st, sp, id, before, after) && MembersDistinct(sp.groups)
    requires id in before ==> MembersOnce(before[id].groups)
    ensures MembersOnce(after[id].groups) && UniqueGroups(after[id].groups)
  {
    var groups := after[id].groups;
    forall g | g in groups ensures DistinctLiveKeys(groups[g].members) {
      if id in before && g in before[id].groups {
        var old' := before[id].groups[g];
        if ListsGroup(sp.groups, old'.name) {
          var k :| 0 <= k < |sp.groups| && sp.groups[k].name == old'.name;
          NextKeys(RecordedMembers(st, id, g), old'.members, sp.groups[k].members);
        }
      } else {
        assert FromSpec(sp.groups, groups[g]);
        var k :| 0 <= k < |sp.groups| && groups[g] == NewGroup(sp.groups[k]);
        RequestKeys(sp.groups[k].members);
      }
    }
  }

  // ----- What the phase has done after some of the pools -----

  predicate NamedIn(specs: seq<PoolSpec>, name: string) {
    exists i :: 0 <= i < |specs| && specs[i].name == name
  }

  /** Only pools named in `specs` changed or appeared. */
  ghost predicate OnlyPoolsOf(a: map<Id, LB>, b: map<Id, LB>, lb: Id, specs: seq<PoolSpec>) {
    && Grows(a, b, lb) && lb in a
    && b[lb].listeners == a[lb].listeners
    && (forall p :: KeptUnlessNamed(a[lb].pools, b[lb].pools, specs, p))
    && (forall p :: NewIsNamed(a[lb].pools, b[lb].pools, specs, p))
  }

  predicate KeptUnlessNamed(a: map<Id, Pool>, b: map<Id, Pool>, specs: seq<PoolSpec>, p: Id) {
    p in a && !NamedIn(specs, a[p].name) ==> p in b && b[p] == a[p]
  }

  predicate NewIsNamed(a: map<Id, Pool>, b: map<Id, Pool>, specs: seq<PoolSpec>, p: Id) {
    p in b && p !in a ==> NamedIn(specs, b[p].name)
  }

  lemma NamedInPrefix(specs: seq<PoolSpec>, i: nat, name: string)
    requires i < |specs|
    ensures NamedIn(specs[..i + 1], name) <==> NamedIn(specs[..i], name) || specs[i].name == name
  {
    if NamedIn(specs[..i + 1], name) && specs[i].name != name {
      var k :| 0 <= k < i + 1 && specs[..i + 1][k].name == name;
      assert specs[..i][k].name == name;
    }
    if NamedIn(specs[..i], name) {
      var k :| 0 <= k < i && specs[..i][k].name == name;
      assert specs[..i + 1][k].name == name;
    }
    assert specs[..i + 1][i] == specs[i];
  }

  lemma OnlyPoolsOfStep(a: map<Id, LB>, b: map<Id, LB>, c: map<Id, LB>, lb: Id, specs: seq<PoolSpec>, i: nat)
    requires i < |specs| && OnlyPoolsOf(a, b, lb, specs[..i]) && OnlyPoolsNamed(b, c, lb, specs[i].name)
    ensures OnlyPoolsOf(a, c, lb, specs[..i + 1])
  {
    GrowsTransitive(a, b, c, lb);
    var less, more := specs[..i], specs[..i + 1];
    forall name: string ensures NamedIn(more, name) <==> NamedIn(less, name) || specs[i].name == name {
      NamedInPrefix(specs, i, name);
    }
    forall p ensures KeptUnlessNamed(a[lb].pools, c[lb].pools, more, p) && NewIsNamed(a[lb].pools, c[lb].pools, more, p) {
      assert KeptUnlessNamed(a[lb].pools, b[lb].pools, less, p) && NewIsNamed(a[lb].pools, b[lb].pools, less, p);
    }
  }

  /** The list read at the start is still good for the next pool. */
  lemma ListStaysGood(w0: World, w: World, lb: Id, current: Listing<Pool>, i: nat)
    requires Lists(current) && lb in w0.lbs && current.at == w0.lbs[lb].pools
    requires w.spec == w0.spec && i < |w.spec.pools| && OnlyPoolsOf(w0.lbs, w.lbs, lb, w.spec.pools[..i])
    ensures StillListed(w, lb, current, w.spec.pools[i])
  {
    var less := w.spec.pools[..i];
    if WellFormed(w.spec) {
      assert !NamedIn(less, w.spec.pools[i].name);
      var sp, began, now := w.spec.pools[i], w0.lbs[lb].pools, w.lbs[lb].pools;
      forall p | p in now && now[p].name == sp.name ensures p in began {
        assert NewIsNamed(began, now, less, p);
      }
      forall p | p in began && began[p].name == sp.name ensures now[p] == began[p] {
        assert KeptUnlessNamed(began, now, less, p);
      }
    }
  }

  /** The recorded pool is live with all its groups, and the record names just those. */
  predicate PoolLive(pools: map<Id, Pool>, sp: PoolSpec, r: CreatedPool) {
    && r.id in pools && pools[r.id].name == sp.name && r.name == sp.name
    && HoldsGroups(pools[r.id].groups, sp.groups)
    && |r.groups| == |sp.groups| && forall k :: 0 <= k < |sp.groups| ==> r.groups[k].name == sp.groups[k].name
  }

  lemma ExactIsLive(pools: map<Id, Pool>, sp: PoolSpec, r: CreatedPool)
    requires PoolExact(pools, sp, r)
    ensures PoolLive(pools, sp, r)
  {
    forall k | 0 <= k < |sp.groups|
      ensures HoldsNamed(pools[r.id].groups, sp.groups[k].name) && r.groups[k].name == sp.groups[k].name
    {
      assert GroupExact(pools[r.id].groups, sp.groups[k].name, r.groups[k]);
    }
  }

  lemma LiveStays(a: LB, b: LB, sp: PoolSpec, r: CreatedPool)
    requires LbGrows(a, b) && PoolLive(a.pools, sp, r)
    ensures PoolLive(b.pools, sp, r)
  {
    HeldGroupsStay(a.pools[r.id].groups, b.pools[r.id].groups, sp.groups);
  }

  predicate AllLive(pools: map<Id, Pool>, specs: seq<PoolSpec>, created: seq<CreatedPool>) {
    |created| == |specs| && forall j :: 0 <= j < |specs| ==> PoolLive(pools, specs[j], created[j])
  }

  /** The j-th entry describes a live pool of one of the specs. */
  predicate LiveForSome(pools: map<Id, Pool>, specs: seq<PoolSpec>, created: seq<CreatedPool>, j: nat)
    requires j < |created|
  {
    exists i :: 0 <= i < |specs| && PoolLive(pools, specs[i], created[j])
  }

  predicate EachLive(pools: map<Id, Pool>, specs: seq<PoolSpec>, created: seq<CreatedPool>) {
    forall j :: 0 <= j < |created| ==> LiveForSome(pools, specs, created, j)
  }

  predicate EachRecorded(record: seq<CreatedPool>, created: seq<CreatedPool>) {
    forall j :: 0 <= j < |created| ==> HasPool(record, created[j].id, created[j].name, created[j].groups)
  }

  /** One more pool, deployed or not, leaves the earlier ones live. */
  lemma EachLiveStep(a: LB, b: LB, specs: seq<PoolSpec>, created: seq<CreatedPool>, i: nat)
    requires i < |specs| && LbGrows(a, b) && EachLive(a.pools, specs[..i], created)
    ensures EachLive(b.pools, specs[..i + 1], created)
  {
    var more := specs[..i + 1];
    forall j | 0 <= j < |created| ensures LiveForSome(b.pools, more, created, j) {
      assert LiveForSome(a.pools, specs[..i], created, j);
      var k :| 0 <= k < i && PoolLive(a.pools, specs[..i][k], created[j]);
      LiveStays(a, b, specs[k], created[j]);
      assert more[k] == specs[k];
    }
  }

  lemma EachLiveAppend(pools: map<Id, Pool>, specs: seq<PoolSpec>, created: seq<CreatedPool>, r: CreatedPool, i: nat)
    requires EachLive(pools, specs, created) && i < |specs| && PoolLive(pools, specs[i], r)
    ensures EachLive(pools, specs, created + [r])
  {
    var all := created + [r];
    forall j | 0 <= j < |all| ensures LiveForSome(pools, specs, all, j) {
      if j < |created| {
        assert LiveForSome(pools, specs, created, j);
        var k :| 0 <= k < |specs| && PoolLive(pools, specs[k], created[j]);
        assert PoolLive(pools, specs[k], all[j]);
      } else {
        assert PoolLive(pools, specs[i], all[j]);
      }
    }
  }

  /** And on record: only entries of pools of the name at hand were replaced. */
  lemma EachRecordedStep(
    a: LB, b: LB, specs: seq<PoolSpec>, created: seq<CreatedPool>, i: nat, before: seq<CreatedPool>, after: seq<CreatedPool>)
    requires i < |specs| && DistinctPools(specs) && LbGrows(a, b) && EachLive(a.pools, specs[..i], created)
    requires EachRecorded(before, created) && RecordsKept(before, after, b.pools, specs[i].name)
    ensures EachRecorded(after, created)
  {
    forall j | 0 <= j < |created| ensures HasPool(after, created[j].id, created[j].name, created[j].groups) {
      var r := created[j];
      assert LiveForSome(a.pools, specs[..i], created, j);
      var k :| 0 <= k < i && PoolLive(a.pools, specs[..i][k], r);
      assert b.pools[r.id].name == specs[k].name;
      assert HasPool(before, r.id, r.name, r.groups);
      var n :| 0 <= n < |before| && before[n].id == r.id && before[n].name == r.name
            && GroupsEqual(before[n].groups, r.groups);
      assert before[n] in before && before[n] in after;
      var m :| 0 <= m < |after| && after[m] == before[n];
    }
  }

  /** Every pool so far is on record as it lives now, and made its step from where the phase began. */
  predicate AllExact(
    cfg: Config, st: Status, before: map<Id, Pool>, after: map<Id, Pool>, specs: seq<PoolSpec>, created: seq<CreatedPool>)
  {
    && |created| == |specs|
    && forall j :: 0 <= j < |specs| ==>
         PoolExact(after, specs[j], created[j]) && PoolStepped(cfg, st, specs[j], created[j].id, before, after)
  }

  lemma LiveStep(a: LB, b: LB, specs: seq<PoolSpec>, created: seq<CreatedPool>, i: nat, r: CreatedPool)
    requires i < |specs| && LbGrows(a, b) && AllLive(a.pools, specs[..i], created) && PoolLive(b.pools, specs[i], r)
    ensures AllLive(b.pools, specs[..i + 1], created + [r])
  {
    forall j | 0 <= j < i + 1 ensures PoolLive(b.pools, specs[..i + 1][j], (created + [r])[j]) {
      if j < i {
        assert PoolLive(a.pools, specs[..i][j], created[j]);
        LiveStays(a, b, specs[j], created[j]);
      }
    }
  }

  lemma ExactStep(
    cfg: Config, st: Status, a: map<Id, LB>, b: map<Id, LB>, c: map<Id, LB>, lb: Id,
    specs: seq<PoolSpec>, created: seq<CreatedPool>, i: nat, r: CreatedPool)
    requires i < |specs| && DistinctPools(specs)
    requires OnlyPoolsOf(a, b, lb, specs[..i]) && OnlyPoolsNamed(b, c, lb, specs[i].name)
    requires AllExact(cfg, st, a[lb].pools, b[lb].pools, specs[..i], created)
    requires PoolExact(c[lb].pools, specs[i], r) && PoolStepped(cfg, st, specs[i], r.id, b[lb].pools, c[lb].pools)
    ensures AllExact(cfg, st, a[lb].pools, c[lb].pools, specs[..i + 1], created + [r])
  {
    assert !NamedIn(specs[..i], specs[i].name);
    assert r.id in b[lb].pools ==> b[lb].pools[r.id].name == specs[i].name;
    assert KeptUnlessNamed(a[lb].pools, b[lb].pools, specs[..i], r.id) && NewIsNamed(a[lb].pools, b[lb].pools, specs[..i], r.id);
    assert r.id in b[lb].pools <==> r.id in a[lb].pools;
    forall j | 0 <= j < i + 1
      ensures var all := created + [r];
              PoolExact(c[lb].pools, specs[..i + 1][j], all[j])
              && PoolStepped(cfg, st, specs[..i + 1][j], all[j].id, a[lb].pools, c[lb].pools)
    {
      if j < i {
        assert specs[..i][j] == specs[j];
        assert PoolExact(b[lb].pools, specs[j], created[j]);
        assert c[lb].pools[created[j].id] == b[lb].pools[created[j].id];
      }
    }
  }

  lemma RegularStep(
    cfg: Config, st: Status, b: map<Id, LB>, c: map<Id, LB>, lb: Id, sp: PoolSpec, r: CreatedPool)
    requires OnlyPoolsNamed(b, c, lb, sp.name) && PoolsRegular(b[lb].pools) && MembersDistinct(sp.groups)
    requires PoolExact(c[lb].pools, sp, r) && PoolStepped(cfg, st, sp, r.id, b[lb].pools, c[lb].pools)
    requires c[lb].pools.Keys == b[lb].pools.Keys + {r.id}
    requires r.id !in b[lb].pools ==> forall p :: p in b[lb].pools ==> b[lb].pools[p].name != sp.name
    ensures PoolsRegular(c[lb].pools)
  {
    var before, after := b[lb].pools, c[lb].pools;
    assert forall p :: p in after && p != r.id ==> p in before && before[p].name != sp.name && after[p] == before[p];
    SteppedMembersOnce(cfg, st, sp, r.id, before, after);
    UpdatedRegular(before, after, r.id);
  }

  lemma UpdatedRegular(before: map<Id, Pool>, after: map<Id, Pool>, id: Id)
    requires PoolsRegular(before) && id in after && MembersOnce(after[id].groups) && UniqueGroups(after[id].groups)
    requires forall p :: p in after && p != id ==>
               p in before && before[p].name != after[id].name && after[p] == before[p]
    ensures PoolsRegular(after)
  {
  }

  // ----- The phase -----

  /** What holds after `i` pools, given the ones that were created and how many failed. */
  ghost predicate Progress(
    cfg: Config, w0: World, w: World, lb: Id, i: nat, created: seq<CreatedPool>, failed: seq<string>)
  {
    var all :=
      && i <= |w0.spec.pools| && lb in w0.lbs && |created| + |failed| == i
      && w == w0.(lbs := w.lbs, status := w0.status.(pools := w.status.pools))
      && OnlyPoolsOf(w0.lbs, w.lbs, lb, w0.spec.pools[..i])
      && EachLive(w.lbs[lb].pools, w0.spec.pools[..i], created)
      && NewAccounted(w0.lbs[lb].pools, w.lbs[lb].pools, created, failed)
      && (WellFormed(w0.spec) ==> EachRecorded(w.status.pools, created))
      && (failed == [] ==> AllLive(w.lbs[lb].pools, w0.spec.pools[..i], created))
      && (failed == [] && SpecRegular(w0.spec) && PoolsRegular(w0.lbs[lb].pools) ==>
            && AllExact(cfg, w0.snap, w0.lbs[lb].pools, w.lbs[lb].pools, w0.spec.pools[..i], created)
            && PoolsRegular(w.lbs[lb].pools)
            && (Tidy(w0.status.pools) ==> Tidy(w.status.pools)));
    all
  }

  /** Every pool that appeared is among the created ones, or its name among the failed. */
  ghost predicate NewAccounted(before: map<Id, Pool>, after: map<Id, Pool>, created: seq<CreatedPool>, failed: seq<string>) {
    forall p :: HasFate(before, after, created, failed, p)
  }

  predicate HasFate(
    before: map<Id, Pool>, after: map<Id, Pool>, created: seq<CreatedPool>, failed: seq<string>, p: Id)
  {
    p in after && p !in before ==> ListedPool(created, p) || after[p].name in failed
  }

  lemma NewAccountedCreated(
    w0: map<Id, Pool>, a: map<Id, Pool>, b: map<Id, Pool>, created: seq<CreatedPool>, failed: seq<string>, r: CreatedPool)
    requires NewAccounted(w0, a, created, failed) && b.Keys == a.Keys + {r.id}
    requires forall p :: p in a ==> b[p].name == a[p].name
    ensures NewAccounted(w0, b, created + [r], failed)
  {
    var all := created + [r];
    assert all[|created|].id == r.id;
    forall id | ListedPool(created, id) ensures ListedPool(all, id) {
      var i :| 0 <= i < |created| && created[i].id == id;
      assert all[i].id == id;
    }
    forall p ensures HasFate(w0, b, all, failed, p) {
      assert HasFate(w0, a, created, failed, p);
    }
  }

  lemma NewAccountedFailed(
    w0: map<Id, Pool>, a: map<Id, Pool>, b: map<Id, Pool>, created: seq<CreatedPool>, failed: seq<string>, name: string)
    requires NewAccounted(w0, a, created, failed)
    requires forall p :: p in a ==> p in b && b[p].name == a[p].name
    requires forall p :: p in b && p !in a ==> b[p].name == name
    ensures NewAccounted(w0, b, created, failed + [name])
  {
    var names := failed + [name];
    forall p ensures HasFate(w0, b, created, names, p) {
      assert HasFate(w0, a, created, failed, p);
    }
  }

  lemma ProgressStart(cfg: Config, w: World, lb: Id)
    requires lb in w.lbs
    ensures Progress(cfg, w, w, lb, 0, [], [])
  {
    assert w.spec.pools[..0] == [];
  }

  lemma ProgressStrong(
    cfg: Config, w0: World, w: World, after: World, lb: Id, i: nat, created: seq<CreatedPool>, r: CreatedPool)
    requires Progress(cfg, w0, w, lb, i, created, []) && i < |w0.spec.pools|
    requires PoolFrame(w, after, lb, w0.spec.pools[i].name)
    requires PoolDone(cfg, w, after, lb, w0.spec.pools[i], r, true)
    requires SpecRegular(w0.spec) && PoolsRegular(w0.lbs[lb].pools)
    ensures AllExact(cfg, w0.snap, w0.lbs[lb].pools, after.lbs[lb].pools, w0.spec.pools[..i + 1], created + [r])
    ensures PoolsRegular(after.lbs[lb].pools)
    ensures Tidy(w0.status.pools) ==> Tidy(after.status.pools)
  {
    var sp := w0.spec.pools[i];
    ExactStep(cfg, w0.snap, w0.lbs, w.lbs, after.lbs, lb, w0.spec.pools, created, i, r);
    RegularStep(cfg, w0.snap, w.lbs, after.lbs, lb, sp, r);
    ExactIsTidy(after.lbs[lb].pools[r.id].groups, sp.groups, r.groups);
  }

  /** What the earlier pools have, they keep, whatever becomes of the next. */
  lemma ProgressKept(
    cfg: Config, w0: World, w: World, after: World, lb: Id, i: nat, created: seq<CreatedPool>, failed: seq<string>)
    requires Progress(cfg, w0, w, lb, i, created, failed) && i < |w0.spec.pools|
    requires PoolFrame(w, after, lb, w0.spec.pools[i].name)
    ensures OnlyPoolsOf(w0.lbs, after.lbs, lb, w0.spec.pools[..i + 1])
    ensures EachLive(after.lbs[lb].pools, w0.spec.pools[..i + 1], created)
    ensures WellFormed(w0.spec) ==> EachRecorded(after.status.pools, created)
  {
    OnlyPoolsOfStep(w0.lbs, w.lbs, after.lbs, lb, w0.spec.pools, i);
    EachLiveStep(w.lbs[lb], after.lbs[lb], w0.spec.pools, created, i);
    if WellFormed(w0.spec) {
      EachRecordedStep(w.lbs[lb], after.lbs[lb], w0.spec.pools, created, i, w.status.pools, after.status.pools);
    }
  }

  lemma ProgressOne(
    cfg: Config, w0: World, w: World, after: World, lb: Id, i: nat, created: seq<CreatedPool>, failed: seq<string>,
    r: CreatedPool)
    requires Progress(cfg, w0, w, lb, i, created, failed) && i < |w0.spec.pools|
    requires PoolFrame(w, after, lb, w0.spec.pools[i].name)
    requires PoolDone(cfg, w, after, lb, w0.spec.pools[i], r, UniquePools(w0.lbs[lb].pools))
    ensures Progress(cfg, w0, after, lb, i + 1, created + [r], failed)
  {
    ProgressKept(cfg, w0, w, after, lb, i, created, failed);
    ExactIsLive(after.lbs[lb].pools, w0.spec.pools[i], r);
    assert w0.spec.pools[..i + 1][i] == w0.spec.pools[i];
    NewAccountedCreated(w0.lbs[lb].pools, w.lbs[lb].pools, after.lbs[lb].pools, created, failed, r);
    EachLiveAppend(after.lbs[lb].pools, w0.spec.pools[..i + 1], created, r, i);
    if failed == [] {
      LiveStep(w.lbs[lb], after.lbs[lb], w0.spec.pools, created, i, r);
      if SpecRegular(w0.spec) && PoolsRegular(w0.lbs[lb].pools) {
        ProgressStrong(cfg, w0, w, after, lb, i, created, r);
      }
    }
  }

  lemma ProgressFailed(
    cfg: Config, w0: World, w: World, after: World, lb: Id, i: nat, created: seq<CreatedPool>, failed: seq<string>,
    name: string)
    requires Progress(cfg, w0, w, lb, i, created, failed) && i < |w0.spec.pools|
    requires PoolFrame(w, after, lb, w0.spec.pools[i].name)
    requires name == w0.spec.pools[i].name
    ensures Progress(cfg, w0, after, lb, i + 1, created, failed + [name])
  {
    NewAccountedFailed(w0.lbs[lb].pools, w.lbs[lb].pools, after.lbs[lb].pools, created, failed, name);
    ProgressKept(cfg, w0, w, after, lb, i, created, failed);
  }

  ghost predicate AllQuiet(w: World, lb: Id) {
    && lb in w.lbs && WellFormed(w.spec) && UniquePools(w.lbs[lb].pools)
    && forall i :: 0 <= i < |w.spec.pools| ==> HasQuietPool(w, lb, w.spec.pools[i])
  }

  /** A pool of that name was added to the created ones or the name to the failed ones. */
  predicate OneMore(
    created: seq<CreatedPool>, failed: seq<string>, created': seq<CreatedPool>, failed': seq<string>, name: string)
  {
    || (created' == created && failed' == failed + [name])
    || (failed' == failed && |created'| == |created| + 1 && created == created'[..|created|] && created'[|created|].name == name)
  }

  predicate Accounted(specs: seq<PoolSpec>, created: seq<CreatedPool>, failed: seq<string>) {
    forall i :: 0 <= i < |specs| ==> AccountedFor(specs, i, created, failed)
  }

  /** The i-th pool is among the created ones, or its name among the failed. */
  predicate AccountedFor(specs: seq<PoolSpec>, i: nat, created: seq<CreatedPool>, failed: seq<string>)
    requires i < |specs|
  {
    specs[i].name in failed || CreatedNamed(created, specs[i].name)
  }

  predicate CreatedNamed(created: seq<CreatedPool>, name: string) {
    exists k :: 0 <= k < |created| && created[k].name == name
  }

  lemma AccountedStep(
    specs: seq<PoolSpec>, i: nat, created: seq<CreatedPool>, failed: seq<string>,
    created': seq<CreatedPool>, failed': seq<string>)
    requires i < |specs| && Accounted(specs[..i], created, failed)
    requires OneMore(created, failed, created', failed', specs[i].name)
    ensures Accounted(specs[..i + 1], created', failed')
  {
    var more := specs[..i + 1];
    forall j | 0 <= j < |more| ensures AccountedFor(more, j, created', failed') {
      if j < i {
        assert AccountedFor(specs[..i], j, created, failed);
        if CreatedNamed(created, specs[j].name) {
          var k :| 0 <= k < |created| && created[k].name == specs[j].name;
          assert created'[k] == created[k];
        }
      }
    }
  }

  /** The spec names nothing twice, and neither does the load balancer. */
  predicate Regular(w: World, lb: Id) {
    lb in w.lbs && WellFormed(w.spec) && UniquePools(w.lbs[lb].pools)
  }

  /** Some pool of the spec has a live group whose dial is off. */
  predicate DialsOff(pools: map<Id, Pool>, specs: seq<PoolSpec>) {
    exists i :: 0 <= i < |specs| && PoolResends(pools, specs[i])
  }

  lemma DialsOffPrefix(pools: map<Id, Pool>, specs: seq<PoolSpec>, i: nat)
    requires i < |specs| && DialsOff(pools, specs[..i + 1])
    ensures DialsOff(pools, specs[..i]) || PoolResends(pools, specs[i])
  {
    var k :| 0 <= k < i + 1 && PoolResends(pools, specs[..i + 1][k]);
    if k < i {
      assert specs[..i][k] == specs[k];
    }
  }

  /** Earlier pools do not touch this one. */
  lemma StillResends(w: World, lb: Id, current: Listing<Pool>, sp: PoolSpec)
    requires StillListed(w, lb, current, sp) && WellFormed(w.spec) && PoolResends(current.at, sp)
    ensures PoolResends(w.lbs[lb].pools, sp)
  {
    var p :| p in current.at && current.at[p].name == sp.name && Resends(current.at[p].groups, sp.groups);
    assert w.lbs[lb].pools[p] == current.at[p];
  }

  /** Nothing was dropped from the record, and unless a creation or a status patch failed, what is new is on it. */
  ghost predicate PoolsBooked(lapsed: bool, w0: World, w: World, lb: Id) {
    var all :=
      && lb in w0.lbs && lb in w.lbs
      && PoolsStayListed(w0.status.pools, w.status.pools)
      && (lapsed || NewPoolsListed(w0.lbs[lb].pools, w.lbs[lb].pools, w.status.pools));
    all
  }

  lemma PoolsBookedNext(w0: World, w: World, after: World, lb: Id, lapsed: bool, lapses: bool)
    requires PoolsBooked(lapsed, w0, w, lb) && PoolsBooked(lapses, w, after, lb)
    ensures PoolsBooked(lapsed || lapses, w0, after, lb)
  {
  }

  /** Deploys the i-th pool. */
  method DeployOne(
    c: Cloud, cfg: Config, lb: Id, current: Listing<Pool>, i: nat, created: seq<CreatedPool>, failed: seq<string>,
    ghost w0: World)
    returns (created': seq<CreatedPool>, failed': seq<string>)
    requires c.Valid() && Works(c.w, lb) && Lists(current) && lb in w0.lbs && current.at == w0.lbs[lb].pools
    requires c.w.spec == w0.spec && c.w.snap == w0.snap && i < |c.w.spec.pools|
    requires Progress(cfg, w0, c.w, lb, i, created, failed)
    modifies c
    ensures c.Continues() && Progress(cfg, w0, c.w, lb, i + 1, created', failed')
    ensures OneMore(created, failed, created', failed', w0.spec.pools[i].name)
    ensures |failed'| - |failed| <= c.faults - old(c.faults)
    ensures PoolsBooked(c.Lapsed(), old(c.w), c.w, lb)
    ensures failed' == failed && Regular(w0, lb) && PoolResends(w0.lbs[lb].pools, w0.spec.pools[i]) ==>
              c.calls > old(c.calls)
    ensures old(c.w) == w0 && AllQuiet(w0, lb) ==> c.Untouched()
  {
    ghost var w := c.w;
    var sp := c.w.spec.pools[i];
    ListStaysGood(w0, c.w, lb, current, i);
    if Regular(w0, lb) && PoolResends(w0.lbs[lb].pools, sp) {
      StillResends(c.w, lb, current, sp);
    }
    var r := DeployPool.DeployPool(c, cfg, lb, sp, current);
    if r.None? {
      ProgressFailed(cfg, w0, w, c.w, lb, i, created, failed, sp.name);
      return created, failed + [sp.name];
    }
    ProgressOne(cfg, w0, w, c.w, lb, i, created, failed, r.value);
    return created + [r.value], failed;
  }

  /** What the loop keeps besides the progress; `sent` says that a call was made since it began. */
  ghost predicate Kept(
    w0: World, w: World, lb: Id, i: nat, created: seq<CreatedPool>, failed: seq<string>, lapsed: bool, sent: bool)
    requires i <= |w0.spec.pools|
  {
    var all :=
      && PoolsBooked(lapsed, w0, w, lb) && Accounted(w0.spec.pools[..i], created, failed)
      && (failed == [] && Regular(w0, lb) && DialsOff(w0.lbs[lb].pools, w0.spec.pools[..i]) ==> sent);
    all
  }

  /** The state of the loop. */
  ghost predicate Reached(
    cfg: Config, w0: World, w: World, lb: Id, i: nat, created: seq<CreatedPool>, failed: seq<string>,
    lapsed: bool, sent: bool)
  {
    var all :=
      Progress(cfg, w0, w, lb, i, created, failed) && Kept(w0, w, lb, i, created, failed, lapsed, sent);
    all
  }

  lemma KeptNext(
    w0: World, w: World, after: World, lb: Id, i: nat, created: seq<CreatedPool>, failed: seq<string>,
    created': seq<CreatedPool>, failed': seq<string>, lapsed: bool, lapses: bool, sent: bool, sends: bool)
    requires i < |w0.spec.pools| && Kept(w0, w, lb, i, created, failed, lapsed, sent)
    requires PoolsBooked(lapses, w, after, lb) && OneMore(created, failed, created', failed', w0.spec.pools[i].name)
    requires failed' == failed && Regular(w0, lb) && PoolResends(w0.lbs[lb].pools, w0.spec.pools[i]) ==> sends
    ensures Kept(w0, after, lb, i + 1, created', failed', lapsed || lapses, sent || sends)
  {
    PoolsBookedNext(w0, w, after, lb, lapsed, lapses);
    AccountedStep(w0.spec.pools, i, created, failed, created', failed');
    if DialsOff(w0.lbs[lb].pools, w0.spec.pools[..i + 1]) {
      DialsOffPrefix(w0.lbs[lb].pools, w0.spec.pools, i);
    }
  }

  /** One round of the loop, which began with these numbers of lapses and calls. */
  method DeployNext(
    c: Cloud, cfg: Config, lb: Id, current: Listing<Pool>, i: nat, created: seq<CreatedPool>, failed: seq<string>,
    ghost w0: World, ghost lapses: nat, ghost calls: nat)
    returns (created': seq<CreatedPool>, failed': seq<string>)
    requires c.Valid() && Works(c.w, lb) && Lists(current) && lb in w0.lbs && current.at == w0.lbs[lb].pools
    requires i < |w0.spec.pools| && lapses <= c.lapses && calls <= c.calls
    requires Reached(cfg, w0, c.w, lb, i, created, failed, c.lapses > lapses, c.calls > calls)
    modifies c
    ensures c.Continues() && Reached(cfg, w0, c.w, lb, i + 1, created', failed', c.lapses > lapses, c.calls > calls)
    ensures |failed'| - |failed| <= c.faults - old(c.faults)
    ensures old(c.w) == w0 && AllQuiet(w0, lb) ==> c.Untouched()
  {
    created', failed' := DeployOne(c, cfg, lb, current, i, created, failed, w0);
    KeptNext(w0, old(c.w), c.w, lb, i, created, failed, created', failed',
             old(c.lapses) > lapses, c.Lapsed(), old(c.calls) > calls, c.calls > old(c.calls));
  }

  /** The loop over the spec's pools. */
  method DeployAll(c: Cloud, cfg: Config, lb: Id, current: Listing<Pool>, ghost w0: World)
    returns (created: seq<CreatedPool>, failed: seq<string>)
    requires c.Valid() && Works(c.w, lb) && c.w == w0 && Lists(current) && lb in w0.lbs
             && current.at == w0.lbs[lb].pools
    modifies c
    ensures c.Continues() && |failed| <= c.faults - old(c.faults)
    ensures Reached(cfg, w0, c.w, lb, |w0.spec.pools|, created, failed, c.lapses > old(c.lapses), c.calls > old(c.calls))
    ensures AllQuiet(w0, lb) ==> c.Untouched()
  {
    created, failed := [], [];
    ProgressStart(cfg, w0, lb);
    for i := 0 to |c.w.spec.pools|
      invariant c.Continues() && |failed| <= c.faults - old(c.faults)
      invariant Reached(cfg, w0, c.w, lb, i, created, failed, c.lapses > old(c.lapses), c.calls > old(c.calls))
      invariant AllQuiet(w0, lb) ==> c.Untouched()
    {
      created, failed := DeployNext(c, cfg, lb, current, i, created, failed, w0, old(c.lapses), old(c.calls));
    }
  }

  /**
   Deploys every pool of the spec. A pool that fails does not keep the ones behind it from being
   tried: each ends up either in `created`, live and recorded, or by name in `failed`, and each that
   failed had a failing call of its own.
   */
  method DeployPools(c: Cloud, cfg: Config, lb: Id)
    returns (listed: bool, created: seq<CreatedPool>, failed: seq<string>)
    requires c.Valid() && Works(c.w, lb)
    modifies c
    ensures c.Continues()
    ensures listed ==> PoolsBooked(c.Lapsed(), old(c.w), c.w, lb)
    ensures listed && failed == [] && Regular(old(c.w), lb) && DialsOff(old(c.w).lbs[lb].pools, c.w.spec.pools) ==>
              c.calls > old(c.calls)
    ensures !listed ==> c.Untouched() && created == [] && failed == [] && (c.Faulty() || lb !in c.w.lbs)
    ensures listed ==> Progress(cfg, old(c.w), c.w, lb, |c.w.spec.pools|, created, failed)
    ensures listed ==> Accounted(c.w.spec.pools, created, failed) && |failed| <= c.faults - old(c.faults)
    ensures AllQuiet(old(c.w), lb) ==> c.Untouched()
  {
    created, failed := [], [];
    var pools := c.ListPools(lb);
    if pools.None? {
      return false, created, failed;
    }
    created, failed := DeployAll(c, cfg, lb, pools.value, c.w);
    assert c.w.spec.pools[..|c.w.spec.pools|] == c.w.spec.pools;
    listed := true;
  }
}
