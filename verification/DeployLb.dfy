/** Getting hold of the load balancer: finding, creating and moving it (deploy_lb.go). */
module DeployLb {
  import opened GlbTypes
  import opened Diffs
  import opened Protocol
  import opened CloudApi
  import opened DeployPoolMember
  import opened DeployPool
  import Listeners = ListenerPhase
  import DeleteLb

  /** Only the load balancer id in the status may have changed, nothing in the created lists. */
  predicate SameRecords(a: Status, b: Status) {
    a.listeners == b.listeners && a.pools == b.pools
  }

  lemma SameRecordsAllowed(w: World, id: Option<Id>)
    ensures RecordAllowed(w, w.status.(lbId := id))
  {
    var st := w.status.(lbId := id);
    assert forall l :: RecordsListener(st, l) ==> RecordsListener(w.status, l);
    assert forall p :: RecordsPool(st, p) ==> RecordsPool(w.status, p);
    assert forall p, g :: RecordsGroup(st, p, g) ==> RecordsGroup(w.status, p, g);
  }

  method StatusSetLb(c: Cloud, id: Option<Id>) returns (ok: bool)
    requires c.Valid() && (id.Some? ==> id.value in c.w.lbs && Mine(c.w, id.value))
    modifies c
    ensures c.Continues() && c.w == old(c.w).(status := c.w.status) && SameRecords(old(c.w).status, c.w.status)
    ensures (ok ==> c.w.status.lbId == id) && (!ok ==> c.Faulty() && c.Lapsed())
    ensures old(c.w).status.lbId == id ==> c.Untouched()
  {
    ok := c.Fetch();
    if !ok || c.w.status.lbId == id {
      return;
    }
    SameRecordsAllowed(c.w, id);
    ok := c.Try(PatchStatus(c.w.status.(lbId := id)));
  }

  lemma ClearedAllowed(w: World)
    ensures RecordAllowed(w, w.status.(listeners := [], pools := []))
  {
    var st := w.status.(listeners := [], pools := []);
    assert forall l :: !RecordsListener(st, l);
    assert forall p :: !RecordsPool(st, p);
    assert forall p, g :: !RecordsGroup(st, p, g);
  }

  method StatusClearCreated(c: Cloud) returns (ok: bool)
    requires c.Valid()
    modifies c
    ensures c.Continues() && c.w == old(c.w).(status := c.w.status) && c.w.status.lbId == old(c.w).status.lbId
    ensures (ok ==> c.w.status == old(c.w).status.(listeners := [], pools := [])) && (!ok ==> c.Faulty())
  {
    ok := c.Fetch();
    if !ok || (c.w.status.listeners == [] && c.w.status.pools == []) {
      return;
    }
    ClearedAllowed(c.w);
    ok := c.Try(PatchStatus(c.w.status.(listeners := [], pools := [])));
  }

  predicate PackageAgrees(spec: Spec, lb: LB) {
    IsSet(spec.packageId) ==> spec.packageId.value == lb.package
  }

  function Resized(spec: Spec, lb: LB): LB {
    if IsSet(spec.packageId) then lb.(package := spec.packageId.value) else lb
  }

  /** The status names the load balancer, which has the wanted size; nothing else changed. */
  predicate Adopted(w: World, after: World, lb: Id) {
    && lb in w.lbs && after.status.lbId == Some(lb) && SameRecords(w.status, after.status)
    && after == w.(lbs := w.lbs[lb := Resized(w.spec, w.lbs[lb])], status := after.status)
  }

  /** Resizes the load balancer if need be. */
  method ResizeTo(c: Cloud, lb: Id) returns (ok: bool)
    requires c.Valid() && lb in c.w.lbs && Mine(c.w, lb)
    modifies c
    ensures c.Continues() && NothingNew(old(c.w).lbs, c.w.lbs) && c.w == old(c.w).(lbs := c.w.lbs)
    ensures ok ==> c.w.lbs == old(c.w).lbs[lb := Resized(c.w.spec, old(c.w).lbs[lb])]
    ensures !ok ==> c.Faulty()
    ensures PackageAgrees(c.w.spec, old(c.w).lbs[lb]) ==> c.Untouched()
  {
    SetLbTwice(c.w, lb, c.w.lbs[lb], c.w.lbs[lb]);
    if !IsSet(c.w.spec.packageId) || c.w.spec.packageId.value == c.w.lbs[lb].package {
      return true;
    }
    ok := c.Try(ResizeLb(lb, c.w.spec.packageId.value));
    if ok {
      ok := c.Wait();
    }
  }

  /** Checks that the load balancer is there and active, notes its id, and resizes it if need be. */
  method EnsureExist(c: Cloud, lb: Id) returns (ok: bool)
    requires c.Valid() && (lb in c.w.lbs ==> Mine(c.w, lb))
    modifies c
    ensures c.Continues() && SameRecords(old(c.w).status, c.w.status) && NothingNew(old(c.w).lbs, c.w.lbs)
    ensures !ok ==> c.Faulty() || lb !in old(c.w).lbs
    ensures ok ==> Adopted(old(c.w), c.w, lb)
    ensures lb !in old(c.w).lbs ==> c.Untouched()
    ensures lb in old(c.w).lbs && old(c.w).status.lbId == Some(lb) && PackageAgrees(old(c.w).spec, old(c.w).lbs[lb])
            ==> c.Untouched()
  {
    c.HasProperIds();
    if lb == NO_ID || lb !in c.w.lbs {
      return false;
    }
    ok := c.Wait();
    if !ok {
      return;
    }
    ok := StatusSetLb(c, Some(lb));
    if ok {
      ok := ResizeTo(c, lb);
    }
  }

  /** The id is on record, the package is the spec's if it sets one, and nothing else has changed. */
  lemma AdoptedIs(w: World, after: World, lb: Id)
    requires Adopted(w, after, lb)
    ensures after.status == w.status.(lbId := Some(lb)) && after.lbs.Keys == w.lbs.Keys
    ensures forall b :: b in w.lbs && b != lb ==> after.lbs[b] == w.lbs[b]
    ensures after.lbs[lb] == w.lbs[lb].(package := after.lbs[lb].package)
    ensures after.lbs[lb].package == if w.spec.packageId.Some? && w.spec.packageId.value != "" then w.spec.packageId.value
                                     else w.lbs[lb].package
  {
  }

  // ----- Creating -----

  /** The first pool and the first listener go into the create request, or neither. */
  ghost predicate FirstContent(cfg: Config, spec: Spec, content: LB) {
    if spec.pools == [] || spec.listeners == [] then content.pools == map[] && content.listeners == map[]
    else exists p, l, pool, link ::
           && content.pools == map[p := pool] && pool == NewPool(cfg, spec.pools[0], pool.groups)
           && AddedFor(pool.groups, NewGroups(spec.pools[0].groups))
           && (link == p || link == NO_ID)
           && content.listeners == map[l := NewListener(cfg, spec.listeners[0], []).(poolId := link)]
  }

  lemma FirstContentAllowed(cfg: Config, w: World, content: LB)
    requires FirstContent(cfg, w.spec, content)
    ensures LbIntegrity(content) && (WellFormed(w.spec) ==> UniqueOn(content))
    ensures DistinctPorts(w.spec.listeners) ==> ProtocolsMatch(content.listeners, w.spec.listeners)
  {
    if w.spec.pools != [] && w.spec.listeners != [] && WellFormed(w.spec) {
      assert DistinctNames(NewGroups(w.spec.pools[0].groups));
    }
  }

  lemma FirstContentFits(cfg: Config, spec: Spec, content: LB)
    requires FirstContent(cfg, spec, content) && SpecRegular(spec)
    ensures PoolsOnce(content.pools) && Suits(spec, content)
  {
    forall p | p in content.pools ensures NewGroupsFit(spec, content.pools[p].name, content.pools[p].groups) {
      NewGroupsOfSpecFit(spec, spec.pools[0], content.pools[p].groups);
    }
    forall i, l | 0 <= i < |spec.listeners| && l in content.listeners && content.listeners[l].port == spec.listeners[i].port
      ensures content.listeners[l].protocol == spec.listeners[i].protocol
    {
      assert i == 0;
    }
  }

  /** The cloud names the parts, and may or may not link the listener to the pool. */
  method BuildContent(cfg: Config, spec: Spec) returns (r: Option<LB>)
    ensures r.Some? ==> FirstContent(cfg, spec, r.value) && r.value.name == spec.name
    ensures r.Some? ==> r.value.package == if IsSet(spec.packageId) then spec.packageId.value else cfg.packageId
    ensures r.Some? && spec.pools != [] && spec.listeners != [] ==>
              exists p, l :: r.value.pools.Keys == {p} && r.value.listeners.Keys == {l}
                             && r.value.pools[p].name == spec.pools[0].name
                             && r.value.listeners[l].port == spec.listeners[0].port
    ensures r.Some? && (spec.pools == [] || spec.listeners == []) ==>
              |r.value.pools| == 0 && |r.value.listeners| == 0
  {
    var package := if IsSet(spec.packageId) then spec.packageId.value else cfg.packageId;
    if spec.pools == [] || spec.listeners == [] {
      return Some(LB(spec.name, package, map[], map[]));
    }
    var p: Id, l: Id, ids: seq<Id>, linked: bool := *, *, *, *;
    if |ids| != |spec.pools[0].groups| || !Distinct(ids) {
      return None;
    }
    ZipAdds(ids, NewGroups(spec.pools[0].groups));
    var pool := NewPool(cfg, spec.pools[0], Zip(ids, NewGroups(spec.pools[0].groups)));
    var listener := NewListener(cfg, spec.listeners[0], []).(poolId := if linked then p else NO_ID);
    assert map[p := pool].Keys == {p} && map[l := listener].Keys == {l};
    return Some(LB(spec.name, package, map[l := listener], map[p := pool]));
  }

  /** As just created: no listener dangles, and none is in the way of a spec that lists no port twice. */
  predicate FreshLb(spec: Spec, lb: LB) {
    LbIntegrity(lb) && (DistinctPorts(spec.listeners) ==> ProtocolsMatch(lb.listeners, spec.listeners))
  }

  lemma ResizedContent(cfg: Config, spec: Spec, lb: LB)
    requires FirstContent(cfg, spec, lb) && FreshLb(spec, lb)
    ensures FirstContent(cfg, spec, Resized(spec, lb)) && FreshLb(spec, Resized(spec, lb))
  {
  }

  /** A load balancer created in this pass that came up in error is forgotten and deleted again. */
  method Discard(c: Cloud, id: Id)
    requires c.Valid() && id in c.w.born && id in c.w.lbs
    modifies c
    ensures c.Proceeds() && SameRecords(old(c.w).status, c.w.status)
    ensures c.Faulty() || (c.w.status.lbId.None? && c.w.lbs == old(c.w).lbs - {id})
    ensures c.broken == old(c.broken)
    ensures c.w.born == old(c.w).born && (c.w.lbs == old(c.w).lbs || c.w.lbs == old(c.w).lbs - {id})
  {
    var ok := StatusSetLb(c, None);
    if ok {
      ok := c.Try(Act.DeleteLb(id));
    }
  }

  /** A load balancer that was not there has come, in this pass, and no other. */
  predicate OneMore(w: World, after: World, lb: Id) {
    lb !in w.lbs && after.lbs.Keys == w.lbs.Keys + {lb} && after.born == w.born + {lb}
  }

  lemma CreateLbAllowed(cfg: Config, w: World, id: Id, content: LB)
    requires FirstContent(cfg, w.spec, content) && Possible(w, CreateLb(id, content)) && content.name == w.spec.name
    requires !IsSet(w.snap.lbId) && (w.spec.name != "" ==> !LbNamed(w.lbs, w.spec.name))
    ensures Allowed(w, CreateLb(id, content)) && FreshLb(w.spec, content)
    ensures OneMore(w, Apply(w, CreateLb(id, content)), id)
  {
    FirstContentAllowed(cfg, w, content);
    if SpecRegular(w.spec) {
      FirstContentFits(cfg, w.spec, content);
    }
  }

  /** The create call; the cloud names the load balancer and its parts. */
  method CreateCall(c: Cloud, cfg: Config) returns (r: Option<Id>)
    requires c.Valid() && !IsSet(c.w.snap.lbId) && (c.w.spec.name != "" ==> !LbNamed(c.w.lbs, c.w.spec.name))
    modifies c
    ensures c.Proceeds() && c.w.status == old(c.w).status && c.broken == old(c.broken) && (r.None? ==> c.Faulty())
    ensures AtMostOneMore(old(c.w), c.w)
    ensures r.Some? ==> OneMore(old(c.w), c.w, r.value)
    ensures r.Some? ==> FreshLb(c.w.spec, c.w.lbs[r.value]) && FirstContent(cfg, c.w.spec, c.w.lbs[r.value])
  {
    var content := BuildContent(cfg, c.w.spec);
    var id: Id := *;
    if content.None? || !Possible(c.w, CreateLb(id, content.value)) {
      c.Refuse();
      return None;
    }
    CreateLbAllowed(cfg, c.w, id, content.value);
    var ok := c.Try(CreateLb(id, content.value));
    if id in c.w.lbs {
      assert OneMore(old(c.w), c.w, id);
    }
    return if ok then Some(id) else None;
  }

  /** Notes the id of the new load balancer, waits for it and sizes it. One that comes up in error is discarded. */
  method BringUp(c: Cloud, id: Id) returns (ok: bool)
    requires c.Valid() && id in c.w.lbs && id in c.w.born
    modifies c
    ensures c.Proceeds() && SameRecords(old(c.w).status, c.w.status) && (!ok ==> c.Faulty())
    ensures c.w.born == old(c.w).born
    ensures c.w.lbs.Keys == old(c.w).lbs.Keys || c.w.lbs.Keys == old(c.w).lbs.Keys - {id}
    ensures ok ==> Adopted(old(c.w), c.w, id)
    ensures c.broken > old(c.broken) ==> !ok
    ensures c.broken > old(c.broken) && c.faults <= old(c.faults) + 1 ==>
              c.w.status.lbId.None? && c.w.lbs == old(c.w).lbs - {id}
  {
    ok := StatusSetLb(c, Some(id));
    if !ok {
      return;
    }
    var activity := c.WaitNew();
    if activity.Active? {
      ok := EnsureExist(c, id);
      return;
    }
    ok := false;
    if activity.InError? {
      Discard(c, id);
    }
  }

  /** At most one load balancer has come. */
  ghost predicate AtMostOneMore(w: World, after: World) {
    after.lbs.Keys == w.lbs.Keys || exists b :: OneMore(w, after, b)
  }

  /** The new load balancer is gone and forgotten. */
  predicate Undone(w: World, after: World) {
    var all :=
      after.status.lbId.None? && after.lbs.Keys == w.lbs.Keys;
    all
  }

  method CreateLoadBalancer(c: Cloud, cfg: Config) returns (r: Option<Id>)
    requires c.Valid() && !IsSet(c.w.snap.lbId) && (c.w.spec.name != "" ==> !LbNamed(c.w.lbs, c.w.spec.name))
    modifies c
    ensures c.Proceeds() && SameRecords(old(c.w).status, c.w.status) && (r.None? ==> c.Faulty())
    ensures AtMostOneMore(old(c.w), c.w)
    ensures r.Some? ==> OneMore(old(c.w), c.w, r.value) && FreshLb(c.w.spec, c.w.lbs[r.value])
    ensures r.Some? ==> c.w.status.lbId == r && FirstContent(cfg, c.w.spec, c.w.lbs[r.value])
    ensures c.broken > old(c.broken) ==> r.None? && (c.faults > old(c.faults) + 1 || Undone(old(c.w), c.w))
  {
    var created := CreateCall(c, cfg);
    if created.None? {
      return None;
    }
    var id := created.value;
    ResizedContent(cfg, c.w.spec, c.w.lbs[id]);
    var ok := BringUp(c, id);
    assert c.w.lbs.Keys == old(c.w).lbs.Keys || OneMore(old(c.w), c.w, id);
    return if ok then Some(id) else None;
  }

  // ----- Moving -----

  /** What the configuration had on the load balancer is gone from it and from the record. */
  predicate TornDown(w: World, after: World, lb: Id) {
    if lb !in w.lbs then after == w
    else
      && after == w.(lbs := w.lbs[lb := DeleteLb.Teardown(w.snap, w.lbs[lb])], status := after.status)
      && after.status == w.status.(listeners := [], pools := [])
  }

  /**
   Removes what this configuration recorded on the load balancer it leaves, then forgets the
   records. A load balancer that is gone already is no obstacle, and its records are kept.
   */
  method TeardownOn(c: Cloud, lb: Id) returns (ok: bool)
    requires c.Valid() && Migrating(c.w) && c.w.snap.lbId == Some(lb)
    modifies c
    ensures c.Continues() && NothingNew(old(c.w).lbs, c.w.lbs)
    ensures !ok ==> c.Faulty() || (lb in old(c.w).lbs && !DeleteLb.CanRemove(old(c.w).snap, old(c.w).lbs[lb]))
    ensures ok ==> TornDown(old(c.w), c.w, lb)
    ensures lb !in old(c.w).lbs ==> c.Untouched()
  {
    ok := c.Wait();
    if !ok || lb !in c.w.lbs {
      return;
    }
    ok := DeleteLb.RemoveRecorded(c, lb);
    if !ok {
      return;
    }
    ok := StatusClearCreated(c);
  }

  /** The old load balancer is torn down, the new one adopted, provided that the old can be cleared and the new exists. */
  ghost predicate Moved(w: World, after: World, lb: Id, target: Id) {
    (lb in w.lbs ==> DeleteLb.CanRemove(w.snap, w.lbs[lb])) && target in w.lbs ==>
      exists mid :: TornDown(w, mid, lb) && Adopted(mid, after, target)
  }

  method Migrate(c: Cloud, lb: Id, target: Id)
    requires c.Valid() && Migrating(c.w) && c.w.snap.lbId == Some(lb) && c.w.spec.lbId == Some(target)
    modifies c
    ensures c.Continues() && NothingNew(old(c.w).lbs, c.w.lbs)
    ensures c.Faulty() || Moved(old(c.w), c.w, lb, target)
  {
    var gone := TeardownOn(c, lb);
    if gone {
      ghost var mid := c.w;
      var ok := EnsureExist(c, target);
      assert ok ==> TornDown(old(c.w), mid, lb) && Adopted(mid, c.w, target);
    }
  }

  /**
   The pass that began in `w` has its load balancer, which is on record: the one it had, sized, or
   else a new one, as just created.
   */
  predicate Located(w: World, mid: World, lb: Id) {
    var all :=
      && lb in mid.lbs && mid.status.lbId == Some(lb) && mid.spec == w.spec && mid.snap == w.snap
      && if IsSet(w.snap.lbId) then !Migrating(w) && w.snap.lbId == Some(lb) && Adopted(w, mid, lb)
         else OneMore(w, mid, lb) && FreshLb(w.spec, mid.lbs[lb]);
    all
  }

  /** With a load balancer on record: that one, or a move away from it. */
  method UseRecorded(c: Cloud) returns (r: Option<Id>)
    requires c.Valid() && IsSet(c.w.snap.lbId)
    modifies c
    ensures c.Continues() && NothingNew(old(c.w).lbs, c.w.lbs)
    ensures r.Some? ==> Works(c.w, r.value) && Located(old(c.w), c.w, r.value)
    ensures EndsEarly(old(c.w)) ==> r.None? && (c.Faulty() || EndedEarly(old(c.w), c.w))
    ensures !EndsEarly(old(c.w)) ==> r.Some? || c.Faulty()
    ensures Missing(old(c.w)) || Anchored(old(c.w)) ==> c.Untouched()
  {
    var lb := c.w.snap.lbId.value;
    if IsSet(c.w.spec.lbId) && c.w.spec.lbId.value != lb {
      Migrate(c, lb, c.w.spec.lbId.value);
      return None;
    }
    var ok := EnsureExist(c, lb);
    return if ok then Some(lb) else None;
  }

  /**
   The load balancer this pass works on, or nothing when the pass ends here: on an error, after a
   move, or when an existing load balancer was newly adopted and the pass has to start over.
   */
  method DeployLoadBalancer(c: Cloud, cfg: Config) returns (r: Option<Id>)
    requires c.Valid()
    modifies c
    ensures c.Proceeds() && (!Creates(old(c.w)) ==> NothingNew(old(c.w).lbs, c.w.lbs))
    ensures CreatesAsNeeded(old(c.w), c.w, c.Faulty())
    ensures r.Some? ==> Works(c.w, r.value) && Located(old(c.w), c.w, r.value)
    ensures EndsEarly(old(c.w)) ==> r.None? && (c.Faulty() || EndedEarly(old(c.w), c.w))
    ensures !EndsEarly(old(c.w)) ==> r.Some? || c.Faulty()
    ensures Missing(old(c.w)) ==> c.Untouched()
    ensures c.broken > old(c.broken) ==> r.None? && (c.faults > old(c.faults) + 1 || Undone(old(c.w), c.w))
    ensures Anchored(old(c.w)) ==> c.Untouched()
  {
    if IsSet(c.w.snap.lbId) {
      r := UseRecorded(c);
      return;
    }
    if IsSet(c.w.spec.lbId) {
      var ok := EnsureExist(c, c.w.spec.lbId.value);
      return None;
    }
    if c.w.spec.name != "" {
      var ok := c.Wait();
      if !ok {
        return None;
      }
      if exists b :: b in c.w.lbs && c.w.lbs[b].name == c.w.spec.name {
        var found :| found in c.w.lbs && c.w.lbs[found].name == c.w.spec.name;
        ok := EnsureExist(c, found);
        return None;
      }
    }
    r := CreateLoadBalancer(c, cfg);
  }

  /**
   A pass over this state ends before the pool phase by design: it moves to another load balancer,
   adopts one by id or by name, or its load balancer is missing.
   */
  predicate EndsEarly(w: World) {
    if IsSet(w.snap.lbId) then Migrating(w) || w.snap.lbId.value !in w.lbs
    else IsSet(w.spec.lbId) || (w.spec.name != "" && LbNamed(w.lbs, w.spec.name))
  }

  /** The load balancer on record, which the spec does not leave, is gone. */
  predicate Missing(w: World) {
    var all :=
      IsSet(w.snap.lbId) && !Migrating(w) && w.snap.lbId.value !in w.lbs;
    all
  }

  /** No load balancer is on record or given, by id or by a name that is taken: the pass creates one. */
  predicate Creates(w: World) {
    !IsSet(w.snap.lbId) && !EndsEarly(w)
  }

  /** A load balancer came, and is on record, exactly when one had to be created; at most one if a call failed. */
  ghost predicate CreatesAsNeeded(w: World, after: World, faulty: bool) {
    var all :=
      && AtMostOneMore(w, after)
      && (!Creates(w) ==> after.lbs.Keys == w.lbs.Keys && after.born == w.born)
      && (Creates(w) ==> faulty || exists b :: OneMore(w, after, b) && after.status.lbId == Some(b));
    all
  }

  lemma CreatedStays(w: World, mid: World, after: World, faulty: bool, more: bool)
    requires CreatesAsNeeded(w, mid, faulty) && (faulty ==> more)
    requires after.lbs.Keys == mid.lbs.Keys && after.born == mid.born && after.status.lbId == mid.status.lbId
    ensures CreatesAsNeeded(w, after, more)
  {
    if b :| OneMore(w, mid, b) {
      assert OneMore(w, after, b);
    }
  }

  /** What such a pass does when no call fails: nothing to find, nothing to adopt; otherwise the move or the adoption. */
  ghost predicate EndedEarly(w: World, after: World) {
    var all :=
      if IsSet(w.snap.lbId) then
        if Migrating(w) then Moved(w, after, w.snap.lbId.value, w.spec.lbId.value) else w.snap.lbId.value !in w.lbs
      else if IsSet(w.spec.lbId) then
        w.spec.lbId.value in w.lbs ==> Adopted(w, after, w.spec.lbId.value)
      else
        exists b :: b in w.lbs && w.lbs[b].name == w.spec.name && Adopted(w, after, b);
    all
  }

  /** The configuration sits on a live load balancer of the right size, and its status says so. */
  predicate Anchored(w: World) {
    && IsSet(w.snap.lbId) && w.status.lbId == w.snap.lbId && w.snap.lbId.value in w.lbs
    && (IsSet(w.spec.lbId) ==> w.spec.lbId == w.snap.lbId)
    && PackageAgrees(w.spec, w.lbs[w.snap.lbId.value])
  }

  /** A move takes what is recorded from the old load balancer and forgets it, and adopts the given one. */
  lemma MovedIs(w: World, after: World, lb: Id, target: Id)
    requires Moved(w, after, lb, target) && lb in w.lbs && target in w.lbs && lb != target
    requires DeleteLb.CanRemove(w.snap, w.lbs[lb])
    ensures after.status == Status(Some(target), [], [])
    ensures after.lbs.Keys == w.lbs.Keys && forall b :: b in w.lbs && b != lb && b != target ==> after.lbs[b] == w.lbs[b]
    ensures after.lbs[lb] == w.lbs[lb].(listeners := DeleteLb.Teardown(w.snap, w.lbs[lb]).listeners,
                                        pools := DeleteLb.Teardown(w.snap, w.lbs[lb]).pools)
    ensures after.lbs[target] == w.lbs[target].(package := after.lbs[target].package)
    ensures w.spec.packageId.Some? && w.spec.packageId.value != "" ==> after.lbs[target].package == w.spec.packageId.value
  {
    var mid :| TornDown(w, mid, lb) && Adopted(mid, after, target);
    AdoptedIs(mid, after, target);
  }

  /** With the old load balancer gone, a move only adopts the given one: the old records stay. */
  lemma MovedFromNothingIs(w: World, after: World, lb: Id, target: Id)
    requires Moved(w, after, lb, target) && lb !in w.lbs && target in w.lbs
    ensures after.status == w.status.(lbId := Some(target)) && Adopted(w, after, target)
  {
    var mid :| TornDown(w, mid, lb) && Adopted(mid, after, target);
  }

  /** Which load balancer an early end leaves on record: the one the spec gives, by id or else by name. */
  lemma EndedEarlyIs(w: World, after: World)
    requires EndedEarly(w, after) && EndsEarly(w)
    ensures w.snap.lbId == None || w.snap.lbId == Some("") ==>
              if w.spec.lbId.Some? && w.spec.lbId.value != "" then
                w.spec.lbId.value in w.lbs ==> after.status.lbId == w.spec.lbId
              else
                after.status.lbId.Some? && after.status.lbId.value in w.lbs
                && w.lbs[after.status.lbId.value].name == w.spec.name != ""
    ensures IsSet(w.snap.lbId) && w.snap.lbId.value in w.lbs && DeleteLb.CanRemove(w.snap, w.lbs[w.snap.lbId.value])
            && w.spec.lbId.Some? && w.spec.lbId.value in w.lbs && w.spec.lbId.value != "" && w.spec.lbId != w.snap.lbId ==>
              after.status == Status(w.spec.lbId, [], [])
  {
    if Migrating(w) && w.snap.lbId.value in w.lbs && w.spec.lbId.value in w.lbs
       && DeleteLb.CanRemove(w.snap, w.lbs[w.snap.lbId.value]) {
      MovedIs(w, after, w.snap.lbId.value, w.spec.lbId.value);
    }
  }
}
