/** A whole deploy pass, and any sequence of passes (deploy_lb.go). */
module DeployPass {
  import opened GlbTypes
  import opened Equality
  import opened Protocol
  import opened CloudApi
  import opened Growth
  import opened StatusRecord
  import opened DeployLb
  import DeployListener
  import DeployPool
  import DL = DeleteListener
  import DP = DeletePool
  import Pools = PoolPhase
  import Listeners = ListenerPhase
  import DeleteLb
  import opened Safety

  // ----- The final write -----

  /** The status says what this pass built, in this order or in another. */
  predicate Recorded(st: Status, listeners: seq<CreatedListener>, pools: seq<CreatedPool>) {
    || (st.listeners == listeners && st.pools == pools)
    || (SlicesEqual(st.listeners, listeners) && PoolsEqual(st.pools, pools))
  }

  method WriteRecords(c: Cloud, listeners: seq<CreatedListener>, pools: seq<CreatedPool>) returns (ok: bool)
    requires c.Valid() && RecordAllowed(c.w, c.w.status.(listeners := listeners, pools := pools))
    requires SpecRegular(c.w.spec) && RecordsTidy(c.w.status) ==> Tidy(pools) && DistinctListenerIds(listeners)
    modifies c
    ensures c.Continues() && c.w == old(c.w).(status := c.w.status) && c.w.status.lbId == old(c.w).status.lbId
    ensures !ok ==> c.Faulty()
    ensures ok ==> Recorded(c.w.status, listeners, pools)
    ensures c.w.status == old(c.w).status || (c.w.status.listeners == listeners && c.w.status.pools == pools)
    ensures SlicesEqual(old(c.w).status.listeners, listeners) && PoolsEqual(old(c.w).status.pools, pools) ==>
              c.Untouched()
  {
    ok := c.Fetch();
    if !ok || (SlicesEqual(c.w.status.listeners, listeners) && PoolsEqual(c.w.status.pools, pools)) {
      return;
    }
    ok := c.Try(PatchStatus(c.w.status.(listeners := listeners, pools := pools)));
  }

  /** What was just deployed may be recorded, even after the sweep took some of it away again. */
  lemma DeployedRecordAllowed(
    w: World, after: World, lb: Id, listeners: seq<CreatedListener>, pools: seq<CreatedPool>)
    requires IdsProper(w.lbs) && lb in w.lbs && lb in after.lbs && after.spec == w.spec
    requires Pools.AllLive(w.lbs[lb].pools, w.spec.pools, pools)
    requires Listeners.AllExact(w.lbs[lb].listeners, w.spec.listeners, listeners)
    requires forall b :: b in after.lbs && b != lb ==> b in w.lbs && after.lbs[b] == w.lbs[b]
    requires forall p :: p in after.lbs[lb].pools ==>
               p in w.lbs[lb].pools && after.lbs[lb].pools[p].name == w.lbs[lb].pools[p].name
    requires forall l :: l in after.lbs[lb].listeners ==>
               l in w.lbs[lb].listeners && after.lbs[lb].listeners[l] == w.lbs[lb].listeners[l]
    ensures RecordAllowed(after, after.status.(listeners := listeners, pools := pools))
  {
    var st := after.status.(listeners := listeners, pools := pools);
    forall l, b | RecordsListener(st, l) && b in after.lbs && l in after.lbs[b].listeners
      ensures WantsPort(after.spec, after.lbs[b].listeners[l].port)
    {
      var i :| 0 <= i < |listeners| && listeners[i].id == l;
      assert DeployListener.ListenerExact(w.lbs[lb].listeners, w.spec.listeners[i], listeners[i]);
      assert b == lb;
    }
    forall p, b | RecordsPool(st, p) && b in after.lbs && p in after.lbs[b].pools
      ensures WantsPool(after.spec, after.lbs[b].pools[p].name)
    {
      var i :| 0 <= i < |pools| && pools[i].id == p;
      assert Pools.PoolLive(w.lbs[lb].pools, w.spec.pools[i], pools[i]);
      assert b == lb;
    }
    forall p, g, b | RecordsGroup(st, p, g) && b in after.lbs && p in after.lbs[b].pools
      ensures WantsGroup(after.spec, after.lbs[b].pools[p].name, g)
    {
      var i, k :| 0 <= i < |pools| && pools[i].id == p && 0 <= k < |pools[i].groups| && pools[i].groups[k].name == g;
      assert Pools.PoolLive(w.lbs[lb].pools, w.spec.pools[i], pools[i]);
      assert b == lb && w.spec.pools[i].groups[k].name == g;
    }
  }

  lemma NowDeployed(spec: Spec, lb: LB, listeners: seq<CreatedListener>, pools: seq<CreatedPool>)
    requires Pools.AllLive(lb.pools, spec.pools, pools) && Listeners.AllExact(lb.listeners, spec.listeners, listeners)
    ensures Deployed(spec, lb)
  {
    forall i | 0 <= i < |spec.pools| ensures HoldsPool(lb, spec.pools[i]) {
      assert Pools.PoolLive(lb.pools, spec.pools[i], pools[i]);
    }
    forall i | 0 <= i < |spec.listeners| ensures HoldsListener(lb, spec.listeners[i]) {
      assert DeployListener.ListenerExact(lb.listeners, spec.listeners[i], listeners[i]);
    }
  }

  /** What a record lists member for member is no less tidy than the record. */
  lemma RecordedIsTidy(a: seq<CreatedGroup>, b: seq<CreatedGroup>)
    requires TidyGroups(a) && GroupsEqual(a, b) && forall i, j :: 0 <= i < j < |b| ==> b[i].name != b[j].name
    ensures TidyGroups(b)
  {
    TidyGroupsNotTwice(a);
    GroupsNotTwiceCarries(a, b);
    forall i, j | 0 <= i < j < |b| ensures b[i].id != b[j].id {
      var m := EqualGroupsCover(a, b, i);
      var n := EqualGroupsCover(a, b, j);
    }
    forall i | 0 <= i < |b| ensures Distinct(b[i].members) {
      assert b[i] in b;
    }
  }

  /** What was deployed for a regular spec, and recorded pool by pool, makes a tidy record. */
  lemma DeployedIsTidy(spec: Spec, lb: LB, st: Status, listeners: seq<CreatedListener>, pools: seq<CreatedPool>)
    requires SpecRegular(spec) && RecordsTidy(st) && Pools.EachRecorded(st.pools, pools)
    requires Pools.AllLive(lb.pools, spec.pools, pools) && Listeners.AllExact(lb.listeners, spec.listeners, listeners)
    ensures Tidy(pools) && DistinctListenerIds(listeners)
  {
    forall i, j | 0 <= i < j < |listeners| ensures listeners[i].id != listeners[j].id {
      assert DeployListener.ListenerExact(lb.listeners, spec.listeners[i], listeners[i]);
      assert DeployListener.ListenerExact(lb.listeners, spec.listeners[j], listeners[j]);
    }
    forall i | 0 <= i < |pools| ensures Pools.PoolLive(lb.pools, spec.pools[i], pools[i]) && TidyGroups(pools[i].groups) {
      assert Pools.PoolLive(lb.pools, spec.pools[i], pools[i]);
      assert HasPool(st.pools, pools[i].id, pools[i].name, pools[i].groups);
      var k :| 0 <= k < |st.pools| && st.pools[k].id == pools[i].id && GroupsEqual(st.pools[k].groups, pools[i].groups);
      assert DistinctGroups(spec.pools[i].groups);
      RecordedIsTidy(st.pools[k].groups, pools[i].groups);
    }
  }

  // ----- The sweep -----

  /** The load balancer without the listeners and pools that are recorded and not wanted. */
  function Swept(st: Status, lb: LB, listeners: seq<CreatedListener>, pools: seq<CreatedPool>): LB {
    var one := lb.(listeners := DL.SweptListeners(st, lb, listeners, pools));
    one.(pools := DP.SweptPools(st, one, pools))
  }

  method Sweep(c: Cloud, lb: Id, listeners: seq<CreatedListener>, pools: seq<CreatedPool>) returns (ok: bool)
    requires c.Valid() && Works(c.w, lb) && MayDelete(c.w, lb) && lb in c.w.lbs
    modifies c
    ensures c.Continues() && Shrinks(old(c.w), c.w)
    ensures !ok ==> c.Faulty() || !DeleteLb.CanSweep(c.w.snap, old(c.w).lbs[lb], listeners, pools)
    ensures ok ==> DeleteLb.SweepsOnce(c.w.snap, old(c.w).lbs[lb], listeners, pools)
    ensures ok ==> c.w == SetLb(old(c.w), lb, Swept(c.w.snap, old(c.w).lbs[lb], listeners, pools))
    ensures NothingToSweep(c.w.snap, old(c.w).lbs[lb], listeners, pools) ==> c.Untouched()
  {
    assert old(c.w).lbs[lb] == old(c.w).lbs[lb].(listeners := old(c.w).lbs[lb].listeners - {});
    ok := DL.DeleteRedundantListeners(c, lb, listeners, pools);
    if !ok {
      return;
    }
    ghost var one := c.w.lbs[lb];
    ok := DP.DeleteRedundantPools(c, lb, pools);
    if ok {
      SetLbTwice(old(c.w), lb, one, c.w.lbs[lb]);
    }
  }

  predicate NothingToSweep(st: Status, lb: LB, listeners: seq<CreatedListener>, pools: seq<CreatedPool>) {
    && DL.DoomedListeners(st, lb, st.listeners, listeners, pools) == {}
    && DP.SweepsNothing(st, lb, pools)
  }

  // ----- The pass on a given load balancer -----

  /** What a successful pass went through: the states after each phase, and what it built. */
  datatype Passage = Passage(
    lb: Id, begun: World, pooled: World, listened: World, listeners: seq<CreatedListener>, pools: seq<CreatedPool>)

  /** Both building phases are through, and the load balancer is marked. */
  ghost predicate Constructed(cfg: Config, t: Passage, w: World) {
    var all :=
      && t.lb in t.begun.lbs
      && Pools.Progress(cfg, t.begun, t.pooled, t.lb, |t.begun.spec.pools|, t.pools, [])
      && Listeners.Progress(t.pooled, t.listened, t.lb, |t.begun.spec.listeners|, t.listeners, t.pools)
      && w == t.listened.(deployed := Some(t.lb)) && t.lb in w.lbs
      && Pools.AllLive(w.lbs[t.lb].pools, w.spec.pools, t.pools)
      && Listeners.AllExact(w.lbs[t.lb].listeners, w.spec.listeners, t.listeners)
      && (WellFormed(w.spec) ==> Pools.EachRecorded(w.status.pools, t.pools));
    all
  }

  ghost predicate Passed(cfg: Config, t: Passage, after: World) {
    var all :=
      var w := t.listened;
      && t.lb in t.begun.lbs
      && Pools.Progress(cfg, t.begun, t.pooled, t.lb, |t.begun.spec.pools|, t.pools, [])
      && Listeners.Progress(t.pooled, w, t.lb, |t.begun.spec.listeners|, t.listeners, t.pools)
      && t.lb in w.lbs && IdsProper(w.lbs)
      && after == w.(lbs := w.lbs[t.lb := Swept(w.snap, w.lbs[t.lb], t.listeners, t.pools)],
                     status := after.status, deployed := Some(t.lb))
      && after.status.lbId == w.status.lbId
      && Recorded(after.status, t.listeners, t.pools)
      && (SameRecords(after.status, w.status) || (after.status.listeners == t.listeners && after.status.pools == t.pools));
    all
  }

  predicate ExactPools(live: map<Id, Pool>, specs: seq<PoolSpec>, pools: seq<CreatedPool>) {
    |pools| == |specs| && forall j :: 0 <= j < |specs| ==> DeployPool.PoolExact(live, specs[j], pools[j])
  }

  /**
   Nothing is left to do: every pool and listener agrees with the spec and is on record, and
   nothing on record is unwanted.
   */
  ghost predicate Still(w: World, lb: Id) {
    var all :=
      && lb in w.lbs && SpecRegular(w.spec) && PoolsRegular(w.lbs[lb].pools) && Pools.AllQuiet(w, lb)
      && forall pools :: ExactPools(w.lbs[lb].pools, w.spec.pools, pools) ==> StillWith(w, lb, pools);
    all
  }

  ghost predicate StillWith(w: World, lb: Id, pools: seq<CreatedPool>)
    requires lb in w.lbs
  {
    && Listeners.AllQuiet(w.spec, w.lbs[lb].listeners, pools)
    && forall listeners :: Listeners.AllExact(w.lbs[lb].listeners, w.spec.listeners, listeners) ==>
         && NothingToSweep(w.snap, w.lbs[lb], listeners, pools)
         && SlicesEqual(w.status.listeners, listeners) && PoolsEqual(w.status.pools, pools)
  }

  /** Every pool and listener that was not there before is on record. */
  predicate NewListed(a: LB, b: LB, st: Status) {
    var all :=
      && DeployPool.NewPoolsListed(a.pools, b.pools, st.pools)
      && DeployListener.NewListenersListed(a.listeners, b.listeners, st.listeners);
    all
  }

  lemma PoolsListed(w: World, after: World, lb: Id, lapsed: bool)
    requires Pools.PoolsBooked(lapsed, w, after, lb) && after.lbs[lb].listeners == w.lbs[lb].listeners
    ensures lapsed || NewListed(w.lbs[lb], after.lbs[lb], after.status)
  {
  }

  /** The listener phase adds its own and leaves pools and their records alone. */
  lemma ListenersListed(w: World, mid: World, after: World, lb: Id, lapsed: bool)
    requires lb in w.lbs && lb in mid.lbs && DeployListener.ListenersBooked(lapsed, mid, after, lb)
    requires after.lbs[lb].pools == mid.lbs[lb].pools && after.status.pools == mid.status.pools
    ensures NewListed(w.lbs[lb], mid.lbs[lb], mid.status) ==> lapsed || NewListed(w.lbs[lb], after.lbs[lb], after.status)
  {
  }

  /** The sweep adds nothing. */
  lemma SweepListed(w: World, mid: World, after: World, lb: Id)
    requires lb in w.lbs && lb in mid.lbs && lb in after.lbs && NewListed(w.lbs[lb], mid.lbs[lb], mid.status)
    requires LbShrinks(mid.lbs[lb], after.lbs[lb]) && after.status == mid.status
    ensures NewListed(w.lbs[lb], after.lbs[lb], after.status)
  {
  }

  /** The final record lists all that the phases have built. */
  lemma RecordListed(cfg: Config, t: Passage, after: World)
    requires t.lb in t.begun.lbs && t.lb in t.listened.lbs && t.lb in after.lbs
    requires Pools.Progress(cfg, t.begun, t.pooled, t.lb, |t.begun.spec.pools|, t.pools, [])
    requires Listeners.Progress(t.pooled, t.listened, t.lb, |t.begun.spec.listeners|, t.listeners, t.pools)
    requires LbShrinks(t.listened.lbs[t.lb], after.lbs[t.lb])
    requires after.status.pools == t.pools && after.status.listeners == t.listeners
    ensures NewListed(t.begun.lbs[t.lb], after.lbs[t.lb], after.status)
  {
    var a, b := t.begun.lbs[t.lb], t.listened.lbs[t.lb];
    assert t.pooled.lbs[t.lb].listeners == a.listeners && b.pools == t.pooled.lbs[t.lb].pools;
    forall p | p in after.lbs[t.lb].pools && p !in a.pools ensures ListedPool(t.pools, p) {
      assert Pools.HasFate(a.pools, b.pools, t.pools, [], p);
    }
    forall l | l in after.lbs[t.lb].listeners && l !in a.listeners ensures ListedListener(t.listeners, l) {
      assert Listeners.IsCreated(a.listeners, b.listeners, t.listeners, l);
    }
  }

  /** Whatever became of the sweep and the final write. */
  lemma ConcludedListed(cfg: Config, t: Passage, mid: World, after: World)
    requires Constructed(cfg, t, mid) && t.lb in after.lbs && NothingNew(mid.lbs, after.lbs)
    requires after.status == mid.status || (after.status.listeners == t.listeners && after.status.pools == t.pools)
    ensures NewListed(t.begun.lbs[t.lb], mid.lbs[t.lb], mid.status) ==>
              NewListed(t.begun.lbs[t.lb], after.lbs[t.lb], after.status)
  {
    if after.status == mid.status {
      if NewListed(t.begun.lbs[t.lb], mid.lbs[t.lb], mid.status) {
        SweepListed(t.begun, mid, after, t.lb);
      }
    } else {
      RecordListed(cfg, t, after);
    }
  }

  /** Nothing is named twice, and some dial on the load balancer is not the spec's. */
  predicate ResendsDials(lb: LB, spec: Spec) {
    var all :=
      WellFormed(spec) && UniquePools(lb.pools) && Pools.DialsOff(lb.pools, spec.pools);
    all
  }

  /** The pool phase of a pass. */
  method BuildPools(c: Cloud, cfg: Config, lb: Id) returns (ok: bool, pools: seq<CreatedPool>)
    requires c.Valid() && Works(c.w, lb) && lb in c.w.lbs
    modifies c
    ensures c.Continues() && c.w.status.lbId == old(c.w).status.lbId && (!ok ==> c.Faulty())
    ensures c.Lapsed() || NewListed(old(c.w).lbs[lb], c.w.lbs[lb], c.w.status)
    ensures ok && ResendsDials(old(c.w).lbs[lb], c.w.spec) ==>
              c.calls > old(c.calls)
    ensures ok ==> lb in c.w.lbs && Pools.Progress(cfg, old(c.w), c.w, lb, |c.w.spec.pools|, pools, [])
    ensures ok ==> Pools.AllLive(c.w.lbs[lb].pools, c.w.spec.pools, pools)
    ensures Still(old(c.w), lb) ==> c.Untouched() && (ok ==> StillWith(c.w, lb, pools))
  {
    var listed, failed;
    listed, pools, failed := Pools.DeployPools(c, cfg, lb);
    ok := listed && failed == [];
    if listed {
      PoolsListed(old(c.w), c.w, lb, c.Lapsed());
    }
    assert c.w.spec.pools[..|c.w.spec.pools|] == c.w.spec.pools;
    if ok && Still(old(c.w), lb) {
      assert ExactPools(c.w.lbs[lb].pools, c.w.spec.pools, pools);
    }
  }

  /** The listener phase, then the mark that the whole spec is in place. */
  method BuildListeners(c: Cloud, cfg: Config, lb: Id, pools: seq<CreatedPool>)
    returns (r: Option<seq<CreatedListener>>, ghost listened: World)
    requires c.Valid() && Works(c.w, lb) && lb in c.w.lbs && Pools.AllLive(c.w.lbs[lb].pools, c.w.spec.pools, pools)
    modifies c
    ensures c.Continues() && c.w.status.lbId == old(c.w).status.lbId
            && DeployListener.ListenersBooked(c.Lapsed(), old(c.w), c.w, lb)
    ensures c.w.lbs[lb].pools == old(c.w).lbs[lb].pools && c.w.status.pools == old(c.w).status.pools
    ensures r.None? ==> c.Faulty() || !ProtocolsMatch(old(c.w).lbs[lb].listeners, old(c.w).spec.listeners)
    ensures r.Some? ==>
      && c.w == listened.(deployed := Some(lb)) && lb in c.w.lbs
      && Listeners.Progress(old(c.w), listened, lb, |c.w.spec.listeners|, r.value, pools)
      && Listeners.AllExact(c.w.lbs[lb].listeners, c.w.spec.listeners, r.value)
    ensures StillWith(old(c.w), lb, pools) ==>
      c.calls == old(c.calls) && c.w == old(c.w).(deployed := c.w.deployed)
  {
    ghost var done;
    r, done := Listeners.DeployListeners(c, cfg, lb, pools);
    listened := c.w;
    if r.None? {
      return;
    }
    assert c.w.spec.listeners[..|c.w.spec.listeners|] == c.w.spec.listeners;
    NowDeployed(c.w.spec, c.w.lbs[lb], r.value, pools);
    c.Take(MarkDeployed(lb));
  }

  lemma SweptAllowed(w: World, after: World, lb: Id, listeners: seq<CreatedListener>, pools: seq<CreatedPool>)
    requires IdsProper(w.lbs) && lb in w.lbs
    requires Pools.AllLive(w.lbs[lb].pools, w.spec.pools, pools)
    requires Listeners.AllExact(w.lbs[lb].listeners, w.spec.listeners, listeners)
    requires after == SetLb(w, lb, Swept(w.snap, w.lbs[lb], listeners, pools))
    ensures RecordAllowed(after, after.status.(listeners := listeners, pools := pools))
  {
    DeployedRecordAllowed(w, after, lb, listeners, pools);
  }

  /** Deletes what is recorded and not wanted, and writes the new record. */
  method Conclude(c: Cloud, lb: Id, listeners: seq<CreatedListener>, pools: seq<CreatedPool>) returns (ok: bool)
    requires c.Valid() && Works(c.w, lb) && lb in c.w.lbs && c.w.deployed == Some(lb)
    requires Pools.AllLive(c.w.lbs[lb].pools, c.w.spec.pools, pools)
    requires Listeners.AllExact(c.w.lbs[lb].listeners, c.w.spec.listeners, listeners)
    requires WellFormed(c.w.spec) ==> Pools.EachRecorded(c.w.status.pools, pools)
    modifies c
    ensures c.Continues() && c.w.status.lbId == old(c.w).status.lbId && NothingNew(old(c.w).lbs, c.w.lbs)
    ensures c.w.status == old(c.w).status || (c.w.status.listeners == listeners && c.w.status.pools == pools)
    ensures !ok ==> c.Faulty() || !DeleteLb.CanSweep(c.w.snap, old(c.w).lbs[lb], listeners, pools)
    ensures ok ==> DeleteLb.SweepsOnce(c.w.snap, old(c.w).lbs[lb], listeners, pools)
    ensures ok ==>
      && c.w == SetLb(old(c.w), lb, Swept(c.w.snap, old(c.w).lbs[lb], listeners, pools)).(status := c.w.status)
      && c.w.status.lbId == old(c.w).status.lbId && Recorded(c.w.status, listeners, pools)
      && (c.w.status == old(c.w).status || (c.w.status.listeners == listeners && c.w.status.pools == pools))
    ensures StillWith(old(c.w), lb, pools) ==> c.Untouched()
  {
    c.HasProperIds();
    ok := Sweep(c, lb, listeners, pools);
    if !ok {
      return;
    }
    SweptAllowed(old(c.w), c.w, lb, listeners, pools);
    if SpecRegular(c.w.spec) && RecordsTidy(c.w.status) {
      DeployedIsTidy(c.w.spec, old(c.w).lbs[lb], c.w.status, listeners, pools);
    }
    ok := WriteRecords(c, listeners, pools);
  }

  /** What a pass on the load balancer relies on: matching protocols, and nothing on record twice. */
  predicate Ready(w: World, lb: Id)
    requires lb in w.lbs
  {
    ProtocolsMatch(w.lbs[lb].listeners, w.spec.listeners) && DistinctRecords(w.snap)
  }

  /** A run that goes on leaves no listener dangling where none did. */
  lemma StillSound(before: seq<World>, states: seq<World>, acts: seq<Act>, lb: Id)
    requires Run(states, acts) && before != [] && before <= states
    requires Sound(before[|before| - 1].lbs, lb)
    ensures Sound(states[|acts|].lbs, lb)
  {
    SoundStays(states, acts, |before| - 1, |acts|, lb);
  }

  /** Both building phases; `t` notes what they went through. */
  method BuildAll(c: Cloud, cfg: Config, lb: Id)
    returns (ok: bool, pools: seq<CreatedPool>, listeners: seq<CreatedListener>, ghost t: Passage)
    requires c.Valid() && Works(c.w, lb) && lb in c.w.lbs
    modifies c
    ensures c.Continues() && c.w.status.lbId == old(c.w).status.lbId
    ensures c.Lapsed() || NewListed(old(c.w).lbs[lb], c.w.lbs[lb], c.w.status)
    ensures ok && ResendsDials(old(c.w).lbs[lb], c.w.spec) ==>
              c.calls > old(c.calls)
    ensures !ok ==> c.Faulty() || !ProtocolsMatch(old(c.w).lbs[lb].listeners, old(c.w).spec.listeners)
    ensures ok ==>
      t == Passage(lb, old(c.w), t.pooled, t.listened, listeners, pools) && Constructed(cfg, t, c.w)
    ensures Still(old(c.w), lb) ==> c.calls == old(c.calls) && c.w == old(c.w).(deployed := c.w.deployed)
    ensures Still(old(c.w), lb) && ok ==> StillWith(old(c.w), lb, pools)
  {
    t := Passage(lb, c.w, c.w, c.w, [], []);
    listeners := [];
    ok, pools := BuildPools(c, cfg, lb);
    if !ok {
      return;
    }
    t := t.(pooled := c.w, pools := pools);
    var built;
    ghost var listened;
    ghost var lapses := c.lapses;
    built, listened := BuildListeners(c, cfg, lb, pools);
    ListenersListed(old(c.w), t.pooled, c.w, lb, c.lapses > lapses);
    if built.None? {
      ok := false;
      return;
    }
    listeners := built.value;
    t := t.(listened := listened, listeners := listeners);
  }

  /** The building phases leave no listener dangling where none did, so the sweep finds what it deletes. */
  lemma ReadySweeps(came: seq<World>, states: seq<World>, acts: seq<Act>, cfg: Config, t: Passage)
    requires Run(states, acts) && came != [] && came <= states && Sound(came[|came| - 1].lbs, t.lb)
    requires Constructed(cfg, t, states[|acts|])
    ensures var w := states[|acts|];
            Ready(t.begun, t.lb) ==> DeleteLb.CanSweep(w.snap, w.lbs[t.lb], t.listeners, t.pools)
  {
    var w := states[|acts|];
    StillSound(came, states, acts, t.lb);
    if Ready(t.begun, t.lb) {
      DeleteLb.DistinctSweepsOnce(w.snap, w.lbs[t.lb], t.listeners, t.pools);
    }
  }

  /** The deletions and the final write of a pass that has built everything. */
  method Finish(
    c: Cloud, cfg: Config, lb: Id, listeners: seq<CreatedListener>, pools: seq<CreatedPool>, ghost t: Passage)
    returns (ok: bool)
    requires c.Valid() && Works(c.w, lb) && Constructed(cfg, t, c.w) && t.lb == lb && t.listeners == listeners
             && t.pools == pools
    modifies c
    ensures c.Continues() && c.w.status.lbId == old(c.w).status.lbId
    ensures NewListed(t.begun.lbs[lb], old(c.w).lbs[lb], old(c.w).status) ==>
              NewListed(t.begun.lbs[lb], c.w.lbs[lb], c.w.status)
    ensures !ok ==> c.Faulty() || !Ready(t.begun, lb) || !Sound(c.Start().lbs, lb)
    ensures ok ==> Passed(cfg, t, c.w)
    ensures StillWith(old(c.w), lb, pools) ==> c.Untouched()
  {
    c.HasProperIds();
    if Sound(c.Start().lbs, lb) {
      ReadySweeps(c.came, c.states, c.log, cfg, t);
    }
    ok := Conclude(c, lb, listeners, pools);
    ConcludedListed(cfg, t, old(c.w), c.w);
  }

  /** All phases. They succeed whenever no call fails and the load balancer is ready for it. */
  method DeployOn(c: Cloud, cfg: Config, lb: Id) returns (ok: bool, ghost t: Passage)
    requires c.Valid() && Works(c.w, lb) && lb in c.w.lbs
    modifies c
    ensures c.Continues() && c.w.status.lbId == old(c.w).status.lbId
    ensures c.Lapsed() || NewListed(old(c.w).lbs[lb], c.w.lbs[lb], c.w.status)
    ensures ok && ResendsDials(old(c.w).lbs[lb], c.w.spec) ==>
              c.calls > old(c.calls)
    ensures !ok ==> c.Faulty() || !Ready(old(c.w), lb) || !Sound(c.Start().lbs, lb)
    ensures ok ==> t.lb == lb && t.begun == old(c.w) && Passed(cfg, t, c.w)
    ensures Still(old(c.w), lb) ==> c.calls == old(c.calls) && c.w == old(c.w).(deployed := c.w.deployed)
  {
    var pools, listeners;
    ok, pools, listeners, t := BuildAll(c, cfg, lb);
    if !ok {
      return;
    }
    ok := Finish(c, cfg, lb, listeners, pools, t);
  }

  // ----- The pass -----

  /** The state of a pass that has just begun lets it run to its end. */
  predicate Runnable(w: World) {
    if IsSet(w.snap.lbId) then
      w.snap.lbId.value in w.lbs && Ready(w, w.snap.lbId.value) && LbIntegrity(w.lbs[w.snap.lbId.value])
    else DistinctPorts(w.spec.listeners) && DistinctRecords(w.snap)
  }

  lemma NewListedSince(a: LB, mid: LB, b: LB, st: Status)
    requires LbShrinks(a, mid) && NewListed(mid, b, st)
    ensures NewListed(a, b, st)
  {
  }

  /** The rest of a pass that began in `w` and has its load balancer. */
  method RunOn(c: Cloud, cfg: Config, lb: Id, ghost w: World) returns (ok: bool, ghost t: Passage)
    requires c.Valid() && Works(c.w, lb) && c.Start() == w && Located(w, c.w, lb)
    modifies c
    ensures c.Continues() && c.w.status.lbId == old(c.w).status.lbId
    ensures ok || c.Faulty() || !Runnable(w)
    ensures ok ==> t.lb == lb && t.begun == old(c.w) && Passed(cfg, t, c.w)
    ensures IsSet(w.snap.lbId) ==> c.Lapsed() || NewListed(w.lbs[lb], c.w.lbs[lb], c.w.status)
    ensures ok && IsSet(w.snap.lbId) && ResendsDials(w.lbs[lb], w.spec) ==> c.calls > old(c.calls)
    ensures Still(old(c.w), lb) ==> c.calls == old(c.calls) && c.w == old(c.w).(deployed := c.w.deployed)
  {
    LocatedIsReady(w, c.w, lb);
    ok, t := DeployOn(c, cfg, lb);
    if IsSet(w.snap.lbId) && !c.Lapsed() {
      NewListedSince(w.lbs[lb], old(c.w).lbs[lb], c.w.lbs[lb], c.w.status);
    }
  }

  lemma LocatedIsReady(w: World, mid: World, lb: Id)
    requires Located(w, mid, lb)
    ensures Runnable(w) ==> Ready(mid, lb) && Sound(w.lbs, lb)
    ensures IsSet(w.snap.lbId) ==>
              lb in w.lbs && mid.lbs[lb].pools == w.lbs[lb].pools && LbShrinks(w.lbs[lb], mid.lbs[lb])
  {
  }

  /** A pass that has just begun. */
  method RunPass(c: Cloud, cfg: Config) returns (ok: bool, ghost t: Passage)
    requires c.Valid() && c.w == c.Start()
    modifies c
    ensures c.Proceeds() && CreatesAsNeeded(old(c.w), c.w, c.Faulty())
    ensures EndsEarly(old(c.w)) ==> !ok && (c.Faulty() || EndedEarly(old(c.w), c.w))
    ensures !EndsEarly(old(c.w)) ==> ok || c.Faulty() || !Runnable(old(c.w))
    ensures Missing(old(c.w)) ==> c.Untouched()
    ensures c.broken > old(c.broken) ==> !ok && (c.faults > old(c.faults) + 1 || Undone(old(c.w), c.w))
    ensures ok ==> Passed(cfg, t, c.w) && t.lb in c.w.lbs && c.w.status.lbId == Some(t.lb)
    ensures ok ==> Located(old(c.w), t.begun, t.lb)
    ensures var id := c.w.snap.lbId;
            IsSet(id) && id.value in old(c.w).lbs ==>
              id.value in c.w.lbs && (c.Lapsed() || NewListed(old(c.w).lbs[id.value], c.w.lbs[id.value], c.w.status))
    ensures ok && IsSet(c.w.snap.lbId) && ResendsDials(old(c.w).lbs[t.lb], c.w.spec) ==> c.calls > old(c.calls)
    ensures Anchored(old(c.w)) && Still(old(c.w), c.w.snap.lbId.value) ==>
              c.calls == old(c.calls) && c.w == old(c.w).(deployed := c.w.deployed)
  {
    t := Passage(NO_ID, c.w, c.w, c.w, [], []);
    var lb := DeployLoadBalancer(c, cfg);
    if lb.None? {
      return false, t;
    }
    ghost var mid, faulty := c.w, c.Faulty();
    ok, t := RunOn(c, cfg, lb.value, old(c.w));
    CreatedStays(old(c.w), mid, c.w, faulty, c.Faulty());
  }

  /**
   A deploy pass. `ok` says that it ran to its end, which it does whenever no call fails, unless it is
   of the kind that ends early, and then has done what that kind is for, or could not run from the start.
   There is one load balancer more, and it is on record, exactly when there was none to work on. What
   has come on the load balancer of the record is on record too, however the pass ends.
   */
  method Deploy(c: Cloud, cfg: Config, spec: Spec) returns (ok: bool, ghost t: Passage)
    requires c.Valid()
    modifies c
    ensures c.Valid() && c.past == old(c.log) + [BeginPass(spec, false)]
    ensures c.came == old(c.states) + [Apply(old(c.w), BeginPass(spec, false))]
    ensures old(c.faults) <= c.faults && old(c.calls) <= c.calls
    ensures var w := Apply(old(c.w), BeginPass(spec, false));
            if EndsEarly(w) then !ok && (c.Faulty() || EndedEarly(w, c.w)) else ok || c.Faulty() || !Runnable(w)
    ensures ok ==> Passed(cfg, t, c.w) && t.begun.spec == spec && t.begun.snap == old(c.w).status
    ensures ok ==> t.lb in c.w.lbs && c.w.status.lbId == Some(t.lb)
    ensures ok && IsSet(old(c.w).status.lbId) ==>
      && old(c.w).status.lbId == Some(t.lb) && t.lb in old(c.w).lbs
      && t.begun.lbs == old(c.w).lbs[t.lb := Resized(spec, old(c.w).lbs[t.lb])]
      && SameRecords(t.begun.status, old(c.w).status) && t.begun.status.lbId == Some(t.lb)
      && (IsSet(spec.lbId) ==> spec.lbId == Some(t.lb))
    ensures CreatesAsNeeded(Apply(old(c.w), BeginPass(spec, false)), c.w, c.Faulty())
    ensures ok && !IsSet(old(c.w).status.lbId) ==> t.lb !in old(c.w).lbs
    ensures var w := Apply(old(c.w), BeginPass(spec, false)); Missing(w) ==> c.w == w && c.calls == old(c.calls)
    ensures c.broken > old(c.broken) ==> !ok && (c.faults > old(c.faults) + 1 || Undone(old(c.w), c.w))
    ensures var id := old(c.w).status.lbId;
            IsSet(id) && id.value in old(c.w).lbs ==>
              id.value in c.w.lbs && (c.Lapsed() || NewListed(old(c.w).lbs[id.value], c.w.lbs[id.value], c.w.status))
    ensures ok && IsSet(old(c.w).status.lbId) && ResendsDials(old(c.w).lbs[t.lb], spec) ==> c.calls > old(c.calls)
    ensures var w := Apply(old(c.w), BeginPass(spec, false));
            Anchored(w) && Still(w, w.snap.lbId.value) ==>
              c.calls == old(c.calls) && c.w == w.(deployed := c.w.deployed)
  {
    c.Take(BeginPass(spec, false));
    ok, t := RunPass(c, cfg);
  }

  /**
   With no load balancer on record, a pass creates one exactly when the spec gives no id and no name
   that is taken, unless a call fails. So a spec without a name gets one more, whatever load balancers
   earlier passes have created and could not record.
   */
  method PassWithoutRecord(c: Cloud, cfg: Config, spec: Spec)
    requires c.Valid() && !IsSet(c.w.status.lbId)
    modifies c
    ensures c.Valid() && old(c.faults) <= c.faults
    ensures !c.Faulty() ==>
      (c.w.lbs.Keys != old(c.w).lbs.Keys <==>
       !IsSet(spec.lbId) && (spec.name == "" || !LbNamed(old(c.w).lbs, spec.name)))
    ensures !c.Faulty() && c.w.lbs.Keys != old(c.w).lbs.Keys ==>
      exists b :: b !in old(c.w).lbs && c.w.lbs.Keys == old(c.w).lbs.Keys + {b} && c.w.status.lbId == Some(b)
  {
    ghost var t;
    var ok;
    ok, t := Deploy(c, cfg, spec);
  }

  /** A nameless load balancer whose id was lost: the next pass leaves two. */
  method NamelessExample(c: Cloud, cfg: Config, spec: Spec)
    requires c.Valid() && spec.name == "" && !IsSet(spec.lbId) && !IsSet(c.w.status.lbId)
    requires c.w.lbs == map["lb1" := LB("", "", map[], map[])]
    modifies c
    ensures c.Faulty() || exists b :: b != "lb1" && c.w.lbs.Keys == {"lb1", b}
  {
    PassWithoutRecord(c, cfg, spec);
    if !c.Faulty() {
      ghost var b :| b !in old(c.w).lbs && c.w.lbs.Keys == old(c.w).lbs.Keys + {b};
      assert c.w.lbs.Keys == {"lb1", b};
    }
  }

  // ----- Any number of passes -----

  /** One round: an edit by somebody else, then a pass over the spec of the day. */
  datatype Round = Round(edit: Option<map<Id, LB>>, spec: Spec, delete: bool)

  predicate Admissible(r: Round) {
    r.edit.Some? ==> Integrity(r.edit.value) && Unique(r.edit.value) && IdsProper(r.edit.value)
  }

  /** Every round has its pass in the log, in order; `starts` says where each begins. */
  predicate PassesIn(log: seq<Act>, from: nat, rounds: seq<Round>, starts: seq<nat>) {
    && |starts| == |rounds|
    && (forall i :: 0 <= i < |starts| ==>
          from <= starts[i] < |log| && log[starts[i]] == BeginPass(rounds[i].spec, rounds[i].delete))
    && (forall i, j :: 0 <= i < j < |starts| ==> starts[i] < starts[j])
  }

  lemma PassesInNext(
    log: seq<Act>, more: seq<Act>, from: nat, rounds: seq<Round>, starts: seq<nat>, n: nat, start: nat)
    requires n < |rounds| && PassesIn(log, from, rounds[..n], starts) && log <= more && from <= |log| <= start < |more|
    requires more[start] == BeginPass(rounds[n].spec, rounds[n].delete)
    ensures PassesIn(more, from, rounds[..n + 1], starts + [start])
  {
    var all, some := starts + [start], rounds[..n + 1];
    forall i | 0 <= i < |all|
      ensures from <= all[i] < |more| && more[all[i]] == BeginPass(some[i].spec, some[i].delete)
    {
      if i < n {
        assert rounds[..n][i] == some[i];
      }
    }
  }

  /** Rounds over one spec, without edits between them. */
  function Repeated(spec: Spec, n: nat): seq<Round> {
    seq(n, i requires 0 <= i < n => Round(None, spec, false))
  }

  /** As many passes over the spec as there are starts are in the log, in order. */
  predicate PassesOver(log: seq<Act>, from: nat, spec: Spec, starts: seq<nat>) {
    var all :=
      PassesIn(log, from, Repeated(spec, |starts|), starts);
    all
  }

  /** The log goes on with a pass over the spec. */
  ghost predicate GoesOn(log: seq<Act>, more: seq<Act>, spec: Spec) {
    var all :=
      log + [BeginPass(spec, false)] <= more;
    all
  }

  lemma PassesOverNext(log: seq<Act>, more: seq<Act>, from: nat, spec: Spec, starts: seq<nat>)
    requires PassesOver(log, from, spec, starts) && GoesOn(log, more, spec) && from <= |log|
    ensures PassesOver(more, from, spec, starts + [|log|])
  {
    var n := |starts|;
    var rounds := Repeated(spec, n + 1);
    assert rounds[..n] == Repeated(spec, n) && rounds[..n + 1] == rounds;
    assert more[|log|] == (log + [BeginPass(spec, false)])[|log|];
    PassesInNext(log, more, from, rounds, starts, n, |log|);
  }

  method RunRound(c: Cloud, cfg: Config, r: Round) returns (ghost start: nat)
    requires c.Valid() && Admissible(r)
    modifies c
    ensures c.Valid() && old(c.log) <= c.log && old(c.states) <= c.states
    ensures |old(c.log)| <= start < |c.log| && c.log[start] == BeginPass(r.spec, r.delete)
  {
    if r.edit.Some? {
      c.Take(Outside(r.edit.value));
    }
    start := |c.log|;
    RunOneOf(c, cfg, r.spec, r.delete);
  }

  method RunOneOf(c: Cloud, cfg: Config, spec: Spec, delete: bool)
    requires c.Valid()
    modifies c
    ensures c.Valid() && old(c.log) <= c.log && old(c.states) <= c.states
    ensures |old(c.log)| < |c.log| && c.log[|old(c.log)|] == BeginPass(spec, delete)
  {
    if delete {
      var ok := DeleteLb.Delete(c, spec);
    } else {
      ghost var t;
      var ok;
      ok, t := Deploy(c, cfg, spec);
    }
  }

  /**
   Any sequence of deploy, migrate and delete passes with any edits between them, every call
   failing or not: all of it is one allowed run, and so every theorem about runs holds of it. No
   listener ever dangles, names stay unique, what no spec asked for stays as it is, only a covered
   load balancer is removed, and deploy passes delete only once the whole spec is in place.
   */
  method Reconcile(c: Cloud, cfg: Config, rounds: seq<Round>) returns (ghost starts: seq<nat>)
    requires c.Valid() && forall i :: 0 <= i < |rounds| ==> Admissible(rounds[i])
    modifies c
    ensures c.Valid() && old(c.log) <= c.log && old(c.states) <= c.states
    ensures Safe(c.states, c.log) && PassesIn(c.log, |old(c.log)|, rounds, starts)
  {
    starts := [];
    for i := 0 to |rounds|
      invariant c.Valid() && old(c.log) <= c.log && old(c.states) <= c.states
      invariant PassesIn(c.log, |old(c.log)|, rounds[..i], starts)
    {
      ghost var log := c.log;
      ghost var start := RunRound(c, cfg, rounds[i]);
      PassesInNext(log, c.log, |old(c.log)|, rounds, starts, i, start);
      starts := starts + [start];
    }
    assert rounds[..|rounds|] == rounds;
    RunIsSafe(c.states, c.log);
  }
}
