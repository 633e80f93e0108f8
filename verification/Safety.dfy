/**
 What every run of the reconciler keeps, at every step and under any pattern of failing calls.
 */
module Safety {
  import opened GlbTypes
  import opened Diffs
  import opened Members
  import opened Protocol

  // ----- Referential integrity -----

  lemma StepKeepsIntegrity(w: World, a: Act)
    requires Step(w, a) && Integrity(w.lbs)
    ensures Integrity(Apply(w, a).lbs)
  {
    var after := Apply(w, a).lbs;
    forall b | b in after ensures LbIntegrity(after[b]) {
      if !a.Outside? && b in w.lbs {
        assert LbIntegrity(w.lbs[b]);
      }
    }
  }

  /** At every step of every run, no listener points at a pool that does not exist. */
  lemma {:induction false} NoDanglingListener(states: seq<World>, acts: seq<Act>, k: nat)
    requires Run(states, acts) && k <= |acts| && Integrity(states[0].lbs)
    ensures Integrity(states[k].lbs)
  {
    if k > 0 {
      NoDanglingListener(states, acts, k - 1);
      assert Link(states, acts, k - 1);
      StepKeepsIntegrity(states[k - 1], acts[k - 1]);
    }
  }

  /** The load balancer, if there is one of that id, has no dangling listener. */
  predicate Sound(lbs: map<Id, LB>, b: Id) {
    b in lbs ==> LbIntegrity(lbs[b])
  }

  lemma StepKeepsSound(w: World, a: Act, b: Id)
    requires Step(w, a) && Sound(w.lbs, b)
    ensures Sound(Apply(w, a).lbs, b)
  {
  }

  /** From any state of a run on, each load balancer for itself. */
  lemma {:induction false} SoundStays(states: seq<World>, acts: seq<Act>, j: nat, k: nat, b: Id)
    requires Run(states, acts) && j <= k <= |acts| && Sound(states[j].lbs, b)
    ensures Sound(states[k].lbs, b)
    decreases k
  {
    if j < k {
      SoundStays(states, acts, j, k - 1, b);
      assert Link(states, acts, k - 1);
      StepKeepsSound(states[k - 1], acts[k - 1], b);
    }
  }

  // ----- Creation at most once -----

  lemma PatchKeepsUnique(w: World, a: Act)
    requires Step(w, a) && a.PatchGroups? && UniqueOn(w.lbs[a.lb]) && WellFormed(w.spec)
    ensures UniqueOn(Apply(w, a).lbs[a.lb])
  {
    var before, pools := w.lbs[a.lb].pools, Apply(w, a).lbs[a.lb].pools;
    assert UniqueGroups(before[a.pool].groups);
    PatchedUnique(before[a.pool].groups, a.added, a.updates, a.removed);
    forall p | p in pools ensures UniqueGroups(pools[p].groups) {
      assert p != a.pool ==> pools[p] == before[p];
    }
  }

  lemma PoolStepKeepsUnique(w: World, a: Act)
    requires Step(w, a) && (a.CreatePool? || a.UpdatePool? || a.DeletePool?)
    requires UniqueOn(w.lbs[a.lb]) && WellFormed(w.spec)
    ensures UniqueOn(Apply(w, a).lbs[a.lb])
  {
    var before, lb := w.lbs[a.lb], Apply(w, a).lbs[a.lb];
    forall p | p in lb.pools ensures UniqueGroups(lb.pools[p].groups) {
      assert p in before.pools ==> UniqueGroups(before.pools[p].groups);
    }
  }

  lemma ListenerStepKeepsUnique(w: World, a: Act)
    requires Step(w, a) && (a.CreateListener? || a.UpdateListener? || a.DeleteListener?)
    requires UniqueOn(w.lbs[a.lb]) && WellFormed(w.spec)
    ensures UniqueOn(Apply(w, a).lbs[a.lb])
  {
  }

  lemma StepKeepsUnique(w: World, a: Act)
    requires Step(w, a) && Unique(w.lbs) && WellFormed(w.spec)
    ensures Unique(Apply(w, a).lbs)
  {
    var after := Apply(w, a).lbs;
    if a.PatchGroups? {
      PatchKeepsUnique(w, a);
    } else if a.CreatePool? || a.UpdatePool? || a.DeletePool? {
      PoolStepKeepsUnique(w, a);
    } else if a.CreateListener? || a.UpdateListener? || a.DeleteListener? {
      ListenerStepKeepsUnique(w, a);
    }
    forall b | b in after ensures UniqueOn(after[b]) {
    }
  }

  /** Every spec of the run lists distinct pool names, ports and group names. */
  predicate SpecsWellFormed(acts: seq<Act>) {
    forall k :: 0 <= k < |acts| && acts[k].BeginPass? ==> WellFormed(acts[k].newSpec)
  }

  lemma {:induction false} SpecIsWellFormed(states: seq<World>, acts: seq<Act>, k: nat)
    requires Run(states, acts) && k <= |acts| && WellFormed(states[0].spec) && SpecsWellFormed(acts)
    ensures WellFormed(states[k].spec)
  {
    if k > 0 {
      SpecIsWellFormed(states, acts, k - 1);
      assert Link(states, acts, k - 1);
    }
  }

  /**
   Pool names, listener ports and group names stay unique over every run, although each phase
   reads the live list only once and any call may fail, with or without having taken effect.
   */
  lemma {:induction false} CreatedAtMostOnce(states: seq<World>, acts: seq<Act>, k: nat)
    requires Run(states, acts) && k <= |acts| && Unique(states[0].lbs)
    requires WellFormed(states[0].spec) && SpecsWellFormed(acts)
    ensures Unique(states[k].lbs)
  {
    if k > 0 {
      CreatedAtMostOnce(states, acts, k - 1);
      SpecIsWellFormed(states, acts, k - 1);
      assert Link(states, acts, k - 1);
      StepKeepsUnique(states[k - 1], acts[k - 1]);
    }
  }

  // ----- What was never asked for survives -----

  /** A group on a pool, named by the ids of load balancer, pool and group, with its content. */
  datatype Place = Place(lb: Id, pool: Id, poolName: string, group: Id, content: Group)

  predicate GroupAt(lbs: map<Id, LB>, g: Place) {
    && g.lb in lbs && g.pool in lbs[g.lb].pools
    && lbs[g.lb].pools[g.pool].name == g.poolName
    && g.group in lbs[g.lb].pools[g.pool].groups
    && lbs[g.lb].pools[g.pool].groups[g.group] == g.content
  }

  /** The group is live and neither the record nor the pass's copy of it mentions it. */
  predicate ForeignGroup(w: World, g: Place) {
    && GroupAt(w.lbs, g)
    && !RecordsGroup(w.status, g.pool, g.content.name) && !RecordsGroup(w.snap, g.pool, g.content.name)
    && !WantsGroup(w.spec, g.poolName, g.content.name)
    && g.lb !in w.born
  }

  /** No pass asks for the group, and nobody outside removes or changes it. */
  predicate LeavesGroup(a: Act, g: Place) {
    && (a.BeginPass? ==> !WantsGroup(a.newSpec, g.poolName, g.content.name))
    && (a.Outside? ==> GroupAt(a.edited, g))
  }

  predicate GroupLeftAlone(acts: seq<Act>, g: Place) {
    forall i :: 0 <= i < |acts| ==> LeavesGroup(acts[i], g)
  }

  lemma NotRecorded(st: Status, pool: Id, name: string)
    requires !RecordsGroup(st, pool, name)
    ensures name !in RecordedNames(st, pool)
  {
  }

  lemma ForeignLbNotCovered(w: World, g: Place)
    requires ForeignGroup(w, g)
    ensures !Covered(w.snap, w.lbs[g.lb])
  {
    NotRecorded(w.snap, g.pool, g.content.name);
  }

  lemma PoolActKeepsGroup(w: World, a: Act, g: Place)
    requires Step(w, a) && ForeignGroup(w, g)
    requires a.CreatePool? || a.UpdatePool? || a.DeletePool? || a.PatchGroups?
    ensures GroupAt(Apply(w, a).lbs, g)
  {
    NotRecorded(w.snap, g.pool, g.content.name);
    assert g.pool in w.lbs[g.lb].pools;
  }

  lemma LbActKeepsGroup(w: World, a: Act, g: Place)
    requires Step(w, a) && ForeignGroup(w, g)
    requires a.CreateLb? || a.ResizeLb? || a.DeleteLb?
    ensures GroupAt(Apply(w, a).lbs, g)
  {
    ForeignLbNotCovered(w, g);
    assert g.pool in w.lbs[g.lb].pools;
  }

  lemma RecordActKeepsGroup(w: World, a: Act, g: Place)
    requires Step(w, a) && ForeignGroup(w, g) && a.PatchStatus?
    ensures !RecordsGroup(a.newStatus, g.pool, g.content.name)
  {
  }

  lemma StepKeepsForeignGroup(w: World, a: Act, g: Place)
    requires Step(w, a) && ForeignGroup(w, g) && LeavesGroup(a, g)
    ensures ForeignGroup(Apply(w, a), g)
  {
    if a.CreatePool? || a.UpdatePool? || a.DeletePool? || a.PatchGroups? {
      PoolActKeepsGroup(w, a, g);
    } else if a.CreateLb? || a.ResizeLb? || a.DeleteLb? {
      LbActKeepsGroup(w, a, g);
    } else if a.PatchStatus? {
      RecordActKeepsGroup(w, a, g);
    }
  }

  /**
   Foreign-group safety over whole runs: a group whose name no spec ever lists for its pool is
   still there, unchanged, after any sequence of deploy, migrate and delete passes, each cut
   short anywhere.
   */
  lemma {:induction false} ForeignGroupSurvives(states: seq<World>, acts: seq<Act>, k: nat, g: Place)
    requires Run(states, acts) && k <= |acts| && ForeignGroup(states[0], g)
    requires GroupLeftAlone(acts, g)
    ensures ForeignGroup(states[k], g)
  {
    if k > 0 {
      ForeignGroupSurvives(states, acts, k - 1, g);
      assert Link(states, acts, k - 1);
      StepKeepsForeignGroup(states[k - 1], acts[k - 1], g);
    }
  }

  predicate PoolAt(lbs: map<Id, LB>, b: Id, p: Id, content: Pool) {
    b in lbs && p in lbs[b].pools && lbs[b].pools[p] == content
  }

  predicate ForeignPool(w: World, b: Id, p: Id, content: Pool) {
    && PoolAt(w.lbs, b, p, content)
    && !RecordsPool(w.status, p) && !RecordsPool(w.snap, p)
    && !WantsPool(w.spec, content.name) && b !in w.born
  }

  /** No pass asks for its name, and nobody outside touches it. */
  predicate LeavesPool(a: Act, b: Id, p: Id, content: Pool) {
    && (a.BeginPass? ==> !WantsPool(a.newSpec, content.name))
    && (a.Outside? ==> PoolAt(a.edited, b, p, content))
  }

  predicate PoolLeftAlone(acts: seq<Act>, b: Id, p: Id, content: Pool) {
    forall i :: 0 <= i < |acts| ==> LeavesPool(acts[i], b, p, content)
  }

  lemma NotRecordedPool(st: Status, p: Id)
    requires !RecordsPool(st, p)
    ensures FindPool(st.pools, p).None?
  {
  }

  /** A pool that nobody wants under its name gets no group of its own from a spec. */
  lemma UnwantedHasNoGroups(spec: Spec, pool: string, g: string)
    requires !WantsPool(spec, pool)
    ensures !WantsGroup(spec, pool, g)
  {
  }

  lemma PoolActKeepsPool(w: World, a: Act, b: Id, p: Id, content: Pool)
    requires Step(w, a) && ForeignPool(w, b, p, content)
    requires a.CreatePool? || a.UpdatePool? || a.DeletePool? || a.PatchGroups?
    ensures PoolAt(Apply(w, a).lbs, b, p, content)
  {
    NotRecordedPool(w.snap, p);
    if a.PatchGroups? && a.lb == b && a.pool == p {
      forall g: string { UnwantedHasNoGroups(w.spec, content.name, g); }
      assert a.added == map[] && a.updates == map[] && a.removed == {};
      assert PatchedGroups(content.groups, a.added, a.updates, a.removed) == content.groups;
    }
  }

  lemma StepKeepsForeignPool(w: World, a: Act, b: Id, p: Id, content: Pool)
    requires Step(w, a) && ForeignPool(w, b, p, content) && LeavesPool(a, b, p, content)
    ensures ForeignPool(Apply(w, a), b, p, content)
  {
    NotRecordedPool(w.snap, p);
    if a.CreatePool? || a.UpdatePool? || a.DeletePool? || a.PatchGroups? {
      PoolActKeepsPool(w, a, b, p, content);
    } else if a.DeleteLb? {
      assert p in w.lbs[b].pools && !PoolCovered(w.snap, w.lbs[b].pools, p);
    } else if a.PatchStatus? {
      assert !RecordsPool(a.newStatus, p);
    }
  }

  /** A pool whose name no spec ever lists is never changed, recorded or deleted, whatever it holds. */
  lemma {:induction false} ForeignPoolSurvives(
    states: seq<World>, acts: seq<Act>, k: nat, b: Id, p: Id, content: Pool)
    requires Run(states, acts) && k <= |acts| && ForeignPool(states[0], b, p, content)
    requires PoolLeftAlone(acts, b, p, content)
    ensures ForeignPool(states[k], b, p, content)
  {
    if k > 0 {
      ForeignPoolSurvives(states, acts, k - 1, b, p, content);
      assert Link(states, acts, k - 1);
      StepKeepsForeignPool(states[k - 1], acts[k - 1], b, p, content);
    }
  }

  predicate ListenerAt(lbs: map<Id, LB>, b: Id, l: Id, content: Listener) {
    b in lbs && l in lbs[b].listeners && lbs[b].listeners[l] == content
  }

  predicate ForeignListener(w: World, b: Id, l: Id, content: Listener) {
    && ListenerAt(w.lbs, b, l, content)
    && !RecordsListener(w.status, l) && !RecordsListener(w.snap, l)
    && !WantsPort(w.spec, content.port) && b !in w.born
  }

  /** No pass asks for its port, and nobody outside touches it. */
  predicate LeavesListener(a: Act, b: Id, l: Id, content: Listener) {
    && (a.BeginPass? ==> !WantsPort(a.newSpec, content.port))
    && (a.Outside? ==> ListenerAt(a.edited, b, l, content))
  }

  predicate ListenerLeftAlone(acts: seq<Act>, b: Id, l: Id, content: Listener) {
    forall i :: 0 <= i < |acts| ==> LeavesListener(acts[i], b, l, content)
  }

  lemma CloudActKeepsListener(w: World, a: Act, b: Id, l: Id, content: Listener)
    requires Step(w, a) && ForeignListener(w, b, l, content) && LeavesListener(a, b, l, content)
    ensures ListenerAt(Apply(w, a).lbs, b, l, content)
  {
  }

  lemma StepKeepsForeignListener(w: World, a: Act, b: Id, l: Id, content: Listener)
    requires Step(w, a) && ForeignListener(w, b, l, content) && LeavesListener(a, b, l, content)
    ensures ForeignListener(Apply(w, a), b, l, content)
  {
    CloudActKeepsListener(w, a, b, l, content);
    if a.PatchStatus? {
      assert !RecordsListener(a.newStatus, l);
    }
  }

  /** A listener on a port no spec ever lists is never changed, recorded or deleted. */
  lemma {:induction false} ForeignListenerSurvives(
    states: seq<World>, acts: seq<Act>, k: nat, b: Id, l: Id, content: Listener)
    requires Run(states, acts) && k <= |acts| && ForeignListener(states[0], b, l, content)
    requires ListenerLeftAlone(acts, b, l, content)
    ensures ForeignListener(states[k], b, l, content)
  {
    if k > 0 {
      ForeignListenerSurvives(states, acts, k - 1, b, l, content);
      assert Link(states, acts, k - 1);
      StepKeepsForeignListener(states[k - 1], acts[k - 1], b, l, content);
    }
  }

  // ----- Load balancers of others -----

  predicate LbAt(lbs: map<Id, LB>, b: Id, content: LB) {
    b in lbs && lbs[b] == content
  }

  /** Neither the spec points at the load balancer, by id or by name, nor does anything on record. */
  predicate OthersLb(w: World, b: Id, content: LB) {
    LbAt(w.lbs, b, content) && !Mine(w, b) && w.status.lbId != Some(b)
  }

  /** No pass is given a spec that points at it, and nobody outside touches it. */
  predicate LeavesLb(a: Act, b: Id, content: LB) {
    && (a.BeginPass? ==> a.newSpec.lbId != Some(b) && (a.newSpec.name == "" || a.newSpec.name != content.name))
    && (a.Outside? ==> LbAt(a.edited, b, content))
  }

  predicate LbLeftAlone(acts: seq<Act>, b: Id, content: LB) {
    forall i :: 0 <= i < |acts| ==> LeavesLb(acts[i], b, content)
  }

  lemma StepKeepsOthersLb(w: World, a: Act, b: Id, content: LB)
    requires Step(w, a) && OthersLb(w, b, content) && LeavesLb(a, b, content)
    ensures OthersLb(Apply(w, a), b, content)
  {
    if Inside(a) && !a.PatchStatus? && !a.MarkDeployed? {
      assert a.lb != b;
    }
  }

  /** Every load balancer that the configuration never points at is the same after any run. */
  lemma {:induction false} OthersLbSurvives(states: seq<World>, acts: seq<Act>, k: nat, b: Id, content: LB)
    requires Run(states, acts) && k <= |acts| && OthersLb(states[0], b, content) && LbLeftAlone(acts, b, content)
    ensures OthersLb(states[k], b, content)
  {
    if k > 0 {
      OthersLbSurvives(states, acts, k - 1, b, content);
      assert Link(states, acts, k - 1);
      StepKeepsOthersLb(states[k - 1], acts[k - 1], b, content);
    }
  }

  // ----- Deleting -----

  /**
   Whenever a delete pass removes a whole load balancer, everything on it at that moment is in
   the record read when the pass began. The only other load balancer ever removed was created
   in the same pass.
   */
  lemma WholeDeleteIsCovered(states: seq<World>, acts: seq<Act>, k: nat)
    requires Run(states, acts) && k < |acts| && acts[k].DeleteLb?
    ensures var w, lb := states[k], acts[k].lb;
            lb in w.lbs && Removable(w, lb)
  {
    assert Link(states, acts, k);
  }

  /** Created in this pass, or on record throughout and the one this configuration is deleted from. */
  predicate Removable(w: World, lb: Id)
    requires lb in w.lbs
  {
    lb in w.born || (w.deleting && w.snap.lbId == Some(lb) && Covered(w.snap, w.lbs[lb]))
  }

  predicate Deletes(a: Act) {
    a.DeleteListener? || a.DeletePool? || (a.PatchGroups? && a.removed != {})
  }

  /** Act j marks the moment, within the pass that state k belongs to, when the whole spec was in place on `lb`. */
  predicate DeployedAt(states: seq<World>, acts: seq<Act>, k: nat, lb: Id, j: nat)
    requires |states| == |acts| + 1 && k <= |acts|
  {
    && j < k && acts[j] == MarkDeployed(lb) && lb in states[j].lbs
    && Deployed(states[j].spec, states[j].lbs[lb]) && states[j].spec == states[k].spec
    && forall i :: j < i < k ==> !acts[i].BeginPass?
  }

  /** Only a mark sets the flag, and only a new pass changes the spec. */
  lemma DeployedFlag(w: World, a: Act, lb: Id)
    requires Step(w, a) && Apply(w, a).deployed == Some(lb)
    ensures !a.BeginPass? && Apply(w, a).spec == w.spec
    ensures if a == MarkDeployed(lb) then lb in w.lbs && Deployed(w.spec, w.lbs[lb]) else w.deployed == Some(lb)
  {
  }

  lemma {:induction false} DeployedOnce(states: seq<World>, acts: seq<Act>, k: nat, lb: Id) returns (j: nat)
    requires Run(states, acts) && k <= |acts| && states[0].deployed.None? && states[k].deployed == Some(lb)
    ensures DeployedAt(states, acts, k, lb, j)
  {
    assert Link(states, acts, k - 1);
    DeployedFlag(states[k - 1], acts[k - 1], lb);
    if acts[k - 1] == MarkDeployed(lb) {
      j := k - 1;
    } else {
      j := DeployedOnce(states, acts, k - 1, lb);
    }
  }

  ghost predicate DeployedBefore(states: seq<World>, acts: seq<Act>, k: nat, lb: Id)
    requires |states| == |acts| + 1 && k <= |acts|
  {
    exists j: nat :: DeployedAt(states, acts, k, lb, j)
  }

  /**
   A listener, pool or group is deleted only from the load balancer this configuration is recorded
   on, by a pass that deletes or moves it, or else only after every pool, group and listener of that
   pass's spec was live on the very load balancer it is deleted from.
   */
  lemma DeletesOnlyAfterDeploy(states: seq<World>, acts: seq<Act>, k: nat)
    requires Run(states, acts) && k < |acts| && states[0].deployed.None? && Deletes(acts[k])
    ensures || (states[k].snap.lbId == Some(acts[k].lb) && (states[k].deleting || Migrating(states[k])))
            || DeployedBefore(states, acts, k, acts[k].lb)
  {
    assert Link(states, acts, k);
    if states[k].deployed == Some(acts[k].lb) {
      var j := DeployedOnce(states, acts, k, acts[k].lb);
    }
  }

  // ----- One load balancer of a name -----

  /** No two load balancers share a name that is not empty. */
  predicate NamesOnce(lbs: map<Id, LB>) {
    forall b, c :: b in lbs && c in lbs && lbs[b].name == lbs[c].name != "" ==> b == c
  }

  predicate NamesLeftOnce(acts: seq<Act>) {
    forall k :: 0 <= k < |acts| && acts[k].Outside? ==> NamesOnce(acts[k].edited)
  }

  lemma StepKeepsNamesOnce(w: World, a: Act)
    requires Step(w, a) && NamesOnce(w.lbs) && (a.Outside? ==> NamesOnce(a.edited))
    ensures NamesOnce(Apply(w, a).lbs)
  {
    var after := Apply(w, a).lbs;
    if a.CreateLb? {
      assert a.content.name != "" ==> !LbNamed(w.lbs, a.content.name);
    } else if !a.Outside? {
      forall b | b in after ensures b in w.lbs && after[b].name == w.lbs[b].name {
      }
    }
  }

  /** However often passes are interrupted, a load balancer of a given name is created at most once. */
  lemma {:induction false} NamedLbCreatedAtMostOnce(states: seq<World>, acts: seq<Act>, k: nat)
    requires Run(states, acts) && k <= |acts| && NamesOnce(states[0].lbs) && NamesLeftOnce(acts)
    ensures NamesOnce(states[k].lbs)
  {
    if k > 0 {
      NamedLbCreatedAtMostOnce(states, acts, k - 1);
      assert Link(states, acts, k - 1);
      StepKeepsNamesOnce(states[k - 1], acts[k - 1]);
    }
  }

  // ----- All of it -----

  /** What holds of every run: of each of its states, and of each of its deletions. */
  ghost predicate Safe(states: seq<World>, acts: seq<Act>)
    requires |states| == |acts| + 1
  {
    && (Integrity(states[0].lbs) ==> forall k: nat :: k <= |acts| ==> Integrity(states[k].lbs))
    && (Unique(states[0].lbs) && WellFormed(states[0].spec) && SpecsWellFormed(acts) ==>
          forall k: nat :: k <= |acts| ==> Unique(states[k].lbs))
    && (forall g :: ForeignGroup(states[0], g) && GroupLeftAlone(acts, g) ==>
          forall k: nat :: k <= |acts| ==> GroupAt(states[k].lbs, g))
    && (forall b, l, x :: ForeignListener(states[0], b, l, x) && ListenerLeftAlone(acts, b, l, x) ==>
          forall k: nat :: k <= |acts| ==> ListenerAt(states[k].lbs, b, l, x))
    && (forall b, p, x :: ForeignPool(states[0], b, p, x) && PoolLeftAlone(acts, b, p, x) ==>
          forall k: nat :: k <= |acts| ==> PoolAt(states[k].lbs, b, p, x))
    && (forall b, x :: OthersLb(states[0], b, x) && LbLeftAlone(acts, b, x) ==>
          forall k: nat :: k <= |acts| ==> LbAt(states[k].lbs, b, x))
    && (NamesOnce(states[0].lbs) && NamesLeftOnce(acts) ==> forall k: nat :: k <= |acts| ==> NamesOnce(states[k].lbs))
    && (forall k: nat :: k < |acts| && acts[k].DeleteLb? ==> acts[k].lb in states[k].lbs && Removable(states[k], acts[k].lb))
    && (states[0].deployed.None? ==> forall k: nat :: k < |acts| && Deletes(acts[k]) ==> DeletedInOrder(states, acts, k))
  }

  /** The deletion is part of leaving the recorded load balancer, or comes after the spec was in place there. */
  ghost predicate DeletedInOrder(states: seq<World>, acts: seq<Act>, k: nat)
    requires |states| == |acts| + 1 && k < |acts| && Deletes(acts[k])
  {
    || (states[k].snap.lbId == Some(acts[k].lb) && (states[k].deleting || Migrating(states[k])))
    || DeployedBefore(states, acts, k, acts[k].lb)
  }

  lemma ForeignStays(states: seq<World>, acts: seq<Act>)
    requires Run(states, acts)
    ensures forall g :: ForeignGroup(states[0], g) && GroupLeftAlone(acts, g) ==>
              forall k: nat :: k <= |acts| ==> GroupAt(states[k].lbs, g)
    ensures forall b, l, x :: ForeignListener(states[0], b, l, x) && ListenerLeftAlone(acts, b, l, x) ==>
              forall k: nat :: k <= |acts| ==> ListenerAt(states[k].lbs, b, l, x)
    ensures forall b, p, x :: ForeignPool(states[0], b, p, x) && PoolLeftAlone(acts, b, p, x) ==>
              forall k: nat :: k <= |acts| ==> PoolAt(states[k].lbs, b, p, x)
    ensures forall b, x :: OthersLb(states[0], b, x) && LbLeftAlone(acts, b, x) ==>
              forall k: nat :: k <= |acts| ==> LbAt(states[k].lbs, b, x)
  {
    forall b, x, k: nat | k <= |acts| && OthersLb(states[0], b, x) && LbLeftAlone(acts, b, x)
      ensures LbAt(states[k].lbs, b, x)
    {
      OthersLbSurvives(states, acts, k, b, x);
    }
    forall b, p, x, k: nat | k <= |acts| && ForeignPool(states[0], b, p, x) && PoolLeftAlone(acts, b, p, x)
      ensures PoolAt(states[k].lbs, b, p, x)
    {
      ForeignPoolSurvives(states, acts, k, b, p, x);
    }
    forall g, k: nat | k <= |acts| && ForeignGroup(states[0], g) && GroupLeftAlone(acts, g)
      ensures GroupAt(states[k].lbs, g)
    {
      ForeignGroupSurvives(states, acts, k, g);
    }
    forall b, l, x, k: nat | k <= |acts| && ForeignListener(states[0], b, l, x) && ListenerLeftAlone(acts, b, l, x)
      ensures ListenerAt(states[k].lbs, b, l, x)
    {
      ForeignListenerSurvives(states, acts, k, b, l, x);
    }
  }

  lemma RunIsSafe(states: seq<World>, acts: seq<Act>)
    requires Run(states, acts)
    ensures Safe(states, acts)
  {
    ForeignStays(states, acts);
    forall k: nat | k <= |acts| && Integrity(states[0].lbs) ensures Integrity(states[k].lbs) {
      NoDanglingListener(states, acts, k);
    }
    forall k: nat | k <= |acts| && Unique(states[0].lbs) && WellFormed(states[0].spec) && SpecsWellFormed(acts)
      ensures Unique(states[k].lbs)
    {
      CreatedAtMostOnce(states, acts, k);
    }
    forall k: nat | k < |acts| && acts[k].DeleteLb? ensures acts[k].lb in states[k].lbs && Removable(states[k], acts[k].lb) {
      WholeDeleteIsCovered(states, acts, k);
    }
    forall k: nat | k <= |acts| && NamesOnce(states[0].lbs) && NamesLeftOnce(acts) ensures NamesOnce(states[k].lbs) {
      NamedLbCreatedAtMostOnce(states, acts, k);
    }
    forall k: nat | k < |acts| && states[0].deployed.None? && Deletes(acts[k]) ensures DeletedInOrder(states, acts, k) {
      DeletesOnlyAfterDeploy(states, acts, k);
    }
  }
}
