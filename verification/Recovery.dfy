/**
 Recovery: however earlier passes were cut short, three passes in which no call fails bring a
 configuration to rest, whether it is to be found, moved, adopted or created first.
 */
module Recovery {
  import opened GlbTypes
  import opened Equality
  import opened Members
  import opened Diffs
  import opened Protocol
  import opened CloudApi
  import opened Growth
  import opened Safety
  import DeployListener
  import opened DeployLb
  import opened DeployPass
  import opened Quiescence
  import DeleteLb

  // ----- Order: what every act of every pass keeps -----

  /** Nothing is named, addressed or recorded twice, and no listener dangles. */
  predicate InOrder(w: World) {
    && SpecRegular(w.spec) && Unique(w.lbs) && Integrity(w.lbs) && Once(w.lbs) && RecordsTidy(w.status)
  }

  lemma PatchKeepsOnce(
    spec: Spec, pool: string, groups: map<Id, Group>, added: map<Id, Group>, updates: map<Id, GroupUpdate>,
    removed: set<Id>)
    requires SpecRegular(spec) && MembersOnce(groups) && NewGroupsFit(spec, pool, added) && updates.Keys <= groups.Keys
    requires forall g :: g in updates ==> UpdateFits(groups[g], updates[g])
    ensures MembersOnce(PatchedGroups(groups, added, updates, removed))
  {
    var after := PatchedGroups(groups, added, updates, removed);
    forall g | g in after ensures DistinctLiveKeys(after[g].members) {
      if g in added {
        assert GroupFits(spec, pool, added[g]);
      }
    }
  }

  /** An act on a load balancer. */
  lemma ActKeepsOnce(w: World, a: Act)
    requires Step(w, a) && Inside(a) && !a.PatchStatus? && a.lb in w.lbs
    requires SpecRegular(w.spec) && PoolsOnce(w.lbs[a.lb].pools)
    ensures PoolsOnce(Apply(w, a).lbs[a.lb].pools)
  {
    match a
    case PatchGroups(lb, pool, added, updates, removed) =>
      var p := w.lbs[lb].pools[pool];
      PatchKeepsOnce(w.spec, p.name, p.groups, added, updates, removed);
    case CreatePool(_, _, value) => NewGroupsOnce(w.spec, value.name, value.groups);
    case _ =>
  }

  lemma StepKeepsOnce(w: World, a: Act)
    requires Step(w, a) && SpecRegular(w.spec) && Once(w.lbs) && (a.Outside? ==> Once(a.edited))
    ensures Once(Apply(w, a).lbs)
  {
    var after := Apply(w, a).lbs;
    forall b | b in after ensures PoolsOnce(after[b].pools) {
      if a.CreateLb? && b == a.lb {
        assert PoolsOnce(a.content.pools);
      } else if Inside(a) && !a.PatchStatus? && b == a.lb {
        ActKeepsOnce(w, a);
      } else if !a.Outside? {
        assert b in w.lbs && after[b] == w.lbs[b];
      }
    }
  }

  lemma NewGroupsOnce(spec: Spec, pool: string, groups: map<Id, Group>)
    requires SpecRegular(spec) && NewGroupsFit(spec, pool, groups)
    ensures MembersOnce(groups)
  {
    forall g | g in groups ensures DistinctLiveKeys(groups[g].members) {
      assert GroupFits(spec, pool, groups[g]);
    }
  }

  lemma StepKeepsOrder(w: World, a: Act)
    requires Step(w, a) && InOrder(w)
    requires (a.BeginPass? ==> SpecRegular(a.newSpec)) && (a.Outside? ==> Once(a.edited))
    ensures InOrder(Apply(w, a))
  {
    StepKeepsUnique(w, a);
    StepKeepsIntegrity(w, a);
    StepKeepsOnce(w, a);
  }

  /** From a pass on, as long as it lasts, and however far it gets. */
  lemma {:induction false} OrderStays(states: seq<World>, acts: seq<Act>, since: nat, k: nat)
    requires Run(states, acts) && Calm(acts, since) && since <= k <= |acts| && InOrder(states[since])
    ensures InOrder(states[k])
    decreases k
  {
    if since < k {
      OrderStays(states, acts, since, k - 1);
      assert Link(states, acts, k - 1) && CalmAt(acts, since, k - 1);
      StepKeepsOrder(states[k - 1], acts[k - 1]);
    }
  }

  // ----- Suited: nothing is in the way of the spec where the pass may work -----

  /** A load balancer the configuration sits on, or may come to sit on. */
  predicate Candidate(w: World, b: Id) {
    b in w.lbs && (Mine(w, b) || w.status.lbId == Some(b))
  }

  predicate Suited(w: World) {
    forall b :: b in w.lbs && Candidate(w, b) ==> Suits(w.spec, w.lbs[b])
  }

  /** The load balancer on record exists. */
  predicate Homed(w: World) {
    IsSet(w.status.lbId) ==> w.status.lbId.value in w.lbs
  }

  lemma PatchKeepsDials(
    spec: Spec, lb: LB, pool: Id, added: map<Id, Group>, updates: map<Id, GroupUpdate>, removed: set<Id>)
    requires SpecRegular(spec) && AllDialsAgree(spec, lb.pools) && pool in lb.pools
    requires updates.Keys <= lb.pools[pool].groups.Keys && NewGroupsFit(spec, lb.pools[pool].name, added)
    requires forall g :: g in updates ==> UpdateFits(lb.pools[pool].groups[g], updates[g])
    ensures var p := lb.pools[pool];
            AllDialsAgree(spec, lb.pools[pool := p.(groups := PatchedGroups(p.groups, added, updates, removed))])
  {
    var p := lb.pools[pool];
    var after := PatchedGroups(p.groups, added, updates, removed);
    forall i | 0 <= i < |spec.pools| && spec.pools[i].name == p.name
      ensures DialsAgree(spec.pools[i], p.(groups := after))
    {
      assert DialsAgree(spec.pools[i], p);
      forall g | g in after ensures DialIn(spec.pools[i].groups, after[g]) {
        if g in added {
          assert GroupFits(spec, p.name, added[g]);
        }
      }
    }
  }

  lemma CreateKeepsDials(spec: Spec, pools: map<Id, Pool>, id: Id, value: Pool)
    requires SpecRegular(spec) && AllDialsAgree(spec, pools) && NewGroupsFit(spec, value.name, value.groups)
    ensures AllDialsAgree(spec, pools[id := value])
  {
    forall i | 0 <= i < |spec.pools| && spec.pools[i].name == value.name ensures DialsAgree(spec.pools[i], value) {
      forall g | g in value.groups ensures DialIn(spec.pools[i].groups, value.groups[g]) {
        assert GroupFits(spec, value.name, value.groups[g]);
      }
    }
  }

  /** An act on a load balancer leaves it suited. */
  lemma ActKeepsSuits(w: World, a: Act)
    requires Step(w, a) && Inside(a) && !a.PatchStatus? && a.lb in w.lbs
    requires SpecRegular(w.spec) && Suits(w.spec, w.lbs[a.lb])
    ensures Suits(w.spec, Apply(w, a).lbs[a.lb])
  {
    match a
    case PatchGroups(lb, pool, added, updates, removed) =>
      PatchKeepsDials(w.spec, w.lbs[lb], pool, added, updates, removed);
    case CreatePool(lb, pool, value) => CreateKeepsDials(w.spec, w.lbs[lb].pools, pool, value);
    case _ =>
  }

  lemma StepKeepsSuited(w: World, a: Act)
    requires Step(w, a) && !IsTurn(a) && SpecRegular(w.spec) && Suited(w)
    ensures Suited(Apply(w, a))
  {
    var after := Apply(w, a);
    forall b | Candidate(after, b) ensures Suits(after.spec, after.lbs[b]) {
      if !(a.CreateLb? && b == a.lb) {
        assert Candidate(w, b);
        if Inside(a) && !a.PatchStatus? && b == a.lb {
          ActKeepsSuits(w, a);
        }
      }
    }
  }

  lemma StepKeepsHomed(w: World, a: Act)
    requires Step(w, a) && !IsTurn(a) && !w.deleting && Homed(w)
    ensures Homed(Apply(w, a)) && !Apply(w, a).deleting
  {
  }

  /** Everything a pass over its spec relies on. */
  ghost predicate Good(w: World) {
    InOrder(w) && Suited(w) && Homed(w) && !w.deleting
  }

  lemma {:induction false} GoodStays(states: seq<World>, acts: seq<Act>, since: nat, k: nat)
    requires Run(states, acts) && Calm(acts, since) && since <= k <= |acts| && Good(states[since])
    ensures Good(states[k])
    decreases k
  {
    if since < k {
      GoodStays(states, acts, since, k - 1);
      assert Link(states, acts, k - 1) && CalmAt(acts, since, k - 1);
      StepKeepsOrder(states[k - 1], acts[k - 1]);
      StepKeepsSuited(states[k - 1], acts[k - 1]);
      StepKeepsHomed(states[k - 1], acts[k - 1]);
    }
  }

  // ----- One pass -----

  /**
   A pass over the spec can be brought to its end from here: the spec is fit, everything is in order,
   nothing is in the way of the spec, and the load balancers on record and in the spec exist.
   */
  ghost predicate Recoverable(w: World, spec: Spec) {
    && Fit(spec) && Good(Apply(w, BeginPass(spec, false)))
    && (IsSet(spec.lbId) ==> spec.lbId.value in w.lbs)
  }

  /** The configuration is recorded on a load balancer that exists and that the spec does not leave. */
  predicate AtHome(w: World, spec: Spec) {
    && IsSet(w.status.lbId) && w.status.lbId.value in w.lbs
    && (IsSet(spec.lbId) ==> spec.lbId == w.status.lbId)
  }

  lemma GoodAgain(w: World, spec: Spec)
    requires Good(w) && w.spec == spec
    ensures Good(Apply(w, BeginPass(spec, false)))
  {
    var begun := Apply(w, BeginPass(spec, false));
    forall b | Candidate(begun, b) ensures Suits(spec, begun.lbs[b]) {
      assert Candidate(w, b);
    }
  }

  /** A pass that ends early by design has moved or adopted, and is at home then. */
  lemma EarlyIsHome(w: World, after: World)
    requires Good(w) && w.snap == w.status && (IsSet(w.spec.lbId) ==> w.spec.lbId.value in w.lbs)
    requires IdsProper(w.lbs) && EndsEarly(w) && EndedEarly(w, after)
    ensures AtHome(after, w.spec)
  {
    if Migrating(w) {
      var lb := w.snap.lbId.value;
      assert LbIntegrity(w.lbs[lb]);
      DeleteLb.DistinctSweepsOnce(w.snap, w.lbs[lb], [], []);
    }
  }

  /** A good state lets the pass run. */
  lemma GoodIsRunnable(w: World)
    requires Good(w) && w.snap == w.status && !EndsEarly(w)
    ensures Runnable(w)
  {
    if IsSet(w.snap.lbId) {
      assert Candidate(w, w.snap.lbId.value);
      assert LbIntegrity(w.lbs[w.snap.lbId.value]);
    }
  }

  /** Whatever fails in it, a pass leaves the state recoverable; if nothing fails, it leaves it at home. */
  method OnePass(c: Cloud, cfg: Config, spec: Spec)
    requires c.Valid() && Recoverable(c.w, spec)
    modifies c
    ensures c.Valid() && old(c.faults) <= c.faults && Recoverable(c.w, spec)
    ensures GoesOn(old(c.log), c.log, spec)
    ensures c.Faulty() || AtHome(c.w, spec)
  {
    ghost var begun := Apply(c.w, BeginPass(spec, false));
    c.HasProperIds();
    ghost var t;
    var ok;
    ok, t := DeployPass.Deploy(c, cfg, spec);
    assert c.states[|c.past|] == c.Start() == begun;
    GoodStays(c.states, c.log, |c.past|, |c.log|);
    SpecStays(c.states, c.log, |c.past|, |c.log|);
    GoodAgain(c.w, spec);
    if !c.Faulty() {
      if EndsEarly(begun) {
        EarlyIsHome(begun, c.w);
      } else {
        GoodIsRunnable(begun);
      }
    }
  }

  lemma {:induction false} SpecStays(states: seq<World>, acts: seq<Act>, since: nat, k: nat)
    requires Run(states, acts) && Calm(acts, since) && since <= k <= |acts|
    ensures states[k].spec == states[since].spec
    decreases k
  {
    if since < k {
      SpecStays(states, acts, since, k - 1);
      assert Link(states, acts, k - 1) && CalmAt(acts, since, k - 1);
    }
  }

  // ----- Many passes, and three -----

  /** Any number of passes over the spec, cut short by whatever fails, leave the state recoverable. */
  method ManyPasses(c: Cloud, cfg: Config, spec: Spec, n: nat) returns (ghost starts: seq<nat>)
    requires c.Valid() && Recoverable(c.w, spec)
    modifies c
    ensures c.Valid() && Recoverable(c.w, spec)
    ensures |starts| == n && PassesOver(c.log, |old(c.log)|, spec, starts)
  {
    starts := [];
    for i := 0 to n
      invariant c.Valid() && Recoverable(c.w, spec)
      invariant |starts| == i && |old(c.log)| <= |c.log| && PassesOver(c.log, |old(c.log)|, spec, starts)
    {
      ghost var log := c.log;
      OnePass(c, cfg, spec);
      PassesOverNext(log, c.log, |old(c.log)|, spec, starts);
      starts := starts + [|log|];
    }
  }

  /** Three passes leave nothing to do, unless a call fails in them. */
  method ThreePasses(c: Cloud, cfg: Config, spec: Spec) returns (settled: bool, ghost starts: seq<nat>)
    requires c.Valid() && Recoverable(c.w, spec)
    modifies c
    ensures c.Valid() && old(c.faults) <= c.faults && (!settled ==> c.Faulty())
    ensures settled ==> NothingLeft(c.w, spec) && |starts| == 3 && PassesOver(c.log, |old(c.log)|, spec, starts)
  {
    OnePass(c, cfg, spec);
    if !AtHome(c.w, spec) {
      return false, [];
    }
    ghost var begun, lb, log := Apply(c.w, BeginPass(spec, false)), c.w.status.lbId.value, c.log;
    assert Candidate(begun, lb);
    assert PoolsOnce(c.w.lbs[lb].pools) && UniqueOn(c.w.lbs[lb]) && LbIntegrity(c.w.lbs[lb]);
    settled, starts := TwoPasses(c, cfg, spec);
    if settled {
      TwoMore(old(c.log), log, c.log, spec, starts);
      starts := [|old(c.log)|] + starts;
    }
  }

  lemma TwoMore(log: seq<Act>, mid: seq<Act>, more: seq<Act>, spec: Spec, starts: seq<nat>)
    requires GoesOn(log, mid, spec) && mid <= more && |starts| == 2
    requires PassesOver(more, |mid|, spec, starts)
    ensures PassesOver(more, |log|, spec, [|log|] + starts)
  {
    assert more[|log|] == mid[|log|] == (log + [BeginPass(spec, false)])[|log|];
    var all := [|log|] + starts;
    forall i | 0 <= i < 3 ensures |log| <= all[i] < |more| && more[all[i]] == BeginPass(spec, false) {
      if i > 0 {
        assert Repeated(spec, 2)[i - 1] == Round(None, spec, false) && all[i] == starts[i - 1];
      }
    }
  }

  // ----- Any history -----

  /** Edits by others are orderly, and every spec is regular. */
  predicate Orderly(r: Round) {
    Admissible(r) && SpecRegular(r.spec) && (r.edit.Some? ==> Once(r.edit.value))
  }

  /** The pass of a round. */
  method PassOf(c: Cloud, cfg: Config, r: Round)
    requires c.Valid()
    modifies c
    ensures c.Valid() && c.past == old(c.log) + [BeginPass(r.spec, r.delete)]
    ensures c.Start() == Apply(old(c.w), BeginPass(r.spec, r.delete)) == c.states[|c.past|]
  {
    if r.delete {
      var ok := DeleteLb.Delete(c, r.spec);
    } else {
      ghost var t;
      var ok;
      ok, t := DeployPass.Deploy(c, cfg, r.spec);
    }
  }

  /** A round of any kind, with any edit before it and any failure in it, keeps everything in order. */
  method AnyRound(c: Cloud, cfg: Config, r: Round) returns (ghost start: nat)
    requires c.Valid() && InOrder(c.w) && Orderly(r)
    modifies c
    ensures c.Valid() && InOrder(c.w) && old(c.log) <= c.log
    ensures |old(c.log)| <= start < |c.log| && c.log[start] == BeginPass(r.spec, r.delete)
  {
    if r.edit.Some? {
      c.Take(Outside(r.edit.value));
    }
    start := |c.log|;
    PassOf(c, cfg, r);
    OrderStays(c.states, c.log, |c.past|, |c.log|);
  }

  /**
   Any history of deploy, migrate and delete passes over regular specs, with edits between them and
   calls failing anywhere, leaves everything in order.
   */
  method AnyHistory(c: Cloud, cfg: Config, rounds: seq<Round>) returns (ghost starts: seq<nat>)
    requires c.Valid() && InOrder(c.w) && forall i :: 0 <= i < |rounds| ==> Orderly(rounds[i])
    modifies c
    ensures c.Valid() && InOrder(c.w) && PassesIn(c.log, |old(c.log)|, rounds, starts)
  {
    starts := [];
    for i := 0 to |rounds|
      invariant c.Valid() && InOrder(c.w) && old(c.log) <= c.log
      invariant PassesIn(c.log, |old(c.log)|, rounds[..i], starts)
    {
      ghost var log := c.log;
      ghost var start := AnyRound(c, cfg, rounds[i]);
      PassesInNext(log, c.log, |old(c.log)|, rounds, starts, i, start);
      starts := starts + [start];
    }
    assert rounds[..|rounds|] == rounds;
  }

  /** No load balancer that a pass over the spec may choose is at odds with it, and those it is told to use exist. */
  predicate ClearFor(w: World, spec: Spec) {
    && Suited(Apply(w, BeginPass(spec, false))) && Homed(w)
    && (IsSet(spec.lbId) ==> spec.lbId.value in w.lbs)
  }

  /** From a state in order, three passes over a fit spec settle if nothing is in its way. */
  lemma RecoverableExactlyWhen(w: World, spec: Spec)
    requires InOrder(w)
    ensures Recoverable(w, spec) <==> Fit(spec) && ClearFor(w, spec)
  {
  }

  /**
   The three passes after any history: they settle a fit spec that nothing is in the way of, unless a
   call fails in them.
   */
  method Recover(c: Cloud, cfg: Config, spec: Spec) returns (settled: bool, ghost starts: seq<nat>)
    requires c.Valid() && InOrder(c.w) && Fit(spec) && ClearFor(c.w, spec)
    modifies c
    ensures c.Valid() && old(c.faults) <= c.faults && (!settled ==> c.Faulty())
    ensures settled ==> NothingLeft(c.w, spec) && |starts| == 3 && PassesOver(c.log, |old(c.log)|, spec, starts)
  {
    RecoverableExactlyWhen(c.w, spec);
    settled, starts := ThreePasses(c, cfg, spec);
  }

  // ----- What recovery cannot do without -----

  lemma PhasesGrow(cfg: Config, t: Passage, after: World)
    requires Passed(cfg, t, after)
    ensures Grows(t.begun.lbs, t.listened.lbs, t.lb)
  {
    GrowsTransitive(t.begun.lbs, t.pooled.lbs, t.listened.lbs, t.lb);
  }

  /** A pass that ran to its end found no listener of another protocol on a port of the spec. */
  lemma PassedMatches(cfg: Config, t: Passage, after: World)
    requires Passed(cfg, t, after) && SpecRegular(t.begun.spec) && Sane(t.begun.lbs[t.lb], t.begun.status)
    ensures ProtocolsMatch(t.begun.lbs[t.lb].listeners, t.begun.spec.listeners)
  {
    var spec, began, now := t.begun.spec, t.begun.lbs[t.lb].listeners, t.listened.lbs[t.lb].listeners;
    PhasesBuild(cfg, t, after);
    PhasesGrow(cfg, t, after);
    forall i, l | 0 <= i < |spec.listeners| && l in began && began[l].port == spec.listeners[i].port
      ensures began[l].protocol == spec.listeners[i].protocol
    {
      assert DeployListener.ListenerExact(now, spec.listeners[i], t.listeners[i]);
      assert now[l].port == began[l].port && now[l].protocol == began[l].protocol;
    }
  }

  /** At home, a pass runs to its end exactly when protocols match, unless a call fails. */
  method EndsExactlyWhen(c: Cloud, cfg: Config, spec: Spec) returns (ok: bool, ghost t: Passage)
    requires c.Valid() && InOrder(c.w) && AtHome(c.w, spec) && SpecRegular(spec)
    modifies c
    ensures GoesOn(old(c.log), c.log, spec) && (ok ==> Follows(t, old(c.w), spec) && Passed(cfg, t, c.w))
    ensures ok || !c.Faulty() ==>
              (ok <==> ProtocolsMatch(old(c.w).lbs[old(c.w).status.lbId.value].listeners, spec.listeners))
  {
    ghost var begun, lb := Apply(c.w, BeginPass(spec, false)), c.w.status.lbId.value;
    assert PoolsOnce(c.w.lbs[lb].pools) && UniqueOn(c.w.lbs[lb]) && LbIntegrity(c.w.lbs[lb]);
    ok, t := DeployPass.Deploy(c, cfg, spec);
    if ok {
      PassedMatches(cfg, t, c.w);
    }
  }

  /** If the load balancer on record is gone and the spec gives no other, no pass ever does anything. */
  method MissingStays(c: Cloud, cfg: Config, spec: Spec, n: nat) returns (ghost starts: seq<nat>)
    requires c.Valid() && IsSet(c.w.status.lbId) && c.w.status.lbId.value !in c.w.lbs
    requires IsSet(spec.lbId) ==> spec.lbId == c.w.status.lbId
    modifies c
    ensures c.Valid() && |starts| == n && PassesOver(c.log, |old(c.log)|, spec, starts)
    ensures c.calls == old(c.calls) && c.w.lbs == old(c.w).lbs && c.w.status == old(c.w).status
  {
    starts := [];
    for i := 0 to n
      invariant c.Valid() && c.calls == old(c.calls) && c.w.lbs == old(c.w).lbs && c.w.status == old(c.w).status
      invariant |starts| == i && |old(c.log)| <= |c.log| && PassesOver(c.log, |old(c.log)|, spec, starts)
    {
      ghost var log := c.log;
      ghost var t;
      var ok;
      ok, t := DeployPass.Deploy(c, cfg, spec);
      PassesOverNext(log, c.log, |old(c.log)|, spec, starts);
      starts := starts + [|log|];
    }
  }
}
