/** The listener phase of a deploy pass: every listener of the spec, stopping at the first failure. */
module ListenerPhase {
  import opened GlbTypes
  import opened Equality
  import opened Diffs
  import opened Protocol
  import opened CloudApi
  import opened Growth
  import opened StatusRecord
  import opened DeployListener

  predicate PortIn(specs: seq<ListenerSpec>, port: int) {
    exists i :: 0 <= i < |specs| && specs[i].port == port
  }

  /** Only listeners on the specs' ports changed or appeared; pools are as they were. */
  ghost predicate OnlyListenersOf(a: map<Id, LB>, b: map<Id, LB>, lb: Id, specs: seq<ListenerSpec>) {
    && Grows(a, b, lb) && lb in a
    && b[lb].pools == a[lb].pools
    && (forall l :: KeptUnlessOn(a[lb].listeners, b[lb].listeners, specs, l))
    && (forall l :: NewIsOn(a[lb].listeners, b[lb].listeners, specs, l))
  }

  predicate KeptUnlessOn(a: map<Id, Listener>, b: map<Id, Listener>, specs: seq<ListenerSpec>, l: Id) {
    l in a && !PortIn(specs, a[l].port) ==> l in b && b[l] == a[l]
  }

  predicate NewIsOn(a: map<Id, Listener>, b: map<Id, Listener>, specs: seq<ListenerSpec>, l: Id) {
    l in b && l !in a ==> PortIn(specs, b[l].port)
  }

  lemma PortInPrefix(specs: seq<ListenerSpec>, i: nat, port: int)
    requires i < |specs|
    ensures PortIn(specs[..i + 1], port) <==> PortIn(specs[..i], port) || specs[i].port == port
  {
    if PortIn(specs[..i + 1], port) && specs[i].port != port {
      var k :| 0 <= k < i + 1 && specs[..i + 1][k].port == port;
      assert specs[..i][k].port == port;
    }
    if PortIn(specs[..i], port) {
      var k :| 0 <= k < i && specs[..i][k].port == port;
      assert specs[..i + 1][k].port == port;
    }
    assert specs[..i + 1][i] == specs[i];
  }

  lemma OnlyListenersOfStep(a: map<Id, LB>, b: map<Id, LB>, c: map<Id, LB>, lb: Id, specs: seq<ListenerSpec>, i: nat)
    requires i < |specs| && OnlyListenersOf(a, b, lb, specs[..i]) && OnlyListenersOn(b, c, lb, specs[i].port)
    ensures OnlyListenersOf(a, c, lb, specs[..i + 1])
  {
    GrowsTransitive(a, b, c, lb);
    var less, more := specs[..i], specs[..i + 1];
    forall port: int ensures PortIn(more, port) <==> PortIn(less, port) || specs[i].port == port {
      PortInPrefix(specs, i, port);
    }
    var x, y, z := a[lb].listeners, b[lb].listeners, c[lb].listeners;
    forall l ensures KeptUnlessOn(x, z, more, l) && NewIsOn(x, z, more, l) {
      assert KeptUnlessOn(x, y, less, l) && NewIsOn(x, y, less, l);
    }
  }

  lemma ListStaysGood(w0: World, w: World, lb: Id, current: Listing<Listener>, i: nat)
    requires Lists(current) && lb in w0.lbs && current.at == w0.lbs[lb].listeners
    requires w.spec == w0.spec && i < |w.spec.listeners| && OnlyListenersOf(w0.lbs, w.lbs, lb, w.spec.listeners[..i])
    ensures StillListed(w, lb, current, w.spec.listeners[i])
  {
    var less, s, began, now := w.spec.listeners[..i], w.spec.listeners[i], w0.lbs[lb].listeners, w.lbs[lb].listeners;
    if WellFormed(w.spec) {
      assert !PortIn(less, s.port);
      forall l | l in now && now[l].port == s.port ensures l in began {
        assert NewIsOn(began, now, less, l);
      }
      forall l | l in began && began[l].port == s.port ensures now[l] == began[l] {
        assert KeptUnlessOn(began, now, less, l);
      }
    }
  }

  predicate AllExact(listeners: map<Id, Listener>, specs: seq<ListenerSpec>, created: seq<CreatedListener>) {
    |created| == |specs| && forall j :: 0 <= j < |specs| ==> ListenerExact(listeners, specs[j], created[j])
  }

  predicate AllAgree(
    listeners: map<Id, Listener>, specs: seq<ListenerSpec>, created: seq<CreatedListener>, pools: seq<CreatedPool>)
    requires AllExact(listeners, specs, created)
  {
    forall j :: 0 <= j < |specs| ==>
      && listeners[created[j].id].poolId == TargetPool(specs[j], pools)
      && (HeadersRoundTrip(specs[j].headers) ==> ListenerAgrees(specs[j], listeners[created[j].id], pools))
  }

  /** What holds after `i` listeners. */
  ghost predicate Progress(
    w0: World, w: World, lb: Id, i: nat, created: seq<CreatedListener>, pools: seq<CreatedPool>)
  {
    var all :=
      && i <= |w0.spec.listeners| && lb in w0.lbs
      && w == w0.(lbs := w.lbs, status := w0.status.(listeners := w.status.listeners))
      && OnlyListenersOf(w0.lbs, w.lbs, lb, w0.spec.listeners[..i])
      && AllExact(w.lbs[lb].listeners, w0.spec.listeners[..i], created)
      && NewCreated(w0.lbs[lb].listeners, w.lbs[lb].listeners, created)
      && (WellFormed(w0.spec) && UniquePorts(w0.lbs[lb].listeners) ==>
            UniquePorts(w.lbs[lb].listeners) && AllAgree(w.lbs[lb].listeners, w0.spec.listeners[..i], created, pools))
      && (DistinctListenerIds(w0.status.listeners) ==> DistinctListenerIds(w.status.listeners));
    all
  }

  /** Every listener that appeared is among the created ones. */
  ghost predicate NewCreated(before: map<Id, Listener>, after: map<Id, Listener>, created: seq<CreatedListener>) {
    forall l :: IsCreated(before, after, created, l)
  }

  predicate IsCreated(before: map<Id, Listener>, after: map<Id, Listener>, created: seq<CreatedListener>, l: Id) {
    l in after && l !in before ==> ListedListener(created, l)
  }

  lemma NewCreatedNext(
    w0: map<Id, Listener>, a: map<Id, Listener>, b: map<Id, Listener>, created: seq<CreatedListener>, r: CreatedListener)
    requires NewCreated(w0, a, created) && NewIsThis(a, b, r.id)
    ensures NewCreated(w0, b, created + [r])
  {
    var all := created + [r];
    assert all[|created|].id == r.id;
    forall l ensures IsCreated(w0, b, all, l) {
      assert IsCreated(w0, a, created, l);
      if ListedListener(created, l) {
        var i :| 0 <= i < |created| && created[i].id == l;
        assert all[i].id == l;
      }
    }
  }

  lemma ProgressStart(w: World, lb: Id, pools: seq<CreatedPool>)
    requires lb in w.lbs
    ensures Progress(w, w, lb, 0, [], pools)
  {
    assert w.spec.listeners[..0] == [];
  }

  lemma ExactStep(
    a: LB, b: LB, specs: seq<ListenerSpec>, i: nat, created: seq<CreatedListener>, r: CreatedListener)
    requires i < |specs| && LbGrows(a, b)
    requires AllExact(a.listeners, specs[..i], created) && ListenerExact(b.listeners, specs[i], r)
    ensures AllExact(b.listeners, specs[..i + 1], created + [r])
  {
    forall j | 0 <= j < i + 1 ensures ListenerExact(b.listeners, specs[..i + 1][j], (created + [r])[j]) {
      if j < i {
        assert ListenerExact(a.listeners, specs[..i][j], created[j]);
      }
    }
  }

  lemma AgreeStep(
    a: map<Id, LB>, b: map<Id, LB>, lb: Id, specs: seq<ListenerSpec>, i: nat, created: seq<CreatedListener>,
    r: CreatedListener, pools: seq<CreatedPool>)
    requires i < |specs| && DistinctPorts(specs) && OnlyListenersOn(a, b, lb, specs[i].port)
    requires AllExact(a[lb].listeners, specs[..i], created) && AllExact(b[lb].listeners, specs[..i + 1], created + [r])
    requires AllAgree(a[lb].listeners, specs[..i], created, pools)
    requires b[lb].listeners[r.id].poolId == TargetPool(specs[i], pools)
    requires HeadersRoundTrip(specs[i].headers) ==> ListenerAgrees(specs[i], b[lb].listeners[r.id], pools)
    ensures AllAgree(b[lb].listeners, specs[..i + 1], created + [r], pools)
  {
    forall j | 0 <= j < i + 1
      ensures var s, l := specs[..i + 1][j], b[lb].listeners[(created + [r])[j].id];
              l.poolId == TargetPool(s, pools) && (HeadersRoundTrip(s.headers) ==> ListenerAgrees(s, l, pools))
    {
      if j < i {
        assert specs[..i][j] == specs[j] && ListenerExact(a[lb].listeners, specs[j], created[j]);
        assert specs[j].port != specs[i].port;
      }
    }
  }

  lemma ProgressOne(
    w0: World, w: World, after: World, lb: Id, i: nat, created: seq<CreatedListener>, r: CreatedListener,
    pools: seq<CreatedPool>)
    requires Progress(w0, w, lb, i, created, pools) && i < |w0.spec.listeners|
    requires OnlyListenersOn(w.lbs, after.lbs, lb, w0.spec.listeners[i].port)
    requires after == w.(lbs := after.lbs, status := w.status.(listeners := after.status.listeners))
    requires ListenerDone(w.lbs[lb].listeners, after.lbs[lb].listeners, w0.spec.listeners[i], pools, r, WellFormed(w0.spec))
    requires NewIsThis(w.lbs[lb].listeners, after.lbs[lb].listeners, r.id)
    requires DistinctListenerIds(w.status.listeners) ==> DistinctListenerIds(after.status.listeners)
    ensures Progress(w0, after, lb, i + 1, created + [r], pools)
  {
    OnlyListenersOfStep(w0.lbs, w.lbs, after.lbs, lb, w0.spec.listeners, i);
    ExactStep(w.lbs[lb], after.lbs[lb], w0.spec.listeners, i, created, r);
    NewCreatedNext(w0.lbs[lb].listeners, w.lbs[lb].listeners, after.lbs[lb].listeners, created, r);
    if WellFormed(w0.spec) && UniquePorts(w0.lbs[lb].listeners) {
      AgreeStep(w.lbs, after.lbs, lb, w0.spec.listeners, i, created, r, pools);
    }
  }

  /** The phase ended at the listener behind `done`; those are live all the same, and nothing else was touched. */
  ghost predicate Stopped(w0: World, w: World, lb: Id, done: seq<CreatedListener>) {
    var all :=
      && |done| < |w0.spec.listeners| && lb in w0.lbs
      && w == w0.(lbs := w.lbs, status := w0.status.(listeners := w.status.listeners))
      && OnlyListenersOf(w0.lbs, w.lbs, lb, w0.spec.listeners[..|done| + 1])
      && AllExact(w.lbs[lb].listeners, w0.spec.listeners[..|done|], done);
    all
  }

  lemma ProgressStopped(
    w0: World, w: World, after: World, lb: Id, i: nat, created: seq<CreatedListener>, pools: seq<CreatedPool>)
    requires Progress(w0, w, lb, i, created, pools) && i < |w0.spec.listeners|
    requires OnlyListenersOn(w.lbs, after.lbs, lb, w0.spec.listeners[i].port)
    requires after == w.(lbs := after.lbs, status := w.status.(listeners := after.status.listeners))
    ensures Stopped(w0, after, lb, created)
  {
    OnlyListenersOfStep(w0.lbs, w.lbs, after.lbs, lb, w0.spec.listeners, i);
    forall j | 0 <= j < i ensures ListenerExact(after.lbs[lb].listeners, w0.spec.listeners[..i][j], created[j]) {
      assert ListenerExact(w.lbs[lb].listeners, w0.spec.listeners[..i][j], created[j]);
    }
  }

  predicate AllQuiet(spec: Spec, listeners: map<Id, Listener>, pools: seq<CreatedPool>) {
    && WellFormed(spec) && UniquePorts(listeners)
    && forall i :: 0 <= i < |spec.listeners| ==> HasQuietListener(listeners, spec.listeners[i], pools)
  }

  method DeployNext(
    c: Cloud, cfg: Config, lb: Id, current: Listing<Listener>, i: nat, created: seq<CreatedListener>,
    pools: seq<CreatedPool>, ghost w0: World) returns (r: Option<CreatedListener>)
    requires c.Valid() && Works(c.w, lb) && Lists(current) && lb in w0.lbs && current.at == w0.lbs[lb].listeners
    requires c.w.spec == w0.spec && i < |c.w.spec.listeners| && PoolsExist(w0.lbs[lb], pools)
    requires Progress(w0, c.w, lb, i, created, pools)
    modifies c
    ensures c.Continues()
    ensures r.None? ==> c.Faulty() || !ProtocolMatches(w0.lbs[lb].listeners, c.w.spec.listeners[i])
    ensures r.Some? ==> Progress(w0, c.w, lb, i + 1, created + [r.value], pools)
    ensures r.None? ==> Stopped(w0, c.w, lb, created)
    ensures ListenersBooked(c.Lapsed(), old(c.w), c.w, lb)
    ensures old(c.w) == w0 && AllQuiet(w0.spec, w0.lbs[lb].listeners, pools) ==> c.Untouched()
  {
    ghost var w := c.w;
    ListStaysGood(w0, c.w, lb, current, i);
    r := DeployListener.DeployListener(c, cfg, lb, c.w.spec.listeners[i], current, pools);
    if r.Some? {
      ProgressOne(w0, w, c.w, lb, i, created, r.value, pools);
    } else {
      ProgressStopped(w0, w, c.w, lb, i, created, pools);
    }
  }

  /** The loop over the spec's listeners, up to the first failure. */
  method DeployAll(c: Cloud, cfg: Config, lb: Id, current: Listing<Listener>, pools: seq<CreatedPool>, ghost w0: World)
    returns (r: Option<seq<CreatedListener>>, ghost done: seq<CreatedListener>)
    requires c.Valid() && Works(c.w, lb) && c.w == w0 && Lists(current) && lb in w0.lbs
             && current.at == w0.lbs[lb].listeners
    requires PoolsExist(w0.lbs[lb], pools)
    modifies c
    ensures c.Continues() && ListenersBooked(c.Lapsed(), w0, c.w, lb)
    ensures r.None? ==> c.Faulty() || !ProtocolsMatch(w0.lbs[lb].listeners, w0.spec.listeners)
    ensures r.None? ==> Stopped(w0, c.w, lb, done)
    ensures r.Some? ==> r.value == done && Progress(w0, c.w, lb, |w0.spec.listeners|, done, pools)
    ensures AllQuiet(w0.spec, w0.lbs[lb].listeners, pools) ==> c.Untouched()
  {
    var created: seq<CreatedListener> := [];
    ghost var lapses := c.lapses;
    ProgressStart(w0, lb, pools);
    for i := 0 to |c.w.spec.listeners|
      invariant c.Continues() && c.w.spec == w0.spec && Progress(w0, c.w, lb, i, created, pools)
      invariant ListenersBooked(c.lapses > lapses, w0, c.w, lb)
      invariant AllQuiet(w0.spec, w0.lbs[lb].listeners, pools) ==> c.Untouched()
    {
      ghost var w, before := c.w, c.lapses;
      var next := DeployNext(c, cfg, lb, current, i, created, pools, w0);
      ListenersBookedNext(w0, w, c.w, lb, before > lapses, c.lapses > before);
      if next.None? {
        return None, created;
      }
      created := created + [next.value];
    }
    return Some(created), created;
  }

  /** All listeners in order, up to the first failure; `done` are those that were through by then. */
  method DeployListeners(c: Cloud, cfg: Config, lb: Id, pools: seq<CreatedPool>)
    returns (r: Option<seq<CreatedListener>>, ghost done: seq<CreatedListener>)
    requires c.Valid() && Works(c.w, lb) && lb in c.w.lbs && PoolsExist(c.w.lbs[lb], pools)
    modifies c
    ensures c.Continues() && ListenersBooked(c.Lapsed(), old(c.w), c.w, lb)
    ensures r.None? ==> c.Faulty() || !ProtocolsMatch(old(c.w).lbs[lb].listeners, old(c.w).spec.listeners)
    ensures r.None? ==> c.Untouched() || Stopped(old(c.w), c.w, lb, done)
    ensures r.Some? ==> r.value == done && Progress(old(c.w), c.w, lb, |c.w.spec.listeners|, done, pools)
    ensures AllQuiet(old(c.w).spec, old(c.w).lbs[lb].listeners, pools) ==> c.Untouched()
  {
    var current := c.ListListeners(lb);
    if current.None? {
      return None, [];
    }
    r, done := DeployAll(c, cfg, lb, current.value, pools, c.w);
  }
}
