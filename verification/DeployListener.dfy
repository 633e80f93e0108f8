/** Deploying listeners (deploy_listener.go). */
module DeployListener {
  import opened GlbTypes
  import opened Equality
  import opened Diffs
  import opened Protocol
  import opened CloudApi
  import opened Growth
  import opened StatusRecord

  /** Only listeners on that port changed or appeared on `lb`; pools are as they were. */
  predicate OnlyListenersOn(a: map<Id, LB>, b: map<Id, LB>, lb: Id, port: int) {
    var all :=
      && Grows(a, b, lb) && lb in a
      && b[lb].pools == a[lb].pools
      && (forall l :: l in a[lb].listeners && a[lb].listeners[l].port != port ==>
            b[lb].listeners[l] == a[lb].listeners[l])
      && (forall l :: l in b[lb].listeners && l !in a[lb].listeners ==> b[lb].listeners[l].port == port);
    all
  }

  lemma OnlyListenersOnTransitive(a: map<Id, LB>, b: map<Id, LB>, c: map<Id, LB>, lb: Id, port: int)
    requires OnlyListenersOn(a, b, lb, port) && OnlyListenersOn(b, c, lb, port)
    ensures OnlyListenersOn(a, c, lb, port)
  {
    GrowsTransitive(a, b, c, lb);
  }

  /** Every record names a live pool, so a listener may be pointed at it. */
  predicate PoolsExist(lb: LB, pools: seq<CreatedPool>) {
    forall i :: 0 <= i < |pools| ==> pools[i].id in lb.pools
  }

  lemma {:induction false} FoundPoolExists(lb: LB, pools: seq<CreatedPool>, name: string)
    requires PoolsExist(lb, pools)
    ensures PoolExistsOrNone(lb, PoolIdByName(pools, name))
  {
    if pools != [] && pools[0].name != name {
      FoundPoolExists(lb, pools[1..], name);
    }
  }

  predicate ListenerExact(listeners: map<Id, Listener>, s: ListenerSpec, r: CreatedListener) {
    && r.id in listeners && listeners[r.id].port == s.port && listeners[r.id].protocol == s.protocol
    && r.port == s.port && r.name == listeners[r.id].name
  }

  function OnPort(port: int): Listener -> bool {
    (l: Listener) => l.port == port
  }

  lemma WantsListedPort(spec: Spec, s: ListenerSpec)
    requires s in spec.listeners
    ensures WantsPort(spec, s.port)
  {
    var i :| 0 <= i < |spec.listeners| && spec.listeners[i] == s;
  }

  lemma NothingFrame(lbs: map<Id, LB>, lb: Id, port: int)
    requires lb in lbs
    ensures OnlyListenersOn(lbs, lbs, lb, port)
  {
  }

  /** Every listener that was not there before is on record. */
  predicate NewListenersListed(before: map<Id, Listener>, after: map<Id, Listener>, record: seq<CreatedListener>) {
    forall l :: l in after && l !in before ==> ListedListener(record, l)
  }

  /** Nothing was dropped from the record, and unless a creation or a status patch failed, what is new is on it. */
  ghost predicate ListenersBooked(lapsed: bool, w0: World, w: World, lb: Id) {
    var all :=
      && lb in w0.lbs && lb in w.lbs
      && ListenersStayListed(w0.status.listeners, w.status.listeners)
      && (lapsed || NewListenersListed(w0.lbs[lb].listeners, w.lbs[lb].listeners, w.status.listeners));
    all
  }

  lemma ListenersBookedNext(w0: World, w: World, after: World, lb: Id, lapsed: bool, lapses: bool)
    requires ListenersBooked(lapsed, w0, w, lb) && ListenersBooked(lapses, w, after, lb)
    ensures ListenersBooked(lapsed || lapses, w0, after, lb)
  {
  }

  // ----- Creating -----

  lemma CreateListenerFrame(w: World, lb: Id, id: Id, l: Listener)
    requires Possible(w, CreateListener(lb, id, l))
    ensures var after := Apply(w, CreateListener(lb, id, l));
            && OnlyListenersOn(w.lbs, after.lbs, lb, l.port) && after == w.(lbs := after.lbs)
            && after.lbs[lb].listeners == w.lbs[lb].listeners[id := l]
  {
  }

  lemma NewListenerOfSpecFits(spec: Spec, s: ListenerSpec, live: Listener)
    requires s in spec.listeners && live.port == s.port && live.protocol == s.protocol
    ensures NewListenerFits(spec, live)
  {
    var j :| 0 <= j < |spec.listeners| && spec.listeners[j] == s;
  }

  /** One create call; the cloud names the listener. */
  method CreateListenerCall(c: Cloud, cfg: Config, lb: Id, s: ListenerSpec, pools: seq<CreatedPool>)
    returns (ok: bool, id: Id, live: Listener)
    requires c.Valid() && Works(c.w, lb) && s in c.w.spec.listeners && lb in c.w.lbs && PoolsExist(c.w.lbs[lb], pools)
    requires WellFormed(c.w.spec) ==> forall l :: l in c.w.lbs[lb].listeners ==> c.w.lbs[lb].listeners[l].port != s.port
    modifies c
    ensures c.Continues() && OnlyListenersOn(old(c.w).lbs, c.w.lbs, lb, s.port) && c.w == old(c.w).(lbs := c.w.lbs)
    ensures !ok ==> c.Faulty() && c.Lapsed()
    ensures live == NewListener(cfg, s, pools)
    ensures ok ==> c.w.lbs[lb].listeners == old(c.w).lbs[lb].listeners[id := live]
  {
    NothingFrame(c.w.lbs, lb, s.port);
    live := NewListener(cfg, s, pools);
    id := *;
    FoundPoolExists(c.w.lbs[lb], pools, if s.defaultPoolName.Some? then s.defaultPoolName.value else "");
    WantsListedPort(c.w.spec, s);
    if id == NO_ID || ListenerIdUsed(c.w.lbs, id) {
      c.Refuse();
      return false, id, live;
    }
    CreateListenerFrame(c.w, lb, id, live);
    NewListenerOfSpecFits(c.w.spec, s, live);
    ok := c.Try(CreateListener(lb, id, live));
  }

  lemma NewPortUnique(listeners: map<Id, Listener>, id: Id, live: Listener)
    requires UniquePorts(listeners) && forall l :: l in listeners ==> listeners[l].port != live.port
    ensures UniquePorts(listeners[id := live])
  {
  }

  /** Creates the listener, records it, waits, and reads it back. */
  method CreateNewListener(c: Cloud, cfg: Config, lb: Id, s: ListenerSpec, pools: seq<CreatedPool>)
    returns (ok: bool, id: Id, live: Listener)
    requires c.Valid() && Works(c.w, lb) && s in c.w.spec.listeners && lb in c.w.lbs && PoolsExist(c.w.lbs[lb], pools)
    requires WellFormed(c.w.spec) ==> forall l :: l in c.w.lbs[lb].listeners ==> c.w.lbs[lb].listeners[l].port != s.port
    modifies c
    ensures c.Continues() && OnlyListenersOn(old(c.w).lbs, c.w.lbs, lb, s.port)
    ensures c.w == old(c.w).(lbs := c.w.lbs, status := old(c.w).status.(listeners := c.w.status.listeners))
    ensures !ok ==> c.Faulty()
    ensures ListenersBooked(c.Lapsed(), old(c.w), c.w, lb)
    ensures ok ==> CreatedListener(id, s.port, s.name) in c.w.status.listeners
    ensures ok ==> id in c.w.lbs[lb].listeners && live == c.w.lbs[lb].listeners[id]
    ensures ok ==> NewIsThis(old(c.w).lbs[lb].listeners, c.w.lbs[lb].listeners, id)
    ensures live == NewListener(cfg, s, pools)
    ensures ok && WellFormed(c.w.spec) && UniquePorts(old(c.w).lbs[lb].listeners) ==> UniquePorts(c.w.lbs[lb].listeners)
    ensures DistinctListenerIds(old(c.w).status.listeners) ==> DistinctListenerIds(c.w.status.listeners)
  {
    ok, id, live := CreateListenerCall(c, cfg, lb, s, pools);
    if !ok {
      return;
    }
    if WellFormed(c.w.spec) && UniquePorts(old(c.w).lbs[lb].listeners) {
      NewPortUnique(old(c.w).lbs[lb].listeners, id, live);
    }
    ok := StatusAddListener(c, lb, CreatedListener(id, s.port, s.name));
    if !ok {
      return;
    }
    ok := c.Wait();
  }

  // ----- Updating -----

  lemma UpdateListenerFrame(w: World, lb: Id, id: Id, patch: ListenerPatch)
    requires Possible(w, UpdateListener(lb, id, patch))
    ensures var after := Apply(w, UpdateListener(lb, id, patch));
            && OnlyListenersOn(w.lbs, after.lbs, lb, w.lbs[lb].listeners[id].port) && after == w.(lbs := after.lbs)
            && after.lbs[lb].listeners[id] == PatchListener(w.lbs[lb].listeners[id], patch)
            && after.lbs[lb].listeners.Keys == w.lbs[lb].listeners.Keys
            && (UniquePorts(w.lbs[lb].listeners) ==> UniquePorts(after.lbs[lb].listeners))
  {
  }

  lemma WantedPoolExists(lb: LB, s: ListenerSpec, seen: Listener, pools: seq<CreatedPool>, patch: ListenerPatch)
    requires PoolsExist(lb, pools) && PatchListener(seen, patch) == ListenerWanted(s, seen, pools)
    ensures PoolExistsOrNone(lb, patch.poolId)
  {
    FoundPoolExists(lb, pools, if s.defaultPoolName.Some? then s.defaultPoolName.value else "");
    assert PatchListener(seen, patch).poolId == patch.poolId;
  }

  /** One update call. */
  method UpdateListenerCall(c: Cloud, lb: Id, id: Id, s: ListenerSpec, patch: ListenerPatch) returns (ok: bool)
    requires c.Valid() && Works(c.w, lb) && s in c.w.spec.listeners && lb in c.w.lbs
             && PoolExistsOrNone(c.w.lbs[lb], patch.poolId)
    requires id in c.w.lbs[lb].listeners && c.w.lbs[lb].listeners[id].port == s.port
    modifies c
    ensures c.Continues() && OnlyListenersOn(old(c.w).lbs, c.w.lbs, lb, s.port) && c.w == old(c.w).(lbs := c.w.lbs)
    ensures !ok ==> c.Faulty()
    ensures c.w.lbs[lb].listeners.Keys == old(c.w).lbs[lb].listeners.Keys
    ensures ok ==> c.w.lbs[lb].listeners[id] == PatchListener(old(c.w).lbs[lb].listeners[id], patch)
    ensures UniquePorts(old(c.w).lbs[lb].listeners) ==> UniquePorts(c.w.lbs[lb].listeners)
  {
    NothingFrame(c.w.lbs, lb, s.port);
    WantsListedPort(c.w.spec, s);
    UpdateListenerFrame(c.w, lb, id, patch);
    ok := c.Try(UpdateListener(lb, id, patch));
  }

  method UpdateLiveListener(c: Cloud, lb: Id, id: Id, s: ListenerSpec, seen: Listener, pools: seq<CreatedPool>)
    returns (ok: bool)
    requires c.Valid() && Works(c.w, lb) && s in c.w.spec.listeners && lb in c.w.lbs && PoolsExist(c.w.lbs[lb], pools)
    requires id in c.w.lbs[lb].listeners && c.w.lbs[lb].listeners[id].port == s.port
    modifies c
    ensures c.Continues() && OnlyListenersOn(old(c.w).lbs, c.w.lbs, lb, s.port)
    ensures c.w == old(c.w).(lbs := c.w.lbs, status := old(c.w).status.(listeners := c.w.status.listeners))
    ensures !ok ==> c.Faulty()
    ensures ListenersBooked(c.Lapsed(), old(c.w), c.w, lb)
    ensures ok && !ListenerAgrees(s, seen, pools) ==> CreatedListener(id, seen.port, seen.name) in c.w.status.listeners
    ensures ok && seen == old(c.w).lbs[lb].listeners[id] ==>
      c.w.lbs[lb].listeners[id] == if ListenerAgrees(s, seen, pools) then seen else ListenerWanted(s, seen, pools)
    ensures c.w.lbs[lb].listeners.Keys == old(c.w).lbs[lb].listeners.Keys
    ensures UniquePorts(old(c.w).lbs[lb].listeners) ==> UniquePorts(c.w.lbs[lb].listeners)
    ensures DistinctListenerIds(old(c.w).status.listeners) ==> DistinctListenerIds(c.w.status.listeners)
    ensures ListenerAgrees(s, seen, pools) ==> c.Untouched()
  {
    NothingFrame(c.w.lbs, lb, s.port);
    var request := BuildListenerUpdate(s, seen, pools);
    if request.None? {
      return true;
    }
    WantedPoolExists(c.w.lbs[lb], s, seen, pools, request.value);
    ok := UpdateListenerCall(c, lb, id, s, request.value);
    if !ok {
      return;
    }
    ok := StatusAddListener(c, lb, CreatedListener(id, seen.port, seen.name));
    if !ok {
      return;
    }
    ok := c.Wait();
  }

  // ----- One listener -----

  ghost predicate StillListed(w: World, lb: Id, current: Listing<Listener>, s: ListenerSpec) {
    && lb in w.lbs && Lists(current)
    && (forall l :: l in current.at ==>
          l in w.lbs[lb].listeners && w.lbs[lb].listeners[l].port == current.at[l].port
          && w.lbs[lb].listeners[l].protocol == current.at[l].protocol && w.lbs[lb].listeners[l].name == current.at[l].name)
    && (WellFormed(w.spec) ==>
          && (forall l :: l in current.at && current.at[l].port == s.port ==> w.lbs[lb].listeners[l] == current.at[l])
          && (forall l :: l in w.lbs[lb].listeners && w.lbs[lb].listeners[l].port == s.port ==> l in current.at))
  }

  /** The only listener that can have appeared is this one. */
  predicate NewIsThis(before: map<Id, Listener>, after: map<Id, Listener>, id: Id) {
    forall l :: l in after && l !in before ==> l == id
  }

  /** A listener on the port is live and needs nothing. */
  predicate HasQuietListener(listeners: map<Id, Listener>, s: ListenerSpec, pools: seq<CreatedPool>) {
    exists l :: l in listeners && listeners[l].port == s.port && ListenerAgrees(s, listeners[l], pools)
  }

  /** What a successful deployment of one listener leaves. */
  predicate ListenerDone(
    before: map<Id, Listener>, after: map<Id, Listener>, s: ListenerSpec, pools: seq<CreatedPool>, r: CreatedListener,
    regular: bool)
  {
    var all :=
      && ListenerExact(after, s, r)
      && (regular && UniquePorts(before) ==>
            && UniquePorts(after) && after[r.id].poolId == TargetPool(s, pools)
            && (HeadersRoundTrip(s.headers) ==> ListenerAgrees(s, after[r.id], pools)));
    all
  }

  /** Protocol check and update, shared by the listeners found and those just created. */
  method EnsureListener(c: Cloud, lb: Id, id: Id, s: ListenerSpec, seen: Listener, pools: seq<CreatedPool>)
    returns (r: Option<CreatedListener>)
    requires c.Valid() && Works(c.w, lb) && s in c.w.spec.listeners && lb in c.w.lbs && PoolsExist(c.w.lbs[lb], pools)
    requires id in c.w.lbs[lb].listeners && seen.port == s.port
    requires var l := c.w.lbs[lb].listeners[id];
             l.port == seen.port && l.protocol == seen.protocol && l.name == seen.name
    modifies c
    ensures c.Continues() && OnlyListenersOn(old(c.w).lbs, c.w.lbs, lb, s.port)
    ensures c.w == old(c.w).(lbs := c.w.lbs, status := old(c.w).status.(listeners := c.w.status.listeners))
    ensures r.None? ==> c.Faulty() || seen.protocol != s.protocol
    ensures r.Some? ==> r.value.id == id
    ensures ListenersBooked(c.Lapsed(), old(c.w), c.w, lb)
    ensures c.w.lbs[lb].listeners.Keys == old(c.w).lbs[lb].listeners.Keys
    ensures r.Some? ==> ListenerDone(old(c.w).lbs[lb].listeners, c.w.lbs[lb].listeners, s, pools, r.value,
                                     seen == old(c.w).lbs[lb].listeners[id])
    ensures DistinctListenerIds(old(c.w).status.listeners) ==> DistinctListenerIds(c.w.status.listeners)
    ensures ListenerAgrees(s, seen, pools) ==> c.Untouched()
  {
    NothingFrame(c.w.lbs, lb, s.port);
    if seen.protocol != s.protocol {
      return None;
    }
    var ok := UpdateLiveListener(c, lb, id, s, seen, pools);
    if !ok {
      return None;
    }
    ListenerDiffCloses(s, seen, pools);
    r := Some(CreatedListener(id, seen.port, seen.name));
  }

  /** No listener on the port was in the list. */
  method DeployMissing(
    c: Cloud, cfg: Config, lb: Id, s: ListenerSpec, current: Listing<Listener>, pools: seq<CreatedPool>)
    returns (r: Option<CreatedListener>)
    requires c.Valid() && Works(c.w, lb) && s in c.w.spec.listeners && StillListed(c.w, lb, current, s)
    requires PoolsExist(c.w.lbs[lb], pools) && forall l :: l in current.at ==> current.at[l].port != s.port
    modifies c
    ensures c.Continues() && OnlyListenersOn(old(c.w).lbs, c.w.lbs, lb, s.port)
    ensures c.w == old(c.w).(lbs := c.w.lbs, status := old(c.w).status.(listeners := c.w.status.listeners))
    ensures r.None? ==> c.Faulty() || !ProtocolMatches(current.at, s)
    ensures ListenersBooked(c.Lapsed(), old(c.w), c.w, lb)
    ensures r.Some? ==> NewIsThis(old(c.w).lbs[lb].listeners, c.w.lbs[lb].listeners, r.value.id)
    ensures r.Some? ==> ListenerDone(old(c.w).lbs[lb].listeners, c.w.lbs[lb].listeners, s, pools, r.value,
                                     WellFormed(c.w.spec))
    ensures DistinctListenerIds(old(c.w).status.listeners) ==> DistinctListenerIds(c.w.status.listeners)
  {
    var ok, id, live := CreateNewListener(c, cfg, lb, s, pools);
    if !ok {
      return None;
    }
    ghost var mid, lapsed, lapses := c.w, c.Lapsed(), c.lapses;
    r := EnsureListener(c, lb, id, s, live, pools);
    OnlyListenersOnTransitive(old(c.w).lbs, mid.lbs, c.w.lbs, lb, s.port);
    ListenersBookedNext(old(c.w), mid, c.w, lb, lapsed, c.lapses > lapses);
  }

  lemma MissingIsNotQuiet(w: World, lb: Id, current: Listing<Listener>, s: ListenerSpec, pools: seq<CreatedPool>)
    requires StillListed(w, lb, current, s) && WellFormed(w.spec)
    requires forall l :: l in current.at ==> current.at[l].port != s.port
    ensures !HasQuietListener(w.lbs[lb].listeners, s, pools)
  {
  }

  /** The listener was in the list. */
  method DeployFound(
    c: Cloud, cfg: Config, lb: Id, s: ListenerSpec, current: Listing<Listener>, pools: seq<CreatedPool>, id: Id)
    returns (r: Option<CreatedListener>)
    requires c.Valid() && Works(c.w, lb) && s in c.w.spec.listeners && StillListed(c.w, lb, current, s)
    requires PoolsExist(c.w.lbs[lb], pools) && id in current.at && current.at[id].port == s.port
    modifies c
    ensures c.Continues() && OnlyListenersOn(old(c.w).lbs, c.w.lbs, lb, s.port)
    ensures c.w == old(c.w).(lbs := c.w.lbs, status := old(c.w).status.(listeners := c.w.status.listeners))
    ensures r.None? ==> c.Faulty() || !ProtocolMatches(current.at, s)
    ensures ListenersBooked(c.Lapsed(), old(c.w), c.w, lb)
    ensures r.Some? ==> NewIsThis(old(c.w).lbs[lb].listeners, c.w.lbs[lb].listeners, r.value.id)
    ensures r.Some? ==> ListenerDone(old(c.w).lbs[lb].listeners, c.w.lbs[lb].listeners, s, pools, r.value,
                                     WellFormed(c.w.spec))
    ensures DistinctListenerIds(old(c.w).status.listeners) ==> DistinctListenerIds(c.w.status.listeners)
    ensures WellFormed(c.w.spec) && UniquePorts(current.at) && HasQuietListener(old(c.w).lbs[lb].listeners, s, pools)
            ==> c.Untouched()
  {
    r := EnsureListener(c, lb, id, s, current.at[id], pools);
  }

  method DeployListener(
    c: Cloud, cfg: Config, lb: Id, s: ListenerSpec, current: Listing<Listener>, pools: seq<CreatedPool>)
    returns (r: Option<CreatedListener>)
    requires c.Valid() && Works(c.w, lb) && s in c.w.spec.listeners && StillListed(c.w, lb, current, s)
             && PoolsExist(c.w.lbs[lb], pools)
    modifies c
    ensures c.Continues() && OnlyListenersOn(old(c.w).lbs, c.w.lbs, lb, s.port)
    ensures c.w == old(c.w).(lbs := c.w.lbs, status := old(c.w).status.(listeners := c.w.status.listeners))
    ensures r.None? ==> c.Faulty() || !ProtocolMatches(current.at, s)
    ensures ListenersBooked(c.Lapsed(), old(c.w), c.w, lb)
    ensures r.Some? ==> NewIsThis(old(c.w).lbs[lb].listeners, c.w.lbs[lb].listeners, r.value.id)
    ensures r.Some? ==> ListenerDone(old(c.w).lbs[lb].listeners, c.w.lbs[lb].listeners, s, pools, r.value,
                                     WellFormed(c.w.spec))
    ensures DistinctListenerIds(old(c.w).status.listeners) ==> DistinctListenerIds(c.w.status.listeners)
    ensures WellFormed(c.w.spec) && UniquePorts(current.at) && HasQuietListener(old(c.w).lbs[lb].listeners, s, pools)
            ==> c.Untouched()
  {
    var found := First(current.ids, current.at, OnPort(s.port));
    if found.None? {
      if WellFormed(c.w.spec) {
        MissingIsNotQuiet(c.w, lb, current, s, pools);
      }
      r := DeployMissing(c, cfg, lb, s, current, pools);
    } else {
      r := DeployFound(c, cfg, lb, s, current, pools, found.value);
    }
  }
}
