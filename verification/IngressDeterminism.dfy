/** What the compiled output depends on: not on the order in which the API lists the endpoints. */
module IngressDeterminism {
  import opened GlbTypes
  import opened Sorting
  import opened Names
  import opened Policies
  import opened Positions
  import opened IngressPools
  import opened IngressCompiler
  import opened IngressOutput

  function AddressOfEndpoint(e: Endpoint): Address {
    Address(e.ip, e.port)
  }

  /** The same endpoints, no address twice, in whatever order; or an error both times. */
  predicate SameEndpoints(a: Option<seq<Endpoint>>, b: Option<seq<Endpoint>>) {
    && a.Some? == b.Some?
    && (a.Some? ==> multiset(a.value) == multiset(b.value) && DistinctKeys(a.value, AddressOfEndpoint))
  }

  /** Two readings of one cluster that may differ in the order of the endpoints. */
  ghost predicate SameButOrder(s: Setting, s': Setting) {
    && s' == s.(cluster := s.cluster.(endpoints := s'.cluster.endpoints))
    && forall service: string, port: PortRef ::
         SameEndpoints(s.cluster.endpoints(service, port), s'.cluster.endpoints(service, port))
  }

  predicate SameResolution(a: Resolution, b: Resolution) {
    match a
    case Unresolvable => b.Unresolvable?
    case Fatal => b.Fatal?
    case Resolved(port, endpoints) => b.Resolved? && b.port == port && SameEndpoints(Some(endpoints), Some(b.endpoints))
  }

  lemma ResolvesAlike(s: Setting, s': Setting, b: Backend)
    requires SameButOrder(s, s')
    ensures SameResolution(Resolve(s.cluster, b), Resolve(s'.cluster, b))
  {
    assert SameEndpoints(s.cluster.endpoints(b.service, RefOf(b)), s'.cluster.endpoints(b.service, RefOf(b)));
  }

  lemma SameFate(s: Setting, s': Setting, ing: Ingress, r: nat, k: nat)
    requires SameButOrder(s, s') && IsPath(ing, r, k)
    ensures FateOf(s, ing, r, k) == FateOf(s', ing, r, k)
  {
    ResolvesAlike(s, s', ing.rules[r].paths[k].backend);
  }

  lemma {:induction false} SameRoutesOfRule(s: Setting, s': Setting, ing: Ingress, r: nat, n: nat)
    requires SameButOrder(s, s') && r < |ing.rules| && n <= |ing.rules[r].paths|
    ensures RoutesOfRule(s, ing, r, n) == RoutesOfRule(s', ing, r, n)
  {
    if n > 0 {
      SameRoutesOfRule(s, s', ing, r, n - 1);
      SameFate(s, s', ing, r, n - 1);
    }
  }

  lemma {:induction false} SameRoutes(s: Setting, s': Setting, ing: Ingress, https: bool, m: nat)
    requires SameButOrder(s, s') && m <= |ing.rules|
    ensures Routes(s, ing, https, m) == Routes(s', ing, https, m)
  {
    if m > 0 {
      SameRoutes(s, s', ing, https, m - 1);
      SameRoutesOfRule(s, s', ing, m - 1, |ing.rules[m - 1].paths|);
    }
  }

  // ----- Pools -----

  lemma SameLeader(s: Setting, s': Setting, ing: Ingress, r: nat, k: nat)
    requires SameButOrder(s, s') && Leads(s, ing, r, k)
    ensures Leads(s', ing, r, k) && PoolNameAt(s', ing, r, k) == PoolNameAt(s, ing, r, k)
  {
    SameFate(s, s', ing, r, k);
    forall r': nat, k': nat | Redirects(s', ing, r', k') && Earlier(r', k', r, k)
      ensures PoolNameAt(s', ing, r', k') != PoolNameAt(s', ing, r, k)
    {
      SameFate(s, s', ing, r', k');
      assert Redirects(s, ing, r', k');
    }
  }

  /** Members are what they are by address and health check port, which both readings share. */
  lemma ServesAlike(s: Setting, s': Setting, members: seq<PoolMember>, endpoints: seq<Endpoint>)
    requires SameButOrder(s, s') && Serves(s'.cluster, members, endpoints)
    ensures Serves(s.cluster, members, endpoints)
  {
    var f, g := (e: Endpoint) => MemberFor(s.cluster, e), (e: Endpoint) => MemberFor(s'.cluster, e);
    assert Keys(endpoints, f) == Keys(endpoints, g);
  }

  lemma SameMembers(s: Setting, s': Setting, b: Backend, m: seq<PoolMember>, m': seq<PoolMember>)
    requires SameButOrder(s, s') && Resolve(s.cluster, b).Resolved? && Resolve(s'.cluster, b).Resolved?
    requires Serves(s.cluster, m, Resolve(s.cluster, b).endpoints)
    requires Serves(s'.cluster, m', Resolve(s'.cluster, b).endpoints)
    ensures m == m'
  {
    ResolvesAlike(s, s', b);
    var e, e' := Resolve(s.cluster, b).endpoints, Resolve(s'.cluster, b).endpoints;
    ServesAlike(s, s', m', e');
    assert DistinctKeys(e, (x: Endpoint) => Address(x.ip, x.port)) by {
      forall i, j | 0 <= i < j < |e| ensures Address(e[i].ip, e[i].port) != Address(e[j].ip, e[j].port) {
        assert AddressOfEndpoint(e[i]) != AddressOfEndpoint(e[j]);
      }
    }
    MembersHaveOneOrder(s.cluster, m, m', e, e');
  }

  lemma SamePool(s: Setting, s': Setting, ing: Ingress, out: Output, pool: L7Pool)
    requires SameButOrder(s, s') && HasOrigin(s, ing, pool) && Compiled(s', ing, out)
    ensures pool in out.pools
  {
    if IsDefaultPool(s, ing, pool) {
      var b := ing.defaultBackend.value;
      ResolvesAlike(s, s', b);
      assert HasPool(out.pools, DEFAULT_POOL_NAME);
      var i :| 0 <= i < |out.pools| && out.pools[i].name == DEFAULT_POOL_NAME;
      OriginOfDefault(s', ing, out.pools[i]);
      SameMembers(s, s', b, pool.members, out.pools[i].members);
    } else {
      var r: nat, k: nat :| Leads(s, ing, r, k) && IsPoolFor(s.cluster, pool, ing.rules[r].paths[k].backend);
      SameLeader(s, s', ing, r, k);
      var i := PoolOfRoute(s', ing, out, r, k, r, k);
      ResolvesAlike(s, s', ing.rules[r].paths[k].backend);
      SameMembers(s, s', ing.rules[r].paths[k].backend, pool.members, out.pools[i].members);
    }
  }

  lemma Backwards(s: Setting, s': Setting)
    requires SameButOrder(s, s')
    ensures SameButOrder(s', s)
  {
    forall service: string, port: PortRef
      ensures SameEndpoints(s'.cluster.endpoints(service, port), s.cluster.endpoints(service, port))
    {
      var a, b := s.cluster.endpoints(service, port), s'.cluster.endpoints(service, port);
      assert SameEndpoints(a, b);
      if a.Some? {
        RearrangedStaysDistinct(a.value, b.value, AddressOfEndpoint);
      }
    }
  }

  /** An element of a list without repetition occurs once. */
  lemma OccursOnce(pools: seq<L7Pool>, p: L7Pool)
    requires DistinctKeys(pools, NameOfPool)
    ensures multiset(pools)[p] == if p in pools then 1 else 0
  {
    if p in pools {
      var i :| 0 <= i < |pools| && pools[i] == p;
      forall k | 0 <= k < |pools| && k != i ensures pools[k] != pools[i] {
        assert NameOfPool(pools[k]) != NameOfPool(pools[i]);
      }
      OnceOnly(pools, i);
    }
  }

  lemma SameOccurrence(s: Setting, s': Setting, ing: Ingress, a: Output, b: Output, p: L7Pool)
    requires SameButOrder(s, s') && SameButOrder(s', s) && Compiled(s, ing, a) && Compiled(s', ing, b)
    ensures multiset(a.pools)[p] == multiset(b.pools)[p]
  {
    OccursOnce(a.pools, p);
    OccursOnce(b.pools, p);
    if p in a.pools {
      SamePool(s, s', ing, b, p);
    }
    if p in b.pools {
      SamePool(s', s, ing, a, p);
    }
  }

  lemma SamePools(s: Setting, s': Setting, ing: Ingress, a: Output, b: Output)
    requires SameButOrder(s, s') && Compiled(s, ing, a) && Compiled(s', ing, b)
    ensures a.pools == b.pools
  {
    Backwards(s, s');
    forall p ensures multiset(a.pools)[p] == multiset(b.pools)[p] {
      SameOccurrence(s, s', ing, a, b, p);
    }
    assert multiset(a.pools) == multiset(b.pools);
    StringOrder();
    SortedFormUnique(a.pools, b.pools, NameOfPool, StringLess);
  }

  // ----- Listeners -----

  /** The same policies, each in the same place unless another one has its priority. */
  predicate SamePolicies(a: seq<Policy>, b: seq<Policy>) {
    && Keys(a, Unplaced) == Keys(b, Unplaced) && |a| == |b|
    && forall i :: 0 <= i < |a| && Alone(a, i) ==> a[i] == b[i]
  }

  predicate SameListener(a: L7Listener, b: L7Listener) {
    a.(policies := []) == b.(policies := []) && SamePolicies(a.policies, b.policies)
  }

  /** Without their places the policies are in one order, that of their names. */
  lemma OneOrderOfPolicies(routes: seq<Policy>, a: seq<Policy>, b: seq<Policy>, reorder: bool)
    requires Arranged(routes, a, reorder) && Arranged(routes, b, reorder) && DistinctNames(a)
    ensures Keys(a, Unplaced) == Keys(b, Unplaced) && |a| == |b|
    ensures !reorder ==> a == b
  {
    var x, y := Keys(a, Unplaced), Keys(b, Unplaced);
    assert |x| == |a| && |y| == |b|;
    StringOrder();
    assert SortedBy(x, NameOfPolicy, StringLess) by {
      assert forall i :: 0 <= i < |x| ==> NameOfPolicy(x[i]) == NameOfPolicy(a[i]);
    }
    assert SortedBy(y, NameOfPolicy, StringLess) by {
      assert forall i :: 0 <= i < |y| ==> NameOfPolicy(y[i]) == NameOfPolicy(b[i]);
    }
    assert DistinctKeys(x, NameOfPolicy) by {
      forall i, j | 0 <= i < j < |x| ensures NameOfPolicy(x[i]) != NameOfPolicy(x[j]) {
        assert a[i].name != a[j].name;
      }
    }
    SortedFormUnique(x, y, NameOfPolicy, StringLess);
    if !reorder {
      assert DistinctKeys(a, NameOfPolicy);
      SortedFormUnique(a, b, NameOfPolicy, StringLess);
    }
  }

  lemma ListenersAlike(
    s: Setting, s': Setting, ing: Ingress, pools: seq<L7Pool>, a: L7Listener, b: L7Listener, https: bool)
    requires SameButOrder(s, s') && |s.cluster.hash| == 5 && IndicesFit(ing)
    requires ListenerFits(s, ing, pools, a, https) && ListenerFits(s', ing, pools, b, https)
    ensures SameListener(a, b) && (!s.reorder ==> a == b)
  {
    if ing.defaultBackend.Some? {
      ResolvesAlike(s, s', ing.defaultBackend.value);
    }
    SameRoutes(s, s', ing, https, |ing.rules|);
    PoliciesAreWellPlaced(s, ing, pools, a, https);
    PoliciesAreWellPlaced(s', ing, pools, b, https);
    OneOrderOfPolicies(Routes(s, ing, https, |ing.rules|), a.policies, b.policies, s.reorder);
    if s.reorder {
      forall i | 0 <= i < |a.policies| && Alone(a.policies, i) ensures a.policies[i] == b.policies[i] {
        SamePlace(a.policies, b.policies, i);
      }
    }
  }

  /**
   Two compilations of one Ingress whose endpoints were listed in different orders: the pools are
   equal, and without reordering so is everything. With it, listeners can differ only in the places
   of policies that share their priority with another one.
   */
  lemma OutputIsDetermined(s: Setting, s': Setting, ing: Ingress, a: Output, b: Output)
    requires SameButOrder(s, s') && |s.cluster.hash| == 5 && IndicesFit(ing)
    requires Compiled(s, ing, a) && Compiled(s', ing, b)
    ensures a.pools == b.pools && |a.listeners| == |b.listeners|
    ensures !s.reorder ==> a == b
    ensures forall i :: 0 <= i < |a.listeners| ==> SameListener(a.listeners[i], b.listeners[i])
  {
    SamePools(s, s', ing, a, b);
    forall i | 0 <= i < |a.listeners|
      ensures |a.listeners| == |b.listeners| && SameListener(a.listeners[i], b.listeners[i])
      ensures !s.reorder ==> a.listeners[i] == b.listeners[i]
    {
      ListenersAlike(s, s', ing, a.pools, a.listeners[i], b.listeners[i], i == 1 || !NeedsHttp(ing));
    }
    assert !s.reorder ==> a.listeners == b.listeners;
  }

  /** And one is accepted exactly when the other is. */
  lemma AcceptanceIsDetermined(s: Setting, s': Setting, ing: Ingress)
    requires SameButOrder(s, s')
    ensures Accepted(s, ing) <==> Accepted(s', ing)
  {
    if ing.defaultBackend.Some? {
      ResolvesAlike(s, s', ing.defaultBackend.value);
    }
    forall r: nat | r < |ing.rules|
      ensures RuleIntact(s, ing, r, |ing.rules[r].paths|) <==> RuleIntact(s', ing, r, |ing.rules[r].paths|)
    {
      forall k: nat | k < |ing.rules[r].paths| ensures FateOf(s, ing, r, k) == FateOf(s', ing, r, k) {
        SameFate(s, s', ing, r, k);
      }
    }
  }
}
