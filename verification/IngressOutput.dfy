/** The finished output of the Ingress compiler, and what it keeps of the Ingress. */
module IngressOutput {
  import opened GlbTypes
  import opened Sorting
  import opened Names
  import opened Annotations
  import opened Policies
  import opened Positions
  import opened IngressPools
  import opened IngressCompiler

  // ----- Arranging -----

  function NameOfPolicy(p: Policy): string {
    p.name
  }

  predicate PolicyBefore(a: Policy, b: Policy) {
    StringLess(a.name, b.name)
  }

  predicate PoolBefore(a: L7Pool, b: L7Pool) {
    StringLess(a.name, b.name)
  }

  function NameOfListener(l: L7Listener): string {
    l.name
  }

  predicate ListenerBefore(a: L7Listener, b: L7Listener) {
    StringLess(a.name, b.name)
  }

  lemma NameOrders()
    ensures TotalOrder(StringLess) && WeakOrder(PolicyBefore) && WeakOrder(PoolBefore) && WeakOrder(ListenerBefore)
  {
    StringOrder();
  }

  /** The same policies in name order: as they were, or with positions if these are asked for. */
  ghost predicate Arranged(policies: seq<Policy>, r: seq<Policy>, reorder: bool) {
    && multiset(Keys(r, Unplaced)) == multiset(Keys(policies, Unplaced))
    && SortedBy(r, NameOfPolicy, StringLess)
    && (!reorder ==> multiset(r) == multiset(policies))
    && (reorder && DistinctNames(policies) ==> WellPlaced(r))
  }

  method ArrangePolicies(policies: seq<Policy>, reorder: bool) returns (r: seq<Policy>)
    ensures Arranged(policies, r, reorder)
  {
    var placed := policies;
    if reorder {
      placed := AddPositions(policies);
      assert Keys(placed, Unplaced) == Keys(policies, Unplaced);
    }
    NameOrders();
    r := SortSlice(placed, PolicyBefore);
    KeysRearranged(r, placed, Unplaced);
    if reorder && DistinctNames(policies) {
      RearrangedStaysPlaced(placed, r);
    }
  }

  lemma ReferRearranged(a: seq<Policy>, b: seq<Policy>, pools: seq<L7Pool>)
    requires Refer(a, pools) && multiset(Keys(a, Unplaced)) == multiset(Keys(b, Unplaced))
    ensures Refer(b, pools)
  {
    forall j | 0 <= j < |b| && b[j].poolName.Some? ensures HasPool(pools, b[j].poolName.value) {
      assert Keys(b, Unplaced)[j] in multiset(Keys(a, Unplaced));
      var i :| 0 <= i < |a| && Keys(a, Unplaced)[i] == Keys(b, Unplaced)[j];
      assert a[i].poolName == b[j].poolName;
    }
  }

  /** At most two listeners that are in name order stay as they are. */
  lemma SortedAlready(a: seq<L7Listener>, sorted: seq<L7Listener>)
    requires multiset(a) == multiset(sorted) && InOrder(sorted, ListenerBefore)
    requires |a| <= 2 && (|a| == 2 ==> StringLess(a[0].name, a[1].name))
    ensures sorted == a
  {
    if |a| == 2 {
      StringLessTotal(a[0].name, a[1].name);
    }
    assert SortedBy(a, NameOfListener, StringLess) && DistinctKeys(a, NameOfListener);
    assert SortedBy(sorted, NameOfListener, StringLess) by {
      forall i, j | 0 <= i < j < |sorted| ensures !StringLess(sorted[j].name, sorted[i].name) {
        assert !ListenerBefore(sorted[j], sorted[i]);
      }
    }
    StringOrder();
    SortedFormUnique(a, sorted, NameOfListener, StringLess);
  }

  lemma HttpBeforeHttps()
    ensures StringLess(HTTP_LISTENER, HTTPS_LISTENER)
  {
    LessAtDifference(HTTP_LISTENER, HTTPS_LISTENER, 8);
  }

  lemma {:induction false} LessAtDifference(a: string, b: string, n: nat)
    requires n < |a| && n < |b| && a[..n] == b[..n] && a[n] < b[n]
    ensures StringLess(a, b)
  {
    if n > 0 {
      assert a[0] == a[..n][0] == b[0];
      assert a[1..][..n - 1] == a[..n][1..] && b[1..][..n - 1] == b[..n][1..];
      LessAtDifference(a[1..], b[1..], n - 1);
    }
  }

  // ----- The output -----

  ghost predicate Accepted(s: Setting, ing: Ingress) {
    && (ing.defaultBackend.Some? ==> !Resolve(s.cluster, ing.defaultBackend.value).Fatal?)
    && (NeedsHttp(ing) || NeedsHttps(ing) ==> Acceptable(s.acl, s.isCidr))
    && Certified(s, ing)
    && Intact(s, ing)
  }

  function DefaultPoolOf(s: Setting, ing: Ingress): Option<string> {
    if HasDefault(s, ing) then Some(DEFAULT_POOL_NAME) else None
  }

  ghost predicate ListenerFits(s: Setting, ing: Ingress, pools: seq<L7Pool>, l: L7Listener, https: bool) {
    && l.(policies := []) == EmptyListener(s, https, DefaultPoolOf(s, ing))
    && Arranged(Routes(s, ing, https, |ing.rules|), l.policies, s.reorder)
    && Refer(l.policies, pools)
  }

  /** Where the listener of a kind is in the output. */
  function Place(ing: Ingress, https: bool): nat {
    if https && NeedsHttp(ing) then 1 else 0
  }

  ghost predicate Compiled(s: Setting, ing: Ingress, out: Output) {
    && PoolsFit(s, ing, out.pools)
    && SortedBy(out.pools, NameOfPool, StringLess)
    && (HasPool(out.pools, DEFAULT_POOL_NAME) <==> HasDefault(s, ing))
    && |out.listeners| == (if NeedsHttp(ing) then 1 else 0) + (if NeedsHttps(ing) then 1 else 0)
    && (NeedsHttp(ing) ==> ListenerFits(s, ing, out.pools, out.listeners[Place(ing, false)], false))
    && (NeedsHttps(ing) ==> ListenerFits(s, ing, out.pools, out.listeners[Place(ing, true)], true))
    && (!NeedsHttp(ing) ==> Routes(s, ing, false, |ing.rules|) == [])
    && (!NeedsHttps(ing) ==> Routes(s, ing, true, |ing.rules|) == [])
  }

  method SortPools(s: Setting, ing: Ingress, pools: seq<L7Pool>) returns (r: seq<L7Pool>)
    requires PoolsFit(s, ing, pools)
    ensures PoolsFit(s, ing, r) && Covers(pools, r) && SortedBy(r, NameOfPool, StringLess)
  {
    NameOrders();
    r := SortSlice(pools, PoolBefore);
    RearrangedStaysDistinct(pools, r, NameOfPool);
    forall i | 0 <= i < |r| ensures HasOrigin(s, ing, r[i]) {
      assert r[i] in multiset(pools);
    }
    forall name | HasPool(pools, name) ensures HasPool(r, name) {
      var i :| 0 <= i < |pools| && pools[i].name == name;
      assert pools[i] in multiset(r);
    }
  }

  method FinishListener(s: Setting, ing: Ingress, pools: seq<L7Pool>, filled: Option<L7Listener>, https: bool)
    returns (r: seq<L7Listener>)
    requires Filled(Wanted(s, ing, https), filled, Routes(s, ing, https, |ing.rules|))
             && Refer(PoliciesOf(filled), pools)
    ensures |r| == (if Wanted(s, ing, https).Some? then 1 else 0)
    ensures r != [] ==> ListenerFits(s, ing, pools, r[0], https)
  {
    if filled.None? {
      return [];
    }
    var policies := ArrangePolicies(filled.value.policies, s.reorder);
    ReferRearranged(filled.value.policies, policies, pools);
    r := [filled.value.(policies := policies)];
  }

  lemma DefaultPoolIsThere(s: Setting, ing: Ingress, pools: seq<L7Pool>)
    requires PoolsFit(s, ing, pools) && (HasDefault(s, ing) ==> HasPool(pools, DEFAULT_POOL_NAME))
    ensures HasPool(pools, DEFAULT_POOL_NAME) <==> HasDefault(s, ing)
  {
    if HasPool(pools, DEFAULT_POOL_NAME) {
      var i :| 0 <= i < |pools| && pools[i].name == DEFAULT_POOL_NAME;
      OriginOfDefault(s, ing, pools[i]);
    }
  }

  /** A generated name is never the default pool's, so a pool of that name is the default backend's. */
  lemma OriginOfDefault(s: Setting, ing: Ingress, pool: L7Pool)
    requires HasOrigin(s, ing, pool)
    ensures pool.name == DEFAULT_POOL_NAME <==> IsDefaultPool(s, ing, pool)
  {
    if !IsDefaultPool(s, ing, pool) {
      var r: nat, k: nat :| Leads(s, ing, r, k) && IsPoolFor(s.cluster, pool, ing.rules[r].paths[k].backend);
      var b := ing.rules[r].paths[k].backend;
      DefaultPoolNameIsApart(s.cluster.hash, s.cluster.namespace, b.service, Resolve(s.cluster, b).port.number);
    }
  }

  function Wanted(s: Setting, ing: Ingress, https: bool): Option<L7Listener> {
    if (if https then NeedsHttps(ing) else NeedsHttp(ing)) then Some(EmptyListener(s, https, DefaultPoolOf(s, ing))) else None
  }

  /** The listeners before any policy, or nothing if the access list or the certificates are refused. */
  method BuildListeners(s: Setting, ing: Ingress, defaultPool: Option<string>)
    returns (ok: bool, http: Option<L7Listener>, https: Option<L7Listener>)
    requires defaultPool == DefaultPoolOf(s, ing)
    ensures ok <==> Certified(s, ing) && (NeedsHttp(ing) || NeedsHttps(ing) ==> Acceptable(s.acl, s.isCidr))
    ensures ok ==> http == Wanted(s, ing, false) && https == Wanted(s, ing, true)
  {
    http, https := None, None;
    var needHttp := CheckNeedHTTPListener(ing);
    if needHttp {
      http := BuildListener(s, false, defaultPool);
      if http.None? {
        return false, None, None;
      }
    }
    var needHttps, certified := IsValidToBuildHTTPSListener(s, ing);
    if !certified {
      return false, None, None;
    }
    if needHttps {
      https := BuildListener(s, true, defaultPool);
      if https.None? {
        return false, None, None;
      }
    }
    ok := true;
  }

  /** Sorts everything by name and adds positions if asked to. */
  method Finish(s: Setting, ing: Ingress, pools: seq<L7Pool>, http: Option<L7Listener>, https: Option<L7Listener>)
    returns (out: Output)
    requires PoolsFit(s, ing, pools) && (HasDefault(s, ing) ==> HasPool(pools, DEFAULT_POOL_NAME))
    requires Filled(Wanted(s, ing, false), http, Routes(s, ing, false, |ing.rules|)) && Refer(PoliciesOf(http), pools)
    requires Filled(Wanted(s, ing, true), https, Routes(s, ing, true, |ing.rules|)) && Refer(PoliciesOf(https), pools)
    ensures Compiled(s, ing, out)
  {
    var sorted := SortPools(s, ing, pools);
    DefaultPoolIsThere(s, ing, sorted);
    ReferStill(PoliciesOf(http), pools, sorted);
    ReferStill(PoliciesOf(https), pools, sorted);
    var first := FinishListener(s, ing, sorted, http, false);
    var second := FinishListener(s, ing, sorted, https, true);
    var listeners := SortListeners(s, ing, sorted, first, second);
    out := Output(sorted, listeners);
  }

  method SortListeners(
    ghost s: Setting, ghost ing: Ingress, ghost pools: seq<L7Pool>, first: seq<L7Listener>, second: seq<L7Listener>)
    returns (r: seq<L7Listener>)
    requires |first| <= 1 && (|first| == 1 ==> ListenerFits(s, ing, pools, first[0], false))
    requires |second| <= 1 && (|second| == 1 ==> ListenerFits(s, ing, pools, second[0], true))
    ensures r == first + second
  {
    NameOrders();
    r := SortSlice(first + second, ListenerBefore);
    HttpBeforeHttps();
    SortedAlready(first + second, r);
  }

  method BuildPoolsAndListeners(s: Setting, ing: Ingress) returns (r: Option<Output>)
    ensures r.Some? <==> Accepted(s, ing)
    ensures r.Some? ==> Compiled(s, ing, r.value)
  {
    var ok, pools := BuildDefaultPool(s, ing);
    if !ok {
      return None;
    }
    var defaultPool := if pools != [] then Some(DEFAULT_POOL_NAME) else None;
    var listening, http, https := BuildListeners(s, ing, defaultPool);
    if !listening {
      return None;
    }
    var done, d := CompileRules(s, ing, Draft(pools, http, https));
    if !done {
      return None;
    }
    var out := Finish(s, ing, d.pools, d.http, d.https);
    r := Some(out);
  }

  // ----- Where the listeners are -----

  /** Some TLS entry lists the host. */
  predicate IsTlsHost(ing: Ingress, host: string) {
    exists t :: 0 <= t < |ing.tls| && host in ing.tls[t].hosts
  }

  lemma TlsHostsAre(ing: Ingress, host: string)
    ensures host in TlsHosts(ing.tls) <==> IsTlsHost(ing, host)
  {
    if t :| 0 <= t < |ing.tls| && host in ing.tls[t].hosts {
      assert ing.tls[t] in ing.tls;
    }
    if host in TlsHosts(ing.tls) {
      var entry :| entry in ing.tls && host in entry.hosts;
      var t :| 0 <= t < |ing.tls| && ing.tls[t] == entry;
    }
  }

  /** The listener is the plain one on port 80 or the encrypted one on port 443. */
  predicate StandsOn(l: L7Listener, port: int) {
    l.port == port && ((port == 80 && l.name == "vks_http_listener") || (port == 443 && l.name == "vks_https_listener"))
  }

  /** Its default pool is that of the default backend, if this one resolves, and its access list that of the annotations. */
  predicate FurnishedAs(s: Setting, ing: Ingress, l: L7Listener) {
    && l.acl == AclOf(s.acl)
    && l.defaultPool == if ing.defaultBackend.Some? && Resolve(s.cluster, ing.defaultBackend.value).Resolved?
                        then Some("vks_default_pool") else None
  }

  lemma ListenerStands(s: Setting, ing: Ingress, pools: seq<L7Pool>, l: L7Listener, https: bool)
    requires ListenerFits(s, ing, pools, l, https)
    ensures StandsOn(l, if https then 443 else 80) && FurnishedAs(s, ing, l)
  {
    assert l.(policies := []).port == l.port && l.(policies := []).name == l.name;
  }

  lemma NeedsAre(ing: Ingress)
    ensures NeedsHttps(ing) <==> ing.tls != []
    ensures NeedsHttp(ing) <==>
            || ing.defaultBackend.Some?
            || exists r :: 0 <= r < |ing.rules| && (ing.rules[r].host == "" || !IsTlsHost(ing, ing.rules[r].host))
  {
    forall r | 0 <= r < |ing.rules| ensures ing.rules[r].host in TlsHosts(ing.tls) <==> IsTlsHost(ing, ing.rules[r].host) {
      TlsHostsAre(ing, ing.rules[r].host);
    }
  }

  /**
   There is a listener on port 443 exactly when the Ingress has TLS entries, and one on port 80 exactly
   when it has a default backend or a rule for a host that is empty or has no TLS. There is no other.
   */
  lemma ListenersStandWhere(s: Setting, ing: Ingress, out: Output)
    requires Compiled(s, ing, out)
    ensures (exists i :: 0 <= i < |out.listeners| && StandsOn(out.listeners[i], 443)) <==> ing.tls != []
    ensures (exists i :: 0 <= i < |out.listeners| && StandsOn(out.listeners[i], 80)) <==>
            || ing.defaultBackend.Some?
            || exists r :: 0 <= r < |ing.rules| && (ing.rules[r].host == "" || !IsTlsHost(ing, ing.rules[r].host))
    ensures forall i :: 0 <= i < |out.listeners| ==>
              FurnishedAs(s, ing, out.listeners[i])
              && (StandsOn(out.listeners[i], 80) || StandsOn(out.listeners[i], 443))
    ensures forall i, j :: 0 <= i < j < |out.listeners| ==> out.listeners[i].port != out.listeners[j].port
  {
    NeedsAre(ing);
    forall i | 0 <= i < |out.listeners|
      ensures FurnishedAs(s, ing, out.listeners[i])
      ensures StandsOn(out.listeners[i], if i == 1 || !NeedsHttp(ing) then 443 else 80)
    {
      ListenerStands(s, ing, out.pools, out.listeners[i], i == 1 || !NeedsHttp(ing));
    }
    if NeedsHttps(ing) {
      assert StandsOn(out.listeners[Place(ing, true)], 443);
    }
    if NeedsHttp(ing) {
      assert StandsOn(out.listeners[0], 80);
    }
  }

  /** Every kept path of a TLS host is on the listener of port 443, and every other one on that of port 80. */
  lemma PathsStandWhere(s: Setting, ing: Ingress, out: Output, r: nat, k: nat)
    requires Compiled(s, ing, out) && IsPath(ing, r, k) && FateOf(s, ing, r, k).Kept?
    ensures exists i :: 0 <= i < |out.listeners|
                     && StandsOn(out.listeners[i], if IsTlsHost(ing, ing.rules[r].host) then 443 else 80)
                     && Holds(out.listeners[i], FateOf(s, ing, r, k).policy)
  {
    var https := UsesTls(ing, r);
    TlsHostsAre(ing, ing.rules[r].host);
    ListenerIsThere(ing, https, r);
    var i := Place(ing, https);
    ListenerStands(s, ing, out.pools, out.listeners[i], https);
    assert Makes(s, ing, https, r, k, FateOf(s, ing, r, k).policy);
    HoldsExactly(s, ing, out.pools, out.listeners[i], https, FateOf(s, ing, r, k).policy);
  }

  /** And a policy on either comes from such a path. */
  lemma PoliciesComeFrom(s: Setting, ing: Ingress, out: Output, i: nat, n: nat)
    requires Compiled(s, ing, out) && i < |out.listeners| && n < |out.listeners[i].policies|
    ensures exists r: nat, k: nat ::
              && IsPath(ing, r, k) && FateOf(s, ing, r, k) == Kept(Unplaced(out.listeners[i].policies[n]))
              && out.listeners[i].port == if IsTlsHost(ing, ing.rules[r].host) then 443 else 80
  {
    var https := i == 1 || !NeedsHttp(ing);
    ListenerStands(s, ing, out.pools, out.listeners[i], https);
    ListenerConserves(s, ing, out.pools, out.listeners[i], https);
    assert IsMade(s, ing, https, Unplaced(out.listeners[i].policies[n]));
    var r: nat, k: nat :| Makes(s, ing, https, r, k, Unplaced(out.listeners[i].policies[n]));
    TlsHostsAre(ing, ing.rules[r].host);
  }

  // ----- Conservation of routes -----

  /** A kept path of a rule on this listener is compiled to this policy. */
  predicate Makes(s: Setting, ing: Ingress, https: bool, r: nat, k: nat, p: Policy) {
    IsPath(ing, r, k) && UsesTls(ing, r) == https && FateOf(s, ing, r, k) == Kept(p)
  }

  ghost predicate RuleMakes(s: Setting, ing: Ingress, r: nat, n: nat, p: Policy) {
    exists k: nat :: k < n && r < |ing.rules| && Makes(s, ing, UsesTls(ing, r), r, k, p)
  }

  ghost predicate RulesMake(s: Setting, ing: Ingress, https: bool, m: nat, p: Policy) {
    exists r: nat, k: nat :: r < m && Makes(s, ing, https, r, k, p)
  }

  lemma RuleMakesMore(s: Setting, ing: Ingress, r: nat, n: nat, p: Policy)
    requires r < |ing.rules| && n < |ing.rules[r].paths|
    ensures RuleMakes(s, ing, r, n + 1, p) <==> RuleMakes(s, ing, r, n, p) || Makes(s, ing, UsesTls(ing, r), r, n, p)
  {
  }

  lemma RulesMakeMore(s: Setting, ing: Ingress, https: bool, m: nat, p: Policy)
    requires m < |ing.rules|
    ensures RulesMake(s, ing, https, m + 1, p) <==>
            RulesMake(s, ing, https, m, p) || (UsesTls(ing, m) == https && RuleMakes(s, ing, m, |ing.rules[m].paths|, p))
  {
    if r: nat, k: nat :| r < m + 1 && Makes(s, ing, https, r, k, p) {
      if r == m {
        assert k < |ing.rules[m].paths|;
      }
    }
  }

  lemma {:induction false} RouteOfRule(s: Setting, ing: Ingress, r: nat, n: nat, p: Policy)
    requires r < |ing.rules| && n <= |ing.rules[r].paths|
    ensures p in RoutesOfRule(s, ing, r, n) <==> RuleMakes(s, ing, r, n, p)
  {
    if n > 0 {
      RouteOfRule(s, ing, r, n - 1, p);
      RuleMakesMore(s, ing, r, n - 1, p);
    }
  }

  /** The policies of a listener are those of the kept paths of its rules, and of nothing else. */
  lemma {:induction false} RoutesExactly(s: Setting, ing: Ingress, https: bool, m: nat, p: Policy)
    requires m <= |ing.rules|
    ensures p in Routes(s, ing, https, m) <==> RulesMake(s, ing, https, m, p)
  {
    if m > 0 {
      RoutesExactly(s, ing, https, m - 1, p);
      RouteOfRule(s, ing, m - 1, |ing.rules[m - 1].paths|, p);
      RulesMakeMore(s, ing, https, m - 1, p);
    }
  }

  ghost predicate IndicesFit(ing: Ingress) {
    forall r, k :: IsPath(ing, r, k) ==> IndexFits(r, k)
  }

  lemma SamePath(s: Setting, ing: Ingress, h1: bool, r1: nat, k1: nat, p1: Policy, h2: bool, r2: nat, k2: nat, p2: Policy)
    requires |s.cluster.hash| == 5 && IndicesFit(ing)
    requires Makes(s, ing, h1, r1, k1, p1) && Makes(s, ing, h2, r2, k2, p2) && p1.name == p2.name
    ensures r1 == r2 && k1 == k2 && h1 == h2
  {
    PolicyNamesDiffer(s.cluster.hash, h1, r1, k1, h2, r2, k2);
  }

  lemma {:induction false} RuleNamesDistinct(s: Setting, ing: Ingress, r: nat, n: nat)
    requires |s.cluster.hash| == 5 && IndicesFit(ing) && r < |ing.rules| && n <= |ing.rules[r].paths|
    ensures DistinctNames(RoutesOfRule(s, ing, r, n))
  {
    if n > 0 {
      RuleNamesDistinct(s, ing, r, n - 1);
      var before, fate := RoutesOfRule(s, ing, r, n - 1), FateOf(s, ing, r, n - 1);
      if fate.Kept? {
        forall i | 0 <= i < |before| ensures before[i].name != fate.policy.name {
          RouteOfRule(s, ing, r, n - 1, before[i]);
          var k: nat :| k < n - 1 && Makes(s, ing, UsesTls(ing, r), r, k, before[i]);
          if before[i].name == fate.policy.name {
            SamePath(s, ing, UsesTls(ing, r), r, k, before[i], UsesTls(ing, r), r, n - 1, fate.policy);
          }
        }
      }
    }
  }

  lemma {:induction false} NamesDistinct(s: Setting, ing: Ingress, https: bool, m: nat)
    requires |s.cluster.hash| == 5 && IndicesFit(ing) && m <= |ing.rules|
    ensures DistinctNames(Routes(s, ing, https, m))
  {
    if m > 0 {
      NamesDistinct(s, ing, https, m - 1);
      if UsesTls(ing, m - 1) == https {
        var n := |ing.rules[m - 1].paths|;
        RuleNamesDistinct(s, ing, m - 1, n);
        var before, new_ := Routes(s, ing, https, m - 1), RoutesOfRule(s, ing, m - 1, n);
        forall i, j | 0 <= i < |before| && 0 <= j < |new_| ensures before[i].name != new_[j].name {
          RoutesExactly(s, ing, https, m - 1, before[i]);
          var r: nat, k: nat :| r < m - 1 && Makes(s, ing, https, r, k, before[i]);
          RouteOfRule(s, ing, m - 1, n, new_[j]);
          var k': nat :| k' < n && Makes(s, ing, https, m - 1, k', new_[j]);
          if before[i].name == new_[j].name {
            SamePath(s, ing, https, r, k, before[i], https, m - 1, k', new_[j]);
          }
        }
      }
    }
  }

  ghost predicate IsMade(s: Setting, ing: Ingress, https: bool, p: Policy) {
    exists r: nat, k: nat :: Makes(s, ing, https, r, k, p)
  }

  /** The policy of a path on a listener, whatever its position. */
  predicate Holds(l: L7Listener, p: Policy) {
    exists i :: 0 <= i < |l.policies| && Unplaced(l.policies[i]) == p
  }

  lemma HoldsExactly(s: Setting, ing: Ingress, pools: seq<L7Pool>, l: L7Listener, https: bool, p: Policy)
    requires ListenerFits(s, ing, pools, l, https)
    ensures Holds(l, p) <==> IsMade(s, ing, https, p)
  {
    var routes := Routes(s, ing, https, |ing.rules|);
    UnplacedRoutes(s, ing, https);
    assert multiset(Keys(l.policies, Unplaced)) == multiset(routes);
    RoutesExactly(s, ing, https, |ing.rules|, p);
    if Holds(l, p) {
      var i :| 0 <= i < |l.policies| && Unplaced(l.policies[i]) == p;
      assert Keys(l.policies, Unplaced)[i] in multiset(routes);
    }
    if p in routes {
      assert p in multiset(Keys(l.policies, Unplaced));
      var i :| 0 <= i < |l.policies| && Keys(l.policies, Unplaced)[i] == p;
    }
    if r: nat, k: nat :| Makes(s, ing, https, r, k, p) {
      assert r < |ing.rules|;
    }
  }

  lemma UnplacedRoutes(s: Setting, ing: Ingress, https: bool)
    ensures Keys(Routes(s, ing, https, |ing.rules|), Unplaced) == Routes(s, ing, https, |ing.rules|)
  {
    var routes := Routes(s, ing, https, |ing.rules|);
    forall i | 0 <= i < |routes| ensures Unplaced(routes[i]) == routes[i] {
      RoutesExactly(s, ing, https, |ing.rules|, routes[i]);
      var r: nat, k: nat :| r < |ing.rules| && Makes(s, ing, https, r, k, routes[i]);
    }
  }

  /** Policy names on a listener are distinct; positions, if asked for, are a permutation, higher priorities first. */
  lemma PoliciesAreWellPlaced(s: Setting, ing: Ingress, pools: seq<L7Pool>, l: L7Listener, https: bool)
    requires |s.cluster.hash| == 5 && IndicesFit(ing) && ListenerFits(s, ing, pools, l, https)
    ensures DistinctNames(l.policies)
    ensures s.reorder ==> WellPlaced(l.policies)
  {
    var routes := Routes(s, ing, https, |ing.rules|);
    NamesDistinct(s, ing, https, |ing.rules|);
    UnplacedRoutes(s, ing, https);
    RearrangedStaysDistinct(routes, Keys(l.policies, Unplaced), NameOfPolicy);
    forall i, j | 0 <= i < j < |l.policies| ensures l.policies[i].name != l.policies[j].name {
      assert NameOfPolicy(Keys(l.policies, Unplaced)[i]) != NameOfPolicy(Keys(l.policies, Unplaced)[j]);
    }
  }

  ghost predicate HoldsOnly(s: Setting, ing: Ingress, l: L7Listener, https: bool) {
    forall i :: 0 <= i < |l.policies| ==> IsMade(s, ing, https, Unplaced(l.policies[i]))
  }

  /**
   The policies of the two listeners and the paths that were not left out correspond one to one:
   each kept path has its policy on the listener of its host, each policy comes from such a path,
   and no two policies of a listener share the name that tells their paths apart.
   */
  lemma RoutesAreConserved(s: Setting, ing: Ingress, out: Output)
    requires Compiled(s, ing, out) && |s.cluster.hash| == 5 && IndicesFit(ing)
    ensures forall https: bool, r: nat, k: nat, p :: Makes(s, ing, https, r, k, p) ==>
              Place(ing, https) < |out.listeners| && Holds(out.listeners[Place(ing, https)], p)
    ensures NeedsHttp(ing) ==> HoldsOnly(s, ing, out.listeners[0], false) && DistinctNames(out.listeners[0].policies)
    ensures NeedsHttps(ing) ==>
              var l := out.listeners[Place(ing, true)]; HoldsOnly(s, ing, l, true) && DistinctNames(l.policies)
  {
    forall https: bool, r: nat, k: nat, p | Makes(s, ing, https, r, k, p)
      ensures Place(ing, https) < |out.listeners| && Holds(out.listeners[Place(ing, https)], p)
    {
      ListenerIsThere(ing, https, r);
      HoldsExactly(s, ing, out.pools, out.listeners[Place(ing, https)], https, p);
    }
    if NeedsHttp(ing) {
      ListenerConserves(s, ing, out.pools, out.listeners[0], false);
      PoliciesAreWellPlaced(s, ing, out.pools, out.listeners[0], false);
    }
    if NeedsHttps(ing) {
      ListenerConserves(s, ing, out.pools, out.listeners[Place(ing, true)], true);
      PoliciesAreWellPlaced(s, ing, out.pools, out.listeners[Place(ing, true)], true);
    }
  }

  lemma ListenerIsThere(ing: Ingress, https: bool, r: nat)
    requires r < |ing.rules| && UsesTls(ing, r) == https
    ensures if https then NeedsHttps(ing) else NeedsHttp(ing)
  {
  }

  lemma ListenerConserves(s: Setting, ing: Ingress, pools: seq<L7Pool>, l: L7Listener, https: bool)
    requires ListenerFits(s, ing, pools, l, https)
    ensures HoldsOnly(s, ing, l, https)
  {
    forall i | 0 <= i < |l.policies| ensures IsMade(s, ing, https, Unplaced(l.policies[i])) {
      assert Holds(l, Unplaced(l.policies[i]));
      HoldsExactly(s, ing, pools, l, https, Unplaced(l.policies[i]));
    }
  }

  // ----- Whose pool a route reaches -----

  /** The pool serves this backend's Service and port: it was built for a backend that asks for just these. */
  ghost predicate ServesBackend(s: Setting, ing: Ingress, pool: L7Pool, b: Backend) {
    Resolve(s.cluster, b).Resolved? &&
    exists r: nat, k: nat ::
      && Redirects(s, ing, r, k)
      && IsPoolFor(s.cluster, pool, ing.rules[r].paths[k].backend)
      && ing.rules[r].paths[k].backend.service == b.service
      && Resolve(s.cluster, ing.rules[r].paths[k].backend).port.number == Resolve(s.cluster, b).port.number
  }

  /** A Service with a valid name and valid ports. */
  predicate Proper(s: Setting, ing: Ingress, r: nat, k: nat)
    requires Redirects(s, ing, r, k)
  {
    var b := ing.rules[r].paths[k].backend;
    AllAllowed(b.service) && IsPort(Resolve(s.cluster, b).port.number)
  }

  ghost predicate AllProper(s: Setting, ing: Ingress) {
    forall r: nat, k: nat :: Redirects(s, ing, r, k) ==> Proper(s, ing, r, k)
  }

  /** A short enough Service is reached by its routes: the pool they name serves that Service and that port. */
  lemma RoutesReachTheirService(s: Setting, ing: Ingress, out: Output, r: nat, k: nat)
    requires Compiled(s, ing, out) && |s.cluster.hash| == 5 && AllProper(s, ing)
    requires Redirects(s, ing, r, k) && Fits(s.cluster.namespace, ing.rules[r].paths[k].backend.service)
    ensures exists i ::
              && 0 <= i < |out.pools|
              && Some(out.pools[i].name) == FateOf(s, ing, r, k).policy.poolName
              && ServesBackend(s, ing, out.pools[i], ing.rules[r].paths[k].backend)
  {
    var f, j := LeaderOf(s, ing, r, k);
    var i := PoolOfRoute(s, ing, out, r, k, f, j);
    PoolOfFittingName(s, ing, out.pools[i], r, k);
  }

  lemma PoolOfFittingName(s: Setting, ing: Ingress, pool: L7Pool, r: nat, k: nat)
    requires |s.cluster.hash| == 5 && AllProper(s, ing) && HasOrigin(s, ing, pool)
    requires Redirects(s, ing, r, k) && Fits(s.cluster.namespace, ing.rules[r].paths[k].backend.service)
    requires Some(pool.name) == FateOf(s, ing, r, k).policy.poolName
    ensures ServesBackend(s, ing, pool, ing.rules[r].paths[k].backend)
  {
    var b := ing.rules[r].paths[k].backend;
    var port := Resolve(s.cluster, b).port.number;
    DefaultPoolNameIsApart(s.cluster.hash, s.cluster.namespace, b.service, port);
    OriginOfDefault(s, ing, pool);
    var r': nat, k': nat :| Leads(s, ing, r', k') && IsPoolFor(s.cluster, pool, ing.rules[r'].paths[k'].backend);
    var b' := ing.rules[r'].paths[k'].backend;
    assert Proper(s, ing, r, k) && Proper(s, ing, r', k');
    FittingNameIsUnique(s.cluster.hash, s.cluster.namespace, b.service, port, b'.service, Resolve(s.cluster, b').port.number);
  }

  /** The first path that redirects to the pool this path names. */
  lemma {:induction false} LeaderOf(s: Setting, ing: Ingress, r: nat, k: nat) returns (f: nat, j: nat)
    requires Redirects(s, ing, r, k)
    ensures Leads(s, ing, f, j) && PoolNameAt(s, ing, f, j) == PoolNameAt(s, ing, r, k)
    decreases r, k
  {
    if Leads(s, ing, r, k) {
      f, j := r, k;
    } else {
      var r': nat, k': nat :| Redirects(s, ing, r', k') && Earlier(r', k', r, k)
                           && PoolNameAt(s, ing, r', k') == PoolNameAt(s, ing, r, k);
      f, j := LeaderOf(s, ing, r', k');
    }
  }

  lemma OneLeader(s: Setting, ing: Ingress, r1: nat, k1: nat, r2: nat, k2: nat)
    requires Leads(s, ing, r1, k1) && Leads(s, ing, r2, k2) && PoolNameAt(s, ing, r1, k1) == PoolNameAt(s, ing, r2, k2)
    ensures r1 == r2 && k1 == k2
  {
    assert !Earlier(r1, k1, r2, k2) && !Earlier(r2, k2, r1, k1);
  }

  /** The members that the backend of a redirecting path resolves to. */
  function MembersAt(s: Setting, ing: Ingress, r: nat, k: nat): multiset<PoolMember>
    requires Redirects(s, ing, r, k)
  {
    multiset(Keys(Resolve(s.cluster, ing.rules[r].paths[k].backend).endpoints, (e: Endpoint) => MemberFor(s.cluster, e)))
  }

  /** The pool a redirecting path names is in the output, and was built for the leader of that name. */
  lemma PoolOfRoute(s: Setting, ing: Ingress, out: Output, r: nat, k: nat, f: nat, j: nat) returns (i: nat)
    requires Compiled(s, ing, out) && Redirects(s, ing, r, k)
    requires Leads(s, ing, f, j) && PoolNameAt(s, ing, f, j) == PoolNameAt(s, ing, r, k)
    ensures i < |out.pools| && out.pools[i].name == PoolNameAt(s, ing, r, k)
    ensures IsPoolFor(s.cluster, out.pools[i], ing.rules[f].paths[j].backend)
  {
    var p := FateOf(s, ing, r, k).policy;
    var https := UsesTls(ing, r);
    assert Makes(s, ing, https, r, k, p);
    ListenerIsThere(ing, https, r);
    var l := out.listeners[Place(ing, https)];
    HoldsExactly(s, ing, out.pools, l, https, p);
    var n :| 0 <= n < |l.policies| && Unplaced(l.policies[n]) == p;
    assert l.policies[n].poolName == p.poolName;
    i :| 0 <= i < |out.pools| && out.pools[i].name == p.poolName.value;
    PoolOfLeader(s, ing, out.pools[i], f, j);
  }

  lemma PoolOfLeader(s: Setting, ing: Ingress, pool: L7Pool, f: nat, j: nat)
    requires HasOrigin(s, ing, pool) && Leads(s, ing, f, j) && PoolNameAt(s, ing, f, j) == pool.name
    ensures IsPoolFor(s.cluster, pool, ing.rules[f].paths[j].backend)
  {
    var b := ing.rules[f].paths[j].backend;
    DefaultPoolNameIsApart(s.cluster.hash, s.cluster.namespace, b.service, Resolve(s.cluster, b).port.number);
    OriginOfDefault(s, ing, pool);
    var r: nat, k: nat :| Leads(s, ing, r, k) && IsPoolFor(s.cluster, pool, ing.rules[r].paths[k].backend);
    OneLeader(s, ing, r, k, f, j);
  }

  /** The pool that the path names serves just the endpoints of the path's own backend. */
  ghost predicate ServedRight(s: Setting, ing: Ingress, out: Output, r: nat, k: nat)
    requires Redirects(s, ing, r, k)
  {
    exists i :: 0 <= i < |out.pools| && out.pools[i].name == PoolNameAt(s, ing, r, k)
             && Serves(s.cluster, out.pools[i].members, Resolve(s.cluster, ing.rules[r].paths[k].backend).endpoints)
  }

  /**
   A route is served by its own endpoints exactly when the first path that redirects to a pool of the
   same name resolves to the same members: the first pool of a name is the one that is kept.
   */
  lemma ServedRightExactlyWhen(s: Setting, ing: Ingress, out: Output, r: nat, k: nat, f: nat, j: nat)
    requires Compiled(s, ing, out) && Redirects(s, ing, r, k)
    requires Leads(s, ing, f, j) && PoolNameAt(s, ing, f, j) == PoolNameAt(s, ing, r, k)
    ensures ServedRight(s, ing, out, r, k) <==> MembersAt(s, ing, r, k) == MembersAt(s, ing, f, j)
  {
    var i := PoolOfRoute(s, ing, out, r, k, f, j);
    forall n | 0 <= n < |out.pools| && out.pools[n].name == out.pools[i].name ensures n == i {
      assert DistinctKeys(out.pools, NameOfPool);
      assert NameOfPool(out.pools[n]) == NameOfPool(out.pools[i]);
    }
  }

  // ----- Two long Services -----

  /** One rule, two paths, two Services whose names begin alike. */
  function TwoServices(base: string): Ingress {
    Ingress(None, [IngressRule("", [IngressPath("/b", PathType.Exact, Backend(base + "b", "", 80)),
                                    IngressPath("/c", PathType.Exact, Backend(base + "c", "", 80))])], [])
  }

  /** Every Service has port 80 and one endpoint of its own. */
  function TwoServicesSetting(hash: string, namespace: string, base: string): Setting {
    Setting(Cluster(hash, namespace, (service: string) => Found([ServicePort("", 80)]),
                    (service: string, port: PortRef) =>
                      Some([Endpoint(if service == base + "b" then "10.0.0.1" else "10.0.0.2", 80, "")]), None),
            [], [], false, AclAnnotations(None, None, None), (c: string) => true, (u: string) => true)
  }

  lemma TwoServicesRedirect(hash: string, namespace: string, base: string)
    requires |namespace| + 1 + |base| >= 35
    ensures var s, ing := TwoServicesSetting(hash, namespace, base), TwoServices(base);
            && Accepted(s, ing) && Redirects(s, ing, 0, 0) && Redirects(s, ing, 0, 1)
            && PoolNameAt(s, ing, 0, 0) == PoolNameAt(s, ing, 0, 1) && Leads(s, ing, 0, 0)
            && MembersAt(s, ing, 0, 0) != MembersAt(s, ing, 0, 1)
  {
    var s, ing := TwoServicesSetting(hash, namespace, base), TwoServices(base);
    var b, c := ing.rules[0].paths[0].backend, ing.rules[0].paths[1].backend;
    assert b.service[|base|] == 'b' && c.service[|base|] == 'c';
    var port := ServicePort("", 80);
    assert PortOf(b, [port]) == Some(port) && PortOf(c, [port]) == Some(port);
    assert Resolve(s.cluster, b) == Resolved(port, [Endpoint("10.0.0.1", 80, "")]);
    assert Resolve(s.cluster, c) == Resolved(port, [Endpoint("10.0.0.2", 80, "")]);
    assert ServicePart(namespace, base + "b") == ServicePart(namespace, base + "c");
    assert FateOf(s, ing, 0, 0).Kept? && FateOf(s, ing, 0, 1).Kept?;
    var m := MemberFor(s.cluster, Endpoint("10.0.0.1", 80, ""));
    assert m in MembersAt(s, ing, 0, 0) && m !in MembersAt(s, ing, 0, 1);
  }

  /** The second Service's route is compiled, and served by the first one's endpoint. */
  method SharedPool(hash: string, namespace: string, base: string) returns (r: Option<Output>)
    requires |namespace| + 1 + |base| >= 35
    ensures var s, ing := TwoServicesSetting(hash, namespace, base), TwoServices(base);
            r.Some? && Compiled(s, ing, r.value) && Redirects(s, ing, 0, 1) && !ServedRight(s, ing, r.value, 0, 1)
  {
    TwoServicesRedirect(hash, namespace, base);
    r := BuildPoolsAndListeners(TwoServicesSetting(hash, namespace, base), TwoServices(base));
    ServedRightExactlyWhen(TwoServicesSetting(hash, namespace, base), TwoServices(base), r.value, 0, 1, 0, 0);
  }

  /** Two Services of 35 characters in the namespace `default`. */
  method SharedPoolExample() returns (r: Option<Output>)
    ensures var base := "checkout-frontend-canary-deploymen";
            var s, ing := TwoServicesSetting("1a2b3", "default", base), TwoServices(base);
            && |base + "b"| == 35 && r.Some? && Compiled(s, ing, r.value)
            && Redirects(s, ing, 0, 1) && !ServedRight(s, ing, r.value, 0, 1)
  {
    r := SharedPool("1a2b3", "default", "checkout-frontend-canary-deploymen");
  }
}
