/**
 An Ingress compiled to pools and two listeners (build_pool.go). `Routes` says which policies each
 listener is to have; the lemmas say that these are the paths of the Ingress that were not left out.
 */
module IngressCompiler {
  import opened GlbTypes
  import opened Sorting
  import opened Names
  import opened Annotations
  import opened Policies
  import opened Positions
  import opened IngressPools

  const HTTP_LISTENER := "vks_http_listener"
  const HTTPS_LISTENER := "vks_https_listener"

  datatype IngressPath = IngressPath(path: string, kind: PathType, backend: Backend)

  datatype IngressRule = IngressRule(host: string, paths: seq<IngressPath>)

  datatype Tls = Tls(hosts: seq<string>, secretName: string)

  datatype Ingress = Ingress(defaultBackend: Option<Backend>, rules: seq<IngressRule>, tls: seq<Tls>)

  /** The annotations of the Ingress, parsed, and the cluster it is compiled in. */
  datatype Setting = Setting(
    cluster: Cluster, certificates: seq<string>, configs: seq<PathConfig>, reorder: bool,
    acl: AclAnnotations, isCidr: string -> bool, isUrl: string -> bool)

  datatype L7Listener = L7Listener(name: string, port: int, defaultPool: Option<string>, acl: Fields, policies: seq<Policy>)

  datatype Output = Output(pools: seq<L7Pool>, listeners: seq<L7Listener>)

  // ----- Which listeners there are -----

  function TlsHosts(tls: seq<Tls>): set<string> {
    set t, h | t in tls && h in t.hosts :: h
  }

  predicate NeedsHttp(ing: Ingress) {
    || ing.defaultBackend.Some?
    || exists r :: 0 <= r < |ing.rules| && (ing.rules[r].host == "" || ing.rules[r].host !in TlsHosts(ing.tls))
  }

  predicate NeedsHttps(ing: Ingress) {
    ing.tls != []
  }

  /** TLS needs certificates: by annotation, or a secret in every entry. */
  predicate Certified(s: Setting, ing: Ingress) {
    ing.tls == [] || s.certificates != [] || forall i :: 0 <= i < |ing.tls| ==> ing.tls[i].secretName != ""
  }

  method CollectTlsHosts(tls: seq<Tls>) returns (hosts: set<string>)
    ensures hosts == TlsHosts(tls)
  {
    hosts := {};
    for i := 0 to |tls|
      invariant hosts == TlsHosts(tls[..i])
    {
      ghost var was := hosts;
      for j := 0 to |tls[i].hosts|
        invariant hosts == was + set h | h in tls[i].hosts[..j]
      {
        assert tls[i].hosts[..j + 1] == tls[i].hosts[..j] + [tls[i].hosts[j]];
        hosts := hosts + {tls[i].hosts[j]};
      }
      assert tls[i].hosts[..|tls[i].hosts|] == tls[i].hosts;
      assert tls[..i + 1] == tls[..i] + [tls[i]];
    }
    assert tls[..|tls|] == tls;
  }

  method CheckNeedHTTPListener(ing: Ingress) returns (r: bool)
    ensures r <==> NeedsHttp(ing)
  {
    if ing.defaultBackend.Some? {
      return true;
    }
    for i := 0 to |ing.rules|
      invariant forall k :: 0 <= k < i ==> ing.rules[k].host != ""
    {
      if ing.rules[i].host == "" {
        return true;
      }
    }
    var hosts := CollectTlsHosts(ing.tls);
    for i := 0 to |ing.rules|
      invariant forall k :: 0 <= k < i ==> ing.rules[k].host in hosts
    {
      if ing.rules[i].host !in hosts {
        return true;
      }
    }
    r := false;
  }

  method IsValidToBuildHTTPSListener(s: Setting, ing: Ingress) returns (valid: bool, ok: bool)
    ensures valid <==> NeedsHttps(ing)
    ensures ok <==> Certified(s, ing)
  {
    if |ing.tls| == 0 {
      return false, true;
    }
    if |s.certificates| > 0 {
      return true, true;
    }
    for i := 0 to |ing.tls|
      invariant forall k :: 0 <= k < i ==> ing.tls[k].secretName != ""
    {
      if ing.tls[i].secretName == "" {
        return true, false;
      }
    }
    return true, true;
  }

  /** A listener without policies; the access list is the only part that can be refused. */
  function EmptyListener(s: Setting, https: bool, defaultPool: Option<string>): L7Listener {
    L7Listener(if https then HTTPS_LISTENER else HTTP_LISTENER, if https then 443 else 80, defaultPool, AclOf(s.acl), [])
  }

  method BuildListener(s: Setting, https: bool, defaultPool: Option<string>) returns (r: Option<L7Listener>)
    ensures r == if Acceptable(s.acl, s.isCidr) then Some(EmptyListener(s, https, defaultPool)) else None
  {
    var acl := FromAnnotations(s.acl, s.isCidr);
    if acl.None? {
      return None;
    }
    var listener := L7Listener(HTTP_LISTENER, 80, defaultPool, acl.value, []);
    if https {
      listener := listener.(name := HTTPS_LISTENER, port := 443);
    }
    r := Some(listener);
  }

  // ----- What becomes of a path -----

  datatype Fate = Kept(policy: Policy) | Dropped | Broken

  predicate IsPath(ing: Ingress, r: int, k: int) {
    0 <= r < |ing.rules| && 0 <= k < |ing.rules[r].paths|
  }

  predicate UsesTls(ing: Ingress, r: int)
    requires 0 <= r < |ing.rules|
  {
    ing.rules[r].host in TlsHosts(ing.tls)
  }

  function NameAt(s: Setting, ing: Ingress, r: nat, k: nat): string
    requires r < |ing.rules|
  {
    PolicyName(s.cluster.hash, UsesTls(ing, r), r, k)
  }

  function PolicyAt(s: Setting, ing: Ingress, r: nat, k: nat): PolicyResult
    requires IsPath(ing, r, k)
  {
    var path := ing.rules[r].paths[k];
    PolicyFor(s.configs, NameAt(s, ing, r, k), ing.rules[r].host, path.path, path.kind, s.isUrl)
  }

  /** A path is left out when it redirects to a backend that cannot be resolved; any other failure breaks the whole. */
  function FateOf(s: Setting, ing: Ingress, r: nat, k: nat): (fate: Fate)
    requires IsPath(ing, r, k)
    ensures fate.Kept? ==> fate.policy.name == NameAt(s, ing, r, k) && fate.policy.position.None?
    ensures fate.Kept? ==> (fate.policy.poolName.Some? <==> fate.policy.action == REDIRECT_TO_POOL)
  {
    var p := PolicyAt(s, ing, r, k);
    if !p.Built? then Broken
    else if p.policy.action != REDIRECT_TO_POOL then Kept(p.policy)
    else
      var b := ing.rules[r].paths[k].backend;
      match Resolve(s.cluster, b)
      case Unresolvable => Dropped
      case Fatal => Broken
      case Resolved(port, _) =>
        Kept(p.policy.(poolName := Some(PoolName(s.cluster.hash, s.cluster.namespace, b.service, port.number))))
  }

  /** What an ordinary path comes to: a redirect to the pool of its backend for just its requests, or nothing, or a failure. */
  lemma FateOfOrdinaryPath(s: Setting, ing: Ingress, r: nat, k: nat)
    requires IsPath(ing, r, k) && ing.rules[r].paths[k].kind != ImplementationSpecific
    ensures var b := ing.rules[r].paths[k].backend;
            match Resolve(s.cluster, b)
            case Unresolvable => FateOf(s, ing, r, k) == Dropped
            case Fatal => FateOf(s, ing, r, k) == Broken
            case Resolved(port, _) =>
              var fate := FateOf(s, ing, r, k);
              && fate.Kept? && fate.policy.action == "REDIRECT_TO_POOL"
              && fate.policy.poolName == Some(PoolName(s.cluster.hash, s.cluster.namespace, b.service, port.number))
              && MeansPath(fate.policy, ing.rules[r].host, ing.rules[r].paths[k].path, ing.rules[r].paths[k].kind)
  {
    var rule, path := ing.rules[r], ing.rules[r].paths[k];
    PolicyMeansItsPath(s.configs, NameAt(s, ing, r, k), rule.host, path.path, path.kind, s.isUrl);
    if Resolve(s.cluster, path.backend).Resolved? {
      SameRulesMean(PolicyAt(s, ing, r, k).policy, FateOf(s, ing, r, k).policy, rule.host, path.path, path.kind);
    }
  }

  function RoutesOfRule(s: Setting, ing: Ingress, r: nat, n: nat): seq<Policy>
    requires r < |ing.rules| && n <= |ing.rules[r].paths|
  {
    if n == 0 then [] else
      var fate := FateOf(s, ing, r, n - 1);
      RoutesOfRule(s, ing, r, n - 1) + if fate.Kept? then [fate.policy] else []
  }

  /** The policies of the first m rules that belong on the HTTPS or on the HTTP listener. */
  function Routes(s: Setting, ing: Ingress, https: bool, m: nat): seq<Policy>
    requires m <= |ing.rules|
  {
    if m == 0 then [] else
      Routes(s, ing, https, m - 1) +
      if UsesTls(ing, m - 1) == https then RoutesOfRule(s, ing, m - 1, |ing.rules[m - 1].paths|) else []
  }

  // ----- Pools -----

  predicate HasPool(pools: seq<L7Pool>, name: string) {
    exists i :: 0 <= i < |pools| && pools[i].name == name
  }

  /** No pool's name is lost. */
  ghost predicate Covers(pools: seq<L7Pool>, more: seq<L7Pool>) {
    forall name :: HasPool(pools, name) ==> HasPool(more, name)
  }

  function NameOfPool(p: L7Pool): string {
    p.name
  }

  method AppendPool(pools: seq<L7Pool>, pool: L7Pool) returns (r: seq<L7Pool>)
    requires DistinctKeys(pools, NameOfPool)
    ensures r == if HasPool(pools, pool.name) then pools else pools + [pool]
    ensures DistinctKeys(r, NameOfPool) && HasPool(r, pool.name)
    ensures Covers(pools, r)
  {
    for i := 0 to |pools|
      invariant forall k :: 0 <= k < i ==> pools[k].name != pool.name
    {
      if pools[i].name == pool.name {
        return pools;
      }
    }
    r := pools + [pool];
    assert r[|pools|] == pool;
    forall name | HasPool(pools, name) ensures HasPool(r, name) {
      var i :| 0 <= i < |pools| && pools[i].name == name;
      assert r[i].name == name;
    }
  }

  predicate Redirects(s: Setting, ing: Ingress, r: nat, k: nat) {
    IsPath(ing, r, k) && FateOf(s, ing, r, k).Kept? && FateOf(s, ing, r, k).policy.action == REDIRECT_TO_POOL
  }

  /** The pool that a redirecting path names. */
  function PoolNameAt(s: Setting, ing: Ingress, r: nat, k: nat): string
    requires Redirects(s, ing, r, k)
  {
    FateOf(s, ing, r, k).policy.poolName.value
  }

  /** Paths are compiled rule by rule, and within a rule in order. */
  predicate Earlier(r: nat, k: nat, r': nat, k': nat) {
    r < r' || (r == r' && k < k')
  }

  /** The first path that redirects to a pool of its name: later ones find the pool there. */
  ghost predicate Leads(s: Setting, ing: Ingress, r: nat, k: nat) {
    && Redirects(s, ing, r, k)
    && forall r': nat, k': nat :: Redirects(s, ing, r', k') && Earlier(r', k', r, k) ==>
         PoolNameAt(s, ing, r', k') != PoolNameAt(s, ing, r, k)
  }

  /** Every path before this one that redirects has its pool. */
  ghost predicate Supplied(s: Setting, ing: Ingress, pools: seq<L7Pool>, r: nat, k: nat) {
    forall r': nat, k': nat :: Redirects(s, ing, r', k') && Earlier(r', k', r, k) ==>
      HasPool(pools, PoolNameAt(s, ing, r', k'))
  }

  lemma SuppliedNextRule(s: Setting, ing: Ingress, pools: seq<L7Pool>, r: nat)
    requires r < |ing.rules| && Supplied(s, ing, pools, r, |ing.rules[r].paths|)
    ensures Supplied(s, ing, pools, r + 1, 0)
  {
    forall r': nat, k': nat | Redirects(s, ing, r', k') && Earlier(r', k', r + 1, 0)
      ensures Earlier(r', k', r, |ing.rules[r].paths|)
    {
    }
  }

  lemma SuppliedNextPath(s: Setting, ing: Ingress, pools: seq<L7Pool>, more: seq<L7Pool>, r: nat, k: nat)
    requires Supplied(s, ing, pools, r, k) && Covers(pools, more)
    requires Redirects(s, ing, r, k) ==> HasPool(more, PoolNameAt(s, ing, r, k))
    ensures Supplied(s, ing, more, r, k + 1)
  {
    forall r': nat, k': nat | Redirects(s, ing, r', k') && Earlier(r', k', r, k + 1)
      ensures HasPool(more, PoolNameAt(s, ing, r', k'))
    {
      assert Earlier(r', k', r, k) || (r' == r && k' == k);
    }
  }

  predicate HasDefault(s: Setting, ing: Ingress) {
    ing.defaultBackend.Some? && Resolve(s.cluster, ing.defaultBackend.value).Resolved?
  }

  ghost predicate IsDefaultPool(s: Setting, ing: Ingress, pool: L7Pool) {
    && HasDefault(s, ing) && pool.name == DEFAULT_POOL_NAME
    && Serves(s.cluster, pool.members, Resolve(s.cluster, ing.defaultBackend.value).endpoints)
  }

  /** The pool is the default backend's or was built for the first kept path that redirects to its name. */
  ghost predicate HasOrigin(s: Setting, ing: Ingress, pool: L7Pool) {
    || IsDefaultPool(s, ing, pool)
    || exists r: nat, k: nat :: Leads(s, ing, r, k) && IsPoolFor(s.cluster, pool, ing.rules[r].paths[k].backend)
  }

  ghost predicate PoolsFit(s: Setting, ing: Ingress, pools: seq<L7Pool>) {
    DistinctKeys(pools, NameOfPool) && forall i :: 0 <= i < |pools| ==> HasOrigin(s, ing, pools[i])
  }

  /** Every pool that a policy names is there. */
  predicate Refer(policies: seq<Policy>, pools: seq<L7Pool>) {
    forall i :: 0 <= i < |policies| && policies[i].poolName.Some? ==> HasPool(pools, policies[i].poolName.value)
  }

  lemma ReferStill(policies: seq<Policy>, pools: seq<L7Pool>, more: seq<L7Pool>)
    requires Refer(policies, pools) && Covers(pools, more)
    ensures Refer(policies, more)
  {
  }

  // ----- Compiling -----

  method BuildDefaultPool(s: Setting, ing: Ingress) returns (ok: bool, pools: seq<L7Pool>)
    ensures ok <==> ing.defaultBackend.None? || !Resolve(s.cluster, ing.defaultBackend.value).Fatal?
    ensures ok ==> PoolsFit(s, ing, pools) && (HasPool(pools, DEFAULT_POOL_NAME) <==> HasDefault(s, ing))
    ensures ok ==> (pools != [] <==> HasDefault(s, ing))
  {
    pools := [];
    if ing.defaultBackend.None? {
      return true, pools;
    }
    var r := BuildPool(s.cluster, ing.defaultBackend.value);
    if r.PoolError? {
      return false, pools;
    }
    if r.BuiltPool? {
      pools := AppendPool(pools, r.pool.(name := DEFAULT_POOL_NAME));
    }
    ok := true;
  }

  /** Adds the pool of a path; it stays out exactly if an earlier path has brought one of that name. */
  method AddFirst(s: Setting, ing: Ingress, r: nat, k: nat, pools: seq<L7Pool>, pool: L7Pool) returns (more: seq<L7Pool>)
    requires Redirects(s, ing, r, k) && PoolNameAt(s, ing, r, k) == pool.name
    requires IsPoolFor(s.cluster, pool, ing.rules[r].paths[k].backend)
    requires PoolsFit(s, ing, pools) && Supplied(s, ing, pools, r, k)
    ensures PoolsFit(s, ing, more) && Covers(pools, more) && HasPool(more, pool.name)
  {
    if !HasPool(pools, pool.name) {
      assert Leads(s, ing, r, k);
      assert HasOrigin(s, ing, pool);
    }
    more := AppendPool(pools, pool);
  }

  /** One path: its fate, and its pool added if it has one. */
  method CompilePath(s: Setting, ing: Ingress, r: nat, k: nat, pools: seq<L7Pool>) returns (fate: Fate, more: seq<L7Pool>)
    requires IsPath(ing, r, k) && PoolsFit(s, ing, pools) && Supplied(s, ing, pools, r, k)
    ensures fate == FateOf(s, ing, r, k) && PoolsFit(s, ing, more) && Supplied(s, ing, more, r, k + 1)
    ensures Covers(pools, more)
    ensures fate.Kept? && fate.policy.poolName.Some? ==> HasPool(more, fate.policy.poolName.value)
  {
    more := pools;
    var rule, path := ing.rules[r], ing.rules[r].paths[k];
    var hosts := CollectTlsHosts(ing.tls);
    var name := PolicyName(s.cluster.hash, rule.host in hosts, r, k);
    var built := BuildPolicyByPath(s.configs, name, rule.host, path.path, path.kind, s.isUrl);
    if !built.Built? {
      SuppliedNextPath(s, ing, pools, more, r, k);
      return Broken, more;
    }
    var policy := built.policy;
    if policy.action == REDIRECT_TO_POOL {
      var pool := BuildPool(s.cluster, path.backend);
      if !pool.BuiltPool? {
        SuppliedNextPath(s, ing, pools, more, r, k);
        return if pool.NoBackend? then Dropped else Broken, more;
      }
      policy := policy.(poolName := Some(pool.pool.name));
      assert FateOf(s, ing, r, k) == Kept(policy);
      more := AddFirst(s, ing, r, k, pools, pool.pool);
    }
    SuppliedNextPath(s, ing, pools, more, r, k);
    fate := Kept(policy);
  }

  ghost predicate RuleIntact(s: Setting, ing: Ingress, r: nat, n: nat)
    requires r < |ing.rules| && n <= |ing.rules[r].paths|
  {
    forall k: nat :: k < n ==> !FateOf(s, ing, r, k).Broken?
  }

  ghost predicate IntactUpTo(s: Setting, ing: Ingress, m: nat)
    requires m <= |ing.rules|
  {
    forall q: nat :: q < m ==> RuleIntact(s, ing, q, |ing.rules[q].paths|)
  }

  ghost predicate Intact(s: Setting, ing: Ingress) {
    IntactUpTo(s, ing, |ing.rules|)
  }

  lemma BrokenStays(s: Setting, ing: Ingress, r: nat, n: nat)
    requires r < |ing.rules| && n <= |ing.rules[r].paths| && !RuleIntact(s, ing, r, n)
    ensures !RuleIntact(s, ing, r, |ing.rules[r].paths|)
  {
    var k: nat :| k < n && FateOf(s, ing, r, k).Broken?;
  }

  /** The next path of a rule, its policy appended if it has one. */
  method AddPath(
    s: Setting, ing: Ingress, r: nat, k: nat, pools: seq<L7Pool>, policies: seq<Policy>, ghost start: seq<Policy>)
    returns (ok: bool, more: seq<L7Pool>, filled: seq<Policy>)
    requires IsPath(ing, r, k) && PoolsFit(s, ing, pools) && Refer(policies, pools)
    requires policies == start + RoutesOfRule(s, ing, r, k) && RuleIntact(s, ing, r, k) && Supplied(s, ing, pools, r, k)
    ensures Supplied(s, ing, more, r, k + 1)
    ensures ok <==> RuleIntact(s, ing, r, k + 1)
    ensures ok ==> filled == start + RoutesOfRule(s, ing, r, k + 1)
    ensures PoolsFit(s, ing, more) && Refer(filled, more) && Covers(pools, more)
  {
    var fate;
    fate, more := CompilePath(s, ing, r, k, pools);
    ReferStill(policies, pools, more);
    filled := policies;
    if fate.Kept? {
      filled := policies + [fate.policy];
    }
    ok := !fate.Broken?;
  }

  method CompileRule(s: Setting, ing: Ingress, r: nat, pools: seq<L7Pool>, policies: seq<Policy>)
    returns (ok: bool, more: seq<L7Pool>, filled: seq<Policy>)
    requires r < |ing.rules| && PoolsFit(s, ing, pools) && Refer(policies, pools) && Supplied(s, ing, pools, r, 0)
    ensures ok ==> Supplied(s, ing, more, r + 1, 0)
    ensures ok <==> RuleIntact(s, ing, r, |ing.rules[r].paths|)
    ensures ok ==> filled == policies + RoutesOfRule(s, ing, r, |ing.rules[r].paths|)
    ensures PoolsFit(s, ing, more) && Refer(filled, more) && Covers(pools, more)
  {
    more, filled := pools, policies;
    for k := 0 to |ing.rules[r].paths|
      invariant PoolsFit(s, ing, more) && Refer(filled, more) && Covers(pools, more)
      invariant filled == policies + RoutesOfRule(s, ing, r, k)
      invariant RuleIntact(s, ing, r, k) && Supplied(s, ing, more, r, k)
    {
      ok, more, filled := AddPath(s, ing, r, k, more, filled, policies);
      if !ok {
        BrokenStays(s, ing, r, k + 1);
        return;
      }
    }
    SuppliedNextRule(s, ing, more, r);
    ok := true;
  }

  function PoliciesOf(listener: Option<L7Listener>): seq<Policy> {
    if listener.Some? then listener.value.policies else []
  }

  /** The listener, if there is one, with these policies; without one there are none. */
  predicate Filled(empty: Option<L7Listener>, filled: Option<L7Listener>, policies: seq<Policy>) {
    && filled.Some? == empty.Some?
    && PoliciesOf(filled) == policies
    && (empty.Some? ==> filled.value == empty.value.(policies := policies))
  }

  /** The compilation under way: pools so far and the two listeners as far as they are filled. */
  datatype Draft = Draft(pools: seq<L7Pool>, http: Option<L7Listener>, https: Option<L7Listener>)

  /** After m rules: the listeners hold the routes of these, and every pool they name is there. */
  ghost predicate DraftFits(s: Setting, ing: Ingress, first: Draft, d: Draft, m: nat)
    requires m <= |ing.rules|
  {
    && PoolsFit(s, ing, d.pools) && Covers(first.pools, d.pools) && Supplied(s, ing, d.pools, m, 0)
    && Filled(first.http, d.http, Routes(s, ing, false, m)) && Refer(PoliciesOf(d.http), d.pools)
    && Filled(first.https, d.https, Routes(s, ing, true, m)) && Refer(PoliciesOf(d.https), d.pools)
  }

  /** Both listeners that rules need are there, and empty. */
  predicate Ready(ing: Ingress, d: Draft) {
    && d.http.Some? == NeedsHttp(ing) && d.https.Some? == NeedsHttps(ing)
    && PoliciesOf(d.http) == [] && PoliciesOf(d.https) == []
  }

  /** A rule is compiled onto a listener, which is there: `value` is read only of a listener that was built. */
  method CompileNext(s: Setting, ing: Ingress, r: nat, hosts: set<string>, d: Draft, ghost first: Draft)
    returns (ok: bool, next: Draft)
    requires r < |ing.rules| && hosts == TlsHosts(ing.tls) && Ready(ing, first) && DraftFits(s, ing, first, d, r)
    ensures ok <==> RuleIntact(s, ing, r, |ing.rules[r].paths|)
    ensures ok ==> DraftFits(s, ing, first, next, r + 1)
  {
    next := d;
    if ing.rules[r].host in hosts {
      var more, policies;
      ok, more, policies := CompileRule(s, ing, r, d.pools, d.https.value.policies);
      ReferStill(PoliciesOf(d.http), d.pools, more);
      next := Draft(more, d.http, Some(d.https.value.(policies := policies)));
    } else {
      var more, policies;
      ok, more, policies := CompileRule(s, ing, r, d.pools, d.http.value.policies);
      ReferStill(PoliciesOf(d.https), d.pools, more);
      next := Draft(more, Some(d.http.value.(policies := policies)), d.https);
    }
  }

  lemma DraftStarts(s: Setting, ing: Ingress, first: Draft)
    requires Ready(ing, first) && PoolsFit(s, ing, first.pools)
    ensures DraftFits(s, ing, first, first, 0)
  {
  }

  lemma IntactNext(s: Setting, ing: Ingress, m: nat)
    requires m < |ing.rules| && IntactUpTo(s, ing, m)
    ensures RuleIntact(s, ing, m, |ing.rules[m].paths|) <==> IntactUpTo(s, ing, m + 1)
    ensures Intact(s, ing) ==> IntactUpTo(s, ing, m + 1)
  {
  }

  method CompileRules(s: Setting, ing: Ingress, first: Draft) returns (ok: bool, d: Draft)
    requires Ready(ing, first) && PoolsFit(s, ing, first.pools)
    ensures ok <==> Intact(s, ing)
    ensures ok ==> DraftFits(s, ing, first, d, |ing.rules|)
  {
    d := first;
    DraftStarts(s, ing, first);
    var hosts := CollectTlsHosts(ing.tls);
    for r := 0 to |ing.rules|
      invariant DraftFits(s, ing, first, d, r) && IntactUpTo(s, ing, r)
    {
      IntactNext(s, ing, r);
      ok, d := CompileNext(s, ing, r, hosts, d, first);
      if !ok {
        return;
      }
    }
    ok := true;
  }
}
