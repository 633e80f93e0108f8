/** The frame of the deploy phases: things are added and updated, nothing disappears or is renamed. */
module Growth {
  import opened GlbTypes
  import opened Protocol

  predicate GroupsGrow(a: map<Id, Group>, b: map<Id, Group>) {
    forall g :: g in a ==> g in b && b[g].name == a[g].name
  }

  predicate PoolGrows(a: Pool, b: Pool) {
    a.name == b.name && GroupsGrow(a.groups, b.groups)
  }

  predicate LbGrows(a: LB, b: LB) {
    && b.name == a.name && b.package == a.package
    && (forall p :: p in a.pools ==> p in b.pools && PoolGrows(a.pools[p], b.pools[p]))
    && (forall l :: l in a.listeners ==>
          l in b.listeners && b.listeners[l].port == a.listeners[l].port
          && b.listeners[l].protocol == a.listeners[l].protocol && b.listeners[l].name == a.listeners[l].name)
  }

  /** Only load balancer `lb` changed, and it grew. */
  predicate Grows(a: map<Id, LB>, b: map<Id, LB>, lb: Id) {
    && a.Keys == b.Keys
    && (forall x :: x in a && x != lb ==> b[x] == a[x])
    && (lb in a ==> LbGrows(a[lb], b[lb]))
  }

  lemma GrowsTransitive(a: map<Id, LB>, b: map<Id, LB>, c: map<Id, LB>, lb: Id)
    requires Grows(a, b, lb) && Grows(b, c, lb)
    ensures Grows(a, c, lb)
  {
    if lb in a {
      forall p | p in a[lb].pools ensures p in c[lb].pools && PoolGrows(a[lb].pools[p], c[lb].pools[p]) {
        assert p in b[lb].pools && PoolGrows(a[lb].pools[p], b[lb].pools[p]);
        assert PoolGrows(b[lb].pools[p], c[lb].pools[p]);
      }
    }
  }

  lemma HeldGroupsStay(a: map<Id, Group>, b: map<Id, Group>, specs: seq<GroupSpec>)
    requires GroupsGrow(a, b) && HoldsGroups(a, specs)
    ensures HoldsGroups(b, specs)
  {
    forall k | 0 <= k < |specs| ensures HoldsNamed(b, specs[k].name) {
      assert HoldsNamed(a, specs[k].name);
      var g :| g in a && a[g].name == specs[k].name;
      assert g in b;
    }
  }
}
