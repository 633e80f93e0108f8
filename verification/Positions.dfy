/** Positions of the policies of a listener by priority (build_listener.go). */
module Positions {
  import opened GlbTypes
  import opened Policies
  import opened Sorting

  function CompareValue(compare: string): int {
    if compare == REGEX then 10
    else if compare == CONTAINS then 100
    else if compare == ENDS_WITH then 1000
    else if compare == STARTS_WITH then 10000
    else if compare == EQUAL_TO then 100000
    else 1
  }

  function RulePriority(rule: L7Rule): int {
    CompareValue(rule.compare) * (if rule.kind == HOST_NAME then 100 else 1) * |rule.value|
  }

  /** What a rule weighs: by how it compares, a hundred times as much for a host, and by its length. */
  lemma RuleWeighs(kind: string, value: string)
    ensures var times := (if kind == "HOST_NAME" then 100 else 1) * |value|;
            && RulePriority(L7Rule("EQUAL_TO", kind, value)) == 100000 * times
            && RulePriority(L7Rule("STARTS_WITH", kind, value)) == 10000 * times
            && RulePriority(L7Rule("ENDS_WITH", kind, value)) == 1000 * times
            && RulePriority(L7Rule("CONTAINS", kind, value)) == 100 * times
            && RulePriority(L7Rule("REGEX", kind, value)) == 10 * times
  {
  }

  /** A policy weighs what its rules weigh together. */
  lemma {:induction false} PolicyWeighs(rules: seq<L7Rule>, more: seq<L7Rule>)
    ensures RulesPriority(rules + more) == RulesPriority(rules) + RulesPriority(more)
    ensures |rules| == 1 ==> RulesPriority(rules) == RulePriority(rules[0])
  {
    if more == [] {
      assert rules + more == rules;
    } else {
      var n := |more| - 1;
      assert (rules + more)[..|rules| + n] == rules + more[..n];
      PolicyWeighs(rules, more[..n]);
    }
    if |rules| == 1 {
      assert rules[..0] == [];
    }
  }

  function RulesPriority(rules: seq<L7Rule>): int {
    if rules == [] then 0 else RulesPriority(rules[..|rules| - 1]) + RulePriority(rules[|rules| - 1])
  }

  function Priority(p: Policy): int {
    RulesPriority(p.rules)
  }

  method GetPolicyPriority(p: Policy) returns (total: int)
    ensures total == Priority(p)
  {
    total := 0;
    for i := 0 to |p.rules|
      invariant total == RulesPriority(p.rules[..i])
    {
      assert p.rules[..i + 1][..i] == p.rules[..i];
      total := total + RulePriority(p.rules[i]);
    }
    assert p.rules[..|p.rules|] == p.rules;
  }

  /** The policies that paths are compiled to, by how they compare. */
  predicate PathCompare(compare: string) {
    compare == EQUAL_TO || compare == STARTS_WITH
  }

  /** What it takes for such a policy to apply. */
  lemma PathApplies(name: string, host: string, path: string, compare: string, q: Request, regex: (string, string) -> bool)
    requires PathCompare(compare)
    ensures Applies(ByPath(name, host, path, compare), q, regex) <==>
            (host == "" || q.host == host) && (if compare == EQUAL_TO then q.path == path else path <= q.path)
  {
    var p := ByPath(name, host, path, compare);
    assert p.rules[0] == L7Rule(compare, PATH, path);
    assert host != "" ==> p.rules[1] == L7Rule(EQUAL_TO, HOST_NAME, host);
  }

  /**
   Of two policies of one host that apply to a request, an exact path comes before a prefix, and a
   longer prefix before a shorter one.
   */
  lemma MoreSpecificFirst(
    n1: string, p1: string, c1: string, n2: string, p2: string, c2: string, host: string,
    q: Request, regex: (string, string) -> bool)
    requires PathCompare(c1) && PathCompare(c2) && q.path != ""
    requires Applies(ByPath(n1, host, p1, c1), q, regex) && Applies(ByPath(n2, host, p2, c2), q, regex)
    requires (c1 == EQUAL_TO && c2 == STARTS_WITH) || (c1 == c2 == STARTS_WITH && |p1| > |p2|)
    ensures Priority(ByPath(n1, host, p1, c1)) > Priority(ByPath(n2, host, p2, c2))
  {
    PathApplies(n1, host, p1, c1, q, regex);
    PathApplies(n2, host, p2, c2, q, regex);
    ByPathPriority(n1, host, p1, c1);
    ByPathPriority(n2, host, p2, c2);
  }

  /** The policy comes before every policy without a host that applies to the request. */
  ghost predicate BeatsHostless(p: Policy, q: Request, regex: (string, string) -> bool) {
    forall name: string, path: string, compare: string ::
      PathCompare(compare) && Applies(ByPath(name, "", path, compare), q, regex) ==>
        Priority(p) > Priority(ByPath(name, "", path, compare))
  }

  /**
   A policy of a host comes before all policies without one exactly when its weight exceeds that of
   the request's whole path as an exact one: a long path can outweigh a short host name.
   */
  lemma HostFirstExactlyWhen(
    name: string, host: string, path: string, compare: string, q: Request, regex: (string, string) -> bool)
    requires PathCompare(compare)
    ensures BeatsHostless(ByPath(name, host, path, compare), q, regex) <==>
            10000000 * |host| + CompareValue(compare) * |path| > 100000 * |q.path|
  {
    var p := ByPath(name, host, path, compare);
    ByPathPriority(name, host, path, compare);
    ByPathPriority(name, "", q.path, EQUAL_TO);
    PathApplies(name, "", q.path, EQUAL_TO, q, regex);
    if Priority(p) > 100000 * |q.path| {
      forall n: string, path': string, c: string | PathCompare(c) && Applies(ByPath(n, "", path', c), q, regex)
        ensures Priority(p) > Priority(ByPath(n, "", path', c))
      {
        PathApplies(n, "", path', c, q, regex);
        ByPathPriority(n, "", path', c);
      }
    }
  }

  /** On host `a.b`, its own prefix `/` comes after a hostless exact path of 301 characters. */
  lemma LongPathBeatsHost(path: string, regex: (string, string) -> bool)
    requires |path| == 301 && path[0] == '/'
    ensures var own, other := ByPath("p", "a.b", "/", STARTS_WITH), ByPath("q", "", path, EQUAL_TO);
            && Applies(own, Request("a.b", path), regex) && Applies(other, Request("a.b", path), regex)
            && Priority(other) > Priority(own)
  {
    PathApplies("p", "a.b", "/", STARTS_WITH, Request("a.b", path), regex);
    PathApplies("q", "", path, EQUAL_TO, Request("a.b", path), regex);
    ByPathPriority("p", "a.b", "/", STARTS_WITH);
    ByPathPriority("q", "", path, EQUAL_TO);
  }

  lemma ByPathPriority(name: string, host: string, path: string, compare: string)
    ensures Priority(ByPath(name, host, path, compare)) == CompareValue(compare) * |path| + 10000000 * |host|
  {
    var rules := ByPath(name, host, path, compare).rules;
    var first := [L7Rule(compare, PATH, path)];
    assert first[..0] == [];
    assert RulesPriority(first) == CompareValue(compare) * |path|;
    if host != "" {
      assert rules[..1] == first && |rules| == 2;
    }
  }

  // ----- Positions -----

  datatype Entry = Entry(name: string, priority: int)

  predicate HigherFirst(a: Entry, b: Entry) {
    a.priority > b.priority
  }

  predicate DistinctNames(policies: seq<Policy>) {
    forall i, j :: 0 <= i < j < |policies| ==> policies[i].name != policies[j].name
  }

  function EntryOf(p: Policy): Entry {
    Entry(p.name, Priority(p))
  }

  function Unplaced(p: Policy): Policy {
    p.(position := None)
  }

  /** Where a name stands in the sorted entries. */
  function Rank(entries: seq<Entry>, name: string): (r: nat)
    ensures r <= |entries|
    ensures r < |entries| ==> entries[r].name == name
    ensures forall k :: 0 <= k < r ==> entries[k].name != name
  {
    if entries == [] || entries[0].name == name then 0 else 1 + Rank(entries[1..], name)
  }

  /** The entries are those of the policies, in some order of falling priority. */
  ghost predicate Ranks(entries: seq<Entry>, policies: seq<Policy>) {
    && multiset(entries) == multiset(Keys(policies, EntryOf))
    && InOrder(entries, HigherFirst)
  }

  lemma RankOf(entries: seq<Entry>, policies: seq<Policy>, j: nat)
    requires Ranks(entries, policies) && DistinctNames(policies) && j < |policies|
    ensures |entries| == |policies|
    ensures var r := Rank(entries, policies[j].name); r < |entries| && entries[r] == EntryOf(policies[j])
  {
    var keys := Keys(policies, EntryOf);
    assert |multiset(entries)| == |entries| && |multiset(keys)| == |policies|;
    assert keys[j] in multiset(entries);
    var k :| 0 <= k < |entries| && entries[k] == keys[j];
    var r := Rank(entries, policies[j].name);
    assert r <= k;
    assert entries[r] in multiset(keys);
    var i :| 0 <= i < |keys| && keys[i] == entries[r];
    assert policies[i].name == policies[j].name;
  }

  lemma RanksDistinct(entries: seq<Entry>, policies: seq<Policy>)
    requires Ranks(entries, policies) && DistinctNames(policies)
    ensures DistinctKeys(entries, (e: Entry) => e.name)
  {
    RearrangedStaysDistinct(Keys(policies, EntryOf), entries, (e: Entry) => e.name);
  }

  /** Each policy's position is its rank plus one; nothing else changes. */
  ghost predicate PlacedBy(policies: seq<Policy>, placed: seq<Policy>, entries: seq<Entry>) {
    && |placed| == |policies|
    && (forall j :: 0 <= j < |placed| ==> placed[j] == policies[j].(position := Some(Rank(entries, policies[j].name) + 1)))
  }

  /** Positions 1..n, each once, and a policy of higher priority before one of lower. */
  ghost predicate WellPlaced(policies: seq<Policy>) {
    && (forall j :: 0 <= j < |policies| ==> policies[j].position.Some? && 1 <= policies[j].position.value <= |policies|)
    && (forall i, j :: 0 <= i < |policies| && 0 <= j < |policies| && policies[i].position == policies[j].position ==> i == j)
    && (forall i, j :: 0 <= i < |policies| && 0 <= j < |policies| && Priority(policies[i]) > Priority(policies[j]) ==>
      policies[i].position.value < policies[j].position.value)
  }

  lemma RanksPlaceWell(policies: seq<Policy>, placed: seq<Policy>, entries: seq<Entry>)
    requires Ranks(entries, policies) && DistinctNames(policies) && PlacedBy(policies, placed, entries)
    ensures WellPlaced(placed)
  {
    forall j | 0 <= j < |policies|
      ensures |entries| == |policies| && Rank(entries, policies[j].name) < |entries|
      ensures Rank(entries, policies[j].name) < |entries| ==>
                entries[Rank(entries, policies[j].name)] == EntryOf(policies[j])
    {
      RankOf(entries, policies, j);
    }
    forall i, j | 0 <= i < |placed| && 0 <= j < |placed| && Priority(placed[i]) > Priority(placed[j])
      ensures placed[i].position.value < placed[j].position.value
    {
      var a, b := Rank(entries, policies[i].name), Rank(entries, policies[j].name);
      assert entries[a] == EntryOf(policies[i]) && entries[b] == EntryOf(policies[j]);
    }
  }

  /** For every sort the library may produce: a permutation of 1..n with higher priorities first. */
  method AddPositions(policies: seq<Policy>) returns (r: seq<Policy>)
    ensures |r| == |policies| && forall j :: 0 <= j < |r| ==> Unplaced(r[j]) == Unplaced(policies[j])
    ensures DistinctNames(policies) ==> WellPlaced(r)
  {
    var entries: seq<Entry> := [];
    for i := 0 to |policies|
      invariant entries == Keys(policies[..i], EntryOf)
    {
      var priority := GetPolicyPriority(policies[i]);
      entries := entries + [Entry(policies[i].name, priority)];
      assert entries == Keys(policies[..i + 1], EntryOf);
    }
    assert policies[..|policies|] == policies;
    entries := SortSlice(entries, HigherFirst);
    assert Ranks(entries, policies);
    if DistinctNames(policies) {
      RanksDistinct(entries, policies);
    }
    r := policies;
    for i := 0 to |entries|
      invariant |r| == |policies| && forall j :: 0 <= j < |r| ==> Unplaced(r[j]) == Unplaced(policies[j])
      invariant DistinctNames(policies) ==> forall j :: 0 <= j < |r| && Rank(entries, policies[j].name) < i ==>
        r[j].position == Some(Rank(entries, policies[j].name) + 1)
    {
      r := PlaceOne(policies, r, entries, i);
    }
    if DistinctNames(policies) {
      forall j | 0 <= j < |r| ensures r[j] == policies[j].(position := Some(Rank(entries, policies[j].name) + 1)) {
        RankOf(entries, policies, j);
        assert Unplaced(r[j]) == Unplaced(policies[j]);
      }
      RanksPlaceWell(policies, r, entries);
    }
  }

  /** Gives the first policy of the entry's name its place. */
  method PlaceOne(ghost policies: seq<Policy>, was: seq<Policy>, entries: seq<Entry>, i: nat) returns (r: seq<Policy>)
    requires i < |entries| && |was| == |policies|
    requires forall j :: 0 <= j < |was| ==> Unplaced(was[j]) == Unplaced(policies[j])
    ensures |r| == |was| && forall j :: 0 <= j < |r| ==> Unplaced(r[j]) == Unplaced(policies[j])
    ensures forall j :: 0 <= j < |r| && was[j].name != entries[i].name ==> r[j] == was[j]
    ensures DistinctNames(policies) ==>
              forall j :: 0 <= j < |r| && was[j].name == entries[i].name ==> r[j] == was[j].(position := Some(i + 1))
  {
    r := was;
    for j := 0 to |r|
      invariant r == was && forall k :: 0 <= k < j ==> was[k].name != entries[i].name
    {
      assert Unplaced(was[j]).name == Unplaced(policies[j]).name;
      if r[j].name == entries[i].name {
        r := r[j := r[j].(position := Some(i + 1))];
        forall k | 0 <= k < |r| && was[k].name == entries[i].name && DistinctNames(policies) ensures k == j {
          assert Unplaced(was[k]).name == policies[k].name;
        }
        return;
      }
    }
  }

  /** Sorting the placed policies by name keeps every policy's place. */
  lemma RearrangedStaysPlaced(a: seq<Policy>, b: seq<Policy>)
    requires WellPlaced(a) && multiset(a) == multiset(b)
    ensures WellPlaced(b)
  {
    assert |multiset(a)| == |a| && |multiset(b)| == |b|;
    forall j | 0 <= j < |b| ensures exists i :: 0 <= i < |a| && a[i] == b[j] {
      assert b[j] in multiset(a);
    }
    assert DistinctKeys(a, (p: Policy) => p.position);
    RearrangedStaysDistinct(a, b, (p: Policy) => p.position);
  }

  // ----- How far positions are determined -----

  function Above(policies: seq<Policy>, priority: int): set<nat> {
    set j: nat | j < |policies| && Priority(policies[j]) > priority
  }

  function AtLeast(policies: seq<Policy>, priority: int): set<nat> {
    set j: nat | j < |policies| && Priority(policies[j]) >= priority
  }

  /** Policies whose places lie in a range are no more than the range has places. */
  lemma {:induction false} PlacesFit(policies: seq<Policy>, some: set<nat>, low: nat, high: nat)
    requires WellPlaced(policies) && low <= high && forall j :: j in some ==> j < |policies|
    requires forall j :: j in some ==> low < policies[j].position.value <= high
    ensures |some| <= high - low
    decreases high
  {
    if low == high {
      assert some == {};
    } else if j :| j in some && policies[j].position.value == high {
      PlacesFit(policies, some - {j}, low, high - 1);
    } else {
      PlacesFit(policies, some, low, high - 1);
    }
  }

  function Below(policies: seq<Policy>, priority: int): set<nat> {
    set j: nat | j < |policies| && Priority(policies[j]) < priority
  }

  /** Every index is in one of two sets that exclude each other. */
  lemma {:induction false} TwoParts(low: set<nat>, high: set<nat>, n: nat)
    requires low !! high && forall j: nat :: j in low || j in high <==> j < n
    ensures |low| + |high| == n
  {
    if n == 0 {
      assert low == {} && high == {};
    } else if n - 1 in low {
      TwoParts(low - {n - 1}, high, n - 1);
    } else {
      TwoParts(low, high - {n - 1}, n - 1);
    }
  }

  /** A policy comes after all of higher priority, and among those of its own. */
  lemma PlaceOf(policies: seq<Policy>, i: nat)
    requires WellPlaced(policies) && i < |policies|
    ensures |Above(policies, Priority(policies[i]))| < policies[i].position.value
    ensures policies[i].position.value <= |AtLeast(policies, Priority(policies[i]))|
  {
    var priority, place := Priority(policies[i]), policies[i].position.value;
    PlacesFit(policies, Above(policies, priority), 0, place - 1);
    PlacesFit(policies, Below(policies, priority), place, |policies|);
    TwoParts(Below(policies, priority), AtLeast(policies, priority), |policies|);
  }

  /** No other policy has its priority. */
  predicate Alone(policies: seq<Policy>, i: nat)
    requires i < |policies|
  {
    forall j :: 0 <= j < |policies| && j != i ==> Priority(policies[j]) != Priority(policies[i])
  }

  lemma SamePriority(a: seq<Policy>, b: seq<Policy>, j: nat)
    requires Keys(a, Unplaced) == Keys(b, Unplaced) && j < |a|
    ensures |b| == |a| && Unplaced(a[j]) == Unplaced(b[j]) && Priority(a[j]) == Priority(b[j])
  {
    assert |Keys(a, Unplaced)| == |a| && |Keys(b, Unplaced)| == |b|;
    assert Keys(a, Unplaced)[j] == Keys(b, Unplaced)[j];
    assert Unplaced(a[j]).rules == a[j].rules && Unplaced(b[j]).rules == b[j].rules;
  }

  lemma SameRange(a: seq<Policy>, b: seq<Policy>, i: nat)
    requires |a| == |b| && i < |a| && Alone(a, i) && forall j :: 0 <= j < |a| ==> Priority(a[j]) == Priority(b[j])
    ensures |Above(a, Priority(a[i]))| + 1 == |AtLeast(a, Priority(a[i]))|
    ensures Above(a, Priority(a[i])) == Above(b, Priority(b[i]))
            && AtLeast(a, Priority(a[i])) == AtLeast(b, Priority(b[i]))
  {
    assert AtLeast(a, Priority(a[i])) == Above(a, Priority(a[i])) + {i};
  }

  /** The same policies in the same order, placed in two ways: they differ only among equal priorities. */
  lemma SamePlace(a: seq<Policy>, b: seq<Policy>, i: nat)
    requires WellPlaced(a) && WellPlaced(b) && Keys(a, Unplaced) == Keys(b, Unplaced) && i < |a| && Alone(a, i)
    ensures |b| == |a| && b[i] == a[i]
  {
    SamePriority(a, b, i);
    forall j | 0 <= j < |a| ensures Priority(a[j]) == Priority(b[j]) {
      SamePriority(a, b, j);
    }
    SameRange(a, b, i);
    PlaceOf(a, i);
    PlaceOf(b, i);
    assert a[i].position == b[i].position;
  }
}
