/**
 Order-independent equality of the created-resource lists. A status patch is skipped when the
 helpers here say that nothing changed, so they must never call different lists equal.
 */
module Equality {
  import opened GlbTypes

  /** The shape every helper shares: same length, and every left element has an equal right element. */
  predicate Matches<T>(a: seq<T>, b: seq<T>, eq: (T, T) -> bool) {
    |a| == |b| && forall i :: 0 <= i < |a| ==> Contains(b, a[i], eq)
  }

  predicate Contains<T>(b: seq<T>, x: T, eq: (T, T) -> bool) {
    exists j :: 0 <= j < |b| && eq(x, b[j])
  }

  predicate SlicesEqual<T(==)>(a: seq<T>, b: seq<T>) {
    |a| == |b| && forall x :: x in a ==> x in b
  }

  predicate GroupEqual(a: CreatedGroup, b: CreatedGroup) {
    a.id == b.id && a.name == b.name && SlicesEqual(a.members, b.members)
  }

  predicate GroupsEqual(a: seq<CreatedGroup>, b: seq<CreatedGroup>) {
    Matches(a, b, GroupEqual)
  }

  predicate PoolEqual(a: CreatedPool, b: CreatedPool) {
    a.id == b.id && a.name == b.name && GroupsEqual(a.groups, b.groups)
  }

  predicate PoolsEqual(a: seq<CreatedPool>, b: seq<CreatedPool>) {
    Matches(a, b, PoolEqual)
  }

  // ----- What the helpers should mean: equality once the order at every level is forgotten -----

  datatype GroupContent = GroupContent(id: Id, name: string, members: multiset<Member>)
  datatype PoolContent = PoolContent(id: Id, name: string, groups: multiset<GroupContent>)

  function GroupContentOf(g: CreatedGroup): GroupContent {
    GroupContent(g.id, g.name, multiset(g.members))
  }

  function GroupContents(s: seq<CreatedGroup>): seq<GroupContent> {
    seq(|s|, i requires 0 <= i < |s| => GroupContentOf(s[i]))
  }

  function PoolContentOf(p: CreatedPool): PoolContent {
    PoolContent(p.id, p.name, multiset(GroupContents(p.groups)))
  }

  function PoolContents(s: seq<CreatedPool>): seq<PoolContent> {
    seq(|s|, i requires 0 <= i < |s| => PoolContentOf(s[i]))
  }

  /** Nothing is listed twice, at any of the three levels. */
  predicate NothingTwice(s: seq<CreatedPool>) {
    && Distinct(PoolContents(s))
    && forall p :: p in s ==> GroupsNotTwice(p.groups)
  }

  predicate GroupsNotTwice(s: seq<CreatedGroup>) {
    && Distinct(GroupContents(s))
    && forall g :: g in s ==> Distinct(g.members)
  }

  // ----- The pigeonhole argument -----

  lemma StaysWithout<T>(b: seq<T>, j: nat, y: T)
    requires j < |b| && y in b && y != b[j]
    ensures y in b[..j] + b[j + 1..]
  {
    var k :| 0 <= k < |b| && b[k] == y;
    var others := b[..j] + b[j + 1..];
    assert if k < j then others[k] == y else others[k - 1] == y;
  }

  /** Distinct elements that all occur in a list no longer than theirs leave nothing else in it. */
  lemma {:induction false} CoverIsPermutation<T>(a: seq<T>, b: seq<T>)
    requires Distinct(a) && |a| == |b|
    requires forall x :: x in a ==> x in b
    ensures multiset(a) == multiset(b)
  {
    if |a| > 0 {
      var x, rest := a[0], a[1..];
      assert a == [x] + rest && x !in rest;
      assert a[0] in a;
      var j :| 0 <= j < |b| && b[j] == x;
      var others := b[..j] + b[j + 1..];
      assert b == b[..j] + [x] + b[j + 1..];
      forall y | y in rest ensures y in others {
        assert y in a;
        StaysWithout(b, j, y);
      }
      CoverIsPermutation(rest, others);
    }
  }

  lemma PermutationIsDistinct<T>(a: seq<T>, b: seq<T>)
    requires Distinct(a) && multiset(a) == multiset(b)
    ensures Distinct(b)
  {
    forall i, j | 0 <= i < j < |b| ensures b[i] != b[j] {
      if b[i] == b[j] {
        var x := b[i];
        assert b == b[..i] + [x] + b[i + 1..j] + [x] + b[j + 1..];
        assert multiset(a)[x] >= 2;
        DistinctCount(a, x);
      }
    }
  }

  lemma {:induction false} DistinctCount<T>(a: seq<T>, x: T)
    requires Distinct(a)
    ensures multiset(a)[x] <= 1
  {
    if |a| > 0 {
      assert a == [a[0]] + a[1..];
      DistinctCount(a[1..], x);
      if a[0] == x { assert x !in a[1..]; }
    }
  }

  lemma PermutationSameElements<T>(a: seq<T>, b: seq<T>)
    requires multiset(a) == multiset(b)
    ensures |a| == |b| && forall x :: x in a <==> x in b
  {
    assert |a| == |multiset(a)| && |b| == |multiset(b)|;
    forall x ensures x in a <==> x in b {
      assert x in a <==> x in multiset(a);
      assert x in b <==> x in multiset(b);
    }
  }

  /** The slice helper is multiset equality as soon as the left side lists nothing twice. */
  lemma SlicesEqualIsMultisetEquality<T>(a: seq<T>, b: seq<T>)
    requires Distinct(a)
    ensures SlicesEqual(a, b) <==> multiset(a) == multiset(b)
  {
    if SlicesEqual(a, b) {
      CoverIsPermutation(a, b);
    }
    if multiset(a) == multiset(b) {
      PermutationSameElements(a, b);
    }
  }

  /** One of two copies replaced: every element of the left side is still found, but the lists differ. */
  lemma CopyReplaced(a: seq<string>, i: nat, j: nat)
    requires i < j < |a| && a[i] == a[j]
    ensures var b := a[j := a[j] + "x"]; SlicesEqual(a, b) && multiset(a) != multiset(b)
  {
    var b := a[j := a[j] + "x"];
    forall x | x in a ensures x in b {
      var k :| 0 <= k < |a| && a[k] == x;
      assert b[if k == j then i else k] == x;
    }
    assert |b[j]| == |a[j]| + 1;
    ReplacedCount(a, j, b[j]);
  }

  lemma ReplacedCount<T>(a: seq<T>, j: nat, x: T)
    requires j < |a| && x != a[j]
    ensures multiset(a[j := x])[a[j]] == multiset(a)[a[j]] - 1
  {
    assert a == a[..j] + [a[j]] + a[j + 1..] && a[j := x] == a[..j] + [x] + a[j + 1..];
  }

  ghost predicate ComparedRight(a: seq<string>) {
    forall b: seq<string> :: SlicesEqual(a, b) <==> multiset(a) == multiset(b)
  }

  /**
   And that is exactly when: a left side that lists an element twice is called equal to a
   list that it is not a reordering of (one of the two copies replaced by anything else).
   */
  lemma SlicesEqualExactlyWhenDistinct(a: seq<string>)
    ensures Distinct(a) <==> ComparedRight(a)
  {
    if Distinct(a) {
      forall b: seq<string> ensures SlicesEqual(a, b) <==> multiset(a) == multiset(b) {
        SlicesEqualIsMultisetEquality(a, b);
      }
    } else {
      var i, j :| 0 <= i < j < |a| && a[i] == a[j];
      CopyReplaced(a, i, j);
    }
  }

  /** Matching under an equality that compares contents is the slice helper on the contents. */
  lemma MatchesByContent<T, C>(a: seq<T>, b: seq<T>, eq: (T, T) -> bool, ca: seq<C>, cb: seq<C>)
    requires |ca| == |a| && |cb| == |b|
    requires forall i, j :: 0 <= i < |a| && 0 <= j < |b| ==> (eq(a[i], b[j]) <==> ca[i] == cb[j])
    requires Distinct(ca)
    ensures Matches(a, b, eq) <==> multiset(ca) == multiset(cb)
  {
    SlicesEqualIsMultisetEquality(ca, cb);
    if Matches(a, b, eq) {
      forall x | x in ca ensures x in cb {
        var i :| 0 <= i < |a| && ca[i] == x;
        assert Contains(b, a[i], eq);
        var j :| 0 <= j < |b| && eq(a[i], b[j]);
        assert cb[j] == x;
      }
    }
    if SlicesEqual(ca, cb) {
      forall i | 0 <= i < |a| ensures Contains(b, a[i], eq) {
        assert ca[i] in cb;
        var j :| 0 <= j < |b| && cb[j] == ca[i];
        assert eq(a[i], b[j]);
      }
    }
  }

  lemma GroupsEqualIsContentEquality(a: seq<CreatedGroup>, b: seq<CreatedGroup>)
    requires GroupsNotTwice(a)
    ensures GroupsEqual(a, b) <==> multiset(GroupContents(a)) == multiset(GroupContents(b))
  {
    var ca, cb := GroupContents(a), GroupContents(b);
    forall i, j | 0 <= i < |a| && 0 <= j < |b| ensures GroupEqual(a[i], b[j]) <==> ca[i] == cb[j] {
      assert a[i] in a;
      SlicesEqualIsMultisetEquality(a[i].members, b[j].members);
    }
    MatchesByContent(a, b, GroupEqual, ca, cb);
  }

  /** The three-level comparison of created pools is equality of what they hold, order forgotten. */
  lemma PoolsEqualIsContentEquality(a: seq<CreatedPool>, b: seq<CreatedPool>)
    requires NothingTwice(a)
    ensures PoolsEqual(a, b) <==> multiset(PoolContents(a)) == multiset(PoolContents(b))
  {
    var ca, cb := PoolContents(a), PoolContents(b);
    forall i, j | 0 <= i < |a| && 0 <= j < |b| ensures PoolEqual(a[i], b[j]) <==> ca[i] == cb[j] {
      assert a[i] in a;
      GroupsEqualIsContentEquality(a[i].groups, b[j].groups);
    }
    MatchesByContent(a, b, PoolEqual, ca, cb);
  }

  lemma GroupsNotTwiceCarries(a: seq<CreatedGroup>, b: seq<CreatedGroup>)
    requires GroupsNotTwice(a) && GroupsEqual(a, b)
    ensures GroupsNotTwice(b)
  {
    var ca, cb := GroupContents(a), GroupContents(b);
    GroupsEqualIsContentEquality(a, b);
    PermutationIsDistinct(ca, cb);
    PermutationSameElements(ca, cb);
    forall g | g in b ensures Distinct(g.members) {
      var j :| 0 <= j < |b| && b[j] == g;
      assert cb[j] in ca;
      var i :| 0 <= i < |a| && ca[i] == cb[j];
      assert a[i] in a;
      PermutationIsDistinct(a[i].members, g.members);
    }
  }

  /** Nothing listed twice carries over to an equal list, so the comparison can be turned round. */
  lemma NothingTwiceCarries(a: seq<CreatedPool>, b: seq<CreatedPool>)
    requires NothingTwice(a) && PoolsEqual(a, b)
    ensures NothingTwice(b) && PoolsEqual(b, a)
  {
    var ca, cb := PoolContents(a), PoolContents(b);
    PoolsEqualIsContentEquality(a, b);
    PermutationIsDistinct(ca, cb);
    PermutationSameElements(ca, cb);
    forall p | p in b ensures GroupsNotTwice(p.groups) {
      var j :| 0 <= j < |b| && b[j] == p;
      assert cb[j] in ca;
      var i :| 0 <= i < |a| && ca[i] == cb[j];
      assert a[i] in a;
      GroupsEqualIsContentEquality(a[i].groups, p.groups);
      GroupsNotTwiceCarries(a[i].groups, p.groups);
    }
    PoolsEqualIsContentEquality(b, a);
  }

  lemma PoolsEqualTransitive(a: seq<CreatedPool>, b: seq<CreatedPool>, c: seq<CreatedPool>)
    requires NothingTwice(a) && PoolsEqual(a, b) && PoolsEqual(b, c)
    ensures PoolsEqual(a, c)
  {
    NothingTwiceCarries(a, b);
    PoolsEqualIsContentEquality(a, b);
    PoolsEqualIsContentEquality(b, c);
    PoolsEqualIsContentEquality(a, c);
  }

  // ----- Lists keyed by id -----

  predicate DistinctPoolIds(s: seq<CreatedPool>) {
    forall i, j :: 0 <= i < j < |s| ==> s[i].id != s[j].id
  }

  predicate DistinctListenerIds(s: seq<CreatedListener>) {
    forall i, j :: 0 <= i < j < |s| ==> s[i].id != s[j].id
  }

  predicate DistinctGroupIds(s: seq<CreatedGroup>) {
    forall i, j :: 0 <= i < j < |s| ==> s[i].id != s[j].id
  }

  /** No id is on record twice: the API server keys both lists by id. */
  predicate DistinctRecords(st: Status) {
    DistinctListenerIds(st.listeners) && DistinctPoolIds(st.pools)
  }

  predicate TidyGroups(s: seq<CreatedGroup>) {
    DistinctGroupIds(s) && forall i :: 0 <= i < |s| ==> Distinct(s[i].members)
  }

  /** The record as the code keeps it: one entry per pool id, one per group id, no member twice. */
  predicate Tidy(s: seq<CreatedPool>) {
    DistinctPoolIds(s) && forall i :: 0 <= i < |s| ==> TidyGroups(s[i].groups)
  }

  lemma TidyGroupsNotTwice(s: seq<CreatedGroup>)
    requires TidyGroups(s)
    ensures GroupsNotTwice(s)
  {
    var contents := GroupContents(s);
    forall i, j | 0 <= i < j < |s| ensures contents[i] != contents[j] {
      assert contents[i].id == s[i].id && contents[j].id == s[j].id;
    }
  }

  lemma TidyNothingTwice(s: seq<CreatedPool>)
    requires Tidy(s)
    ensures NothingTwice(s)
  {
    var contents := PoolContents(s);
    forall i, j | 0 <= i < j < |s| ensures contents[i] != contents[j] {
      assert contents[i].id == s[i].id && contents[j].id == s[j].id;
    }
    forall p | p in s ensures GroupsNotTwice(p.groups) {
      var i :| 0 <= i < |s| && s[i] == p;
      TidyGroupsNotTwice(s[i].groups);
    }
  }

  /** Every group on the right of an equal comparison has its counterpart, member for member, on the left. */
  lemma EqualGroupsCover(a: seq<CreatedGroup>, b: seq<CreatedGroup>, k: nat) returns (m: nat)
    requires TidyGroups(a) && GroupsEqual(a, b) && k < |b|
    ensures m < |a| && a[m].id == b[k].id && a[m].name == b[k].name && multiset(a[m].members) == multiset(b[k].members)
  {
    var ca, cb := GroupContents(a), GroupContents(b);
    TidyGroupsNotTwice(a);
    GroupsEqualIsContentEquality(a, b);
    PermutationSameElements(ca, cb);
    assert cb[k] in ca;
    m :| 0 <= m < |a| && ca[m] == cb[k];
  }

  lemma EqualPoolsCover(a: seq<CreatedPool>, b: seq<CreatedPool>, j: nat) returns (i: nat)
    requires Tidy(a) && PoolsEqual(a, b) && j < |b|
    ensures i < |a| && a[i].id == b[j].id && a[i].name == b[j].name && GroupsEqual(a[i].groups, b[j].groups)
  {
    var ca, cb := PoolContents(a), PoolContents(b);
    TidyNothingTwice(a);
    PoolsEqualIsContentEquality(a, b);
    PermutationSameElements(ca, cb);
    assert cb[j] in ca;
    i :| 0 <= i < |a| && ca[i] == cb[j];
    TidyGroupsNotTwice(a[i].groups);
    GroupsEqualIsContentEquality(a[i].groups, b[j].groups);
  }

  lemma MatchesReflexive<T>(s: seq<T>, eq: (T, T) -> bool)
    requires forall i :: 0 <= i < |s| ==> eq(s[i], s[i])
    ensures Matches(s, s, eq)
  {
    forall i | 0 <= i < |s| ensures Contains(s, s[i], eq) {
      assert eq(s[i], s[i]);
    }
  }

  lemma GroupsEqualReflexive(s: seq<CreatedGroup>)
    ensures GroupsEqual(s, s)
  {
    MatchesReflexive(s, GroupEqual);
  }

  lemma PoolsEqualReflexive(s: seq<CreatedPool>)
    ensures PoolsEqual(s, s)
  {
    forall i | 0 <= i < |s| ensures PoolEqual(s[i], s[i]) {
      GroupsEqualReflexive(s[i].groups);
    }
    MatchesReflexive(s, PoolEqual);
  }
}
