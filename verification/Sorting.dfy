/**
 Sorting as Go's sort.Slice does it: some permutation in order, not necessarily a stable one.
 `SortSlice` is a method so that its callers know nothing beyond that.
 */
module Sorting {
  import opened GlbTypes

  ghost predicate WeakOrder<T(!new)>(less: (T, T) -> bool) {
    && (forall a :: !less(a, a))
    && (forall a, b, c :: less(a, b) && less(b, c) ==> less(a, c))
    && (forall a, b, c :: !less(a, b) && !less(b, c) ==> !less(a, c))
  }

  /** No element belongs before an earlier one. */
  ghost predicate InOrder<T>(s: seq<T>, less: (T, T) -> bool) {
    forall i, j :: 0 <= i < j < |s| ==> !less(s[j], s[i])
  }

  lemma InsertKeepsOrder<T(!new)>(s: seq<T>, k: nat, x: T, less: (T, T) -> bool)
    requires WeakOrder(less) && InOrder(s, less) && k <= |s|
    requires k > 0 ==> !less(x, s[k - 1])
    requires k < |s| ==> less(x, s[k])
    ensures InOrder(s[..k] + [x] + s[k..], less)
  {
    var t := s[..k] + [x] + s[k..];
    forall i, j | 0 <= i < j < |t| ensures !less(t[j], t[i]) {
      if j < k {
        assert !less(s[j], s[i]);
      } else if j == k {
        assert i == k - 1 || !less(s[k - 1], s[i]);
      } else if i == k {
        assert less(x, s[k]) && (j - 1 == k || !less(s[j - 1], s[k]));
      } else {
        var p := if i < k then i else i - 1;
        assert !less(s[j - 1], s[p]);
      }
    }
  }

  lemma InsertAdds<T>(s: seq<T>, k: nat, x: T)
    requires k <= |s|
    ensures multiset(s[..k] + [x] + s[k..]) == multiset(s) + multiset{x}
  {
    assert s == s[..k] + s[k..];
  }

  lemma PrefixAdds<T>(s: seq<T>, n: nat)
    requires n < |s|
    ensures multiset(s[..n + 1]) == multiset(s[..n]) + multiset{s[n]}
  {
    assert s[..n + 1] == s[..n] + [s[n]];
  }

  method SortSlice<T(!new, ==)>(s: seq<T>, less: (T, T) -> bool) returns (r: seq<T>)
    requires WeakOrder(less)
    ensures multiset(r) == multiset(s)
    ensures InOrder(r, less)
  {
    r := [];
    for n := 0 to |s|
      invariant multiset(r) == multiset(s[..n]) && InOrder(r, less)
    {
      var k := |r|;
      while k > 0 && less(s[n], r[k - 1])
        invariant 0 <= k <= |r| && (k < |r| ==> less(s[n], r[k]))
      {
        k := k - 1;
      }
      InsertKeepsOrder(r, k, s[n], less);
      InsertAdds(r, k, s[n]);
      PrefixAdds(s, n);
      r := r[..k] + [s[n]] + r[k..];
    }
    assert s[..|s|] == s;
  }

  // ----- Orders -----

  /** Go compares strings character by character. */
  predicate StringLess(a: string, b: string) {
    b != "" && (a == "" || a[0] < b[0] || (a[0] == b[0] && StringLess(a[1..], b[1..])))
  }

  /** One string comes before another when it is a proper prefix of it, or has the smaller character where they first differ. */
  lemma {:induction false} StringLessExactlyWhen(a: string, b: string)
    ensures StringLess(a, b) <==>
            exists n: nat :: n <= |a| && n < |b| && a[..n] == b[..n] && (n == |a| || a[n] < b[n])
  {
    if a != "" && b != "" && a[0] == b[0] {
      StringLessExactlyWhen(a[1..], b[1..]);
      if n: nat :| n <= |a| && n < |b| && a[..n] == b[..n] && (n == |a| || a[n] < b[n]) {
        assert n > 0;
        assert a[1..][..n - 1] == a[..n][1..] && b[1..][..n - 1] == b[..n][1..];
      }
      if n: nat :| n <= |a[1..]| && n < |b[1..]| && a[1..][..n] == b[1..][..n] && (n == |a[1..]| || a[1..][n] < b[1..][n]) {
        assert a[..n + 1] == [a[0]] + a[1..][..n] && b[..n + 1] == [b[0]] + b[1..][..n];
      }
    } else if b != "" && (a == "" || a[0] < b[0]) {
      assert a[..0] == b[..0];
    }
  }

  lemma {:induction false} StringLessTotal(a: string, b: string)
    ensures !StringLess(a, b) && !StringLess(b, a) <==> a == b
    ensures !(StringLess(a, b) && StringLess(b, a))
  {
    if a != "" && b != "" {
      StringLessTotal(a[1..], b[1..]);
      assert a == [a[0]] + a[1..] && b == [b[0]] + b[1..];
    }
  }

  lemma {:induction false} StringLessTransitive(a: string, b: string, c: string)
    requires StringLess(a, b) && StringLess(b, c)
    ensures StringLess(a, c)
  {
    if a != "" && a[0] == b[0] == c[0] {
      StringLessTransitive(a[1..], b[1..], c[1..]);
    }
  }

  ghost predicate TotalOrder<K(!new)>(less: (K, K) -> bool) {
    && WeakOrder(less)
    && (forall a, b :: a != b ==> less(a, b) || less(b, a))
  }

  lemma StringOrder()
    ensures TotalOrder(StringLess)
  {
    forall a, b ensures a != b ==> StringLess(a, b) || StringLess(b, a) { StringLessTotal(a, b); }
    forall a ensures !StringLess(a, a) { StringLessTotal(a, a); }
    forall a, b, c | StringLess(a, b) && StringLess(b, c) ensures StringLess(a, c) { StringLessTransitive(a, b, c); }
    forall a, b, c | !StringLess(a, b) && !StringLess(b, c) ensures !StringLess(a, c) {
      StringLessTotal(a, b);
      StringLessTotal(b, c);
      StringLessTotal(a, c);
      if b != a && b != c {
        StringLessTransitive(c, b, a);
      }
    }
  }

  // ----- One sorted form -----

  function Keys<T, K>(s: seq<T>, key: T -> K): (r: seq<K>)
    ensures |r| == |s| && forall i :: 0 <= i < |s| ==> r[i] == key(s[i])
  {
    seq(|s|, i requires 0 <= i < |s| => key(s[i]))
  }

  function Without<T>(s: seq<T>, i: nat): seq<T>
    requires i < |s|
  {
    s[..i] + s[i + 1..]
  }

  lemma WithoutTakesOne<T>(s: seq<T>, i: nat)
    requires i < |s|
    ensures multiset(s) == multiset(Without(s, i)) + multiset{s[i]}
  {
    assert s == s[..i] + [s[i]] + s[i + 1..];
  }

  lemma WithoutOne<T, K>(s: seq<T>, i: nat, key: T -> K)
    requires i < |s|
    ensures multiset(Without(s, i)) == multiset(s) - multiset{s[i]}
    ensures multiset(Keys(s, key)) == multiset(Keys(Without(s, i), key)) + multiset{key(s[i])}
  {
    WithoutTakesOne(s, i);
    WithoutTakesOne(Keys(s, key), i);
    assert Without(Keys(s, key), i) == Keys(Without(s, i), key);
  }

  /** Rearranging elements rearranges their keys. */
  lemma {:induction false} KeysRearranged<T, K>(a: seq<T>, b: seq<T>, key: T -> K)
    requires multiset(a) == multiset(b)
    ensures multiset(Keys(a, key)) == multiset(Keys(b, key))
    decreases |a|
  {
    if a == [] {
      assert |multiset(b)| == 0;
    } else {
      assert a[0] in multiset(b);
      var j :| 0 <= j < |b| && b[j] == a[0];
      WithoutOne(a, 0, key);
      WithoutOne(b, j, key);
      KeysRearranged(Without(a, 0), Without(b, j), key);
    }
  }

  lemma FirstOfTail<K>(s: seq<K>)
    requires s != []
    ensures multiset(s[1..]) == multiset(s) - multiset{s[0]}
  {
    assert s == [s[0]] + s[1..];
  }

  /** Two sorted arrangements begin with the same key. */
  lemma SameFirst<K(!new)>(a: seq<K>, b: seq<K>, less: (K, K) -> bool)
    requires TotalOrder(less) && InOrder(a, less) && InOrder(b, less)
    requires multiset(a) == multiset(b) && a != []
    ensures b != [] && a[0] == b[0]
  {
    assert a[0] in multiset(b);
    assert b[0] in multiset(a);
    var i :| 0 <= i < |a| && a[i] == b[0];
    var j :| 0 <= j < |b| && b[j] == a[0];
  }

  lemma {:induction false} SortedKeysUnique<K(!new)>(a: seq<K>, b: seq<K>, less: (K, K) -> bool)
    requires TotalOrder(less) && InOrder(a, less) && InOrder(b, less)
    requires multiset(a) == multiset(b)
    ensures a == b
    decreases |a|
  {
    if a == [] {
      assert |multiset(b)| == 0;
    } else {
      SameFirst(a, b, less);
      FirstOfTail(a);
      FirstOfTail(b);
      SortedKeysUnique(a[1..], b[1..], less);
      assert a == [a[0]] + a[1..] && b == [b[0]] + b[1..];
    }
  }

  predicate DistinctKeys<T, K(==)>(s: seq<T>, key: T -> K) {
    forall i, j :: 0 <= i < j < |s| ==> key(s[i]) != key(s[j])
  }

  lemma TwiceMeansTwo<T>(s: seq<T>, i: nat, j: nat)
    requires i < j < |s| && s[i] == s[j]
    ensures multiset(s)[s[i]] >= 2
  {
    assert s == s[..i] + [s[i]] + s[i + 1..j] + [s[j]] + s[j + 1..];
  }

  lemma OnceOnly<T>(s: seq<T>, m: nat)
    requires m < |s| && forall k :: 0 <= k < |s| && k != m ==> s[k] != s[m]
    ensures multiset(s)[s[m]] == 1
  {
    assert s == s[..m] + [s[m]] + s[m + 1..];
    assert s[m] !in s[..m] && s[m] !in s[m + 1..];
    assert s[m] !in multiset(s[..m]) && s[m] !in multiset(s[m + 1..]);
  }

  lemma RearrangedStaysDistinct<T, K>(a: seq<T>, b: seq<T>, key: T -> K)
    requires DistinctKeys(a, key) && multiset(a) == multiset(b)
    ensures DistinctKeys(b, key)
  {
    forall i, j | 0 <= i < j < |b| ensures key(b[i]) != key(b[j]) {
      assert b[i] in multiset(a) && b[j] in multiset(a);
      var x :| 0 <= x < |a| && a[x] == b[i];
      var y :| 0 <= y < |a| && a[y] == b[j];
      if b[i] == b[j] {
        TwiceMeansTwo(b, i, j);
        forall k | 0 <= k < |a| && k != x ensures a[k] != a[x] {
          assert key(a[k]) != key(a[x]);
        }
        OnceOnly(a, x);
      }
    }
  }

  ghost predicate SortedBy<T, K>(s: seq<T>, key: T -> K, less: (K, K) -> bool) {
    forall i, j :: 0 <= i < j < |s| ==> !less(key(s[j]), key(s[i]))
  }

  /** Whatever order the elements came in, sorting them leaves one sequence of keys, and of elements if keys differ. */
  lemma SortedFormUnique<T, K(!new)>(a: seq<T>, b: seq<T>, key: T -> K, less: (K, K) -> bool)
    requires TotalOrder(less) && SortedBy(a, key, less) && SortedBy(b, key, less)
    requires multiset(a) == multiset(b)
    ensures |a| == |b| && forall i :: 0 <= i < |a| ==> key(a[i]) == key(b[i])
    ensures DistinctKeys(a, key) ==> a == b
  {
    KeysRearranged(a, b, key);
    SortedKeysUnique(Keys(a, key), Keys(b, key), less);
    assert |a| == |Keys(a, key)| == |b|;
    forall i | 0 <= i < |a| ensures key(a[i]) == key(b[i]) {
      assert Keys(a, key)[i] == Keys(b, key)[i];
    }
    if DistinctKeys(a, key) {
      forall i | 0 <= i < |a| ensures a[i] == b[i] {
        assert b[i] in multiset(a);
        var j :| 0 <= j < |a| && a[j] == b[i];
        assert key(a[j]) == key(a[i]);
      }
    }
  }

  // ----- Security rules -----

  datatype SecurityRule = SecurityRule(
    protocol: string, fromPort: int, toPort: int, cidr: string, description: string, direction: string, etherType: string)

  /** The five fields rules are sorted by. */
  datatype RuleKey = RuleKey(direction: string, protocol: string, cidr: string, fromPort: int, toPort: int)

  function KeyOfRule(r: SecurityRule): RuleKey {
    RuleKey(r.direction, r.protocol, r.cidr, r.fromPort, r.toPort)
  }

  predicate RuleKeyLess(a: RuleKey, b: RuleKey) {
    if a.direction != b.direction then StringLess(a.direction, b.direction)
    else if a.protocol != b.protocol then StringLess(a.protocol, b.protocol)
    else if a.cidr != b.cidr then StringLess(a.cidr, b.cidr)
    else if a.fromPort != b.fromPort then a.fromPort < b.fromPort
    else a.toPort < b.toPort
  }

  lemma StringLessNegated(a: string, b: string, c: string)
    ensures a != b ==> (!StringLess(a, b) <==> StringLess(b, a))
    ensures !StringLess(a, a)
    ensures StringLess(a, b) && StringLess(b, c) ==> StringLess(a, c)
  {
    StringLessTotal(a, b);
    StringLessTotal(a, a);
    if StringLess(a, b) && StringLess(b, c) { StringLessTransitive(a, b, c); }
  }

  lemma RuleKeyTotal(a: RuleKey, b: RuleKey)
    ensures !RuleKeyLess(a, a)
    ensures a != b ==> (!RuleKeyLess(a, b) <==> RuleKeyLess(b, a))
  {
    StringLessNegated(a.direction, b.direction, "");
    StringLessNegated(a.protocol, b.protocol, "");
    StringLessNegated(a.cidr, b.cidr, "");
  }

  lemma RuleKeyTransitive(a: RuleKey, b: RuleKey, c: RuleKey)
    requires RuleKeyLess(a, b) && RuleKeyLess(b, c)
    ensures RuleKeyLess(a, c)
  {
    StringLessNegated(a.direction, b.direction, c.direction);
    StringLessNegated(a.protocol, b.protocol, c.protocol);
    StringLessNegated(a.cidr, b.cidr, c.cidr);
  }

  lemma RuleKeyOrder()
    ensures TotalOrder(RuleKeyLess)
  {
    forall a, b ensures !RuleKeyLess(a, a) && (a != b ==> RuleKeyLess(a, b) || RuleKeyLess(b, a)) { RuleKeyTotal(a, b); }
    forall a, b, c | RuleKeyLess(a, b) && RuleKeyLess(b, c) ensures RuleKeyLess(a, c) { RuleKeyTransitive(a, b, c); }
    forall a, b, c | !RuleKeyLess(a, b) && !RuleKeyLess(b, c) ensures !RuleKeyLess(a, c) {
      RuleKeyTotal(a, b);
      RuleKeyTotal(b, c);
      RuleKeyTotal(a, c);
      if b != a && b != c {
        RuleKeyTransitive(c, b, a);
      }
    }
  }

  predicate RuleLess(a: SecurityRule, b: SecurityRule) {
    RuleKeyLess(KeyOfRule(a), KeyOfRule(b))
  }

  lemma RuleOrder()
    ensures TotalOrder(RuleKeyLess) && WeakOrder(RuleLess)
  {
    RuleKeyOrder();
  }

  /** Rules go by direction, then protocol, then range, then first and last port. */
  lemma RulesGoBy(rules: seq<SecurityRule>, i: nat, j: nat)
    requires SortedBy(rules, KeyOfRule, RuleKeyLess) && i < j < |rules|
    ensures var a, b := rules[i], rules[j];
            && !StringLess(b.direction, a.direction)
            && (a.direction == b.direction ==> !StringLess(b.protocol, a.protocol))
            && (a.direction == b.direction && a.protocol == b.protocol ==> !StringLess(b.cidr, a.cidr))
            && (a.direction == b.direction && a.protocol == b.protocol && a.cidr == b.cidr ==> a.fromPort <= b.fromPort)
            && (a.direction == b.direction && a.protocol == b.protocol && a.cidr == b.cidr && a.fromPort == b.fromPort ==>
                  a.toPort <= b.toPort)
  {
    var a, b := rules[i], rules[j];
    StringLessNegated(a.direction, a.direction, "");
    StringLessNegated(a.protocol, a.protocol, "");
    StringLessNegated(a.cidr, a.cidr, "");
  }

  /** Sorts in place; the result is the same in the five fields for every initial order of the same rules. */
  method SortSecurityGroupRules(rules: array<SecurityRule>)
    modifies rules
    ensures multiset(rules[..]) == multiset(old(rules[..]))
    ensures SortedBy(rules[..], KeyOfRule, RuleKeyLess)
  {
    RuleOrder();
    var sorted := SortSlice(rules[..], RuleLess);
    assert |multiset(sorted)| == |sorted|;
    assert |sorted| == rules.Length by {
      assert |multiset(rules[..])| == rules.Length;
    }
    forall i | 0 <= i < rules.Length {
      rules[i] := sorted[i];
    }
    assert rules[..] == sorted;
  }

  /** Two orders of the same rules sort to rules that agree in all five fields, and to the same list if those differ. */
  lemma RulesHaveOneSortedForm(a: seq<SecurityRule>, b: seq<SecurityRule>)
    requires SortedBy(a, KeyOfRule, RuleKeyLess) && SortedBy(b, KeyOfRule, RuleKeyLess)
    requires multiset(a) == multiset(b)
    ensures |a| == |b| && forall i :: 0 <= i < |a| ==> KeyOfRule(a[i]) == KeyOfRule(b[i])
    ensures DistinctKeys(a, KeyOfRule) ==> a == b
  {
    RuleKeyOrder();
    SortedFormUnique(a, b, KeyOfRule, RuleKeyLess);
  }
}
