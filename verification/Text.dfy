/**
 Splitting, joining and lower-casing, as Go's strings package does them on one-character
 separators and ASCII letters.
 */
module Text {
  function Split(s: string, c: char): (r: seq<string>)
    ensures |r| > 0
  {
    if s == "" then [""] else
      var rest := Split(s[1..], c);
      if s[0] == c then [""] + rest else [[s[0]] + rest[0]] + rest[1..]
  }

  function Join(items: seq<string>, c: char): string {
    if |items| == 0 then ""
    else if |items| == 1 then items[0]
    else items[0] + [c] + Join(items[1..], c)
  }

  function Count(s: string, c: char): nat {
    if s == "" then 0 else (if s[0] == c then 1 else 0) + Count(s[1..], c)
  }

  predicate Free(items: seq<string>, c: char) {
    forall i :: 0 <= i < |items| ==> c !in items[i]
  }

  function LowerChar(c: char): char {
    if 'A' <= c <= 'Z' then c - 'A' + 'a' else c
  }

  function ToLower(s: string): (r: string)
    ensures |r| == |s| && forall i :: 0 <= i < |s| ==> r[i] == LowerChar(s[i])
  {
    seq(|s|, i requires 0 <= i < |s| => LowerChar(s[i]))
  }

  function LowerAll(items: seq<string>): (r: seq<string>)
    ensures |r| == |items| && forall i :: 0 <= i < |items| ==> r[i] == ToLower(items[i])
  {
    seq(|items|, i requires 0 <= i < |items| => ToLower(items[i]))
  }

  // ----- Splitting undoes joining -----

  lemma {:induction false} SplitAtFirst(a: string, c: char, rest: string)
    requires c !in a
    ensures Split(a + [c] + rest, c) == [a] + Split(rest, c)
  {
    var s := a + [c] + rest;
    if a == "" {
      assert s == [c] + rest;
    } else {
      assert s[0] == a[0] && s[1..] == a[1..] + [c] + rest;
      SplitAtFirst(a[1..], c, rest);
      assert [a[0]] + a[1..] == a;
    }
  }

  lemma {:induction false} SplitOne(a: string, c: char)
    requires c !in a
    ensures Split(a, c) == [a]
  {
    if a != "" {
      SplitOne(a[1..], c);
      assert [a[0]] + a[1..] == a;
    }
  }

  lemma {:induction false} SplitJoin(items: seq<string>, c: char)
    requires items != [] && Free(items, c)
    ensures Split(Join(items, c), c) == items
  {
    assert c !in items[0];
    if |items| == 1 {
      SplitOne(items[0], c);
    } else {
      SplitJoin(items[1..], c);
      SplitAtFirst(items[0], c, Join(items[1..], c));
    }
  }

  // ----- How many pieces there are -----

  lemma {:induction false} SplitCount(s: string, c: char)
    ensures |Split(s, c)| == 1 + Count(s, c)
  {
    if s != "" {
      SplitCount(s[1..], c);
    }
  }

  lemma {:induction false} CountConcat(a: string, b: string, c: char)
    ensures Count(a + b, c) == Count(a, c) + Count(b, c)
  {
    if a == "" {
      assert a + b == b;
    } else {
      assert (a + b)[1..] == a[1..] + b;
      CountConcat(a[1..], b, c);
    }
  }

  lemma {:induction false} CountZero(s: string, c: char)
    ensures Count(s, c) == 0 <==> c !in s
  {
    if s != "" {
      CountZero(s[1..], c);
      assert s == [s[0]] + s[1..];
    }
  }

  /** Joining n items makes at least n - 1 separators, and more exactly when an item holds one. */
  lemma {:induction false} JoinCount(items: seq<string>, c: char)
    requires items != []
    ensures Count(Join(items, c), c) >= |items| - 1
    ensures Count(Join(items, c), c) == |items| - 1 <==> Free(items, c)
  {
    CountZero(items[0], c);
    if |items| > 1 {
      var rest := Join(items[1..], c);
      JoinCount(items[1..], c);
      CountConcat(items[0] + [c], rest, c);
      CountConcat(items[0], [c], c);
      assert Count([c], c) == 1;
      assert Free(items, c) <==> c !in items[0] && Free(items[1..], c) by {
        if c !in items[0] && Free(items[1..], c) {
          forall i | 0 <= i < |items| ensures c !in items[i] {
            if i > 0 { assert items[1..][i - 1] == items[i]; }
          }
        }
      }
    }
  }

  /** Each of the twenty-six capitals becomes its small letter, and nothing else changes. */
  lemma LowersCapitals(i: nat)
    requires i < 26
    ensures ToLower(["ABCDEFGHIJKLMNOPQRSTUVWXYZ"[i]]) == ["abcdefghijklmnopqrstuvwxyz"[i]]
    ensures forall c: char :: c !in "ABCDEFGHIJKLMNOPQRSTUVWXYZ" ==> ToLower([c]) == [c]
  {
    var capitals := "ABCDEFGHIJKLMNOPQRSTUVWXYZ";
    forall c: char | 'A' <= c <= 'Z' ensures c in capitals {
      assert capitals[c as int - 'A' as int] == c;
    }
  }

  lemma LowerTwice(s: string)
    ensures ToLower(ToLower(s)) == ToLower(s)
  {
  }

  lemma LowerKeepsComma(s: string)
    ensures ',' in ToLower(s) <==> ',' in s
  {
    forall i | 0 <= i < |s| ensures ToLower(s)[i] == ',' <==> s[i] == ',' {
      assert ToLower(s)[i] == LowerChar(s[i]);
    }
    if ',' in s {
      var i :| 0 <= i < |s| && s[i] == ',';
      assert ToLower(s)[i] == ',';
    }
  }
}
