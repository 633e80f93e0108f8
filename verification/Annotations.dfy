/** Comma-separated and key=value annotations (parser.go), and the listener ACL read from them (listeneracl.go). */
module Annotations {
  import opened GlbTypes
  import opened Text

  // ----- White space -----

  /** What Go's unicode.IsSpace accepts. */
  predicate IsSpace(c: char) {
    || '\U{0009}' <= c <= '\U{000D}' || c == ' ' || c == '\U{0085}' || c == '\U{00A0}' || c == '\U{1680}'
    || '\U{2000}' <= c <= '\U{200A}' || c == '\U{2028}' || c == '\U{2029}' || c == '\U{202F}'
    || c == '\U{205F}' || c == '\U{3000}'
  }

  predicate Trimmed(s: string) {
    s == "" || (!IsSpace(s[0]) && !IsSpace(s[|s| - 1]))
  }

  function TrimSpace(s: string): (r: string)
    ensures Trimmed(r) && (Trimmed(s) ==> r == s)
    ensures forall c :: c in r ==> c in s
    decreases |s|
  {
    if s == "" then s
    else if IsSpace(s[0]) then TrimSpace(s[1..])
    else if IsSpace(s[|s| - 1]) then TrimSpace(s[..|s| - 1])
    else s
  }

  predicate Blank(s: string) {
    forall i :: 0 <= i < |s| ==> IsSpace(s[i])
  }

  /** An item between white space is read as itself, and white space alone as nothing. */
  lemma {:induction false} TrimSpaceReads(before: string, item: string, after: string)
    requires Blank(before) && Blank(after) && Trimmed(item)
    ensures TrimSpace(before + item + after) == item
    decreases |before| + |after|
  {
    var s := before + item + after;
    if before != "" {
      assert s[0] == before[0] && s[1..] == before[1..] + item + after;
      TrimSpaceReads(before[1..], item, after);
    } else if after != "" {
      if item == "" {
        assert s == after && s[0] == after[0] && s[1..] == "" + item + after[1..];
        TrimSpaceReads("", item, after[1..]);
      } else {
        assert s[|s| - 1] == after[|after| - 1] && s[..|s| - 1] == "" + item + after[..|after| - 1];
        TrimSpaceReads("", item, after[..|after| - 1]);
      }
    } else {
      assert s == item;
    }
  }

  // ----- Lists -----

  /** The pieces of a list that remain once white space and empty pieces are gone. */
  function Pieces(parts: seq<string>): (r: seq<string>) {
    if parts == [] then [] else
      var piece := TrimSpace(parts[0]);
      (if piece == "" then [] else [piece]) + Pieces(parts[1..])
  }

  function SplitList(s: string): seq<string> {
    Pieces(Split(s, ','))
  }

  lemma {:induction false} PiecesGrow(parts: seq<string>, part: string)
    ensures Pieces(parts + [part]) == Pieces(parts) + if TrimSpace(part) == "" then [] else [TrimSpace(part)]
  {
    if parts == [] {
      assert parts + [part] == [part];
    } else {
      assert (parts + [part])[1..] == parts[1..] + [part];
      PiecesGrow(parts[1..], part);
    }
  }

  method SplitCommaSeparatedString(s: string) returns (result: seq<string>)
    ensures result == SplitList(s)
  {
    result := [];
    var parts := Split(s, ',');
    for i := 0 to |parts|
      invariant result == Pieces(parts[..i])
    {
      PiecesGrow(parts[..i], parts[i]);
      assert parts[..i + 1] == parts[..i] + [parts[i]];
      var part := TrimSpace(parts[i]);
      if |part| == 0 {
        continue;
      }
      result := result + [part];
    }
    assert parts[..|parts|] == parts;
  }

  /** An item that a comma-separated list can carry. */
  predicate Item(s: string) {
    s != "" && Trimmed(s) && ',' !in s
  }

  predicate AllItems(items: seq<string>) {
    forall i :: 0 <= i < |items| ==> Item(items[i])
  }

  lemma {:induction false} SplitIsFree(s: string, c: char)
    ensures Free(Split(s, c), c)
  {
    if s != "" {
      SplitIsFree(s[1..], c);
      assert c !in Split(s[1..], c)[0];
    }
  }

  lemma {:induction false} PiecesAreItems(parts: seq<string>)
    requires Free(parts, ',')
    ensures AllItems(Pieces(parts))
  {
    if parts != [] {
      assert ',' !in parts[0];
      assert Free(parts[1..], ',') by {
        forall i | 0 <= i < |parts[1..]| ensures ',' !in parts[1..][i] {
          assert parts[1..][i] == parts[i + 1];
        }
      }
      PiecesAreItems(parts[1..]);
    }
  }

  lemma {:induction false} ItemsArePieces(items: seq<string>)
    requires AllItems(items)
    ensures Pieces(items) == items
  {
    if items != [] {
      assert Item(items[0]);
      ItemsArePieces(items[1..]);
    }
  }

  predicate PadsWith(part: string, before: string, item: string, after: string) {
    part == before + item + after && Blank(before) && Blank(after)
  }

  /** The part holds the item between white space. */
  ghost predicate Pads(part: string, item: string) {
    Trimmed(item) && exists before, after :: PadsWith(part, before, item, after)
  }

  lemma PaddedIsRead(part: string, item: string)
    requires Pads(part, item)
    ensures TrimSpace(part) == item
  {
    var before, after :| PadsWith(part, before, item, after);
    TrimSpaceReads(before, item, after);
  }

  function NotEmpty(items: seq<string>): seq<string> {
    if items == [] then [] else (if items[0] == "" then [] else [items[0]]) + NotEmpty(items[1..])
  }

  /** However the items of a list are padded, and whatever blank pieces lie between them, they are read as they are. */
  lemma {:induction false} PaddedListReads(parts: seq<string>, items: seq<string>)
    requires |parts| == |items| && parts != [] && Free(parts, ',')
    requires forall i :: 0 <= i < |items| ==> Pads(parts[i], items[i])
    ensures SplitList(Join(parts, ',')) == NotEmpty(items)
  {
    SplitJoin(parts, ',');
    PaddedPieces(parts, items);
  }

  lemma {:induction false} PaddedPieces(parts: seq<string>, items: seq<string>)
    requires |parts| == |items|
    requires forall i :: 0 <= i < |items| ==> Pads(parts[i], items[i])
    ensures Pieces(parts) == NotEmpty(items)
  {
    if parts != [] {
      PaddedIsRead(parts[0], items[0]);
      forall i | 0 <= i < |items[1..]| ensures Pads(parts[1..][i], items[1..][i]) {
        assert Pads(parts[i + 1], items[i + 1]);
      }
      PaddedPieces(parts[1..], items[1..]);
    }
  }

  /** Joining with commas and splitting again gives back exactly the lists of proper items. */
  lemma ListRoundTripsExactlyWhen(items: seq<string>)
    ensures SplitList(Join(items, ',')) == items <==> AllItems(items)
  {
    SplitIsFree(Join(items, ','), ',');
    PiecesAreItems(Split(Join(items, ','), ','));
    if AllItems(items) {
      if items == [] {
        assert Pieces([""]) == [];
      } else {
        SplitJoin(items, ',');
        ItemsArePieces(items);
      }
    }
  }

  /** Whatever was written, what is read is a fixed point of writing and reading. */
  lemma ListIsNormal(s: string)
    ensures AllItems(SplitList(s))
    ensures SplitList(Join(SplitList(s), ',')) == SplitList(s)
  {
    SplitIsFree(s, ',');
    PiecesAreItems(Split(s, ','));
    ListRoundTripsExactlyWhen(SplitList(s));
  }

  // ----- Maps -----

  datatype Pair = Pair(key: string, value: string)

  /** The key before the first equals sign and the value behind it; an empty key is refused. */
  function Cut(s: string): Option<Pair> {
    var parts := Split(s, '=');
    if |parts| < 2 || parts[0] == "" then None
    else Some(Pair(parts[0], Join(parts[1..], '=')))
  }

  function Cuts(pieces: seq<string>): Option<seq<Pair>> {
    if pieces == [] then Some([]) else
      var first, rest := Cut(pieces[0]), Cuts(pieces[1..]);
      if first.None? || rest.None? then None else Some([first.value] + rest.value)
  }

  /** A later pair replaces an earlier one of the same key. */
  function ToMap(pairs: seq<Pair>): map<string, string> {
    if pairs == [] then map[] else
      var last := pairs[|pairs| - 1];
      ToMap(pairs[..|pairs| - 1])[last.key := last.value]
  }

  lemma {:induction false} CutsGrow(pieces: seq<string>, last: string)
    requires Cuts(pieces).Some? && Cut(last).Some?
    ensures Cuts(pieces + [last]) == Some(Cuts(pieces).value + [Cut(last).value])
  {
    var more := pieces + [last];
    if pieces == [] {
      assert more == [last] && more[1..] == [];
      assert [Cut(last).value] + [] == [] + [Cut(last).value];
    } else {
      assert more[0] == pieces[0] && more[1..] == pieces[1..] + [last];
      CutsGrow(pieces[1..], last);
      var first, rest := [Cut(pieces[0]).value], Cuts(pieces[1..]).value;
      assert first + (rest + [Cut(last).value]) == (first + rest) + [Cut(last).value];
    }
  }

  lemma {:induction false} CutsNeedAll(pieces: seq<string>, n: nat)
    requires n < |pieces| && Cut(pieces[n]).None?
    ensures Cuts(pieces).None?
  {
    if n > 0 {
      CutsNeedAll(pieces[1..], n - 1);
    }
  }

  /** Each key has the value of its last pair, and there is no other key. */
  lemma {:induction false} ToMapIs(pairs: seq<Pair>, key: string)
    ensures key in ToMap(pairs) <==> exists i :: 0 <= i < |pairs| && pairs[i].key == key
    ensures forall i :: 0 <= i < |pairs| && pairs[i].key == key && (forall j :: i < j < |pairs| ==> pairs[j].key != key) ==>
              ToMap(pairs)[key] == pairs[i].value
  {
    if pairs != [] {
      var n := |pairs| - 1;
      ToMapIs(pairs[..n], key);
      if pairs[n].key != key && key in ToMap(pairs) {
        var i :| 0 <= i < n && pairs[..n][i].key == key;
        assert pairs[i].key == key;
      }
      forall i | 0 <= i < |pairs| && pairs[i].key == key && (forall j :: i < j < |pairs| ==> pairs[j].key != key)
        ensures key in ToMap(pairs) && ToMap(pairs)[key] == pairs[i].value
      {
        if i < n {
          assert pairs[n].key != key && pairs[..n][i].key == key;
        }
      }
    }
  }

  lemma ToMapGrows(pairs: seq<Pair>, p: Pair)
    ensures ToMap(pairs + [p]) == ToMap(pairs)[p.key := p.value]
  {
    assert (pairs + [p])[..|pairs|] == pairs;
  }

  /** The map is the pieces' pairs, the last of each key; one piece that is not a pair refuses the whole. */
  method ParseStringMap(raw: string) returns (r: Option<map<string, string>>)
    ensures r == match Cuts(SplitList(raw)) { case None => None case Some(pairs) => Some(ToMap(pairs)) }
  {
    var pieces := SplitCommaSeparatedString(raw);
    var values: map<string, string> := map[];
    for i := 0 to |pieces|
      invariant Cuts(pieces[..i]).Some? && values == ToMap(Cuts(pieces[..i]).value)
    {
      var pair := Cut(pieces[i]);
      if pair.None? {
        CutsNeedAll(pieces, i);
        return None;
      }
      CutsGrow(pieces[..i], pieces[i]);
      ToMapGrows(Cuts(pieces[..i]).value, pair.value);
      assert pieces[..i + 1] == pieces[..i] + [pieces[i]];
      values := values[pair.value.key := pair.value.value];
    }
    assert pieces[..|pieces|] == pieces;
    r := Some(values);
  }

  function Written(pairs: seq<Pair>): (r: seq<string>)
    ensures |r| == |pairs| && forall i :: 0 <= i < |r| ==> r[i] == pairs[i].key + "=" + pairs[i].value
  {
    seq(|pairs|, i requires 0 <= i < |pairs| => pairs[i].key + "=" + pairs[i].value)
  }

  /** Pairs that survive being written as `key=value` and read back. */
  predicate Writable(pairs: seq<Pair>) {
    forall i :: 0 <= i < |pairs| ==> pairs[i].key != "" && '=' !in pairs[i].key && Item(pairs[i].key + "=" + pairs[i].value)
  }

  lemma {:induction false} JoinSplit(s: string, c: char)
    ensures Join(Split(s, c), c) == s
  {
    if s != "" {
      JoinSplit(s[1..], c);
      var rest := Split(s[1..], c);
      if s[0] == c {
        assert ([""] + rest)[1..] == rest;
        assert s == [c] + s[1..];
      } else if |rest| == 1 {
        assert [s[0]] + s[1..] == s;
      } else {
        var head := [s[0]] + rest[0];
        assert ([head] + rest[1..])[1..] == rest[1..];
        assert s == [s[0]] + s[1..];
        assert head + [c] + Join(rest[1..], c) == [s[0]] + (rest[0] + [c] + Join(rest[1..], c));
      }
    }
  }

  lemma CutWritten(p: Pair)
    requires p.key != "" && '=' !in p.key
    ensures Cut(p.key + "=" + p.value) == Some(p)
  {
    SplitAtFirst(p.key, '=', p.value);
    JoinSplit(p.value, '=');
    assert ([p.key] + Split(p.value, '='))[1..] == Split(p.value, '=');
  }

  /** What is read as a pair has a key that is not empty and holds no equals sign, and is the text again. */
  lemma CutIsPair(s: string)
    ensures Cut(s).Some? ==> var p := Cut(s).value; p.key != "" && '=' !in p.key && p.key + "=" + p.value == s
  {
    SplitIsFree(s, '=');
    JoinSplit(s, '=');
  }

  lemma {:induction false} CutsOfWritten(pairs: seq<Pair>)
    requires Writable(pairs)
    ensures Cuts(Written(pairs)) == Some(pairs)
  {
    if pairs != [] {
      CutWritten(pairs[0]);
      assert Written(pairs)[1..] == Written(pairs[1..]);
      CutsOfWritten(pairs[1..]);
      assert [pairs[0]] + pairs[1..] == pairs;
    }
  }

  lemma {:induction false} CutsArePairs(pieces: seq<string>)
    requires Cuts(pieces).Some?
    ensures Written(Cuts(pieces).value) == pieces
    ensures forall i :: 0 <= i < |pieces| ==> Cuts(pieces).value[i].key != "" && '=' !in Cuts(pieces).value[i].key
  {
    if pieces != [] {
      CutIsPair(pieces[0]);
      CutsArePairs(pieces[1..]);
      var pairs := Cuts(pieces).value;
      assert pairs[1..] == Cuts(pieces[1..]).value;
      forall i | 0 <= i < |pieces| ensures Written(pairs)[i] == pieces[i] && pairs[i].key != "" && '=' !in pairs[i].key {
        if i > 0 {
          assert pieces[1..][i - 1] == pieces[i] && pairs[i] == pairs[1..][i - 1];
          assert Written(pairs[1..])[i - 1] == pieces[i];
        }
      }
    }
  }

  /** Writing pairs and parsing them gives them back exactly when each is writable. */
  lemma PairsRoundTripExactlyWhen(pairs: seq<Pair>)
    ensures Cuts(SplitList(Join(Written(pairs), ','))) == Some(pairs) <==> Writable(pairs)
  {
    var text := Join(Written(pairs), ',');
    ListRoundTripsExactlyWhen(Written(pairs));
    if Writable(pairs) {
      CutsOfWritten(pairs);
    }
    if Cuts(SplitList(text)) == Some(pairs) {
      CutsArePairs(SplitList(text));
      assert AllItems(Written(pairs));
      forall i | 0 <= i < |pairs|
        ensures pairs[i].key != "" && '=' !in pairs[i].key && Item(pairs[i].key + "=" + pairs[i].value)
      {
        assert Item(Written(pairs)[i]);
      }
    }
  }

  // ----- The listener ACL -----

  const ACCEPT := "accept"
  const DROP := "drop"

  /** The raw values of the three annotations, absent where the annotation is. */
  datatype AclAnnotations = AclAnnotations(inbound: Option<string>, dropped: Option<string>, action: Option<string>)

  /** An absent field is one the annotations do not manage. */
  datatype Fields = Fields(allowed: Option<string>, blocked: Option<string>, action: Option<string>)

  function Normal(raw: string): string {
    Join(SplitList(raw), ',')
  }

  function ActionText(raw: string): string {
    ToLower(TrimSpace(raw))
  }

  /** The annotations are accepted: every dropped range is one, and the action is one of the two. */
  predicate Acceptable(a: AclAnnotations, isCidr: string -> bool) {
    && (a.dropped.Some? ==> forall i :: 0 <= i < |SplitList(a.dropped.value)| ==> isCidr(SplitList(a.dropped.value)[i]))
    && (a.action.Some? ==> ActionText(a.action.value) in {ACCEPT, DROP})
  }

  /** Without an action annotation, a list of allowed ranges that is not empty means that all else is dropped. */
  function AclOf(a: AclAnnotations): Fields {
    Fields(
      if a.inbound.None? then None else Some(Normal(a.inbound.value)),
      if a.dropped.None? then None else Some(Normal(a.dropped.value)),
      if a.action.Some? then Some(ActionText(a.action.value))
      else if a.inbound.Some? && SplitList(a.inbound.value) != [] then Some(DROP) else None)
  }

  method FromAnnotations(a: AclAnnotations, isCidr: string -> bool) returns (r: Option<Fields>)
    ensures r == if Acceptable(a, isCidr) then Some(AclOf(a)) else None
    ensures r.Some? <==>
            && (a.dropped.Some? ==> forall x :: x in SplitList(a.dropped.value) ==> isCidr(x))
            && (a.action.Some? ==> ToLower(TrimSpace(a.action.value)) in ["accept", "drop"])
    // the same ranges in the same order, each field present just when its annotation is
    ensures r.Some? ==>
      && r.value.allowed.Some? == a.inbound.Some? && r.value.blocked.Some? == a.dropped.Some?
      && (a.inbound.Some? ==> SplitList(r.value.allowed.value) == SplitList(a.inbound.value))
      && (a.dropped.Some? ==> SplitList(r.value.blocked.value) == SplitList(a.dropped.value))
    ensures r.Some? ==>
      r.value.action == if a.action.Some? then Some(ToLower(TrimSpace(a.action.value)))
                        else if a.inbound.Some? && SplitList(a.inbound.value) != [] then Some("drop") else None
  {
    var f := Fields(None, None, None);
    if a.inbound.Some? {
      var inbound := SplitCommaSeparatedString(a.inbound.value);
      f := f.(allowed := Some(Join(inbound, ',')));
      ListIsNormal(a.inbound.value);
      JoinEmptyExactlyWhen(SplitList(a.inbound.value));
    }
    if a.dropped.Some? {
      var dropped := SplitCommaSeparatedString(a.dropped.value);
      for i := 0 to |dropped|
        invariant forall k :: 0 <= k < i ==> isCidr(dropped[k])
      {
        if !isCidr(dropped[i]) {
          return None;
        }
      }
      ListIsNormal(a.dropped.value);
      f := f.(blocked := Some(Join(dropped, ',')));
    }
    if a.action.Some? {
      var action := ToLower(TrimSpace(a.action.value));
      if action != ACCEPT && action != DROP {
        return None;
      }
      f := f.(action := Some(action));
    } else if f.allowed.Some? && f.allowed.value != "" {
      f := f.(action := Some(DROP));
    }
    r := Some(f);
  }

  lemma JoinEmptyExactlyWhen(items: seq<string>)
    requires AllItems(items)
    ensures Join(items, ',') == "" <==> items == []
  {
    if items != [] {
      assert Item(items[0]);
    }
  }

  /** Fields written back as annotations. */
  function AsAnnotations(f: Fields): AclAnnotations {
    AclAnnotations(f.allowed, f.blocked, f.action)
  }

  lemma ActionsAreNormal()
    ensures ActionText(ACCEPT) == ACCEPT && ActionText(DROP) == DROP
  {
    assert ToLower(ACCEPT) == ACCEPT && ToLower(DROP) == DROP;
  }

  /** Reading the fields back as annotations is accepted and reproduces them. */
  lemma AclReproducesItself(a: AclAnnotations, isCidr: string -> bool)
    requires Acceptable(a, isCidr)
    ensures Acceptable(AsAnnotations(AclOf(a)), isCidr)
    ensures AclOf(AsAnnotations(AclOf(a))) == AclOf(a)
  {
    if a.inbound.Some? { ListIsNormal(a.inbound.value); }
    if a.dropped.Some? { ListIsNormal(a.dropped.value); }
    ActionsAreNormal();
  }
}
