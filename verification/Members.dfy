/**
 Members of one pool member group: what a pass asks the cloud to make of them
 (deploy_pool_member.go), and what two undisturbed passes lead to.
 */
module Members {
  import opened GlbTypes

  function KeyOf(m: Member): Key {
    Key(m.address, m.port)
  }

  function Keys(list: seq<Member>): set<Key> {
    set m | m in list :: KeyOf(m)
  }

  function LiveKeyOf(m: LiveMember): Key {
    Key(m.address, m.port)
  }

  function LiveKeys(list: seq<LiveMember>): set<Key> {
    set m | m in list :: LiveKeyOf(m)
  }

  predicate DistinctKeys(list: seq<Member>) {
    forall i, j :: 0 <= i < j < |list| ==> KeyOf(list[i]) != KeyOf(list[j])
  }

  predicate DistinctLiveKeys(list: seq<LiveMember>) {
    forall i, j :: 0 <= i < j < |list| ==> LiveKeyOf(list[i]) != LiveKeyOf(list[j])
  }

  // ----- Conversions -----

  function Convert(m: LiveMember): Member {
    Member(m.name, m.address, m.port, m.subnetId, m.backupRole, None, Some(m.monitorPort), Some(m.weight))
  }

  function ConvertList(list: seq<LiveMember>): (r: seq<Member>)
    ensures |r| == |list| && forall i :: 0 <= i < |list| ==> r[i] == Convert(list[i])
  {
    seq(|list|, i requires 0 <= i < |list| => Convert(list[i]))
  }

  /** The request for one member: weight defaults to 1 and the monitor port to the member's port. */
  function Request(m: Member): LiveMember {
    LiveMember(m.name, m.address, m.port, m.subnetId, m.backupRole,
               if m.monitorPort.Some? then m.monitorPort.value else m.port,
               if m.weight.Some? then m.weight.value else 1)
  }

  /** The live member is the spec's, with weight 1 and its own port as monitor port where the spec sets none. */
  predicate AsSpecified(live: LiveMember, m: Member) {
    && live.name == m.name && live.address == m.address && live.port == m.port
    && live.subnetId == m.subnetId && live.backupRole == m.backupRole
    && live.weight == (if m.weight.Some? then m.weight.value else 1)
    && live.monitorPort == (if m.monitorPort.Some? then m.monitorPort.value else m.port)
  }

  function RequestList(list: seq<Member>): (r: seq<LiveMember>)
    ensures |r| == |list| && forall i :: 0 <= i < |list| ==> r[i] == Request(list[i])
  {
    seq(|list|, i requires 0 <= i < |list| => Request(list[i]))
  }

  // ----- Merge -----

  predicate ExistsByAddress(list: seq<Member>, m: Member) {
    exists i :: 0 <= i < |list| && KeyOf(list[i]) == KeyOf(m)
  }

  /** Every field except the name and the description. */
  predicate SameFields(a: Member, b: Member) {
    && KeyOf(a) == KeyOf(b) && a.weight == b.weight && a.backupRole == b.backupRole
    && a.subnetId == b.subnetId && a.monitorPort == b.monitorPort
  }

  predicate Compare(a: seq<Member>, b: seq<Member>) {
    |a| == |b| && forall i :: 0 <= i < |a| ==> exists j :: 0 <= j < |b| && SameFields(b[j], a[i])
  }

  function Kept(created: seq<Member>, current: seq<Member>, spec: seq<Member>): seq<Member> {
    if current == [] then [] else
      var m := current[|current| - 1];
      var rest := Kept(created, current[..|current| - 1], spec);
      if ExistsByAddress(spec, m) || !ExistsByAddress(created, m) then rest + [m] else rest
  }

  function AddMissing(start: seq<Member>, spec: seq<Member>): seq<Member> {
    if spec == [] then start else
      var m := spec[|spec| - 1];
      var rest := AddMissing(start, spec[..|spec| - 1]);
      if ExistsByAddress(rest, m) then rest else rest + [m]
  }

  function Merged(created: seq<Member>, current: seq<Member>, spec: seq<Member>): seq<Member> {
    AddMissing(Kept(created, current, spec), spec)
  }

  /** The merge as the code runs it: two loops over a growing list. */
  method MergePoolMembers(created: seq<Member>, current: seq<Member>, spec: seq<Member>)
    returns (merged: seq<Member>)
    ensures merged == Merged(created, current, spec)
    ensures Keys(merged) == Keys(spec) + (Keys(current) - Keys(created))
    ensures DistinctKeys(current) ==> DistinctKeys(merged)
  {
    merged := [];
    for i := 0 to |current|
      invariant merged == Kept(created, current[..i], spec)
    {
      assert current[..i + 1][..i] == current[..i];
      var inSpec, ours := ExistsByAddress(spec, current[i]), ExistsByAddress(created, current[i]);
      if inSpec || !ours {
        merged := merged + [current[i]];
      }
    }
    assert current[..|current|] == current;
    ghost var start := merged;
    for i := 0 to |spec|
      invariant merged == AddMissing(start, spec[..i])
    {
      assert spec[..i + 1][..i] == spec[..i];
      if !ExistsByAddress(merged, spec[i]) {
        merged := merged + [spec[i]];
      }
    }
    assert spec[..|spec|] == spec;
    MergedKeys(created, current, spec);
    if DistinctKeys(current) {
      MergedDistinct(created, current, spec);
    }
  }

  lemma ExistsByAddressIsKey(list: seq<Member>, m: Member)
    ensures ExistsByAddress(list, m) <==> KeyOf(m) in Keys(list)
  {
    if KeyOf(m) in Keys(list) {
      var x :| x in list && KeyOf(x) == KeyOf(m);
      var i :| 0 <= i < |list| && list[i] == x;
    }
  }

  lemma KeysAppend(list: seq<Member>, m: Member)
    ensures Keys(list + [m]) == Keys(list) + {KeyOf(m)}
  {
    forall k | k in Keys(list) + {KeyOf(m)} ensures k in Keys(list + [m]) {
      if k in Keys(list) {
        var x :| x in list && KeyOf(x) == k;
        assert x in list + [m];
      } else {
        assert m in list + [m];
      }
    }
  }

  predicate Stays(created: seq<Member>, spec: seq<Member>, m: Member) {
    KeyOf(m) in Keys(spec) || KeyOf(m) !in Keys(created)
  }

  lemma {:induction false} KeptMembers(created: seq<Member>, current: seq<Member>, spec: seq<Member>)
    ensures forall m :: m in Kept(created, current, spec) <==> m in current && Stays(created, spec, m)
  {
    if current != [] {
      var n := |current| - 1;
      KeptMembers(created, current[..n], spec);
      assert current == current[..n] + [current[n]];
      ExistsByAddressIsKey(spec, current[n]);
      ExistsByAddressIsKey(created, current[n]);
    }
  }

  lemma {:induction false} KeptWhole(created: seq<Member>, current: seq<Member>, spec: seq<Member>)
    ensures |Kept(created, current, spec)| <= |current|
    ensures |Kept(created, current, spec)| == |current| ==> Kept(created, current, spec) == current
    ensures (forall m :: m in current ==> Stays(created, spec, m)) ==> Kept(created, current, spec) == current
  {
    if current != [] {
      var n := |current| - 1;
      KeptWhole(created, current[..n], spec);
      assert current == current[..n] + [current[n]];
      if forall m :: m in current ==> Stays(created, spec, m) {
        assert Stays(created, spec, current[n]);
        ExistsByAddressIsKey(spec, current[n]);
        ExistsByAddressIsKey(created, current[n]);
      }
    }
  }

  lemma DistinctAppend(list: seq<Member>, m: Member)
    ensures DistinctKeys(list + [m]) <==> DistinctKeys(list) && KeyOf(m) !in Keys(list)
  {
    var longer := list + [m];
    if DistinctKeys(longer) {
      forall i, j | 0 <= i < j < |list| ensures KeyOf(list[i]) != KeyOf(list[j]) {
        assert longer[i] == list[i] && longer[j] == list[j];
      }
      forall i | 0 <= i < |list| ensures KeyOf(list[i]) != KeyOf(m) {
        assert longer[i] == list[i] && longer[|list|] == m;
      }
    }
    if DistinctKeys(list) && KeyOf(m) !in Keys(list) {
      forall i | 0 <= i < |list| ensures KeyOf(list[i]) in Keys(list) {
        assert list[i] in list;
      }
    }
  }

  lemma {:induction false} KeptDistinct(created: seq<Member>, current: seq<Member>, spec: seq<Member>)
    requires DistinctKeys(current)
    ensures DistinctKeys(Kept(created, current, spec))
  {
    if current != [] {
      var n := |current| - 1;
      var kept := Kept(created, current[..n], spec);
      assert current == current[..n] + [current[n]];
      DistinctAppend(current[..n], current[n]);
      KeptDistinct(created, current[..n], spec);
      KeptMembers(created, current[..n], spec);
      forall k | k in Keys(kept) ensures k in Keys(current[..n]) {
        var x :| x in kept && KeyOf(x) == k;
        assert x in current[..n];
      }
      DistinctAppend(kept, current[n]);
    }
  }

  lemma {:induction false} AddMissingKeys(start: seq<Member>, spec: seq<Member>)
    ensures Keys(AddMissing(start, spec)) == Keys(start) + Keys(spec)
    ensures DistinctKeys(start) ==> DistinctKeys(AddMissing(start, spec))
  {
    if spec != [] {
      var n := |spec| - 1;
      var rest := AddMissing(start, spec[..n]);
      AddMissingKeys(start, spec[..n]);
      assert spec == spec[..n] + [spec[n]];
      KeysAppend(spec[..n], spec[n]);
      KeysAppend(rest, spec[n]);
      ExistsByAddressIsKey(rest, spec[n]);
      DistinctAppend(rest, spec[n]);
    }
  }

  lemma {:induction false} AddMissingMembers(start: seq<Member>, spec: seq<Member>)
    ensures forall m :: m in start ==> m in AddMissing(start, spec)
    ensures forall m :: m in AddMissing(start, spec) ==> m in start || (m in spec && KeyOf(m) !in Keys(start))
  {
    if spec != [] {
      var n := |spec| - 1;
      AddMissingMembers(start, spec[..n]);
      AddMissingKeys(start, spec[..n]);
      ExistsByAddressIsKey(AddMissing(start, spec[..n]), spec[n]);
      assert spec == spec[..n] + [spec[n]];
    }
  }

  lemma {:induction false} AddMissingNothing(start: seq<Member>, spec: seq<Member>)
    requires Keys(spec) <= Keys(start)
    ensures AddMissing(start, spec) == start
  {
    if spec != [] {
      var n := |spec| - 1;
      assert spec == spec[..n] + [spec[n]];
      KeysAppend(spec[..n], spec[n]);
      AddMissingNothing(start, spec[..n]);
      ExistsByAddressIsKey(start, spec[n]);
    }
  }

  lemma {:induction false} AddMissingAdds(start: seq<Member>, spec: seq<Member>, m: Member)
    requires DistinctKeys(spec) && m in spec && KeyOf(m) !in Keys(start)
    ensures m in AddMissing(start, spec)
  {
    var n := |spec| - 1;
    assert spec == spec[..n] + [spec[n]];
    DistinctAppend(spec[..n], spec[n]);
    if m == spec[n] {
      AddMissingKeys(start, spec[..n]);
      ExistsByAddressIsKey(AddMissing(start, spec[..n]), m);
    } else {
      AddMissingAdds(start, spec[..n], m);
    }
  }

  /** Merged addresses are the spec's, plus the live ones this configuration did not create. */
  lemma MergedKeys(created: seq<Member>, current: seq<Member>, spec: seq<Member>)
    ensures Keys(Merged(created, current, spec)) == Keys(spec) + (Keys(current) - Keys(created))
  {
    var kept := Kept(created, current, spec);
    KeptMembers(created, current, spec);
    AddMissingKeys(kept, spec);
    forall k | k in Keys(current) - Keys(created) ensures k in Keys(kept) {
      var m :| m in current && KeyOf(m) == k;
      assert m in kept;
    }
  }

  /** No address is listed twice when none is live twice, however often the spec repeats one. */
  lemma MergedDistinct(created: seq<Member>, current: seq<Member>, spec: seq<Member>)
    requires DistinctKeys(current)
    ensures DistinctKeys(Merged(created, current, spec))
  {
    KeptDistinct(created, current, spec);
    AddMissingKeys(Kept(created, current, spec), spec);
  }

  /** A merged member is a current one that stays, or a spec member at an address not current. */
  lemma MergedOrigin(created: seq<Member>, current: seq<Member>, spec: seq<Member>, m: Member)
    requires m in Merged(created, current, spec)
    ensures (m in current && Stays(created, spec, m)) || (m in spec && KeyOf(m) !in Keys(current))
  {
    var kept := Kept(created, current, spec);
    KeptMembers(created, current, spec);
    AddMissingMembers(kept, spec);
  }

  /** The merge changes nothing exactly when it has nothing to drop and nothing to add. */
  lemma MergedUnchanged(created: seq<Member>, current: seq<Member>, spec: seq<Member>)
    requires Keys(spec) <= Keys(current) && Keys(current) * Keys(created) <= Keys(spec)
    ensures Merged(created, current, spec) == current
  {
    forall m | m in current ensures Stays(created, spec, m) {
      assert KeyOf(m) in Keys(current);
    }
    KeptWhole(created, current, spec);
    AddMissingNothing(current, spec);
  }

  lemma MergedChanged(created: seq<Member>, current: seq<Member>, spec: seq<Member>)
    requires Compare(Merged(created, current, spec), current)
    ensures Keys(spec) <= Keys(current) && Keys(current) * Keys(created) <= Keys(spec)
  {
    var kept, merged := Kept(created, current, spec), Merged(created, current, spec);
    forall k | k in Keys(merged) ensures k in Keys(current) {
      var i :| 0 <= i < |merged| && KeyOf(merged[i]) == k;
      var j :| 0 <= j < |current| && SameFields(current[j], merged[i]);
      assert current[j] in current;
    }
    MergedKeys(created, current, spec);
    KeptMembers(created, current, spec);
    forall k | k in Keys(spec) ensures k in Keys(kept) {
      assert k in Keys(merged);
      var c :| c in current && KeyOf(c) == k;
      assert c in kept;
    }
    AddMissingNothing(kept, spec);
    KeptWhole(created, current, spec);
  }

  // ----- The member part of a group update -----

  /** The members to send, or nothing when the merge already is what is live. */
  function MembersRequest(created: seq<Member>, live: seq<LiveMember>, spec: seq<Member>): Option<seq<LiveMember>> {
    var merged := Merged(created, ConvertList(live), spec);
    if Compare(merged, ConvertList(live)) then None else Some(RequestList(merged))
  }

  /** What the group holds after the update. */
  function NextMembers(created: seq<Member>, live: seq<LiveMember>, spec: seq<Member>): seq<LiveMember> {
    var request := MembersRequest(created, live, spec);
    if request.None? then live else request.value
  }

  lemma ConvertKeys(live: seq<LiveMember>)
    ensures Keys(ConvertList(live)) == LiveKeys(live)
    ensures DistinctLiveKeys(live) <==> DistinctKeys(ConvertList(live))
  {
    var list := ConvertList(live);
    forall k | k in LiveKeys(live) ensures k in Keys(list) {
      var i :| 0 <= i < |live| && LiveKeyOf(live[i]) == k;
      assert list[i] in list && KeyOf(list[i]) == k;
    }
    forall k | k in Keys(list) ensures k in LiveKeys(live) {
      var i :| 0 <= i < |list| && KeyOf(list[i]) == k;
      assert live[i] in live && LiveKeyOf(live[i]) == k;
    }
    assert forall i :: 0 <= i < |live| ==> KeyOf(list[i]) == LiveKeyOf(live[i]);
  }

  lemma RequestKeys(list: seq<Member>)
    ensures LiveKeys(RequestList(list)) == Keys(list)
    ensures DistinctKeys(list) <==> DistinctLiveKeys(RequestList(list))
  {
    var live := RequestList(list);
    forall k | k in LiveKeys(live) ensures k in Keys(list) {
      var i :| 0 <= i < |live| && LiveKeyOf(live[i]) == k;
      assert list[i] in list && KeyOf(list[i]) == k;
    }
    forall k | k in Keys(list) ensures k in LiveKeys(live) {
      var i :| 0 <= i < |list| && KeyOf(list[i]) == k;
      assert live[i] in live && LiveKeyOf(live[i]) == k;
    }
    assert forall i :: 0 <= i < |live| ==> KeyOf(list[i]) == LiveKeyOf(live[i]);
  }

  /**
   No member update is sent exactly when every spec address is live and every live address is
   wanted or somebody else's.
   */
  lemma NoRequestExactlyWhen(created: seq<Member>, live: seq<LiveMember>, spec: seq<Member>)
    ensures MembersRequest(created, live, spec).None? <==>
            Keys(spec) <= LiveKeys(live) && LiveKeys(live) * Keys(created) <= Keys(spec)
  {
    var current := ConvertList(live);
    ConvertKeys(live);
    if Compare(Merged(created, current, spec), current) {
      MergedChanged(created, current, spec);
    }
    if Keys(spec) <= LiveKeys(live) && LiveKeys(live) * Keys(created) <= Keys(spec) {
      MergedUnchanged(created, current, spec);
    }
  }

  lemma NextKeys(created: seq<Member>, live: seq<LiveMember>, spec: seq<Member>)
    ensures LiveKeys(NextMembers(created, live, spec)) == Keys(spec) + (LiveKeys(live) - Keys(created))
    ensures DistinctLiveKeys(live) ==> DistinctLiveKeys(NextMembers(created, live, spec))
  {
    var current := ConvertList(live);
    NoRequestExactlyWhen(created, live, spec);
    ConvertKeys(live);
    MergedKeys(created, current, spec);
    RequestKeys(Merged(created, current, spec));
    if DistinctLiveKeys(live) {
      MergedDistinct(created, current, spec);
    }
  }

  /**
   Convergence. A pass records every member it finds live afterwards as created, so from any
   start the first pass keeps what is foreign, the second drops it, and the third sends nothing.
   */
  lemma TwoPassesReachTheSpec(created: seq<Member>, live: seq<LiveMember>, spec: seq<Member>)
    ensures var one := NextMembers(created, live, spec);
            var two := NextMembers(ConvertList(one), one, spec);
            && LiveKeys(two) == Keys(spec)
            && (forall k :: k in LiveKeys(live) && k !in Keys(created) && k !in Keys(spec) ==>
                  k in LiveKeys(one) && k !in LiveKeys(two))
            && MembersRequest(ConvertList(two), two, spec).None?
  {
    var one := NextMembers(created, live, spec);
    var two := NextMembers(ConvertList(one), one, spec);
    NextKeys(created, live, spec);
    ConvertKeys(one);
    NextKeys(ConvertList(one), one, spec);
    NoRequestExactlyWhen(ConvertList(two), two, spec);
  }

  /** A member of the next state was live already, or is a spec member at an address that was not. */
  lemma NextMembersOrigin(created: seq<Member>, live: seq<LiveMember>, spec: seq<Member>, m: LiveMember)
    requires m in NextMembers(created, live, spec)
    ensures m in live || exists s :: s in spec && m == Request(s) && KeyOf(s) !in LiveKeys(live)
  {
    var current := ConvertList(live);
    var merged := Merged(created, current, spec);
    if MembersRequest(created, live, spec).Some? {
      ConvertKeys(live);
      var i :| 0 <= i < |merged| && Request(merged[i]) == m;
      MergedOrigin(created, current, spec, merged[i]);
      if merged[i] in current {
        var j :| 0 <= j < |live| && current[j] == merged[i];
        assert Request(Convert(live[j])) == live[j];
      }
    }
  }

  lemma InNext(created: seq<Member>, live: seq<LiveMember>, spec: seq<Member>, m: Member)
    requires m in Merged(created, ConvertList(live), spec)
    requires MembersRequest(created, live, spec).None? ==> Request(m) in live
    ensures Request(m) in NextMembers(created, live, spec)
  {
    var merged := Merged(created, ConvertList(live), spec);
    var i :| 0 <= i < |merged| && merged[i] == m;
    assert RequestList(merged)[i] == Request(m);
  }

  /** A live member that nobody wants gone stays with all its fields, whoever changes what in the spec. */
  lemma StayingMemberKeepsAll(created: seq<Member>, live: seq<LiveMember>, spec: seq<Member>, m: LiveMember)
    requires m in live && (LiveKeyOf(m) in Keys(spec) || LiveKeyOf(m) !in Keys(created))
    ensures m in NextMembers(created, live, spec)
  {
    var current := ConvertList(live);
    KeptMembers(created, current, spec);
    AddMissingMembers(Kept(created, current, spec), spec);
    var j :| 0 <= j < |live| && live[j] == m;
    assert current[j] == Convert(m) && Request(Convert(m)) == m;
    assert Convert(m) in current;
    InNext(created, live, spec, Convert(m));
  }

  lemma NextMembersAdds(created: seq<Member>, live: seq<LiveMember>, spec: seq<Member>, s: Member)
    requires DistinctKeys(spec) && s in spec && KeyOf(s) !in LiveKeys(live)
    ensures Request(s) in NextMembers(created, live, spec)
  {
    var kept := Kept(created, ConvertList(live), spec);
    NoRequestExactlyWhen(created, live, spec);
    ConvertKeys(live);
    KeptMembers(created, ConvertList(live), spec);
    assert KeyOf(s) in Keys(spec);
    assert KeyOf(s) !in Keys(kept);
    AddMissingAdds(kept, spec, s);
    InNext(created, live, spec, s);
  }

  /** A spec member at an address that was not live becomes a live member just as the spec has it. */
  lemma NewMemberIsAsSpecified(created: seq<Member>, live: seq<LiveMember>, spec: seq<Member>, s: Member)
    requires DistinctKeys(spec) && s in spec && Key(s.address, s.port) !in LiveKeys(live)
    ensures exists m :: m in NextMembers(created, live, spec) && AsSpecified(m, s)
  {
    NextMembersAdds(created, live, spec, s);
    assert AsSpecified(Request(s), s);
  }

  /** And there is nothing else: a member was live already, or is as the spec has it at an address that was not. */
  lemma NextMembersAre(created: seq<Member>, live: seq<LiveMember>, spec: seq<Member>, m: LiveMember)
    requires m in NextMembers(created, live, spec)
    ensures || (m in live && (LiveKeyOf(m) in Keys(spec) || LiveKeyOf(m) !in Keys(created)))
            || exists s :: s in spec && AsSpecified(m, s) && LiveKeyOf(m) !in LiveKeys(live)
  {
    NextMembersOrigin(created, live, spec, m);
    NextKeys(created, live, spec);
    assert LiveKeyOf(m) in LiveKeys(NextMembers(created, live, spec));
    if m !in live {
      var s :| s in spec && m == Request(s) && KeyOf(s) !in LiveKeys(live);
      assert AsSpecified(m, s);
    }
  }

  /** The live members are the spec's members, defaults filled in. */
  predicate Realised(live: seq<LiveMember>, spec: seq<Member>) {
    forall s :: s in spec ==> Request(s) in live
  }

  /**
   Only addresses and ports converge. A pass realises the spec's weight, role, subnet and monitor
   port exactly when every member already live at a spec address had them before the pass.
   */
  lemma RealisedExactlyWhen(created: seq<Member>, live: seq<LiveMember>, spec: seq<Member>)
    requires DistinctKeys(spec)
    ensures Realised(NextMembers(created, live, spec), spec) <==>
            forall s :: s in spec && KeyOf(s) in LiveKeys(live) ==> Request(s) in live
  {
    var next := NextMembers(created, live, spec);
    if Realised(next, spec) {
      forall s | s in spec && KeyOf(s) in LiveKeys(live) ensures Request(s) in live {
        NextMembersOrigin(created, live, spec, Request(s));
      }
    } else {
      var s :| s in spec && Request(s) !in next;
      if KeyOf(s) in LiveKeys(live) {
        if Request(s) in live {
          assert LiveKeyOf(Request(s)) in Keys(spec);
          StayingMemberKeepsAll(created, live, spec, Request(s));
        }
      } else {
        NextMembersAdds(created, live, spec, s);
      }
    }
  }

  /** A changed weight in the spec never reaches a member that is already live. */
  lemma ChangedWeightIsIgnored()
    ensures var live := [LiveMember("m", "10.0.0.1", 80, "net", false, 80, 1)];
            var spec := [Member("m", "10.0.0.1", 80, "net", false, None, None, Some(5))];
            forall created :: NextMembers(created, live, spec) == live && !Realised(live, spec)
  {
    var live := [LiveMember("m", "10.0.0.1", 80, "net", false, 80, 1)];
    var spec := [Member("m", "10.0.0.1", 80, "net", false, None, None, Some(5))];
    assert spec[0] in spec && live[0] in live;
    assert LiveKeyOf(live[0]) in LiveKeys(live) && KeyOf(spec[0]) in Keys(spec);
    forall created ensures NextMembers(created, live, spec) == live {
      NoRequestExactlyWhen(created, live, spec);
    }
    assert Request(spec[0]) !in live;
  }
}
