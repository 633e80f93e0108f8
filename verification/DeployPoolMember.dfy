/** Deploying the member groups of one pool (deploy_pool_member.go). */
module DeployPoolMember {
  import opened GlbTypes
  import opened Equality
  import opened Members
  import opened Diffs
  import opened Protocol
  import opened CloudApi
  import opened Growth
  import opened StatusRecord

  // ----- What is on record for a group -----

  function FindGroup(groups: seq<CreatedGroup>, id: Id): (r: Option<CreatedGroup>)
    ensures r.Some? ==> r.value in groups && r.value.id == id
    ensures r.None? ==> forall g :: g in groups ==> g.id != id
  {
    if groups == [] then None
    else if groups[0].id == id then Some(groups[0])
    else FindGroup(groups[1..], id)
  }

  function RecordedMembers(st: Status, pool: Id, group: Id): seq<Member> {
    var p := FindPool(st.pools, pool);
    if p.None? then [] else
      var g := FindGroup(p.value.groups, group);
      if g.None? then [] else g.value.members
  }

  // ----- The patch -----

  datatype GroupPatch = GroupPatch(creates: seq<Group>, updates: map<Id, GroupUpdate>)

  /** The update for a live group. It carries the live traffic dial, never the spec's. */
  function UpdateFor(g: Group, gs: GroupSpec, recorded: seq<Member>): Option<GroupUpdate> {
    var members := MembersRequest(recorded, g.members, gs.members);
    if !Agrees(gs.trafficDial, g.trafficDial) || members.Some? then Some(GroupUpdate(g.trafficDial, members)) else None
  }

  /** A group is left alone exactly when dial and members need nothing. */
  lemma NoUpdateExactlyWhen(g: Group, gs: GroupSpec, recorded: seq<Member>)
    ensures UpdateFor(g, gs, recorded).None? <==>
            && Agrees(gs.trafficDial, g.trafficDial)
            && Keys(gs.members) <= LiveKeys(g.members) && LiveKeys(g.members) * Keys(recorded) <= Keys(gs.members)
  {
    NoRequestExactlyWhen(recorded, g.members, gs.members);
  }

  /** A dial that differs from the spec is never corrected: every pass sends an update that keeps it. */
  lemma DialNeverConverges(g: Group, gs: GroupSpec, recorded: seq<Member>)
    requires !Agrees(gs.trafficDial, g.trafficDial)
    ensures var update := UpdateFor(g, gs, recorded);
            update.Some? && !Agrees(gs.trafficDial, UpdateGroup(g, update.value).trafficDial)
  {
  }

  function Named(name: string): Group -> bool {
    (g: Group) => g.name == name
  }

  function PatchFor(groups: Listing<Group>, st: Status, pool: Id, specs: seq<GroupSpec>): GroupPatch
    requires Lists(groups)
  {
    if specs == [] then GroupPatch([], map[]) else
      var n := |specs| - 1;
      var rest := PatchFor(groups, st, pool, specs[..n]);
      var found := First(groups.ids, groups.at, Named(specs[n].name));
      if found.None? then rest.(creates := rest.creates + [NewGroup(specs[n])])
      else
        var update := UpdateFor(groups.at[found.value], specs[n], RecordedMembers(st, pool, found.value));
        if update.None? then rest else rest.(updates := rest.updates[found.value := update.value])
  }

  method BuildPatch(groups: Listing<Group>, st: Status, pool: Id, specs: seq<GroupSpec>) returns (patch: GroupPatch)
    requires Lists(groups)
    ensures patch == PatchFor(groups, st, pool, specs)
  {
    var creates: seq<Group>, updates: map<Id, GroupUpdate> := [], map[];
    for i := 0 to |specs|
      invariant GroupPatch(creates, updates) == PatchFor(groups, st, pool, specs[..i])
    {
      assert specs[..i + 1][..i] == specs[..i];
      var found := First(groups.ids, groups.at, Named(specs[i].name));
      if found.None? {
        creates := creates + [NewGroup(specs[i])];
      } else {
        var update := UpdateFor(groups.at[found.value], specs[i], RecordedMembers(st, pool, found.value));
        if update.Some? {
          updates := updates[found.value := update.value];
        }
      }
    }
    assert specs[..|specs|] == specs;
    patch := GroupPatch(creates, updates);
  }

  predicate DistinctNames(groups: seq<Group>) {
    forall i, j :: 0 <= i < j < |groups| ==> groups[i].name != groups[j].name
  }

  lemma ListsPrefix(specs: seq<GroupSpec>, n: nat, name: string)
    requires n < |specs|
    ensures ListsGroup(specs[..n + 1], name) <==> ListsGroup(specs[..n], name) || specs[n].name == name
  {
    if ListsGroup(specs[..n + 1], name) && specs[n].name != name {
      var k :| 0 <= k < n + 1 && specs[..n + 1][k].name == name;
      assert specs[..n][k].name == name;
    }
    if ListsGroup(specs[..n], name) {
      var k :| 0 <= k < n && specs[..n][k].name == name;
      assert specs[..n + 1][k].name == name;
    }
    assert specs[..n + 1][n] == specs[n];
  }

  /** The patch touches only groups the spec names, and creates only missing ones. */
  lemma {:induction false} PatchStaysListed(groups: Listing<Group>, st: Status, pool: Id, specs: seq<GroupSpec>)
    requires Lists(groups)
    ensures var patch := PatchFor(groups, st, pool, specs);
            && patch.updates.Keys <= groups.at.Keys
            && (forall g :: g in patch.updates ==> ListsGroup(specs, groups.at[g].name))
            && (forall i :: 0 <= i < |patch.creates| ==>
                  ListsGroup(specs, patch.creates[i].name) && !HoldsNamed(groups.at, patch.creates[i].name))
  {
    if specs != [] {
      var n := |specs| - 1;
      PatchStaysListed(groups, st, pool, specs[..n]);
      assert specs[..n + 1] == specs;
      forall name: string
        ensures ListsGroup(specs, name) <==> ListsGroup(specs[..n], name) || specs[n].name == name
      {
        ListsPrefix(specs, n, name);
      }
    }
  }

  /** Whatever the spec looks like; and if it names no group twice, neither does the patch. */
  lemma {:induction false} PatchStaysInSpec(groups: Listing<Group>, st: Status, pool: Id, specs: seq<GroupSpec>)
    requires Lists(groups)
    ensures var patch := PatchFor(groups, st, pool, specs);
            && patch.updates.Keys <= groups.at.Keys
            && (forall g :: g in patch.updates ==> ListsGroup(specs, groups.at[g].name))
            && (forall i :: 0 <= i < |patch.creates| ==>
                  ListsGroup(specs, patch.creates[i].name) && !HoldsNamed(groups.at, patch.creates[i].name))
            && (DistinctGroups(specs) ==> DistinctNames(patch.creates))
  {
    PatchStaysListed(groups, st, pool, specs);
    if specs != [] && DistinctGroups(specs) {
      var n := |specs| - 1;
      PatchStaysInSpec(groups, st, pool, specs[..n]);
      assert !ListsGroup(specs[..n], specs[n].name);
    }
  }

  /** What the last spec group adds to the updates. */
  lemma LastUpdate(groups: Listing<Group>, st: Status, pool: Id, specs: seq<GroupSpec>, g: Id)
    requires Lists(groups) && specs != [] && g in groups.at
    ensures var n := |specs| - 1;
            var rest, updates := PatchFor(groups, st, pool, specs[..n]).updates, PatchFor(groups, st, pool, specs).updates;
            var update := UpdateFor(groups.at[g], specs[n], RecordedMembers(st, pool, g));
            if First(groups.ids, groups.at, Named(specs[n].name)) == Some(g) && update.Some?
            then g in updates && updates[g] == update.value
            else (g in updates <==> g in rest) && (g in rest ==> updates[g] == rest[g])
  {
  }

  /** With distinct names on both sides, a live group of a listed name gets that group's update. */
  lemma {:induction false} PatchUpdatesExactly(
    groups: Listing<Group>, st: Status, pool: Id, specs: seq<GroupSpec>, k: nat, g: Id)
    requires Lists(groups) && UniqueGroups(groups.at) && DistinctGroups(specs) && k < |specs|
    requires g in groups.at && groups.at[g].name == specs[k].name
    ensures var updates := PatchFor(groups, st, pool, specs).updates;
            var update := UpdateFor(groups.at[g], specs[k], RecordedMembers(st, pool, g));
            (g in updates <==> update.Some?) && (update.Some? ==> updates[g] == update.value)
  {
    var n := |specs| - 1;
    LastUpdate(groups, st, pool, specs, g);
    FirstNamed(groups, specs[n].name, g);
    if k < n {
      assert specs[..n][k] == specs[k] && specs[k].name != specs[n].name;
      PatchUpdatesExactly(groups, st, pool, specs[..n], k, g);
    } else {
      NotUpdated(groups, st, pool, specs, g);
    }
  }

  lemma FirstNamed(groups: Listing<Group>, name: string, g: Id)
    requires Lists(groups) && UniqueGroups(groups.at) && g in groups.at
    ensures First(groups.ids, groups.at, Named(name)) == Some(g) <==> groups.at[g].name == name
  {
    assert g in groups.ids;
  }

  /** No earlier group of the spec has the name of the last. */
  lemma NotUpdated(groups: Listing<Group>, st: Status, pool: Id, specs: seq<GroupSpec>, g: Id)
    requires Lists(groups) && DistinctGroups(specs) && specs != []
    requires g in groups.at && groups.at[g].name == specs[|specs| - 1].name
    ensures g !in PatchFor(groups, st, pool, specs[..|specs| - 1]).updates
  {
    var n := |specs| - 1;
    PatchStaysListed(groups, st, pool, specs[..n]);
    assert !ListsGroup(specs[..n], specs[n].name);
  }

  predicate Settled(g: Group, gs: GroupSpec, recorded: seq<Member>) {
    UpdateFor(g, gs, recorded).None?
  }

  /** Nothing is sent when every spec group is live and every live one of its name is settled. */
  lemma {:induction false} PatchIsEmpty(groups: Listing<Group>, st: Status, pool: Id, specs: seq<GroupSpec>)
    requires Lists(groups) && HoldsGroups(groups.at, specs)
    requires forall g, k :: g in groups.at && 0 <= k < |specs| && groups.at[g].name == specs[k].name ==>
               Settled(groups.at[g], specs[k], RecordedMembers(st, pool, g))
    ensures PatchFor(groups, st, pool, specs) == GroupPatch([], map[])
  {
    if specs != [] {
      var n := |specs| - 1;
      PatchIsEmpty(groups, st, pool, specs[..n]);
      var found := First(groups.ids, groups.at, Named(specs[n].name));
      assert HoldsNamed(groups.at, specs[n].name);
      var g :| g in groups.at && groups.at[g].name == specs[n].name;
      assert g in groups.ids;
      assert found.Some? && Settled(groups.at[found.value], specs[n], RecordedMembers(st, pool, found.value));
    }
  }

  // ----- What a patch does to the groups -----

  /** The new groups of a patch under the ids the cloud gave them. */
  predicate AddedFor(added: map<Id, Group>, creates: seq<Group>) {
    && (forall g :: g in added ==> added[g] in creates)
    && (forall x :: x in creates ==> x in added.Values)
    && (DistinctNames(creates) ==> UniqueGroups(added))
  }

  /** One pass over the groups of a pool: listed groups get their next members, or are new. */
  predicate GroupsStepped(
    st: Status, pool: Id, before: map<Id, Group>, specs: seq<GroupSpec>, after: map<Id, Group>)
  {
    && (forall g :: g in before ==> g in after)
    && (forall g, k :: g in before && 0 <= k < |specs| && before[g].name == specs[k].name ==>
          after[g] == before[g].(members :=
            NextMembers(RecordedMembers(st, pool, g), before[g].members, specs[k].members)))
    && (forall g :: g in before && !ListsGroup(specs, before[g].name) ==> after[g] == before[g])
    && (forall g :: g in after && g !in before ==>
          !HoldsNamed(before, after[g].name) && FromSpec(specs, after[g]))
    && UniqueGroups(after)
  }

  predicate FromSpec(specs: seq<GroupSpec>, g: Group) {
    exists k :: 0 <= k < |specs| && g == NewGroup(specs[k])
  }

  lemma CreatedFromSpec(groups: Listing<Group>, st: Status, pool: Id, specs: seq<GroupSpec>, created: Group)
    requires Lists(groups) && created in PatchFor(groups, st, pool, specs).creates
    ensures FromSpec(specs, created)
  {
    var n := |specs| - 1;
    if created in PatchFor(groups, st, pool, specs[..n]).creates {
      CreatedFromSpec(groups, st, pool, specs[..n], created);
      var k :| 0 <= k < n && created == NewGroup(specs[..n][k]);
      assert specs[..n][k] == specs[k];
    } else {
      assert created == NewGroup(specs[n]);
    }
  }

  lemma PatchStepsListed(
    groups: Listing<Group>, st: Status, pool: Id, specs: seq<GroupSpec>, added: map<Id, Group>, k: nat, g: Id)
    requires Lists(groups) && UniqueGroups(groups.at) && DistinctGroups(specs)
    requires k < |specs| && g in groups.at && groups.at[g].name == specs[k].name && g !in added
    ensures PatchedGroups(groups.at, added, PatchFor(groups, st, pool, specs).updates, {})[g] ==
            groups.at[g].(members := NextMembers(RecordedMembers(st, pool, g), groups.at[g].members, specs[k].members))
  {
    PatchUpdatesExactly(groups, st, pool, specs, k, g);
  }

  lemma PatchStepsOthers(groups: Listing<Group>, st: Status, pool: Id, specs: seq<GroupSpec>, added: map<Id, Group>)
    requires Lists(groups) && AddedFor(added, PatchFor(groups, st, pool, specs).creates) && added.Keys !! groups.at.Keys
    ensures forall g :: g in groups.at && !ListsGroup(specs, groups.at[g].name) ==>
              g !in PatchFor(groups, st, pool, specs).updates
    ensures forall g :: g in added ==> !HoldsNamed(groups.at, added[g].name) && FromSpec(specs, added[g])
  {
    PatchStaysInSpec(groups, st, pool, specs);
    forall g | g in added ensures !HoldsNamed(groups.at, added[g].name) && FromSpec(specs, added[g]) {
      CreatedFromSpec(groups, st, pool, specs, added[g]);
    }
  }

  lemma PatchSteps(groups: Listing<Group>, st: Status, pool: Id, specs: seq<GroupSpec>, added: map<Id, Group>)
    requires Lists(groups) && UniqueGroups(groups.at) && DistinctGroups(specs)
    requires AddedFor(added, PatchFor(groups, st, pool, specs).creates) && added.Keys !! groups.at.Keys
    ensures GroupsStepped(st, pool, groups.at, specs,
                          PatchedGroups(groups.at, added, PatchFor(groups, st, pool, specs).updates, {}))
  {
    var before, updates := groups.at, PatchFor(groups, st, pool, specs).updates;
    var after := PatchedGroups(before, added, updates, {});
    PatchStepsOthers(groups, st, pool, specs, added);
    forall g, k | g in before && 0 <= k < |specs| && before[g].name == specs[k].name
      ensures after[g] ==
        before[g].(members := NextMembers(RecordedMembers(st, pool, g), before[g].members, specs[k].members))
    {
      PatchStepsListed(groups, st, pool, specs, added, k, g);
    }
    assert UniqueGroups(after) by {
      PatchStaysInSpec(groups, st, pool, specs);
      PatchedUnique(before, added, updates, {});
    }
  }

  /** The request creates a group of that name. */
  predicate Creates(patch: GroupPatch, name: string) {
    exists i :: 0 <= i < |patch.creates| && patch.creates[i].name == name
  }

  lemma {:induction false} PatchCovers(groups: Listing<Group>, st: Status, pool: Id, specs: seq<GroupSpec>, k: nat)
    requires Lists(groups) && k < |specs|
    ensures HoldsNamed(groups.at, specs[k].name) || Creates(PatchFor(groups, st, pool, specs), specs[k].name)
  {
    var n := |specs| - 1;
    var patch, rest := PatchFor(groups, st, pool, specs), PatchFor(groups, st, pool, specs[..n]);
    if k < n {
      PatchCovers(groups, st, pool, specs[..n], k);
      if Creates(rest, specs[k].name) {
        var i :| 0 <= i < |rest.creates| && rest.creates[i].name == specs[k].name;
        assert patch.creates[i] == rest.creates[i];
      }
    } else if !HoldsNamed(groups.at, specs[n].name) {
      assert patch.creates[|rest.creates|] == NewGroup(specs[n]);
    }
  }

  /** After the patch every group of the spec is there, whatever else is. */
  lemma PatchedHolds(groups: Listing<Group>, st: Status, pool: Id, specs: seq<GroupSpec>, added: map<Id, Group>)
    requires Lists(groups) && added.Keys !! groups.at.Keys
    requires AddedFor(added, PatchFor(groups, st, pool, specs).creates)
    ensures HoldsGroups(PatchedGroups(groups.at, added, PatchFor(groups, st, pool, specs).updates, {}), specs)
  {
    var patch := PatchFor(groups, st, pool, specs);
    var after := PatchedGroups(groups.at, added, patch.updates, {});
    forall k | 0 <= k < |specs| ensures HoldsNamed(after, specs[k].name) {
      PatchCovers(groups, st, pool, specs, k);
      if HoldsNamed(groups.at, specs[k].name) {
        var g :| g in groups.at && groups.at[g].name == specs[k].name;
        assert g in after && after[g].name == specs[k].name;
      } else {
        var i :| 0 <= i < |patch.creates| && patch.creates[i].name == specs[k].name;
        assert patch.creates[i] in patch.creates;
        var g :| g in added && added[g] == patch.creates[i];
        assert after[g] == added[g];
      }
    }
  }

  // ----- Sending it -----

  function Zip(ids: seq<Id>, groups: seq<Group>): map<Id, Group>
    requires |ids| == |groups| && Distinct(ids)
  {
    map i | 0 <= i < |ids| :: ids[i] := groups[i]
  }

  lemma ZipHas(ids: seq<Id>, groups: seq<Group>, i: nat)
    requires |ids| == |groups| && Distinct(ids) && i < |ids|
    ensures ids[i] in Zip(ids, groups) && Zip(ids, groups)[ids[i]] == groups[i]
  {
  }

  lemma ZipFrom(ids: seq<Id>, groups: seq<Group>, g: Id) returns (i: nat)
    requires |ids| == |groups| && Distinct(ids) && g in Zip(ids, groups)
    ensures i < |ids| && ids[i] == g && Zip(ids, groups)[g] == groups[i]
  {
    i :| 0 <= i < |ids| && ids[i] == g;
    ZipHas(ids, groups, i);
  }

  lemma ZipUnique(ids: seq<Id>, groups: seq<Group>)
    requires |ids| == |groups| && Distinct(ids) && DistinctNames(groups)
    ensures UniqueGroups(Zip(ids, groups))
  {
    var added := Zip(ids, groups);
    forall g, h | g in added && h in added && g != h ensures added[g].name != added[h].name {
      var i := ZipFrom(ids, groups, g);
      var j := ZipFrom(ids, groups, h);
    }
  }

  lemma ZipAdds(ids: seq<Id>, groups: seq<Group>)
    requires |ids| == |groups| && Distinct(ids)
    ensures AddedFor(Zip(ids, groups), groups)
  {
    var added := Zip(ids, groups);
    forall g | g in added ensures added[g] in groups {
      var i := ZipFrom(ids, groups, g);
    }
    forall x | x in groups ensures x in added.Values {
      var i :| 0 <= i < |groups| && groups[i] == x;
      ZipHas(ids, groups, i);
    }
    if DistinctNames(groups) {
      ZipUnique(ids, groups);
    }
  }

  predicate Sendable(w: World, lb: Id, pool: Id, patch: GroupPatch) {
    && lb in w.lbs && pool in w.lbs[lb].pools
    && (var p := w.lbs[lb].pools[pool];
        && patch.updates.Keys <= p.groups.Keys
        && (forall g :: g in patch.updates ==>
              WantsGroup(w.spec, p.name, p.groups[g].name) && UpdateFits(p.groups[g], patch.updates[g]))
        && (forall i :: 0 <= i < |patch.creates| ==>
              WantsGroup(w.spec, p.name, patch.creates[i].name) && !HoldsNamed(p.groups, patch.creates[i].name))
        && (forall x :: x in patch.creates ==> GroupFits(w.spec, p.name, x))
        && (WellFormed(w.spec) ==> DistinctNames(patch.creates)))
  }

  lemma SendAllowed(w: World, lb: Id, pool: Id, patch: GroupPatch, added: map<Id, Group>)
    requires Works(w, lb) && Sendable(w, lb, pool, patch) && AddedFor(added, patch.creates)
    requires Possible(w, PatchGroups(lb, pool, added, patch.updates, {}))
    ensures Allowed(w, PatchGroups(lb, pool, added, patch.updates, {}))
  {
    var p := w.lbs[lb].pools[pool];
    forall g | g in added
      ensures WantsGroup(w.spec, p.name, added[g].name) && GroupFits(w.spec, p.name, added[g])
      ensures !HoldsNamed(p.groups, added[g].name)
    {
      var i :| 0 <= i < |patch.creates| && patch.creates[i] == added[g];
    }
  }

  /** The cloud names the new groups; it may also refuse. */
  method SendPatch(c: Cloud, lb: Id, pool: Id, patch: GroupPatch) returns (ok: bool, ghost added: map<Id, Group>)
    requires c.Valid() && Works(c.w, lb) && Sendable(c.w, lb, pool, patch)
    modifies c
    ensures c.Continues() && (!ok ==> c.Faulty()) && c.calls > old(c.calls)
    ensures c.w == old(c.w) || Sent(old(c.w), lb, pool, patch, added, c.w)
    ensures ok ==> Sent(old(c.w), lb, pool, patch, added, c.w)
  {
    added := map[];
    var ids: seq<Id> := *;
    if |ids| != |patch.creates| || !Distinct(ids)
       || exists i :: 0 <= i < |ids| && ids[i] in c.w.lbs[lb].pools[pool].groups {
      c.Refuse();
      return false, added;
    }
    ZipAdds(ids, patch.creates);
    added := Zip(ids, patch.creates);
    if Possible(c.w, PatchGroups(lb, pool, added, patch.updates, {})) {
      SendAllowed(c.w, lb, pool, patch, added);
    }
    ok := c.Try(PatchGroups(lb, pool, Zip(ids, patch.creates), patch.updates, {}));
  }

  /** The patch was applied, with `added` as its new groups. */
  ghost predicate Sent(w: World, lb: Id, pool: Id, patch: GroupPatch, added: map<Id, Group>, after: World) {
    var a := PatchGroups(lb, pool, added, patch.updates, {});
    AddedFor(added, patch.creates) && Possible(w, a) && after == Apply(w, a)
  }

  lemma WantsListed(spec: Spec, sp: PoolSpec, name: string)
    requires sp in spec.pools
    ensures WantsPool(spec, sp.name)
    ensures ListsGroup(sp.groups, name) ==> WantsGroup(spec, sp.name, name)
    ensures WellFormed(spec) ==> DistinctGroups(sp.groups)
  {
    var i :| 0 <= i < |spec.pools| && spec.pools[i] == sp;
    assert spec.pools[i].name == sp.name;
  }

  /** Within the pass, only the groups of one pool changed, and they grew. */
  ghost predicate OnlyGroups(w: World, lb: Id, pool: Id, after: World) {
    && lb in w.lbs && pool in w.lbs[lb].pools && lb in after.lbs && pool in after.lbs[lb].pools
    && GroupsGrow(w.lbs[lb].pools[pool].groups, after.lbs[lb].pools[pool].groups)
    && after.lbs == SetPool(w, lb, pool, w.lbs[lb].pools[pool].(groups := after.lbs[lb].pools[pool].groups)).lbs
  }

  lemma OnlyGroupsGrows(w: World, lb: Id, pool: Id, after: World)
    requires OnlyGroups(w, lb, pool, after)
    ensures Grows(w.lbs, after.lbs, lb)
    ensures after.lbs[lb].pools.Keys == w.lbs[lb].pools.Keys && after.lbs[lb].listeners == w.lbs[lb].listeners
    ensures forall p :: p in w.lbs[lb].pools && p != pool ==> after.lbs[lb].pools[p] == w.lbs[lb].pools[p]
  {
  }

  lemma SentOnlyGroups(w: World, lb: Id, pool: Id, patch: GroupPatch, added: map<Id, Group>, after: World)
    requires Sent(w, lb, pool, patch, added, after)
    ensures OnlyGroups(w, lb, pool, after)
    ensures after == w.(lbs := after.lbs)
    ensures after.lbs[lb].pools[pool].groups ==
            PatchedGroups(w.lbs[lb].pools[pool].groups, added, patch.updates, {})
  {
  }

  lemma NothingOnlyGroups(w: World, lb: Id, pool: Id)
    requires lb in w.lbs && pool in w.lbs[lb].pools
    ensures OnlyGroups(w, lb, pool, w)
  {
    var p := w.lbs[lb].pools[pool];
    assert w.lbs[lb].pools[pool := p] == w.lbs[lb].pools;
    assert w.lbs[lb := w.lbs[lb]] == w.lbs;
  }

  predicate AllSettled(st: Status, pool: Id, groups: map<Id, Group>, specs: seq<GroupSpec>) {
    && HoldsGroups(groups, specs)
    && forall g, k :: g in groups && 0 <= k < |specs| && groups[g].name == specs[k].name ==>
         Settled(groups[g], specs[k], RecordedMembers(st, pool, g))
  }

  /** What a pass asks for repeats no address that was not repeated, and keeps the dial. */
  lemma UpdateForFits(g: Group, gs: GroupSpec, recorded: seq<Member>)
    requires UpdateFor(g, gs, recorded).Some?
    ensures UpdateFits(g, UpdateFor(g, gs, recorded).value)
  {
    var merged := Merged(recorded, ConvertList(g.members), gs.members);
    if DistinctLiveKeys(g.members) {
      ConvertKeys(g.members);
      MergedDistinct(recorded, ConvertList(g.members), gs.members);
      RequestKeys(merged);
    }
  }

  lemma {:induction false} UpdatesFit(groups: Listing<Group>, st: Status, pool: Id, specs: seq<GroupSpec>, g: Id)
    requires Lists(groups) && g in PatchFor(groups, st, pool, specs).updates && g in groups.at
    ensures UpdateFits(groups.at[g], PatchFor(groups, st, pool, specs).updates[g])
  {
    var n := |specs| - 1;
    var found := First(groups.ids, groups.at, Named(specs[n].name));
    if found == Some(g) && UpdateFor(groups.at[g], specs[n], RecordedMembers(st, pool, g)).Some? {
      UpdateForFits(groups.at[g], specs[n], RecordedMembers(st, pool, g));
    } else {
      UpdatesFit(groups, st, pool, specs[..n], g);
    }
  }

  /** A group as the spec describes it fits. */
  lemma FromSpecFits(spec: Spec, sp: PoolSpec, g: Group)
    requires sp in spec.pools && FromSpec(sp.groups, g)
    ensures GroupFits(spec, sp.name, g)
  {
    if SpecRegular(spec) {
      var j :| 0 <= j < |spec.pools| && spec.pools[j] == sp;
      var k :| 0 <= k < |sp.groups| && g == NewGroup(sp.groups[k]);
      RequestKeys(sp.groups[k].members);
      forall i | 0 <= i < |spec.pools| && spec.pools[i].name == sp.name ensures DialIn(spec.pools[i].groups, g) {
        assert i == j;
      }
    }
  }

  lemma PatchFits(groups: Listing<Group>, st: Status, pool: Id, spec: Spec, sp: PoolSpec)
    requires Lists(groups) && sp in spec.pools
    ensures var patch := PatchFor(groups, st, pool, sp.groups);
            && (forall g :: g in patch.updates && g in groups.at ==> UpdateFits(groups.at[g], patch.updates[g]))
            && (forall x :: x in patch.creates ==> GroupFits(spec, sp.name, x))
  {
    var patch := PatchFor(groups, st, pool, sp.groups);
    forall g | g in patch.updates && g in groups.at ensures UpdateFits(groups.at[g], patch.updates[g]) {
      UpdatesFit(groups, st, pool, sp.groups, g);
    }
    forall x | x in patch.creates ensures GroupFits(spec, sp.name, x) {
      CreatedFromSpec(groups, st, pool, sp.groups, x);
      FromSpecFits(spec, sp, x);
    }
  }

  lemma PatchSendable(w: World, lb: Id, pool: Id, sp: PoolSpec, groups: Listing<Group>)
    requires lb in w.lbs && pool in w.lbs[lb].pools && w.lbs[lb].pools[pool].name == sp.name && sp in w.spec.pools
    requires Lists(groups) && groups.at == w.lbs[lb].pools[pool].groups
    ensures Sendable(w, lb, pool, PatchFor(groups, w.snap, pool, sp.groups))
  {
    PatchStaysInSpec(groups, w.snap, pool, sp.groups);
    PatchFits(groups, w.snap, pool, w.spec, sp);
    forall name: string ensures ListsGroup(sp.groups, name) ==> WantsGroup(w.spec, sp.name, name) {
      WantsListed(w.spec, sp, name);
    }
    WantsListed(w.spec, sp, "");
  }

  /** With distinct names on both sides, the groups made one step towards the spec. */
  predicate Stepped(w: World, lb: Id, pool: Id, sp: PoolSpec, after: World)
    requires lb in w.lbs && pool in w.lbs[lb].pools && lb in after.lbs && pool in after.lbs[lb].pools
  {
    DistinctGroups(sp.groups) && UniqueGroups(w.lbs[lb].pools[pool].groups) ==>
      GroupsStepped(w.snap, pool, w.lbs[lb].pools[pool].groups, sp.groups, after.lbs[lb].pools[pool].groups)
  }

  lemma SentSteps(
    w: World, lb: Id, pool: Id, sp: PoolSpec, groups: Listing<Group>, added: map<Id, Group>, after: World)
    requires Lists(groups) && lb in w.lbs && pool in w.lbs[lb].pools && groups.at == w.lbs[lb].pools[pool].groups
    requires Sent(w, lb, pool, PatchFor(groups, w.snap, pool, sp.groups), added, after)
    ensures OnlyGroups(w, lb, pool, after) && after == w.(lbs := after.lbs) && Stepped(w, lb, pool, sp, after)
    ensures HoldsGroups(after.lbs[lb].pools[pool].groups, sp.groups)
  {
    PatchedHolds(groups, w.snap, pool, sp.groups, added);
    SentOnlyGroups(w, lb, pool, PatchFor(groups, w.snap, pool, sp.groups), added, after);
    if DistinctGroups(sp.groups) && UniqueGroups(groups.at) {
      PatchSteps(groups, w.snap, pool, sp.groups, added);
    }
  }

  lemma NothingSteps(w: World, lb: Id, pool: Id, sp: PoolSpec, groups: Listing<Group>)
    requires Lists(groups) && lb in w.lbs && pool in w.lbs[lb].pools && groups.at == w.lbs[lb].pools[pool].groups
    requires PatchFor(groups, w.snap, pool, sp.groups) == GroupPatch([], map[])
    ensures Stepped(w, lb, pool, sp, w) && HoldsGroups(groups.at, sp.groups)
  {
    EmptyPatch(groups.at);
    PatchedHolds(groups, w.snap, pool, sp.groups, map[]);
    if DistinctGroups(sp.groups) && UniqueGroups(groups.at) {
      PatchSteps(groups, w.snap, pool, sp.groups, map[]);
    }
  }

  lemma EmptyPatch(groups: map<Id, Group>)
    ensures PatchedGroups(groups, map[], map[], {}) == groups
    ensures AddedFor(map[], [])
  {
  }

  /** A live group that the spec lists has another traffic dial than the spec asks for. */
  predicate DialOff(groups: map<Id, Group>, specs: seq<GroupSpec>) {
    exists g, k :: g in groups && 0 <= k < |specs| && groups[g].name == specs[k].name
                && !Agrees(specs[k].trafficDial, groups[g].trafficDial)
  }

  /** Nothing is named twice, and some dial is off. */
  predicate Resends(groups: map<Id, Group>, specs: seq<GroupSpec>) {
    UniqueGroups(groups) && DistinctGroups(specs) && DialOff(groups, specs)
  }

  lemma DialOffSends(groups: Listing<Group>, st: Status, pool: Id, specs: seq<GroupSpec>)
    requires Lists(groups) && Resends(groups.at, specs)
    ensures PatchFor(groups, st, pool, specs) != GroupPatch([], map[])
  {
    var g, k :| g in groups.at && 0 <= k < |specs| && groups.at[g].name == specs[k].name
             && !Agrees(specs[k].trafficDial, groups.at[g].trafficDial);
    PatchUpdatesExactly(groups, st, pool, specs, k, g);
    assert g in PatchFor(groups, st, pool, specs).updates;
  }

  /** When the patch is sent at all. */
  lemma PatchIsSent(groups: Listing<Group>, st: Status, pool: Id, specs: seq<GroupSpec>)
    requires Lists(groups)
    ensures AllSettled(st, pool, groups.at, specs) ==> PatchFor(groups, st, pool, specs) == GroupPatch([], map[])
    ensures Resends(groups.at, specs) ==> PatchFor(groups, st, pool, specs) != GroupPatch([], map[])
  {
    if AllSettled(st, pool, groups.at, specs) {
      PatchIsEmpty(groups, st, pool, specs);
    }
    if Resends(groups.at, specs) {
      DialOffSends(groups, st, pool, specs);
    }
  }

  /** Sends the patch and waits. */
  method ApplyPatch(c: Cloud, lb: Id, pool: Id, sp: PoolSpec, groups: Listing<Group>, patch: GroupPatch) returns (ok: bool)
    requires c.Valid() && Works(c.w, lb) && sp in c.w.spec.pools
    requires lb in c.w.lbs && pool in c.w.lbs[lb].pools && c.w.lbs[lb].pools[pool].name == sp.name
    requires Lists(groups) && groups.at == c.w.lbs[lb].pools[pool].groups
    requires patch == PatchFor(groups, c.w.snap, pool, sp.groups)
    modifies c
    ensures c.Continues() && OnlyGroups(old(c.w), lb, pool, c.w) && c.w == old(c.w).(lbs := c.w.lbs)
    ensures (!ok ==> c.Faulty()) && c.calls > old(c.calls)
    ensures ok ==> Stepped(old(c.w), lb, pool, sp, c.w) && HoldsGroups(c.w.lbs[lb].pools[pool].groups, sp.groups)
  {
    NothingOnlyGroups(c.w, lb, pool);
    PatchSendable(c.w, lb, pool, sp, groups);
    ghost var added;
    ok, added := SendPatch(c, lb, pool, patch);
    if Sent(old(c.w), lb, pool, patch, added, c.w) {
      SentSteps(old(c.w), lb, pool, sp, groups, added, c.w);
    }
    if ok {
      ok := c.Wait();
    }
  }

  /** Lists the groups, and creates or updates those of the spec in one request. */
  method PatchMembers(c: Cloud, lb: Id, pool: Id, sp: PoolSpec) returns (ok: bool)
    requires c.Valid() && Works(c.w, lb) && sp in c.w.spec.pools
    requires lb in c.w.lbs && pool in c.w.lbs[lb].pools && c.w.lbs[lb].pools[pool].name == sp.name
    modifies c
    ensures c.Continues() && OnlyGroups(old(c.w), lb, pool, c.w) && c.w == old(c.w).(lbs := c.w.lbs)
    ensures !ok ==> c.Faulty()
    ensures ok && Resends(old(c.w).lbs[lb].pools[pool].groups, sp.groups) ==> c.calls > old(c.calls)
    ensures ok ==> Stepped(old(c.w), lb, pool, sp, c.w) && HoldsGroups(c.w.lbs[lb].pools[pool].groups, sp.groups)
    ensures AllSettled(c.w.snap, pool, old(c.w).lbs[lb].pools[pool].groups, sp.groups) ==> c.Untouched()
  {
    NothingOnlyGroups(c.w, lb, pool);
    var listed := c.ListGroups(lb, pool);
    if listed.None? {
      return false;
    }
    var patch := BuildPatch(listed.value, c.w.snap, pool, sp.groups);
    PatchIsSent(listed.value, c.w.snap, pool, sp.groups);
    if patch == GroupPatch([], map[]) {
      NothingSteps(c.w, lb, pool, sp, listed.value);
      return true;
    }
    ok := ApplyPatch(c, lb, pool, sp, listed.value, patch);
  }

  // ----- Reading back -----

  predicate GroupExact(groups: map<Id, Group>, name: string, r: CreatedGroup) {
    && r.id in groups && groups[r.id].name == name && r.name == name
    && r.members == ConvertList(groups[r.id].members)
  }

  /** The record describes the live groups of the spec, in spec order, with every live member. */
  predicate GroupsExact(groups: map<Id, Group>, specs: seq<GroupSpec>, records: seq<CreatedGroup>) {
    |records| == |specs| && forall k :: 0 <= k < |specs| ==> GroupExact(groups, specs[k].name, records[k])
  }

  method ReadBack(groups: Listing<Group>, specs: seq<GroupSpec>) returns (r: Option<seq<CreatedGroup>>)
    requires Lists(groups)
    ensures r.Some? ==> GroupsExact(groups.at, specs, r.value)
    ensures HoldsGroups(groups.at, specs) ==> r.Some?
  {
    var created: seq<CreatedGroup> := [];
    for i := 0 to |specs|
      invariant |created| == i && forall k :: 0 <= k < i ==> GroupExact(groups.at, specs[k].name, created[k])
    {
      var found := First(groups.ids, groups.at, Named(specs[i].name));
      if found.None? {
        assert !HoldsNamed(groups.at, specs[i].name);
        return None;
      }
      var g := groups.at[found.value];
      created := created + [CreatedGroup(found.value, g.name, ConvertList(g.members))];
    }
    return Some(created);
  }

  /** Lists the groups once more and reads those of the spec back. */
  method ReadGroups(c: Cloud, lb: Id, pool: Id, specs: seq<GroupSpec>) returns (r: Option<seq<CreatedGroup>>)
    requires lb in c.w.lbs && pool in c.w.lbs[lb].pools && HoldsGroups(c.w.lbs[lb].pools[pool].groups, specs)
    modifies c`faults
    ensures old(c.faults) <= c.faults && (r.None? ==> c.Faulty())
    ensures r.Some? ==> GroupsExact(c.w.lbs[lb].pools[pool].groups, specs, r.value)
  {
    var listed := c.ListGroups(lb, pool);
    if listed.None? {
      return None;
    }
    r := ReadBack(listed.value, specs);
  }

  lemma ConvertDistinct(live: seq<LiveMember>)
    requires DistinctLiveKeys(live)
    ensures Distinct(ConvertList(live))
  {
    forall i, j | 0 <= i < j < |live| ensures ConvertList(live)[i] != ConvertList(live)[j] {
      assert LiveKeyOf(live[i]) != LiveKeyOf(live[j]);
    }
  }

  lemma ExactIsTidy(groups: map<Id, Group>, specs: seq<GroupSpec>, records: seq<CreatedGroup>)
    requires GroupsExact(groups, specs, records) && DistinctGroups(specs) && MembersOnce(groups)
    ensures TidyGroups(records)
  {
    forall i, j | 0 <= i < j < |records| ensures records[i].id != records[j].id {
      assert GroupExact(groups, specs[i].name, records[i]) && GroupExact(groups, specs[j].name, records[j]);
    }
    forall i | 0 <= i < |records| ensures Distinct(records[i].members) {
      assert GroupExact(groups, specs[i].name, records[i]);
      ConvertDistinct(groups[records[i].id].members);
    }
  }

  /** What was read back may be recorded. */
  lemma ExactIsRecordable(w: World, lb: Id, pool: Id, sp: PoolSpec, records: seq<CreatedGroup>)
    requires lb in w.lbs && pool in w.lbs[lb].pools && w.lbs[lb].pools[pool].name == sp.name && sp in w.spec.pools
    requires GroupsExact(w.lbs[lb].pools[pool].groups, sp.groups, records)
    ensures Recordable(w, lb, pool, records)
    ensures SpecRegular(w.spec) && Once(w.lbs) ==> TidyGroups(records)
  {
    WantsListed(w.spec, sp, "");
    forall k | 0 <= k < |records| ensures WantsGroup(w.spec, sp.name, records[k].name) {
      assert GroupExact(w.lbs[lb].pools[pool].groups, sp.groups[k].name, records[k]);
      WantsListed(w.spec, sp, records[k].name);
    }
    if SpecRegular(w.spec) && Once(w.lbs) {
      ExactIsTidy(w.lbs[lb].pools[pool].groups, sp.groups, records);
    }
  }

  /** Whatever the read-back finds, the record already has it. */
  ghost predicate OnRecord(st: Status, pool: Id, name: string, groups: map<Id, Group>, specs: seq<GroupSpec>) {
    forall records :: GroupsExact(groups, specs, records) ==> HasPool(st.pools, pool, name, records)
  }

  /** Reads the groups back and records every live member of them as created. */
  method RecordGroups(c: Cloud, lb: Id, pool: Id, sp: PoolSpec) returns (r: Option<seq<CreatedGroup>>)
    requires c.Valid() && sp in c.w.spec.pools
    requires lb in c.w.lbs && pool in c.w.lbs[lb].pools && c.w.lbs[lb].pools[pool].name == sp.name
    requires HoldsGroups(c.w.lbs[lb].pools[pool].groups, sp.groups)
    modifies c
    ensures c.Continues() && (r.None? ==> c.Faulty())
    ensures c.w == old(c.w).(status := old(c.w).status.(pools := c.w.status.pools))
    ensures OthersKept(old(c.w).status.pools, c.w.status.pools, pool)
    ensures r.Some? ==> GroupsExact(c.w.lbs[lb].pools[pool].groups, sp.groups, r.value)
    ensures r.Some? ==> HasPool(c.w.status.pools, pool, sp.name, r.value)
    ensures r.Some? && Tidy(old(c.w).status.pools) && TidyGroups(r.value) ==> Tidy(c.w.status.pools)
    ensures OnRecord(old(c.w).status, pool, sp.name, c.w.lbs[lb].pools[pool].groups, sp.groups) ==> c.Untouched()
  {
    r := ReadGroups(c, lb, pool, sp.groups);
    if r.None? {
      return;
    }
    ExactIsRecordable(c.w, lb, pool, sp, r.value);
    var ok := StatusUpdatePool(c, lb, pool, sp.name, r.value);
    if !ok {
      r := None;
    }
  }

  /** The whole of it: patch, read back, record every live member of the spec's groups as created. */
  method DeployPoolMembers(c: Cloud, lb: Id, pool: Id, sp: PoolSpec) returns (r: Option<seq<CreatedGroup>>)
    requires c.Valid() && Works(c.w, lb) && sp in c.w.spec.pools
    requires lb in c.w.lbs && pool in c.w.lbs[lb].pools && c.w.lbs[lb].pools[pool].name == sp.name
    modifies c
    ensures c.Continues() && OnlyGroups(old(c.w), lb, pool, c.w) && (r.None? ==> c.Faulty())
    ensures c.w == old(c.w).(lbs := c.w.lbs, status := old(c.w).status.(pools := c.w.status.pools))
    ensures OthersKept(old(c.w).status.pools, c.w.status.pools, pool)
    ensures r.Some? && Resends(old(c.w).lbs[lb].pools[pool].groups, sp.groups) ==> c.calls > old(c.calls)
    ensures r.Some? ==> GroupsExact(c.w.lbs[lb].pools[pool].groups, sp.groups, r.value)
    ensures r.Some? ==> HasPool(c.w.status.pools, pool, sp.name, r.value)
    ensures r.Some? ==> Stepped(old(c.w), lb, pool, sp, c.w)
    ensures r.Some? && Tidy(old(c.w).status.pools) && TidyGroups(r.value) ==> Tidy(c.w.status.pools)
    ensures AllSettled(c.w.snap, pool, old(c.w).lbs[lb].pools[pool].groups, sp.groups)
            && OnRecord(old(c.w).status, pool, sp.name, old(c.w).lbs[lb].pools[pool].groups, sp.groups)
            ==> c.Untouched()
  {
    var ok := PatchMembers(c, lb, pool, sp);
    if !ok {
      return None;
    }
    r := RecordGroups(c, lb, pool, sp);
  }
}
