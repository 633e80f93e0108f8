/**
 The cloud and the Kubernetes status behind one object. Every write either fails or is applied,
 and a write that reports an error may have been applied all the same. Reads fail at will.
 */
module CloudApi {
  import opened GlbTypes
  import opened Protocol

  /** A list reply: the entities it holds, and the order in which it lists them. */
  datatype Listing<T> = Listing(ids: seq<Id>, at: map<Id, T>)

  /** What waiting for a new load balancer comes to. */
  datatype Activity = Active | InError | Unknown

  predicate Lists<T>(l: Listing<T>) {
    && Distinct(l.ids)
    && (forall id :: id in l.ids ==> id in l.at)
    && (forall id :: id in l.at ==> id in l.ids)
  }

  /** The first listed entity with the property. */
  function First<T>(ids: seq<Id>, at: map<Id, T>, p: T -> bool): (r: Option<Id>)
    requires forall id :: id in ids ==> id in at
    ensures r.Some? ==> r.value in ids && p(at[r.value])
    ensures r.None? ==> forall id :: id in ids ==> !p(at[id])
  {
    if ids == [] then None
    else
      assert ids[0] in ids && forall id :: id in ids[1..] ==> id in ids;
      if p(at[ids[0]]) then Some(ids[0]) else First(ids[1..], at, p)
  }

  /** The act creates something that is to be recorded, or records it. */
  predicate IsBooking(a: Act) {
    a.CreateLb? || a.CreatePool? || a.CreateListener? || a.PatchStatus?
  }

  /** A pass begins, or somebody else edits the cloud. */
  predicate IsTurn(a: Act) {
    a.BeginPass? || a.Outside?
  }

  predicate CalmAt(log: seq<Act>, since: nat, k: int) {
    since <= k < |log| ==> !IsTurn(log[k])
  }

  /** Neither has happened from there on. */
  ghost predicate Calm(log: seq<Act>, since: nat) {
    forall k :: CalmAt(log, since, k)
  }

  /** The run has gone on from there, without a turn. */
  ghost predicate Onward(past: seq<Act>, came: seq<World>, log: seq<Act>, states: seq<World>) {
    |came| == |past| + 1 && past <= log && came <= states && Calm(log, |past|)
  }

  lemma OnwardNext(past: seq<Act>, came: seq<World>, log: seq<Act>, states: seq<World>, a: Act, w: World)
    requires Onward(past, came, log, states) && |states| == |log| + 1
    ensures !IsTurn(a) ==> Onward(past, came, log + [a], states + [w])
    ensures Onward(log + [a], states + [w], log + [a], states + [w])
  {
    var more := log + [a];
    forall k ensures CalmAt(more, |more|, k) && (!IsTurn(a) ==> CalmAt(more, |past|, k)) {
      assert CalmAt(log, |past|, k);
    }
  }

  lemma InsideKeeps(w: World, a: Act)
    requires Possible(w, a) && Inside(a)
    ensures Apply(w, a).lbs.Keys == w.lbs.Keys && Apply(w, a).born == w.born
  {
  }

  class Cloud {
    var w: World
    // the run so far: the states gone through and the acts taken between them
    ghost var states: seq<World>
    ghost var log: seq<Act>
    // writes sent, whatever became of them
    ghost var calls: nat
    // calls that failed although what they asked for was possible
    ghost var faults: nat
    // those among them that may leave something created off the record: failed creations and status patches
    ghost var lapses: nat
    // new load balancers reported in error
    ghost var broken: nat

    // the run up to the start of the pass under way, or up to the last edit by somebody else
    ghost var past: seq<Act>
    ghost var came: seq<World>

    ghost predicate Valid()
      reads this`w, this`states, this`log, this`past, this`came
    {
      Run(states, log) && states[|log|] == w && Onward(past, came, log, states)
    }

    /** The state in which the pass began. */
    ghost function Start(): World
      requires Valid()
      reads this`w, this`states, this`log, this`past, this`came
    {
      came[|past|]
    }

    /** The object moved on within the same pass. */
    twostate predicate Proceeds()
      reads this
    {
      && Valid() && past == old(past) && came == old(came)
      && old(calls) <= calls && old(faults) <= faults && old(lapses) <= lapses && old(broken) <= broken
      && w.spec == old(w.spec) && w.snap == old(w.snap) && w.deleting == old(w.deleting)
    }

    /** And no load balancer was created or deleted. */
    twostate predicate Continues()
      reads this
    {
      Proceeds() && w.lbs.Keys == old(w.lbs).Keys && w.born == old(w.born) && broken == old(broken)
    }

    /** The object was only read. Some of the reads may have failed. */
    twostate predicate Untouched()
      reads this
    {
      w == old(w) && log == old(log) && states == old(states) && calls == old(calls) && old(faults) <= faults
    }

    /** Some call failed. */
    twostate predicate Faulty()
      reads this
    {
      faults > old(faults)
    }

    /** A creation or a status patch failed. */
    twostate predicate Lapsed()
      reads this
    {
      lapses > old(lapses)
    }

    constructor (world: World)
      requires IdsProper(world.lbs)
      ensures Valid() && w == world && states == [world] && log == [] && calls == 0 && faults == 0 && lapses == 0
      ensures broken == 0
    {
      w, states, log, calls, faults, lapses, broken := world, [world], [], 0, 0, 0, 0;
      past, came := [], [world];
    }

    lemma HasProperIds()
      requires Valid()
      ensures IdsProper(w.lbs)
    {
      IdsStayProper(states, log, |log|);
    }

    method Take(a: Act)
      requires Valid() && Step(w, a)
      modifies this
      ensures Valid() && log == old(log) + [a] && w == Apply(old(w), a) && calls == old(calls)
      ensures faults == old(faults) && lapses == old(lapses) && broken == old(broken)
      ensures states == old(states) + [w]
      ensures if IsTurn(a) then past == log && came == states else past == old(past) && came == old(came)
    {
      RunExtend(states, log, a);
      log := log + [a];
      w := Apply(w, a);
      states := states + [w];
      if IsTurn(a) {
        past, came := log, states;
      }
      OnwardNext(old(past), old(came), old(log), old(states), a, w);
    }

    /** One write. It fails for no reason of ours, with or without taking effect, or because it is impossible. */
    method Send(a: Act) returns (ok: bool)
      requires Valid() && (Possible(w, a) ==> Allowed(w, a))
      modifies this
      ensures Valid() && calls == old(calls) + 1
      ensures IsTurn(a) || (past == old(past) && came == old(came))
      ensures old(faults) <= faults && old(lapses) <= lapses && broken == old(broken)
      ensures ok ==> Possible(old(w), a) && w == Apply(old(w), a)
      ensures !ok ==> w == old(w) || (Possible(old(w), a) && w == Apply(old(w), a))
      ensures !ok ==> Faulty() || !Possible(old(w), a)
      ensures !ok && IsBooking(a) ==> Lapsed()
    {
      calls := calls + 1;
      var arrives: bool := *;
      ok := false;
      if arrives && Possible(w, a) {
        Take(a);
        ok := *;
      }
      if !ok && (!arrives || Possible(old(w), a)) {
        faults := faults + 1;
      }
      if !ok && IsBooking(a) {
        lapses := lapses + 1;
      }
    }

    /** The same, saying also what most writes leave alone. */
    method Try(a: Act) returns (ok: bool)
      requires Valid() && (Possible(w, a) ==> Allowed(w, a))
      modifies this
      ensures Valid() && calls == old(calls) + 1
      ensures IsTurn(a) || (past == old(past) && came == old(came))
      ensures old(faults) <= faults && old(lapses) <= lapses && broken == old(broken)
      ensures ok ==> Possible(old(w), a) && w == Apply(old(w), a)
      ensures !ok ==> w == old(w) || (Possible(old(w), a) && w == Apply(old(w), a))
      ensures !ok ==> Faulty() || !Possible(old(w), a)
      ensures !ok && IsBooking(a) ==> Lapsed()
      ensures Inside(a) ==> w.lbs.Keys == old(w.lbs).Keys && w.born == old(w.born)
    {
      ok := Send(a);
      if Inside(a) && Possible(old(w), a) {
        InsideKeeps(old(w), a);
      }
    }

    /** Waiting for the load balancer to become active, or any read whose answer is not used. */
    method Wait() returns (ok: bool)
      modifies this`faults
      ensures old(faults) <= faults && (!ok ==> Faulty())
    {
      ok := *;
      if !ok {
        faults := faults + 1;
      }
    }

    /** Waiting for a load balancer that was just created. It may come up in error. */
    method WaitNew() returns (r: Activity)
      modifies this`faults, this`broken
      ensures faults == old(faults) + if r.Active? then 0 else 1
      ensures broken == old(broken) + if r.InError? then 1 else 0
    {
      r := *;
      if !r.Active? {
        faults := faults + 1;
      }
      if r.InError? {
        broken := broken + 1;
      }
    }

    /** Reading the fresh copy that a status patch starts from. */
    method Fetch() returns (ok: bool)
      modifies this`faults, this`lapses
      ensures old(faults) <= faults && old(lapses) <= lapses && (!ok ==> Faulty() && Lapsed())
    {
      ok := *;
      if !ok {
        faults, lapses := faults + 1, lapses + 1;
      }
    }

    /** The cloud refuses a request with ids it should not have given out. */
    method Refuse()
      modifies this`faults, this`lapses, this`calls
      ensures faults == old(faults) + 1 && lapses == old(lapses) + 1 && calls == old(calls) + 1
    {
      faults, lapses, calls := faults + 1, lapses + 1, calls + 1;
    }

    method ListPools(lb: Id) returns (r: Option<Listing<Pool>>)
      modifies this`faults
      ensures old(faults) <= faults && (r.None? ==> Faulty() || lb !in w.lbs)
      ensures r.Some? ==> lb in w.lbs && Lists(r.value) && r.value.at == w.lbs[lb].pools
    {
      if lb !in w.lbs {
        return None;
      }
      var answers: bool, ids: seq<Id> := *, *;
      if answers && Lists(Listing(ids, w.lbs[lb].pools)) {
        return Some(Listing(ids, w.lbs[lb].pools));
      }
      faults := faults + 1;
      return None;
    }

    method ListListeners(lb: Id) returns (r: Option<Listing<Listener>>)
      modifies this`faults
      ensures old(faults) <= faults && (r.None? ==> Faulty() || lb !in w.lbs)
      ensures r.Some? ==> lb in w.lbs && Lists(r.value) && r.value.at == w.lbs[lb].listeners
    {
      if lb !in w.lbs {
        return None;
      }
      var answers: bool, ids: seq<Id> := *, *;
      if answers && Lists(Listing(ids, w.lbs[lb].listeners)) {
        return Some(Listing(ids, w.lbs[lb].listeners));
      }
      faults := faults + 1;
      return None;
    }

    method ListGroups(lb: Id, pool: Id) returns (r: Option<Listing<Group>>)
      modifies this`faults
      ensures old(faults) <= faults && (r.None? ==> Faulty() || lb !in w.lbs || pool !in w.lbs[lb].pools)
      ensures r.Some? ==> lb in w.lbs && pool in w.lbs[lb].pools
      ensures r.Some? ==> Lists(r.value) && r.value.at == w.lbs[lb].pools[pool].groups
    {
      if lb !in w.lbs || pool !in w.lbs[lb].pools {
        return None;
      }
      var answers: bool, ids: seq<Id> := *, *;
      if answers && Lists(Listing(ids, w.lbs[lb].pools[pool].groups)) {
        return Some(Listing(ids, w.lbs[lb].pools[pool].groups));
      }
      faults := faults + 1;
      return None;
    }
  }
}
