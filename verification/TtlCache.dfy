/** The bounded, expiring map in front of the cloud's read API (ttl_cache.go). */
module TtlCaches {
  import opened GlbTypes

  datatype Entry<V> = Entry(value: V, expiresAt: int)

  /** What happened to the cache, oldest first. */
  datatype Event<V> = Put(key: string, value: V, at: int) | Invalidated(key: string)

  datatype Stored<V> = Stored(value: V, at: int)

  /** The last value put for the key since it was last invalidated. */
  function LastPut<V>(history: seq<Event<V>>, key: string): Option<Stored<V>> {
    if history == [] then None else
      var e := history[|history| - 1];
      if e.key == key then (if e.Put? then Some(Stored(e.value, e.at)) else None)
      else LastPut(history[..|history| - 1], key)
  }

  lemma LastPutAppend<V>(history: seq<Event<V>>, e: Event<V>, key: string)
    ensures LastPut(history + [e], key) ==
            if e.key != key then LastPut(history, key)
            else if e.Put? then Some(Stored(e.value, e.at)) else None
  {
    assert (history + [e])[..|history|] == history;
  }

  // ----- When eviction ends -----

  /** One round of the second eviction loop: some key other than the incoming one goes, if there is one. */
  predicate EvictRound(keys: set<string>, incoming: string, next: set<string>) {
    if keys - {incoming} == {} then next == keys
    else exists k :: k in keys && k != incoming && next == keys - {k}
  }

  /** The size below which the loop cannot bring the map: the incoming key is never dropped. */
  function Floor(keys: set<string>, incoming: string): nat {
    if incoming in keys then 1 else 0
  }

  /** Once the bound is not above the floor, no number of rounds brings the size below it: the loop runs forever. */
  lemma {:induction false} EvictionNeverEnds(rounds: seq<set<string>>, incoming: string, maxSize: int, n: nat)
    requires n < |rounds| && |rounds[0]| >= maxSize && Floor(rounds[0], incoming) >= maxSize
    requires forall i :: 0 <= i < |rounds| - 1 ==> EvictRound(rounds[i], incoming, rounds[i + 1])
    ensures |rounds[n]| >= maxSize && Floor(rounds[n], incoming) == Floor(rounds[0], incoming)
  {
    if n > 0 {
      EvictionNeverEnds(rounds, incoming, maxSize, n - 1);
      assert EvictRound(rounds[n - 1], incoming, rounds[n]);
      if incoming in rounds[n] {
        assert {incoming} <= rounds[n];
        SubsetSize({incoming}, rounds[n]);
      }
    }
  }

  lemma {:induction false} SubsetSize(a: set<string>, b: set<string>)
    requires a <= b
    ensures |a| <= |b|
    decreases |a|
  {
    if a != {} {
      var x :| x in a;
      SubsetSize(a - {x}, b - {x});
    }
  }

  /** With at least two places there is always room below the bound, whatever comes in. */
  lemma TwoPlacesSuffice(keys: set<string>, incoming: string, maxSize: int)
    requires maxSize >= 2
    ensures Floor(keys, incoming) < maxSize
  {
  }

  // ----- The cache -----

  class TtlCache<V> {
    var entries: map<string, Entry<V>>
    const ttl: nat
    const maxSize: int
    ghost var history: seq<Event<V>>

    /** The time to live an entry gets: stretched by up to forty percent, never shortened. */
    ghost predicate Jittered(life: int) {
      ttl <= life && 10 * life <= 14 * ttl
    }

    /** Every entry is the last put of its key, and expires in time. */
    ghost predicate Valid()
      reads this
    {
      forall k :: k in entries ==>
        && LastPut(history, k).Some?
        && LastPut(history, k).value.value == entries[k].value
        && Jittered(entries[k].expiresAt - LastPut(history, k).value.at)
    }

    constructor (ttl: nat, maxSize: int)
      ensures Valid() && entries == map[] && history == [] && this.ttl == ttl && this.maxSize == maxSize
    {
      entries, history := map[], [];
      this.ttl, this.maxSize := ttl, maxSize;
    }

    /** A hit is the last value put for the key since its last invalidation, and not too old. */
    method Get(key: string, now: int) returns (r: Option<V>)
      requires Valid()
      ensures r.Some? <==> key in entries && now <= entries[key].expiresAt
      ensures r.Some? ==> r.value == entries[key].value
      ensures r.Some? ==> LastPut(history, key).Some? && LastPut(history, key).value.value == r.value
                          && 10 * (now - LastPut(history, key).value.at) <= 14 * ttl
    {
      if key !in entries || now > entries[key].expiresAt {
        return None;
      }
      return Some(entries[key].value);
    }

    method Invalidate(key: string)
      requires Valid()
      modifies this
      ensures Valid() && entries == old(entries) - {key} && history == old(history) + [Invalidated(key)]
      ensures LastPut(history, key).None?
    {
      entries := entries - {key};
      history := history + [Invalidated(key)];
      forall k { LastPutAppend(old(history), Invalidated(key), k); }
    }

    /** Drops the expired entries. */
    method DropExpired(now: int)
      modifies this`entries
      ensures entries == map k | k in old(entries) && now <= old(entries)[k].expiresAt :: old(entries)[k]
    {
      var keys := entries.Keys;
      while keys != {}
        invariant keys <= old(entries).Keys
        invariant entries == map k | k in old(entries)
                  && (k in keys || now <= old(entries)[k].expiresAt) :: old(entries)[k]
        decreases keys
      {
        var key :| key in keys;
        if now > entries[key].expiresAt {
          entries := entries - {key};
        }
        keys := keys - {key};
      }
    }

    /**
     Makes room for one more entry. The expired go first; then arbitrary ones, never the incoming
     key, until the size is below the bound. It ends exactly when the bound is above the floor
     (see EvictionNeverEnds for the other half).
     */
    method Evict(incoming: string, now: int)
      requires Floor((set k | k in entries && now <= entries[k].expiresAt), incoming) < maxSize
      modifies this`entries
      ensures |entries| < maxSize
      ensures forall k :: k in entries ==>
                k in old(entries) && entries[k] == old(entries)[k] && now <= entries[k].expiresAt
      ensures incoming in old(entries) && now <= old(entries)[incoming].expiresAt ==> incoming in entries
      ensures var live := set k | k in old(entries) && now <= old(entries)[k].expiresAt;
              |entries| == if |live| < maxSize then |live| else maxSize - 1
    {
      DropExpired(now);
      ghost var live := entries.Keys;
      assert live == set k | k in old(entries) && now <= old(entries)[k].expiresAt;
      while |entries| >= maxSize
        invariant forall k :: k in entries ==>
          k in old(entries) && entries[k] == old(entries)[k] && now <= entries[k].expiresAt
        invariant incoming in live <==> incoming in entries
        invariant |entries| == |live| || (|live| >= maxSize && |entries| >= maxSize - 1 && |entries| <= |live|)
        decreases |entries|
      {
        RoomToEvict(entries.Keys, incoming, maxSize);
        var key :| key in entries && key != incoming;
        assert (entries - {key}).Keys == entries.Keys - {key};
        entries := entries - {key};
      }
    }

    ghost predicate AllLive(now: int)
      reads this
    {
      forall k :: k in entries ==> now <= entries[k].expiresAt
    }

    /** Evicts only from a full map; an unexpired entry goes only when nothing had expired. */
    method MakeRoom(key: string, now: int)
      requires |entries| <= maxSize
      requires Floor((set k | k in entries && now <= entries[k].expiresAt), key) < maxSize
      modifies this`entries
      ensures |entries| < maxSize
      ensures forall k :: k in entries ==> k in old(entries) && entries[k] == old(entries)[k]
      ensures |old(entries)| < maxSize ==> entries == old(entries)
      ensures !old(AllLive(now)) ==> forall k :: k in old(entries) && now <= old(entries)[k].expiresAt ==> k in entries
      ensures old(AllLive(now)) && |old(entries)| == maxSize ==>
                |entries| == maxSize - 1 && (key in old(entries) ==> key in entries)
    {
      if |entries| < maxSize {
        return;
      }
      ghost var live := set k | k in entries && now <= entries[k].expiresAt;
      Evict(key, now);
      if old(AllLive(now)) {
        assert live == old(entries).Keys;
      } else {
        var x :| x in old(entries) && now > old(entries)[x].expiresAt;
        SubsetSize(live, old(entries).Keys - {x});
        SameSizeSubset(entries.Keys, live);
      }
    }

    method Store(key: string, value: V, now: int, life: int)
      requires Valid() && Jittered(life)
      modifies this
      ensures Valid() && entries == old(entries)[key := Entry(value, now + life)]
      ensures history == old(history) + [Event.Put(key, value, now)]
      ensures |entries| == if key in old(entries) then |old(entries)| else |old(entries)| + 1
    {
      assert entries[key := Entry(value, now + life)].Keys == entries.Keys + {key};
      entries := entries[key := Entry(value, now + life)];
      history := history + [Event.Put(key, value, now)];
      forall k { LastPutAppend(old(history), Event.Put(key, value, now), k); }
    }

    /**
     Stores a value. The size stays within the bound, the other keys keep their value or go, and
     an unexpired entry goes only when the map was full and held no expired one. Storing again
     under a key of a full map costs another entry its place.
     */
    method Put(key: string, value: V, now: int, life: int)
      requires Valid() && Jittered(life) && |entries| <= maxSize
      requires Floor((set k | k in entries && now <= entries[k].expiresAt), key) < maxSize
      modifies this
      ensures Valid() && |entries| <= maxSize
      ensures key in entries && entries[key] == Entry(value, now + life)
      ensures forall k :: k in entries && k != key ==> k in old(entries) && entries[k] == old(entries)[k]
      ensures history == old(history) + [Event.Put(key, value, now)]
      ensures |old(entries)| < maxSize ==> entries == old(entries)[key := Entry(value, now + life)]
      ensures !old(AllLive(now)) ==> forall k :: k in old(entries) && now <= old(entries)[k].expiresAt ==> k in entries
      ensures old(AllLive(now)) && |old(entries)| == maxSize ==>
                |entries| == if key in old(entries) then maxSize - 1 else maxSize
    {
      MakeRoom(key, now);
      Store(key, value, now, life);
    }
  }

  lemma RoomToEvict(keys: set<string>, incoming: string, maxSize: int)
    requires |keys| >= maxSize && Floor(keys, incoming) < maxSize
    ensures exists k :: k in keys && k != incoming
  {
    assert |keys - {incoming}| == |keys| - Floor(keys, incoming);
    var k :| k in keys - {incoming};
  }

  lemma SameSizeSubset(a: set<string>, b: set<string>)
    requires a <= b && |a| == |b|
    ensures a == b
  {
    if a != b {
      var x :| x in b && x !in a;
      SubsetSize(a, b - {x});
    }
  }
}
