/** The reads that go through the caches: subnets, servers and tags (vngcloud_server.go, vngcloud_tags.go). */
module CachedReads {
  import opened GlbTypes
  import opened TtlCaches
  import opened Text

  datatype Error = InvalidInput | NotFound | Unavailable
  datatype Result<+T> = Ok(value: T) | Err(error: Error)

  // ----- The key of the subnet cache -----

  function SubnetKey(network: string, subnet: string): string {
    network + "/" + subnet
  }

  lemma SlashFreePrefix(a: string, b: string, c: string, d: string)
    requires '/' !in a && '/' !in c && a + "/" + b == c + "/" + d
    ensures a == c && b == d
  {
    assert "/" == ['/'];
    SplitAtFirst(a, '/', b);
    SplitAtFirst(c, '/', d);
    assert ([a] + Split(b, '/'))[0] == ([c] + Split(d, '/'))[0];
    assert b == (a + "/" + b)[|a| + 1..] && d == (c + "/" + d)[|c| + 1..];
  }

  /** No other network and subnet have this key. */
  ghost predicate UniquelyKeyed(network: string, subnet: string) {
    forall n, s :: SubnetKey(n, s) == SubnetKey(network, subnet) ==> n == network && s == subnet
  }

  lemma KeySlashes(network: string, subnet: string)
    ensures Count(SubnetKey(network, subnet), '/') == Count(network, '/') + 1 + Count(subnet, '/')
  {
    CountConcat(network + "/", subnet, '/');
    CountConcat(network, "/", '/');
    assert Count("/", '/') == 1 + Count("", '/');
  }

  /** A slash in either id lets the key be cut in another place. */
  lemma AnotherCut(network: string, subnet: string, i: nat)
    ensures i < |network| && network[i] == '/' ==>
              SubnetKey(network[..i], network[i + 1..] + "/" + subnet) == SubnetKey(network, subnet)
    ensures i < |subnet| && subnet[i] == '/' ==>
              SubnetKey(network + "/" + subnet[..i], subnet[i + 1..]) == SubnetKey(network, subnet)
  {
    if i < |network| && network[i] == '/' {
      assert network == network[..i] + "/" + network[i + 1..];
    }
    if i < |subnet| && subnet[i] == '/' {
      assert subnet == subnet[..i] + "/" + subnet[i + 1..];
    }
  }

  lemma SlashFreeIsUnique(network: string, subnet: string)
    requires '/' !in network && '/' !in subnet
    ensures UniquelyKeyed(network, subnet)
  {
    CountZero(network, '/');
    CountZero(subnet, '/');
    KeySlashes(network, subnet);
    forall n, s | SubnetKey(n, s) == SubnetKey(network, subnet) ensures n == network && s == subnet {
      KeySlashes(n, s);
      CountZero(n, '/');
      SlashFreePrefix(n, s, network, subnet);
    }
  }

  /** A key belongs to one subnet exactly when neither id holds the separator. */
  lemma UniquelyKeyedExactlyWhen(network: string, subnet: string)
    ensures UniquelyKeyed(network, subnet) <==> '/' !in network && '/' !in subnet
  {
    if '/' in network {
      var i :| 0 <= i < |network| && network[i] == '/';
      AnotherCut(network, subnet, i);
      assert |network[..i]| < |network|;
    } else if '/' in subnet {
      var i :| 0 <= i < |subnet| && subnet[i] == '/';
      AnotherCut(network, subnet, i);
      assert |subnet[i + 1..]| < |subnet|;
    } else {
      SlashFreeIsUnique(network, subnet);
    }
  }

  lemma SubnetKeysCollide()
    ensures SubnetKey("a/b", "c") == SubnetKey("a", "b/c")
  {
    assert "a/b" + "/" + "c" == "a" + "/" + "b/c";
  }

  // ----- Servers over subnets -----

  datatype Subnet = Subnet(id: string, cidr: string, zone: string)
  datatype Server = Server(zone: string, network: string, subnet: string)
  datatype ServerInfo = ServerInfo(zone: string, network: string, subnet: string, cidr: string)
  datatype SubnetRef = SubnetRef(network: string, subnet: string)

  /** What the API would say; it does not change while the process runs. */
  datatype Upstream = Upstream(servers: map<string, Server>, subnets: map<SubnetRef, Subnet>)

  function DirectSubnet(up: Upstream, network: string, subnet: string): Option<Subnet> {
    if SubnetRef(network, subnet) in up.subnets then Some(up.subnets[SubnetRef(network, subnet)]) else None
  }

  /** The answer without any cache. */
  function Direct(up: Upstream, instance: string): Result<ServerInfo> {
    if instance == "" then Err(InvalidInput)
    else if instance !in up.servers then Err(NotFound)
    else
      var s := up.servers[instance];
      if s.subnet == "" then Err(NotFound) else
        var subnet := DirectSubnet(up, s.network, s.subnet);
        if subnet.None? then Err(NotFound)
        else Ok(ServerInfo(s.zone, s.network, s.subnet, subnet.value.cidr))
  }

  /** Zone, network and subnet of that server, and the range of that subnet of its network. */
  predicate IsInfo(up: Upstream, instance: string, info: ServerInfo) {
    && instance != "" && info.subnet != ""
    && instance in up.servers && up.servers[instance] == Server(info.zone, info.network, info.subnet)
    && SubnetRef(info.network, info.subnet) in up.subnets
    && up.subnets[SubnetRef(info.network, info.subnet)].cidr == info.cidr
  }

  predicate NoSlash(networks: set<string>) {
    forall n :: n in networks ==> '/' !in n
  }

  class ServerReads {
    const up: Upstream
    const subnetCache: TtlCache<Subnet>
    const serverCache: TtlCache<ServerInfo>
    // every network id a lookup was made for
    ghost var networks: set<string>

    ghost predicate Valid()
      reads this, subnetCache, serverCache
    {
      && subnetCache.Valid() && serverCache.Valid() && subnetCache as object != serverCache as object
      && |subnetCache.entries| <= subnetCache.maxSize == 512 && |serverCache.entries| <= serverCache.maxSize == 4096
      && (NoSlash(networks) ==> SubnetsTrue() && ServersTrue())
    }

    ghost predicate SubnetsTrue()
      reads this, subnetCache
    {
      forall n, s :: '/' !in n && SubnetKey(n, s) in subnetCache.entries ==>
        DirectSubnet(up, n, s) == Some(subnetCache.entries[SubnetKey(n, s)].value)
    }

    ghost predicate ServersTrue()
      reads this, serverCache
    {
      forall i :: i in serverCache.entries ==> Direct(up, i) == Ok(serverCache.entries[i].value)
    }

    constructor (up: Upstream)
      ensures Valid() && this.up == up && networks == {} && fresh(subnetCache) && fresh(serverCache)
    {
      this.up := up;
      networks := {};
      subnetCache := new TtlCache<Subnet>(3_600_000_000_000, 512);
      serverCache := new TtlCache<ServerInfo>(3_600_000_000_000, 4096);
    }

    /** A subnet, from the cache when it is there. Only found subnets are remembered. */
    method GetSubnet(network: string, subnet: string, now: int, life: int) returns (r: Result<Option<Subnet>>)
      requires Valid() && subnetCache.Jittered(life)
      modifies this, subnetCache
      ensures Valid() && networks == old(networks) + {network}
      ensures NoSlash(networks) ==> r == Ok(DirectSubnet(up, network, subnet)) || r == Err(Unavailable)
    {
      networks := networks + {network};
      assert NoSlash(networks) ==> NoSlash(old(networks)) && '/' !in network;
      var key := SubnetKey(network, subnet);
      var cached := subnetCache.Get(key, now);
      if cached.Some? {
        return Ok(cached);
      }
      var answers: bool := *;
      if !answers {
        return Err(Unavailable);
      }
      var found := DirectSubnet(up, network, subnet);
      if found.Some? {
        ghost var before := subnetCache.entries;
        subnetCache.Put(key, found.value, now, life);
        forall n, s | NoSlash(networks) && '/' !in n && SubnetKey(n, s) in subnetCache.entries
          ensures DirectSubnet(up, n, s) == Some(subnetCache.entries[SubnetKey(n, s)].value)
        {
          if SubnetKey(n, s) == key {
            SlashFreePrefix(n, s, network, subnet);
          } else {
            assert SubnetKey(n, s) in before;
          }
        }
      }
      return Ok(found);
    }

    method GetSubnetCidr(network: string, subnet: string, now: int, life: int) returns (r: Result<string>)
      requires Valid() && subnetCache.Jittered(life)
      modifies this, subnetCache
      ensures Valid() && networks == old(networks) + {network}
      ensures NoSlash(networks) && r != Err(Unavailable) ==>
                r == var d := DirectSubnet(up, network, subnet); if d.None? then Err(NotFound) else Ok(d.value.cidr)
    {
      var s := GetSubnet(network, subnet, now, life);
      if s.Err? {
        return Err(s.error);
      }
      if s.value.None? {
        return Err(NotFound);
      }
      return Ok(s.value.value.cidr);
    }

    /** The network facts of a server, asked for; its subnet may be remembered. */
    method AskServer(instance: string, now: int, life: int) returns (r: Result<ServerInfo>)
      requires Valid() && subnetCache.Jittered(life) && instance != ""
      modifies this, subnetCache
      ensures Valid() && old(networks) <= networks
      ensures NoSlash(networks) ==> r == Direct(up, instance) || r == Err(Unavailable)
    {
      var answers: bool := *;
      if !answers {
        return Err(Unavailable);
      }
      if instance !in up.servers {
        return Err(NotFound);
      }
      var server := up.servers[instance];
      if server.subnet == "" {
        return Err(NotFound);
      }
      var cidr := GetSubnetCidr(server.network, server.subnet, now, life);
      if cidr.Err? {
        return Err(cidr.error);
      }
      return Ok(ServerInfo(server.zone, server.network, server.subnet, cidr.value));
    }

    /** The same through a second cache over the first, and still the API's own answer. */
    method GetServerNetworkInfo(instance: string, now: int, life: int) returns (r: Result<ServerInfo>)
      requires Valid() && subnetCache.Jittered(life) && serverCache.Jittered(life)
      modifies this, subnetCache, serverCache
      ensures Valid() && old(networks) <= networks
      ensures NoSlash(networks) ==> r == Direct(up, instance) || r == Err(Unavailable)
      ensures NoSlash(networks) && r.Ok? ==> IsInfo(up, instance, r.value)
      ensures NoSlash(networks) && r.Err? && r.error != Unavailable ==> forall info :: !IsInfo(up, instance, info)
    {
      if instance == "" {
        return Err(InvalidInput);
      }
      var cached := serverCache.Get(instance, now);
      if cached.Some? {
        return Ok(cached.value);
      }
      r := AskServer(instance, now, life);
      if r.Ok? {
        serverCache.Put(instance, r.value, now, life);
      }
    }
  }

  // ----- Tags -----

  datatype Tag = Tag(key: string, value: string)

  /** A tag list as the API client returns it: possibly no list at all, possibly with empty entries. */
  type TagList = Option<seq<Option<Tag>>>

  function Values(list: TagList): seq<Tag> {
    if list.None? then [] else Present(list.value)
  }

  function Present(items: seq<Option<Tag>>): seq<Tag> {
    if items == [] then [] else
      var n := |items| - 1;
      Present(items[..n]) + (if items[n].Some? then [items[n].value] else [])
  }

  /** Entry by entry, in order: a tag gives itself and an empty entry nothing. */
  lemma {:induction false} PresentAre(a: seq<Option<Tag>>, b: seq<Option<Tag>>, t: Tag)
    ensures Present([None]) == [] && Present([Some(t)]) == [t]
    ensures Present(a + b) == Present(a) + Present(b)
  {
    var none: seq<Option<Tag>> := [None];
    var some := [Some(t)];
    assert none[..0] == [] && some[..0] == [];
    if b == [] {
      assert a + b == a;
    } else {
      var n := |b| - 1;
      assert (a + b)[..|a| + n] == a + b[..n];
      PresentAre(a, b[..n], t);
    }
  }

  method TagValues(list: TagList) returns (out: seq<Tag>)
    ensures out == Values(list)
  {
    out := [];
    if list.Some? {
      for i := 0 to |list.value|
        invariant out == Present(list.value[..i])
      {
        assert list.value[..i + 1][..i] == list.value[..i];
        if list.value[i].Some? {
          out := out + [list.value[i].value];
        }
      }
      assert list.value[..|list.value|] == list.value;
    }
  }

  /** A list rebuilt from remembered values holds exactly those. */
  method ListTagsFrom(values: seq<Tag>) returns (list: TagList)
    ensures list.Some? && Values(list) == values
  {
    var items: seq<Option<Tag>> := [];
    for i := 0 to |values|
      invariant Present(items) == values[..i]
    {
      assert (items + [Some(values[i])])[..|items|] == items;
      items := items + [Some(values[i])];
    }
    list := Some(items);
  }

  /** The tags in the cloud at one moment. */
  datatype Moment = Moment(at: int, tags: map<string, TagList>)

  function TagsOf(tags: map<string, TagList>, resource: string): TagList {
    if resource in tags then tags[resource] else None
  }

  /** The answer is what the cloud held at its moment of origin, when it was put, and not before our last write. */
  ghost predicate FromPast(
    past: seq<Moment>, written: map<string, nat>, origin: map<string, nat>, history: seq<Event<seq<Tag>>>,
    resource: string, answer: seq<Tag>)
  {
    && resource in origin && (resource in written ==> written[resource] <= origin[resource]) && origin[resource] < |past|
    && answer == Values(TagsOf(past[origin[resource]].tags, resource))
    && LastPut(history, resource).Some? && LastPut(history, resource).value.at == past[origin[resource]].at
  }

  lemma PutFromPast(
    past: seq<Moment>, written: map<string, nat>, origin: map<string, nat>, history: seq<Event<seq<Tag>>>,
    resource: string, values: seq<Tag>, now: int, r: string, answer: seq<Tag>)
    requires past != [] && past[|past| - 1].at == now
    requires r != resource ==> FromPast(past, written, origin, history, r, answer)
    requires r == resource ==>
               answer == values == Values(TagsOf(past[|past| - 1].tags, resource))
               && (resource in written ==> written[resource] < |past|)
    ensures FromPast(past, written, origin[resource := |past| - 1],
                     history + [Event.Put(resource, values, now)], r, answer)
  {
    LastPutAppend(history, Event.Put(resource, values, now), r);
  }

  lemma AllFromPast(
    past: seq<Moment>, written: map<string, nat>, origin: map<string, nat>, history: seq<Event<seq<Tag>>>,
    resource: string, values: seq<Tag>, now: int, before: map<string, Entry<seq<Tag>>>, after: map<string, Entry<seq<Tag>>>)
    requires past != [] && past[|past| - 1].at == now && (resource in written ==> written[resource] < |past|)
    requires values == Values(TagsOf(past[|past| - 1].tags, resource))
    requires forall r :: r in before ==> FromPast(past, written, origin, history, r, before[r].value)
    requires forall r :: r in after && r != resource ==> r in before && after[r] == before[r]
    requires resource in after ==> after[resource].value == values
    ensures forall r :: r in after ==>
              FromPast(past, written, origin[resource := |past| - 1],
                       history + [Event.Put(resource, values, now)], r, after[r].value)
  {
    forall r | r in after
      ensures FromPast(past, written, origin[resource := |past| - 1],
                       history + [Event.Put(resource, values, now)], r, after[r].value)
    {
      if r != resource {
        assert FromPast(past, written, origin, history, r, before[r].value);
      }
      PutFromPast(past, written, origin, history, resource, values, now, r, after[r].value);
    }
  }

  class TagReads {
    // what the cloud holds; others change it too
    var tags: map<string, TagList>
    const cache: TtlCache<seq<Tag>>
    // the moments at which the cloud was read, and for each remembered resource the one its entry is from
    ghost var past: seq<Moment>
    ghost var origin: map<string, nat>
    // how much of the past lies before this process's last write to the resource
    ghost var written: map<string, nat>

    ghost function WrittenAt(resource: string): nat
      reads this
    {
      if resource in written then written[resource] else 0
    }

    /** The answer is what the cloud held at moment `i`: recent enough, and not before our last write. */
    ghost predicate TrueAt(answer: seq<Tag>, resource: string, i: nat)
      reads this
    {
      WrittenAt(resource) <= i < |past| && answer == Values(TagsOf(past[i].tags, resource))
    }

    ghost predicate Valid()
      reads this, cache
    {
      && cache.Valid() && |cache.entries| <= cache.maxSize == 512
      && (forall r :: r in written ==> written[r] <= |past|)
      && forall r :: r in cache.entries ==>
           FromPast(past, written, origin, cache.history, r, cache.entries[r].value)
    }

    constructor (tags: map<string, TagList>)
      ensures Valid() && this.tags == tags && fresh(cache)
    {
      this.tags := tags;
      past, origin, written := [], map[], map[];
      cache := new TtlCache<seq<Tag>>(300_000_000_000, 512);
    }

    /** Tags of a resource as the cloud held them at most 1.4 lifetimes ago and never before our own last write. */
    method ListTags(resource: string, now: int, life: int) returns (r: Result<TagList>, ghost i: nat)
      requires Valid() && cache.Jittered(life)
      modifies this`past, this`origin, cache
      ensures Valid() && old(past) <= past
      ensures r.Ok? ==> TrueAt(Values(r.value), resource, i) && 10 * (now - past[i].at) <= 14 * cache.ttl
      ensures r.Ok? && resource !in old(cache.entries) ==> r.value == TagsOf(tags, resource)
    {
      i := 0;
      var cached := cache.Get(resource, now);
      if cached.Some? {
        var list := ListTagsFrom(cached.value);
        return Ok(list), origin[resource];
      }
      var answers: bool := *;
      if !answers {
        return Err(Unavailable), 0;
      }
      var list := TagsOf(tags, resource);
      var values := TagValues(list);
      Note(now);
      i := |past| - 1;
      Remember(resource, values, now, life);
      return Ok(list), i;
    }

    /** A read of the cloud makes this a moment of the past. */
    ghost method Note(now: int)
      requires Valid()
      modifies this`past
      ensures Valid() && past == old(past) + [Moment(now, tags)]
    {
      past := past + [Moment(now, tags)];
      forall r | r in cache.entries
        ensures FromPast(past, written, origin, cache.history, r, cache.entries[r].value)
      {
        assert past[origin[r]] == old(past)[origin[r]];
      }
    }

    /** Stores what was just read. */
    method Remember(resource: string, values: seq<Tag>, now: int, life: int)
      requires Valid() && cache.Jittered(life) && past != [] && past[|past| - 1].at == now
      requires TrueAt(values, resource, |past| - 1)
      modifies this`origin, cache
      ensures Valid()
    {
      ghost var before, history, were := cache.entries, cache.history, origin;
      origin := origin[resource := |past| - 1];
      cache.Put(resource, values, now, life);
      AllFromPast(past, written, were, history, resource, values, now, before, cache.entries);
    }

    /** A write changes the resource's tags in whatever way, failing or not, and is forgotten about at once. */
    method WriteTags(resource: string) returns (ok: bool)
      requires Valid()
      modifies this`tags, this`written, cache
      ensures Valid() && resource !in cache.entries && WrittenAt(resource) == |past|
      ensures forall r :: r != resource ==> TagsOf(tags, r) == TagsOf(old(tags), r)
      ensures forall r :: r != resource ==>
                WrittenAt(r) == old(WrittenAt(r)) && (r in cache.entries <==> r in old(cache.entries))
    {
      var applied: TagList := *;
      tags := tags[resource := applied];
      ok := *;
      ghost var history := cache.history;
      cache.Invalidate(resource);
      written := written[resource := |past|];
      forall r | r in cache.entries
        ensures FromPast(past, written, origin, cache.history, r, cache.entries[r].value)
      {
        LastPutAppend(history, Invalidated(resource), r);
      }
    }

    /** Somebody else edits tags. */
    method EditOutside(edited: map<string, TagList>)
      requires Valid()
      modifies this`tags
      ensures Valid() && tags == edited
    {
      tags := edited;
    }
  }
}
