/**
 The update requests for listeners and pools: which fields a pass changes, and when the diff
 closes, that is, when applying the request leaves nothing to request.
 */
module Diffs {
  import opened GlbTypes
  import opened Equality
  import opened Text
  import Members

  function Pick<T>(wanted: Option<T>, current: T): T {
    if wanted.Some? then wanted.value else current
  }

  function Prefer<T>(wanted: Option<T>, current: Option<T>): Option<T> {
    if wanted.Some? then wanted else current
  }

  predicate Agrees<T(==)>(wanted: Option<T>, current: T) {
    wanted.Some? ==> wanted.value == current
  }

  // ----- Listeners -----

  datatype ListenerPatch = ListenerPatch(
    allowedCidrs: string, timeoutClient: int, timeoutMember: int, timeoutConnection: int,
    poolId: Id, headers: Option<string>)

  function PatchListener(l: Listener, p: ListenerPatch): Listener {
    l.(allowedCidrs := p.allowedCidrs, timeoutClient := p.timeoutClient, timeoutMember := p.timeoutMember,
       timeoutConnection := p.timeoutConnection, poolId := p.poolId, headers := p.headers)
  }

  /** The id of the first created pool with that name, or the empty id. */
  function PoolIdByName(pools: seq<CreatedPool>, name: string): Id {
    if pools == [] then NO_ID
    else if pools[0].name == name then pools[0].id
    else PoolIdByName(pools[1..], name)
  }

  function TargetPool(spec: ListenerSpec, pools: seq<CreatedPool>): Id {
    if IsSet(spec.defaultPoolName) then PoolIdByName(pools, spec.defaultPoolName.value) else NO_ID
  }

  /** The first deployed pool of the wanted name, or none if the name is unset or nobody has it. */
  lemma {:induction false} PoolIdByNameIs(pools: seq<CreatedPool>, name: string)
    ensures (forall i :: 0 <= i < |pools| ==> pools[i].name != name) ==> PoolIdByName(pools, name) == ""
    ensures forall n :: 0 <= n < |pools| && pools[n].name == name && (forall i :: 0 <= i < n ==> pools[i].name != name) ==>
              PoolIdByName(pools, name) == pools[n].id
  {
    if pools != [] && pools[0].name != name {
      PoolIdByNameIs(pools[1..], name);
      forall n | 0 <= n < |pools| && pools[n].name == name && (forall i :: 0 <= i < n ==> pools[i].name != name)
        ensures PoolIdByName(pools, name) == pools[n].id
      {
        assert pools[1..][n - 1] == pools[n];
      }
    }
  }

  lemma TargetPoolIs(spec: ListenerSpec, pools: seq<CreatedPool>)
    ensures spec.defaultPoolName.None? || spec.defaultPoolName == Some("") ==> TargetPool(spec, pools) == ""
    ensures forall n :: 0 <= n < |pools| && spec.defaultPoolName == Some(pools[n].name) && pools[n].name != ""
                        && (forall i :: 0 <= i < n ==> pools[i].name != pools[n].name) ==>
              TargetPool(spec, pools) == pools[n].id
    ensures spec.defaultPoolName.Some? && (forall i :: 0 <= i < |pools| ==> pools[i].name != spec.defaultPoolName.value) ==>
              TargetPool(spec, pools) == ""
  {
    if spec.defaultPoolName.Some? {
      PoolIdByNameIs(pools, spec.defaultPoolName.value);
    }
  }

  function DecodeHeaders(h: Option<string>): seq<string> {
    if h.None? || h.value == "" then [] else LowerAll(Split(h.value, ','))
  }

  function EncodeHeaders(headers: seq<string>): Option<string> {
    if |headers| > 0 then Some(Join(headers, ',')) else None
  }

  predicate HeadersAgree(spec: ListenerSpec, current: Option<string>) {
    SlicesEqual(DecodeHeaders(current), LowerAll(spec.headers))
  }

  /** Nothing the spec sets differs from the listener. */
  predicate ListenerAgrees(spec: ListenerSpec, l: Listener, pools: seq<CreatedPool>) {
    && (IsSet(spec.allowedCidrs) ==> l.allowedCidrs == spec.allowedCidrs.value)
    && Agrees(spec.timeoutClient, l.timeoutClient)
    && Agrees(spec.timeoutMember, l.timeoutMember)
    && Agrees(spec.timeoutConnection, l.timeoutConnection)
    && l.poolId == TargetPool(spec, pools)
    && HeadersAgree(spec, l.headers)
  }

  /** The listener with what the spec sets put in place and the rest as it was. */
  function ListenerWanted(spec: ListenerSpec, l: Listener, pools: seq<CreatedPool>): Listener {
    Listener(l.name, l.protocol, l.port, TargetPool(spec, pools),
             Pick(spec.timeoutClient, l.timeoutClient), Pick(spec.timeoutMember, l.timeoutMember),
             Pick(spec.timeoutConnection, l.timeoutConnection),
             if IsSet(spec.allowedCidrs) then spec.allowedCidrs.value else l.allowedCidrs,
             if HeadersAgree(spec, l.headers) then l.headers else EncodeHeaders(LowerAll(spec.headers)))
  }

  /** Builds the request field by field, and sends it only if some field needed a change. */
  method BuildListenerUpdate(spec: ListenerSpec, l: Listener, pools: seq<CreatedPool>)
    returns (request: Option<ListenerPatch>)
    ensures request.None? <==> ListenerAgrees(spec, l, pools)
    ensures request.Some? ==> PatchListener(l, request.value) == ListenerWanted(spec, l, pools)
    ensures var q := if request.Some? then PatchListener(l, request.value) else l;
            && q.name == l.name && q.protocol == l.protocol && q.port == l.port
            && q.timeoutClient == (if spec.timeoutClient.Some? then spec.timeoutClient.value else l.timeoutClient)
            && q.timeoutMember == (if spec.timeoutMember.Some? then spec.timeoutMember.value else l.timeoutMember)
            && q.timeoutConnection ==
                 (if spec.timeoutConnection.Some? then spec.timeoutConnection.value else l.timeoutConnection)
            && q.allowedCidrs == (if spec.allowedCidrs.Some? && spec.allowedCidrs.value != ""
                                  then spec.allowedCidrs.value else l.allowedCidrs)
            && q.poolId == TargetPool(spec, pools)
            && q.headers == (if SlicesEqual(DecodeHeaders(l.headers), LowerAll(spec.headers)) then l.headers
                             else if spec.headers == [] then None else Some(Join(LowerAll(spec.headers), ',')))
    // a request changes something, or the headers as they are compared
    ensures request.Some? && SlicesEqual(DecodeHeaders(l.headers), LowerAll(spec.headers)) ==>
              PatchListener(l, request.value) != l
  {
    var needUpdate := false;
    var patch := ListenerPatch(
      l.allowedCidrs, l.timeoutClient, l.timeoutMember, l.timeoutConnection, l.poolId, l.headers);
    if IsSet(spec.allowedCidrs) && l.allowedCidrs != spec.allowedCidrs.value {
      patch := patch.(allowedCidrs := spec.allowedCidrs.value);
      needUpdate := true;
    }
    if spec.timeoutClient.Some? && l.timeoutClient != spec.timeoutClient.value {
      patch := patch.(timeoutClient := spec.timeoutClient.value);
      needUpdate := true;
    }
    if spec.timeoutMember.Some? && l.timeoutMember != spec.timeoutMember.value {
      patch := patch.(timeoutMember := spec.timeoutMember.value);
      needUpdate := true;
    }
    if spec.timeoutConnection.Some? && l.timeoutConnection != spec.timeoutConnection.value {
      patch := patch.(timeoutConnection := spec.timeoutConnection.value);
      needUpdate := true;
    }
    var target := TargetPool(spec, pools);
    if target != l.poolId {
      patch := patch.(poolId := target);
      needUpdate := true;
    }
    if !SlicesEqual(DecodeHeaders(l.headers), LowerAll(spec.headers)) {
      patch := patch.(headers := EncodeHeaders(LowerAll(spec.headers)));
      needUpdate := true;
    }
    request := if needUpdate then Some(patch) else None;
  }

  /** The header lists that survive being joined with commas and split again. */
  predicate HeadersRoundTrip(headers: seq<string>) {
    Free(headers, ',') && headers != [""]
  }

  lemma HeadersRoundTripExactlyWhen(headers: seq<string>)
    ensures var lower := LowerAll(headers);
            && (SlicesEqual(DecodeHeaders(EncodeHeaders(lower)), lower) <==> HeadersRoundTrip(headers))
            && (HeadersRoundTrip(headers) ==> DecodeHeaders(EncodeHeaders(lower)) == lower)
  {
    var lower := LowerAll(headers);
    if headers == [] {
    } else {
      var joined := Join(lower, ',');
      assert Free(lower, ',') <==> Free(headers, ',') by {
        forall i | 0 <= i < |headers| ensures ',' in lower[i] <==> ',' in headers[i] {
          LowerKeepsComma(headers[i]);
        }
      }
      assert headers == [""] <==> lower == [""] by {
        assert |lower[0]| == |headers[0]|;
      }
      JoinCount(lower, ',');
      SplitCount(joined, ',');
      if Free(lower, ',') {
        SplitJoin(lower, ',');
        forall i | 0 <= i < |lower| ensures LowerAll(lower)[i] == lower[i] {
          LowerTwice(headers[i]);
        }
        assert LowerAll(lower) == lower;
        assert joined == "" ==> lower == [""];
      }
    }
  }

  /**
   After a listener update nothing is left to update exactly when the headers agreed already or
   survive the comma encoding. Otherwise every later pass sends the same update again.
   */
  lemma ListenerDiffCloses(spec: ListenerSpec, l: Listener, pools: seq<CreatedPool>)
    ensures ListenerAgrees(spec, ListenerWanted(spec, l, pools), pools) <==>
            HeadersAgree(spec, l.headers) || HeadersRoundTrip(spec.headers)
  {
    HeadersRoundTripExactlyWhen(spec.headers);
  }

  // ----- What the header comparison means -----

  /** For every spec the comparison says whether the listener has just the spec's headers. */
  ghost predicate HeadersCompared(live: Option<string>) {
    forall headers: seq<string> ::
      SlicesEqual(DecodeHeaders(live), LowerAll(headers)) <==> multiset(DecodeHeaders(live)) == multiset(LowerAll(headers))
  }

  lemma DecodedIsLower(live: Option<string>)
    ensures LowerAll(DecodeHeaders(live)) == DecodeHeaders(live)
  {
    var headers := DecodeHeaders(live);
    if live.Some? && live.value != "" {
      forall i | 0 <= i < |headers| ensures ToLower(headers[i]) == headers[i] {
        LowerTwice(Split(live.value, ',')[i]);
      }
    }
  }

  /** The comparison is right exactly when the live list repeats no header. */
  lemma HeadersComparedExactlyWhen(live: Option<string>)
    ensures HeadersCompared(live) <==> Distinct(DecodeHeaders(live))
  {
    var a := DecodeHeaders(live);
    if Distinct(a) {
      forall headers: seq<string>
        ensures SlicesEqual(a, LowerAll(headers)) <==> multiset(a) == multiset(LowerAll(headers))
      {
        SlicesEqualIsMultisetEquality(a, LowerAll(headers));
      }
    } else {
      var i, j :| 0 <= i < j < |a| && a[i] == a[j];
      CopyReplaced(a, i, j);
      var b := a[j := a[j] + "x"];
      DecodedIsLower(live);
      forall k | 0 <= k < |b| ensures ToLower(b[k]) == b[k] {
        assert ToLower(a[k]) == LowerAll(a)[k] == a[k];
        if k == j {
          assert forall n :: 0 <= n < |a[j]| ==> LowerChar(a[j][n]) == ToLower(a[j])[n];
        }
      }
      assert LowerAll(b) == b;
    }
  }

  /** The listener has just the headers of the spec. */
  predicate HeadersRealised(spec: ListenerSpec, live: Option<string>) {
    multiset(DecodeHeaders(live)) == multiset(LowerAll(spec.headers))
  }

  /**
   An update brings the headers about exactly when they were there already, or the comparison noticed
   and they survive the encoding.
   */
  lemma HeadersRealisedExactlyWhen(spec: ListenerSpec, l: Listener, pools: seq<CreatedPool>)
    ensures HeadersRealised(spec, ListenerWanted(spec, l, pools).headers) <==>
            HeadersRealised(spec, l.headers) || (!HeadersAgree(spec, l.headers) && HeadersRoundTrip(spec.headers))
  {
    var lower := LowerAll(spec.headers);
    HeadersRoundTripExactlyWhen(spec.headers);
    if HeadersRealised(spec, l.headers) {
      PermutationSameElements(DecodeHeaders(l.headers), lower);
    }
    if multiset(DecodeHeaders(EncodeHeaders(lower))) == multiset(lower) {
      PermutationSameElements(DecodeHeaders(EncodeHeaders(lower)), lower);
    }
  }

  lemma DecodeTwo()
    ensures Split("a,a", ',') == ["a", "a"]
  {
    assert "a,a" == "a" + [','] + "a";
    SplitAtFirst("a", ',', "a");
    SplitOne("a", ',');
  }

  /** A repeated live header hides a missing one: the comparison sees no difference and nothing is ever sent. */
  lemma RepeatedHeaderHidesAnother(spec: ListenerSpec)
    requires spec.headers == ["a", "b"]
    ensures HeadersAgree(spec, Some("a,a")) && !HeadersRealised(spec, Some("a,a"))
  {
    DecodeTwo();
    var live, wanted := DecodeHeaders(Some("a,a")), LowerAll(spec.headers);
    assert |live| == 2 && live[0] == live[1] == ToLower("a") && |ToLower("a")| == 1;
    assert wanted[0] == ToLower("a") && wanted[1] == ToLower("b");
    assert ToLower("a")[0] == 'a' && ToLower("b")[0] == 'b';
    assert wanted[1] in multiset(wanted) && wanted[1] !in multiset(live);
  }

  // ----- Pools -----

  predicate IsHttp(p: HealthProtocol) {
    p.HTTP? || p.HTTPS?
  }

  datatype PoolPatch = PoolPatch(algorithm: string, health: Health)

  function PatchPool(p: Pool, patch: PoolPatch): Pool {
    p.(algorithm := patch.algorithm, health := patch.health)
  }

  predicate OptionsAgree(spec: HealthSpec, h: Health) {
    && (spec.httpMethod.Some? ==> h.httpMethod == spec.httpMethod)
    && (spec.path.Some? ==> h.path == spec.path)
    && (spec.successCode.Some? ==> h.successCode == spec.successCode)
    && (spec.httpVersion.Some? ==> h.httpVersion == spec.httpVersion)
    && (spec.domainName.Some? ==> h.domainName == spec.domainName)
  }

  /** Nothing the spec sets differs from the pool. HTTP options count only under HTTP and HTTPS. */
  predicate PoolAgrees(spec: PoolSpec, p: Pool) {
    var s, h := spec.health, p.health;
    && Agrees(s.healthyThreshold, h.healthyThreshold) && Agrees(s.unhealthyThreshold, h.unhealthyThreshold)
    && Agrees(s.interval, h.interval) && Agrees(s.timeout, h.timeout)
    && s.protocol == h.protocol
    && (IsHttp(s.protocol) ==> OptionsAgree(s, h))
    && (IsSet(spec.algorithm) ==> spec.algorithm.value == p.algorithm)
  }

  function HealthWanted(s: HealthSpec, h: Health): Health {
    var base := h.(
      protocol := s.protocol,
      healthyThreshold := Pick(s.healthyThreshold, h.healthyThreshold),
      unhealthyThreshold := Pick(s.unhealthyThreshold, h.unhealthyThreshold),
      interval := Pick(s.interval, h.interval), timeout := Pick(s.timeout, h.timeout));
    if IsHttp(h.protocol) && IsHttp(s.protocol) then
      base.(httpMethod := Prefer(s.httpMethod, h.httpMethod), path := Prefer(s.path, h.path),
            successCode := Prefer(s.successCode, h.successCode), httpVersion := Prefer(s.httpVersion, h.httpVersion),
            domainName := Prefer(s.domainName, h.domainName))
    else if IsHttp(h.protocol) && s.protocol.TCP? then
      base.(httpMethod := None, path := None, successCode := None, httpVersion := None, domainName := None)
    else if h.protocol.TCP? && IsHttp(s.protocol) then
      base.(httpMethod := s.httpMethod, path := s.path, successCode := s.successCode,
            httpVersion := s.httpVersion, domainName := s.domainName)
    else base
  }

  function PoolWanted(spec: PoolSpec, p: Pool): Pool {
    p.(health := HealthWanted(spec.health, p.health),
       algorithm := if IsSet(spec.algorithm) then spec.algorithm.value else p.algorithm)
  }

  datatype HttpOptions = HttpOptions(
    httpMethod: Option<string>, path: Option<string>, successCode: Option<string>,
    httpVersion: Option<string>, domainName: Option<string>)

  function LiveOptions(h: Health): HttpOptions {
    HttpOptions(h.httpMethod, h.path, h.successCode, h.httpVersion, h.domainName)
  }

  function SpecOptions(s: HealthSpec): HttpOptions {
    HttpOptions(s.httpMethod, s.path, s.successCode, s.httpVersion, s.domainName)
  }

  /** The threshold part of the pool request, a monitor filled step by step with a change flag. */
  method BuildThresholds(s: HealthSpec, h: Health) returns (m: Health, needUpdate: bool)
    ensures m == h.(healthyThreshold := Pick(s.healthyThreshold, h.healthyThreshold),
                    unhealthyThreshold := Pick(s.unhealthyThreshold, h.unhealthyThreshold),
                    interval := Pick(s.interval, h.interval), timeout := Pick(s.timeout, h.timeout),
                    protocol := s.protocol)
    ensures needUpdate <==> m != h
  {
    m, needUpdate := h, false;
    if s.healthyThreshold.Some? && s.healthyThreshold.value != h.healthyThreshold {
      m, needUpdate := m.(healthyThreshold := s.healthyThreshold.value), true;
    }
    if s.unhealthyThreshold.Some? && s.unhealthyThreshold.value != h.unhealthyThreshold {
      m, needUpdate := m.(unhealthyThreshold := s.unhealthyThreshold.value), true;
    }
    if s.interval.Some? && s.interval.value != h.interval {
      m, needUpdate := m.(interval := s.interval.value), true;
    }
    if s.timeout.Some? && s.timeout.value != h.timeout {
      m, needUpdate := m.(timeout := s.timeout.value), true;
    }
    if s.protocol != h.protocol {
      m, needUpdate := m.(protocol := s.protocol), true;
    }
  }

  /** The HTTP options when both sides speak HTTP or HTTPS. */
  method BuildHttpOptions(s: HealthSpec, h: Health, start: Health) returns (m: Health, needUpdate: bool)
    requires start == h.(healthyThreshold := start.healthyThreshold, unhealthyThreshold := start.unhealthyThreshold,
                         interval := start.interval, timeout := start.timeout, protocol := start.protocol)
    ensures m == start.(httpMethod := Prefer(s.httpMethod, h.httpMethod), path := Prefer(s.path, h.path),
                        successCode := Prefer(s.successCode, h.successCode),
                        httpVersion := Prefer(s.httpVersion, h.httpVersion),
                        domainName := Prefer(s.domainName, h.domainName))
    ensures needUpdate <==> !OptionsAgree(s, h)
  {
    m, needUpdate := start, false;
    if s.httpMethod.Some? && h.httpMethod != s.httpMethod {
      m, needUpdate := m.(httpMethod := s.httpMethod), true;
    }
    if s.path.Some? && h.path != s.path {
      m, needUpdate := m.(path := s.path), true;
    }
    if s.successCode.Some? && h.successCode != s.successCode {
      m, needUpdate := m.(successCode := s.successCode), true;
    }
    if s.httpVersion.Some? && h.httpVersion != s.httpVersion {
      m, needUpdate := m.(httpVersion := s.httpVersion), true;
    }
    if s.domainName.Some? && h.domainName != s.domainName {
      m, needUpdate := m.(domainName := s.domainName), true;
    }
  }

  method BuildPoolUpdate(spec: PoolSpec, p: Pool) returns (request: Option<PoolPatch>)
    ensures request.None? <==> PoolAgrees(spec, p)
    ensures request.Some? ==> PatchPool(p, request.value) == PoolWanted(spec, p)
  {
    var s, h := spec.health, p.health;
    var m, needUpdate := BuildThresholds(s, h);
    if IsHttp(h.protocol) && IsHttp(s.protocol) {
      var changed;
      m, changed := BuildHttpOptions(s, h, m);
      needUpdate := needUpdate || changed;
    } else if IsHttp(h.protocol) && s.protocol.TCP? {
      m := m.(httpMethod := None, path := None, successCode := None, httpVersion := None, domainName := None);
      needUpdate := true;
    } else if h.protocol.TCP? && IsHttp(s.protocol) {
      m := m.(httpMethod := s.httpMethod, path := s.path, successCode := s.successCode,
              httpVersion := s.httpVersion, domainName := s.domainName);
      needUpdate := true;
    }
    var patch := PoolPatch(p.algorithm, m);
    if IsSet(spec.algorithm) && spec.algorithm.value != p.algorithm {
      patch := patch.(algorithm := spec.algorithm.value);
      needUpdate := true;
    }
    request := if needUpdate then Some(patch) else None;
  }

  /**
   What comes of the update: what the spec sets is in place, what it leaves unset is as it was. The
   options of HTTP checks depend on what the monitor speaks and is to speak. A pool without an update
   is of this kind already (`PoolAgreesIsFixed`).
   */
  lemma PoolWantedIs(spec: PoolSpec, p: Pool)
    ensures var q, s, h := PoolWanted(spec, p), spec.health, p.health;
            && q.name == p.name && q.protocol == p.protocol && q.groups == p.groups && q.health.protocol == s.protocol
            && q.algorithm ==
                 (if spec.algorithm.Some? && spec.algorithm.value != "" then spec.algorithm.value else p.algorithm)
            && q.health.healthyThreshold == (if s.healthyThreshold.Some? then s.healthyThreshold.value else h.healthyThreshold)
            && q.health.unhealthyThreshold ==
                 (if s.unhealthyThreshold.Some? then s.unhealthyThreshold.value else h.unhealthyThreshold)
            && q.health.interval == (if s.interval.Some? then s.interval.value else h.interval)
            && q.health.timeout == (if s.timeout.Some? then s.timeout.value else h.timeout)
    ensures var q, s, h := PoolWanted(spec, p), spec.health, p.health;
            if (h.protocol.HTTP? || h.protocol.HTTPS?) && (s.protocol.HTTP? || s.protocol.HTTPS?) then
              && q.health.httpMethod == (if s.httpMethod.Some? then s.httpMethod else h.httpMethod)
              && q.health.path == (if s.path.Some? then s.path else h.path)
              && q.health.successCode == (if s.successCode.Some? then s.successCode else h.successCode)
              && q.health.httpVersion == (if s.httpVersion.Some? then s.httpVersion else h.httpVersion)
              && q.health.domainName == (if s.domainName.Some? then s.domainName else h.domainName)
            else if (h.protocol.HTTP? || h.protocol.HTTPS?) && s.protocol.TCP? then
              LiveOptions(q.health) == HttpOptions(None, None, None, None, None)
            else if h.protocol.TCP? && (s.protocol.HTTP? || s.protocol.HTTPS?) then LiveOptions(q.health) == SpecOptions(s)
            else LiveOptions(q.health) == LiveOptions(h)
  {
  }

  /**
   One update settles a pool unless its monitor spoke neither TCP, HTTP nor HTTPS, is switched to
   HTTP or HTTPS, and carries an option the spec sets otherwise.
   */
  lemma PoolDiffCloses(spec: PoolSpec, p: Pool)
    ensures PoolAgrees(spec, PoolWanted(spec, p)) <==>
            (p.health.protocol.Other? && IsHttp(spec.health.protocol) ==> OptionsAgree(spec.health, p.health))
  {
  }

  /** Two updates settle every pool. */
  lemma PoolDiffClosesInTwo(spec: PoolSpec, p: Pool)
    ensures PoolAgrees(spec, PoolWanted(spec, PoolWanted(spec, p)))
  {
    PoolDiffCloses(spec, PoolWanted(spec, p));
  }

  /** A settled pool is left as it is, so nothing keeps being rewritten. */
  lemma PoolAgreesIsFixed(spec: PoolSpec, p: Pool)
    requires PoolAgrees(spec, p)
    ensures PoolWanted(spec, p) == p
  {
  }

  /** And an update that is sent changes something. */
  lemma PoolDisagreesIsChanged(spec: PoolSpec, p: Pool)
    requires !PoolAgrees(spec, p)
    ensures PoolWanted(spec, p) != p
  {
  }

  // ----- Creation -----

  function NewGroup(spec: GroupSpec): Group {
    Group(spec.name, spec.region, spec.vpcId, spec.kind, Pick(spec.trafficDial, 100), Members.RequestList(spec.members))
  }

  /** A pool as it is created, holding the given groups. */
  function NewPool(cfg: Config, spec: PoolSpec, groups: map<Id, Group>): Pool {
    var s := spec.health;
    Pool(spec.name, spec.protocol,
         if IsSet(spec.algorithm) then spec.algorithm.value else cfg.algorithm,
         Health(s.protocol, Pick(s.healthyThreshold, cfg.healthyThreshold),
                Pick(s.unhealthyThreshold, cfg.unhealthyThreshold),
                Pick(s.interval, cfg.interval), Pick(s.timeout, cfg.timeout),
                s.httpMethod, s.path, s.successCode, s.httpVersion, s.domainName),
         groups)
  }

  function NewListener(cfg: Config, spec: ListenerSpec, pools: seq<CreatedPool>): Listener {
    Listener(spec.name, spec.protocol, spec.port,
             if spec.defaultPoolName.Some? then PoolIdByName(pools, spec.defaultPoolName.value) else NO_ID,
             Pick(spec.timeoutClient, cfg.timeoutClient), Pick(spec.timeoutMember, cfg.timeoutMember),
             Pick(spec.timeoutConnection, cfg.timeoutConnection),
             Pick(spec.allowedCidrs, cfg.allowedCidrs), EncodeHeaders(spec.headers))
  }

  /** A new group has what the spec says; an unset dial is one hundred. */
  lemma NewGroupIs(spec: GroupSpec)
    ensures var g := NewGroup(spec);
            && g.name == spec.name && g.region == spec.region && g.vpcId == spec.vpcId && g.kind == spec.kind
            && g.trafficDial == (if spec.trafficDial.Some? then spec.trafficDial.value else 100)
            && |g.members| == |spec.members|
            && forall i :: 0 <= i < |spec.members| ==> Members.AsSpecified(g.members[i], spec.members[i])
  {
  }

  /** A new pool has what the spec sets and the defaults for the rest; its HTTP options are the spec's. */
  lemma NewPoolIs(cfg: Config, spec: PoolSpec, groups: map<Id, Group>)
    ensures var p, s := NewPool(cfg, spec, groups), spec.health;
            && p.name == spec.name && p.protocol == spec.protocol && p.groups == groups
            && p.algorithm ==
                 (if spec.algorithm.Some? && spec.algorithm.value != "" then spec.algorithm.value else cfg.algorithm)
            && p.health.protocol == s.protocol && LiveOptions(p.health) == SpecOptions(s)
            && p.health.healthyThreshold ==
                 (if s.healthyThreshold.Some? then s.healthyThreshold.value else cfg.healthyThreshold)
            && p.health.unhealthyThreshold ==
                 (if s.unhealthyThreshold.Some? then s.unhealthyThreshold.value else cfg.unhealthyThreshold)
            && p.health.interval == (if s.interval.Some? then s.interval.value else cfg.interval)
            && p.health.timeout == (if s.timeout.Some? then s.timeout.value else cfg.timeout)
  {
  }

  /**
   A new listener has what the spec sets and the defaults for the rest; allowed ranges set to the
   empty string count as set here, other than in an update.
   */
  lemma NewListenerIs(cfg: Config, spec: ListenerSpec, pools: seq<CreatedPool>)
    ensures var l := NewListener(cfg, spec, pools);
            && l.name == spec.name && l.protocol == spec.protocol && l.port == spec.port
            && l.timeoutClient == (if spec.timeoutClient.Some? then spec.timeoutClient.value else cfg.timeoutClient)
            && l.timeoutMember == (if spec.timeoutMember.Some? then spec.timeoutMember.value else cfg.timeoutMember)
            && l.timeoutConnection ==
                 (if spec.timeoutConnection.Some? then spec.timeoutConnection.value else cfg.timeoutConnection)
            && l.allowedCidrs == (if spec.allowedCidrs.Some? then spec.allowedCidrs.value else cfg.allowedCidrs)
            && l.headers == (if spec.headers == [] then None else Some(Join(spec.headers, ',')))
            && (spec.defaultPoolName.None? ==> l.poolId == "")
            && (spec.defaultPoolName.Some? && (forall i :: 0 <= i < |pools| ==> pools[i].name != spec.defaultPoolName.value) ==>
                  l.poolId == "")
            && forall n :: 0 <= n < |pools| && spec.defaultPoolName == Some(pools[n].name)
                           && (forall i :: 0 <= i < n ==> pools[i].name != pools[n].name) ==>
                 l.poolId == pools[n].id
  {
    if spec.defaultPoolName.Some? {
      PoolIdByNameIs(pools, spec.defaultPoolName.value);
    }
  }
}
