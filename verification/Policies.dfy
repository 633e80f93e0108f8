/** The L7 policy of one Ingress path (build_policy.go), and which requests it stands for. */
module Policies {
  import opened GlbTypes

  const PATH := "PATH"
  const HOST_NAME := "HOST_NAME"
  const EQUAL_TO := "EQUAL_TO"
  const STARTS_WITH := "STARTS_WITH"
  const ENDS_WITH := "ENDS_WITH"
  const CONTAINS := "CONTAINS"
  const REGEX := "REGEX"
  const REDIRECT_TO_POOL := "REDIRECT_TO_POOL"
  const REDIRECT_TO_URL := "REDIRECT_TO_URL"
  const REJECT := "REJECT"

  datatype L7Rule = L7Rule(compare: string, kind: string, value: string)

  datatype Policy = Policy(
    name: string, action: string, rules: seq<L7Rule>, poolName: Option<string>,
    redirectUrl: Option<string>, redirectCode: Option<int>, keepQuery: Option<bool>, position: Option<int>)

  datatype PathType = Exact | Prefix | ImplementationSpecific | Unknown

  /** An entry of the annotation for implementation-specific paths. */
  datatype PathConfig = PathConfig(
    host: string, path: string, rules: seq<L7Rule>,
    action: string, redirectUrl: string, redirectCode: int, keepQuery: bool)

  datatype PolicyResult = Built(policy: Policy) | Refused | NoConfig

  // ----- Implementation-specific paths -----

  predicate Known(rule: L7Rule) {
    rule.kind in {PATH, HOST_NAME} && rule.compare in {CONTAINS, ENDS_WITH, STARTS_WITH, REGEX, EQUAL_TO}
  }

  /** A usable entry: known rules, none twice, a known action, and a complete redirect if it is one. */
  predicate Usable(c: PathConfig, isUrl: string -> bool) {
    && (forall i :: 0 <= i < |c.rules| ==> Known(c.rules[i]))
    && Distinct(c.rules)
    && c.action in {REDIRECT_TO_POOL, REDIRECT_TO_URL, REJECT}
    && (c.action == REDIRECT_TO_URL ==> isUrl(c.redirectUrl) && c.redirectCode in {301, 302})
  }

  function FromConfig(name: string, c: PathConfig): Policy {
    var redirects := c.action == REDIRECT_TO_URL;
    Policy(name, c.action, c.rules, None,
           Some(if redirects then c.redirectUrl else ""), Some(if redirects then c.redirectCode else 301),
           Some(c.keepQuery), None)
  }

  function FirstConfig(configs: seq<PathConfig>, host: string, path: string): (r: Option<PathConfig>)
    ensures r.Some? ==> r.value in configs && r.value.host == host && r.value.path == path
    ensures r.None? ==> forall i :: 0 <= i < |configs| ==> configs[i].host != host || configs[i].path != path
  {
    if configs == [] then None
    else if configs[0].path == path && configs[0].host == host then Some(configs[0])
    else FirstConfig(configs[1..], host, path)
  }

  function ByConfig(configs: seq<PathConfig>, name: string, host: string, path: string, isUrl: string -> bool): PolicyResult {
    match FirstConfig(configs, host, path)
    case None => NoConfig
    case Some(c) => if Usable(c, isUrl) then Built(FromConfig(name, c)) else Refused
  }

  lemma {:induction false} FirstConfigIs(configs: seq<PathConfig>, n: nat, host: string, path: string)
    requires n < |configs| && configs[n].host == host && configs[n].path == path
    requires forall i :: 0 <= i < n ==> configs[i].host != host || configs[i].path != path
    ensures FirstConfig(configs, host, path) == Some(configs[n])
  {
    if n > 0 {
      FirstConfigIs(configs[1..], n - 1, host, path);
    }
  }

  /**
   The policy has the entry's action and applies exactly when all of the entry's rules hold. Only a
   redirect to a URL has one, and the query is kept as the entry says.
   */
  ghost predicate DoesAsConfigured(p: Policy, name: string, c: PathConfig) {
    && p.name == name && p.action == c.action && p.poolName.None? && p.position.None?
    && (forall q: Request, regex: (string, string) -> bool ::
          Applies(p, q, regex) <==> forall i :: 0 <= i < |c.rules| ==> RuleHolds(c.rules[i], q, regex))
    && p.redirectUrl == Some(if c.action == "REDIRECT_TO_URL" then c.redirectUrl else "")
    && p.redirectCode == Some(if c.action == "REDIRECT_TO_URL" then c.redirectCode else 301)
    && p.keepQuery == Some(c.keepQuery)
  }

  /** Checks and copies one entry. */
  method ConvertConfig(c: PathConfig, name: string, isUrl: string -> bool) returns (r: PolicyResult)
    ensures r == if Usable(c, isUrl) then Built(FromConfig(name, c)) else Refused
    ensures r.Built? <==>
            && (forall i :: 0 <= i < |c.rules| ==>
                  && (c.rules[i].kind == "PATH" || c.rules[i].kind == "HOST_NAME")
                  && c.rules[i].compare in ["CONTAINS", "ENDS_WITH", "STARTS_WITH", "REGEX", "EQUAL_TO"])
            && (forall i, j :: 0 <= i < j < |c.rules| ==> c.rules[i] != c.rules[j])
            && c.action in ["REDIRECT_TO_POOL", "REDIRECT_TO_URL", "REJECT"]
            && (c.action == "REDIRECT_TO_URL" ==> isUrl(c.redirectUrl) && (c.redirectCode == 301 || c.redirectCode == 302))
    ensures r.Built? ==> DoesAsConfigured(r.policy, name, c)
  {
    for i := 0 to |c.rules|
      invariant forall k :: 0 <= k < i ==> Known(c.rules[k])
    {
      if c.rules[i].kind !in [PATH, HOST_NAME] {
        return Refused;
      }
      if c.rules[i].compare !in [CONTAINS, ENDS_WITH, STARTS_WITH, REGEX, EQUAL_TO] {
        return Refused;
      }
    }
    if c.action !in [REDIRECT_TO_POOL, REDIRECT_TO_URL, REJECT] {
      return Refused;
    }
    var url, code := c.redirectUrl, c.redirectCode;
    if c.action == REDIRECT_TO_URL {
      if !isUrl(url) || code !in [301, 302] {
        return Refused;
      }
    } else {
      url, code := "", 301;
    }
    var rules: seq<L7Rule> := [];
    for i := 0 to |c.rules|
      invariant rules == c.rules[..i] && Distinct(rules)
    {
      if c.rules[i] in rules {
        return Refused;
      }
      rules := rules + [c.rules[i]];
    }
    assert c.rules[..|c.rules|] == c.rules;
    r := Built(Policy(name, c.action, rules, None, Some(url), Some(code), Some(c.keepQuery), None));
  }

  method BuildPolicyByRegex(configs: seq<PathConfig>, name: string, host: string, path: string, isUrl: string -> bool)
    returns (r: PolicyResult)
    ensures r == ByConfig(configs, name, host, path, isUrl)
    ensures r.NoConfig? <==> forall i :: 0 <= i < |configs| ==> configs[i].host != host || configs[i].path != path
    ensures r.Built? ==> exists n :: 0 <= n < |configs| && configs[n].host == host && configs[n].path == path
                                  && (forall i :: 0 <= i < n ==> configs[i].host != host || configs[i].path != path)
                                  && DoesAsConfigured(r.policy, name, configs[n])
  {
    for i := 0 to |configs|
      invariant forall k :: 0 <= k < i ==> configs[k].host != host || configs[k].path != path
    {
      if configs[i].path == path && configs[i].host == host {
        FirstConfigIs(configs, i, host, path);
        r := ConvertConfig(configs[i], name, isUrl);
        return;
      }
    }
    r := NoConfig;
  }

  // ----- Every path -----

  function ByPath(name: string, host: string, path: string, compare: string): Policy {
    Policy(name, REDIRECT_TO_POOL,
           [L7Rule(compare, PATH, path)] + (if host == "" then [] else [L7Rule(EQUAL_TO, HOST_NAME, host)]),
           None, None, None, None, None)
  }

  function PolicyFor(
    configs: seq<PathConfig>, name: string, host: string, path: string, kind: PathType, isUrl: string -> bool)
    : (r: PolicyResult)
    ensures !r.NoConfig?
    ensures r.Built? ==> r.policy.name == name && r.policy.poolName.None? && r.policy.position.None?
  {
    var special := ByConfig(configs, name, host, path, isUrl);
    if kind == ImplementationSpecific && !special.NoConfig? then special
    else Built(ByPath(name, host, path, if kind == Prefix then STARTS_WITH else EQUAL_TO))
  }

  method BuildPolicyByPath(
    configs: seq<PathConfig>, name: string, host: string, path: string, kind: PathType, isUrl: string -> bool)
    returns (r: PolicyResult)
    ensures r == PolicyFor(configs, name, host, path, kind, isUrl)
    ensures kind != ImplementationSpecific || FirstConfig(configs, host, path).None? ==>
              r.Built? && r.policy.action == REDIRECT_TO_POOL && MeansPath(r.policy, host, path, kind)
    ensures kind == ImplementationSpecific && FirstConfig(configs, host, path).Some? ==>
              (r.Built? <==> Usable(FirstConfig(configs, host, path).value, isUrl))
              && (r.Built? ==> DoesAsConfigured(r.policy, name, FirstConfig(configs, host, path).value))
    ensures r.Built? ==> r.policy.name == name
  {
    var compare := EQUAL_TO;
    match kind {
      case Prefix => compare := STARTS_WITH;
      case ImplementationSpecific =>
        r := BuildPolicyByRegex(configs, name, host, path, isUrl);
        if !r.NoConfig? {
          return;
        }
      case Exact =>
      case Unknown =>
    }
    var rules := [L7Rule(compare, PATH, path)];
    if host != "" {
      rules := rules + [L7Rule(EQUAL_TO, HOST_NAME, host)];
    }
    r := Built(Policy(name, REDIRECT_TO_POOL, rules, None, None, None, None, None));
    PolicyMeansItsPath(configs, name, host, path, kind, isUrl);
  }

  // ----- What a policy matches -----

  datatype Request = Request(host: string, path: string)

  predicate Compares(compare: string, value: string, actual: string, regex: (string, string) -> bool) {
    if compare == EQUAL_TO then actual == value
    else if compare == STARTS_WITH then value <= actual
    else if compare == ENDS_WITH then |value| <= |actual| && actual[|actual| - |value|..] == value
    else if compare == CONTAINS then exists i :: 0 <= i <= |actual| && value <= actual[i..]
    else compare == REGEX && regex(value, actual)
  }

  predicate RuleHolds(rule: L7Rule, q: Request, regex: (string, string) -> bool) {
    Compares(rule.compare, rule.value, if rule.kind == HOST_NAME then q.host else q.path, regex)
  }

  /** A policy applies when all its rules hold. */
  predicate Applies(p: Policy, q: Request, regex: (string, string) -> bool) {
    forall i :: 0 <= i < |p.rules| ==> RuleHolds(p.rules[i], q, regex)
  }

  /** The policy applies to the requests of the host, or of all hosts if it has none, on the paths of its type. */
  ghost predicate MeansPath(p: Policy, host: string, path: string, kind: PathType) {
    forall q: Request, regex: (string, string) -> bool ::
      Applies(p, q, regex) <==>
        && (host == "" || q.host == host)
        && (if kind == Prefix then path <= q.path else q.path == path)
  }

  /** What a policy applies to is a matter of its rules. */
  lemma SameRulesMean(p: Policy, p': Policy, host: string, path: string, kind: PathType)
    requires MeansPath(p, host, path, kind) && p'.rules == p.rules
    ensures MeansPath(p', host, path, kind)
  {
    forall q: Request, regex: (string, string) -> bool ensures Applies(p', q, regex) <==> Applies(p, q, regex) {
    }
  }

  lemma PolicyMeansItsPath(
    configs: seq<PathConfig>, name: string, host: string, path: string, kind: PathType, isUrl: string -> bool)
    requires kind == ImplementationSpecific ==> ByConfig(configs, name, host, path, isUrl).NoConfig?
    ensures var r := PolicyFor(configs, name, host, path, kind, isUrl);
            r.Built? && MeansPath(r.policy, host, path, kind)
  {
    var p := PolicyFor(configs, name, host, path, kind, isUrl).policy;
    assert p.rules[0].kind == PATH && p.rules[0].value == path;
    assert host != "" ==> p.rules[1] == L7Rule(EQUAL_TO, HOST_NAME, host);
  }

  /** The prefix covers whole elements of the path. */
  predicate WholeElements(prefix: string, path: string) {
    prefix <= path && (|path| == |prefix| || (prefix != "" && prefix[|prefix| - 1] == '/') || path[|prefix|] == '/')
  }

  ghost predicate SelectsWholeElements(prefix: string) {
    forall path :: prefix <= path ==> WholeElements(prefix, path)
  }

  /** A prefix policy never cuts into an element exactly when its path ends in a slash; `/foo` selects `/foobar`. */
  lemma WholeElementsExactlyWhen(prefix: string)
    ensures SelectsWholeElements(prefix) <==> (prefix != "" && prefix[|prefix| - 1] == '/')
  {
    if prefix == "" || prefix[|prefix| - 1] != '/' {
      var longer := prefix + "b";
      assert prefix <= longer && longer[|prefix|] == 'b';
      assert !WholeElements(prefix, longer);
    }
  }
}
