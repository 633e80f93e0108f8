/**
 Generated names (name_helper.go). Names are ASCII here, so characters and bytes coincide. The
 hash in a name is a parameter of five characters.
 */
module Names {
  import opened Text

  const MAX_NAME: nat := 50
  const MAX_SERVICE_PART: nat := 35
  const DEFAULT_POOL_NAME: string := "vks_default_pool"

  predicate IsDigit(c: char) {
    '0' <= c <= '9'
  }

  predicate Allowed(c: char) {
    'a' <= c <= 'z' || 'A' <= c <= 'Z' || IsDigit(c) || c == '-' || c == '.'
  }

  predicate AllAllowed(s: string) {
    forall i :: 0 <= i < |s| ==> Allowed(s[i])
  }

  function Trim(s: string, n: nat): string {
    if |s| <= n then s else s[..n]
  }

  /** Every character that is not allowed becomes a dash. */
  function Clean(s: string): (r: string)
    ensures |r| == |s| && forall i :: 0 <= i < |s| ==> r[i] == if Allowed(s[i]) then s[i] else '-'
  {
    seq(|s|, i requires 0 <= i < |s| => if Allowed(s[i]) then s[i] else '-')
  }

  function ReplaceAll(s: string, c: char, d: char): (r: string)
    ensures |r| == |s| && forall i :: 0 <= i < |s| ==> r[i] == if s[i] == c then d else s[i]
  {
    seq(|s|, i requires 0 <= i < |s| => if s[i] == c then d else s[i])
  }

  /**
   Replaces character by character, each time throughout the name. It comes to one clean-up of
   every character and a cut at fifty.
   */
  method ValidateName(name: string) returns (r: string)
    ensures r == Trim(Clean(name), MAX_NAME)
    ensures |r| <= MAX_NAME && AllAllowed(r)
    ensures |r| == (if |name| <= 50 then |name| else 50)
    ensures forall i :: 0 <= i < |r| ==>
              r[i] == if 'a' <= name[i] <= 'z' || 'A' <= name[i] <= 'Z' || '0' <= name[i] <= '9' || name[i] in "-."
                      then name[i] else '-'
  {
    r := name;
    for i := 0 to |name|
      invariant |r| == |name|
      invariant forall k :: 0 <= k < |name| ==>
        r[k] == if !Allowed(name[k]) && name[k] in name[..i] then '-' else name[k]
    {
      if !Allowed(name[i]) {
        r := ReplaceAll(r, name[i], '-');
      }
      assert name[..i + 1] == name[..i] + [name[i]];
    }
    assert name[..|name|] == name;
    assert r == Clean(name);
    r := Trim(r, MAX_NAME);
  }

  // ----- Decimal numbers -----

  function Digit(n: nat): char
    requires n < 10
  {
    '0' + n as char
  }

  function Itoa(n: nat): string {
    if n < 10 then [Digit(n)] else Itoa(n / 10) + [Digit(n % 10)]
  }

  lemma {:induction false} ItoaDigits(n: nat)
    ensures |Itoa(n)| >= 1 && forall i :: 0 <= i < |Itoa(n)| ==> IsDigit(Itoa(n)[i])
  {
    if n >= 10 {
      ItoaDigits(n / 10);
    }
  }

  lemma {:induction false} ItoaInjective(a: nat, b: nat)
    requires Itoa(a) == Itoa(b)
    ensures a == b
    decreases a + b
  {
    ItoaDigits(a / 10);
    ItoaDigits(b / 10);
    if a >= 10 && b >= 10 {
      var s := Itoa(a);
      assert s[..|s| - 1] == Itoa(a / 10) && s[..|s| - 1] == Itoa(b / 10);
      assert s[|s| - 1] == Digit(a % 10) && s[|s| - 1] == Digit(b % 10);
      ItoaInjective(a / 10, b / 10);
    } else {
      assert |Itoa(a)| == |Itoa(b)|;
    }
  }

  function ValueOf(digits: string): int {
    if digits == "" then 0 else 10 * ValueOf(digits[..|digits| - 1]) + (digits[|digits| - 1] as int - '0' as int)
  }

  /** The decimal digits of the number. */
  lemma {:induction false} ItoaIsDecimal(n: nat)
    ensures ValueOf(Itoa(n)) == n
  {
    if n >= 10 {
      ItoaIsDecimal(n / 10);
      assert Itoa(n)[..|Itoa(n)| - 1] == Itoa(n / 10);
    } else {
      assert Itoa(n)[..0] == "";
    }
  }

  predicate IsPort(p: int) {
    0 <= p <= 65535
  }

  function Power10(d: nat): nat {
    if d == 0 then 1 else 10 * Power10(d - 1)
  }

  lemma {:induction false} ItoaLength(n: nat, d: nat)
    requires d >= 1 && n < Power10(d)
    ensures |Itoa(n)| <= d
  {
    if n >= 10 {
      assert d > 1 by {
        assert Power10(1) == 10 * Power10(0);
      }
      assert n / 10 < Power10(d - 1);
      ItoaLength(n / 10, d - 1);
    }
  }

  lemma PortDigits(p: nat)
    requires IsPort(p)
    ensures 1 <= |Itoa(p)| <= 5
  {
    ItoaDigits(p);
    assert Power10(2) == 100 && Power10(3) == 1000 && Power10(5) == 100000;
    ItoaLength(p, 5);
  }

  // ----- Pool names -----

  function ServicePart(namespace: string, service: string): string {
    Trim(namespace + "-" + service, MAX_SERVICE_PART)
  }

  function RawPoolName(hash: string, namespace: string, service: string, port: nat): string {
    "vks_" + hash + "_" + ServicePart(namespace, service) + "_" + Itoa(port)
  }

  function PoolName(hash: string, namespace: string, service: string, port: nat): (r: string)
    ensures |r| <= MAX_NAME && AllAllowed(r)
  {
    Trim(Clean(RawPoolName(hash, namespace, service, port)), MAX_NAME)
  }

  /** The default pool's name has underscores, which no generated name can contain. */
  lemma DefaultPoolNameIsApart(hash: string, namespace: string, service: string, port: nat)
    ensures PoolName(hash, namespace, service, port) != DEFAULT_POOL_NAME
  {
    assert DEFAULT_POOL_NAME[3] == '_' && !AllAllowed(DEFAULT_POOL_NAME);
  }

  /** A position in a string after which only digits follow, behind a dash. */
  predicate LastDash(s: string, at: int) {
    0 <= at < |s| && s[at] == '-' && forall i :: at < i < |s| ==> IsDigit(s[i])
  }

  lemma LastDashUnique(s: string, a: int, b: int)
    requires LastDash(s, a) && LastDash(s, b)
    ensures a == b
  {
  }

  lemma CleanConcat(a: string, b: string)
    ensures Clean(a + b) == Clean(a) + Clean(b)
  {
  }

  lemma CleanDigits(n: nat)
    ensures Clean(Itoa(n)) == Itoa(n)
  {
    ItoaDigits(n);
  }

  /** A clean pool name before it is cut: ten characters, the service part, a dash and the port. */
  lemma CleanPoolName(hash: string, namespace: string, service: string, port: nat)
    requires |hash| == 5
    ensures Clean(RawPoolName(hash, namespace, service, port))
            == Clean("vks_" + hash + "_") + Clean(ServicePart(namespace, service)) + "-" + Itoa(port)
  {
    var head, part := "vks_" + hash + "_", ServicePart(namespace, service);
    CleanConcat(head, part);
    CleanConcat(head + part, "_");
    CleanConcat(head + part + "_", Itoa(port));
    CleanDigits(port);
    assert Clean("_") == "-";
  }

  lemma CutShape(head: string, part: string, digits: string)
    requires |head| == 10 && |part| <= 35 && 1 <= |digits| <= 5 && forall i :: 0 <= i < |digits| ==> IsDigit(digits[i])
    ensures var name := Trim(head + part + "-" + digits, MAX_NAME);
            && |name| == (if |part| + |digits| <= 39 then 11 + |part| + |digits| else 50)
            && name[10..10 + |part|] == part
            && name[10 + |part|] == '-'
            && name[11 + |part|..] == digits[..|name| - 11 - |part|]
            && LastDash(name, 10 + |part|)
  {
    var whole := head + part + "-" + digits;
    assert whole[10..10 + |part|] == part && whole[10 + |part|] == '-' && whole[11 + |part|..] == digits;
    var name := Trim(whole, MAX_NAME);
    assert name[11 + |part|..] == digits[..|name| - 11 - |part|];
    forall i | 10 + |part| < i < |name| ensures IsDigit(name[i]) {
      assert name[i] == name[11 + |part|..][i - 11 - |part|];
    }
  }

  /** The shape of a pool name: ten characters, the service part, a dash, and the port as far as it fits. */
  lemma PoolNameShape(hash: string, namespace: string, service: string, port: nat)
    requires |hash| == 5 && IsPort(port)
    ensures var name, part := PoolName(hash, namespace, service, port), Clean(ServicePart(namespace, service));
            && |part| <= 35 && |name| == (if |part| + |Itoa(port)| <= 39 then 11 + |part| + |Itoa(port)| else 50)
            && LastDash(name, 10 + |part|)
            && name[10..10 + |part|] == part
            && name[11 + |part|..] == Itoa(port)[..|name| - 11 - |part|]
  {
    PortDigits(port);
    ItoaDigits(port);
    CleanPoolName(hash, namespace, service, port);
    CutShape(Clean("vks_" + hash + "_"), Clean(ServicePart(namespace, service)), Itoa(port));
  }

  /** In full, where nothing is cut or replaced. */
  lemma PoolNameIs(hash: string, namespace: string, service: string, port: nat)
    requires |hash| == 5 && AllAllowed(hash) && AllAllowed(namespace) && AllAllowed(service) && IsPort(port)
    requires |namespace| + 1 + |service| <= 34
    ensures PoolName(hash, namespace, service, port) == "vks-" + hash + "-" + namespace + "-" + service + "-" + Itoa(port)
  {
    PortDigits(port);
    CleanPoolName(hash, namespace, service, port);
    CleanConcat("vks_" + hash, "_");
    CleanConcat("vks_", hash);
    assert Clean("vks_") == "vks-" && Clean("_") == "-" && Clean(hash) == hash;
    assert Clean(namespace + "-" + service) == namespace + "-" + service;
  }

  predicate Fits(namespace: string, service: string) {
    |namespace| + 1 + |service| <= 34
  }

  lemma CleanService(namespace: string, service: string)
    requires AllAllowed(service) && |namespace| + 1 + |service| <= 35
    ensures Clean(ServicePart(namespace, service))[|namespace| + 1..] == service
  {
  }

  /** A short enough service keeps its name and port apart from every other service and port. */
  lemma FittingNameIsUnique(hash: string, namespace: string, s1: string, p1: nat, s2: string, p2: nat)
    requires |hash| == 5 && IsPort(p1) && IsPort(p2) && AllAllowed(s1) && AllAllowed(s2) && Fits(namespace, s1)
    requires PoolName(hash, namespace, s1, p1) == PoolName(hash, namespace, s2, p2)
    ensures s1 == s2 && p1 == p2
  {
    var name := PoolName(hash, namespace, s1, p1);
    var part1, part2 := Clean(ServicePart(namespace, s1)), Clean(ServicePart(namespace, s2));
    PoolNameShape(hash, namespace, s1, p1);
    PoolNameShape(hash, namespace, s2, p2);
    LastDashUnique(name, 10 + |part1|, 10 + |part2|);
    CleanService(namespace, s1);
    CleanService(namespace, s2);
    PortDigits(p1);
    PortDigits(p2);
    assert Itoa(p1) == name[11 + |part1|..] == Itoa(p2);
    ItoaInjective(p1, p2);
  }

  /** Nothing else with a valid port generates this name. */
  ghost predicate UniquelyNamed(hash: string, namespace: string, service: string, port: nat) {
    forall s: string, p: nat ::
      AllAllowed(s) && IsPort(p) && PoolName(hash, namespace, s, p) == PoolName(hash, namespace, service, port) ==>
        s == service && p == port
  }

  /** Exactly the services for which namespace, dash and name take at most 34 characters are told apart. */
  lemma UniquelyNamedExactlyWhen(hash: string, namespace: string, service: string, port: nat)
    requires |hash| == 5 && IsPort(port) && AllAllowed(service)
    ensures UniquelyNamed(hash, namespace, service, port) <==> Fits(namespace, service)
  {
    if Fits(namespace, service) {
      forall s: string, p: nat
        | AllAllowed(s) && IsPort(p) && PoolName(hash, namespace, s, p) == PoolName(hash, namespace, service, port)
        ensures s == service && p == port
      {
        FittingNameIsUnique(hash, namespace, service, port, s, p);
      }
    } else {
      var longer := service + "x";
      assert ServicePart(namespace, longer) == ServicePart(namespace, service);
      assert AllAllowed(longer) && longer != service;
    }
  }

  // ----- Policy names -----

  function ModeText(https: bool): string {
    if https then "true" else "false"
  }

  function RawPolicyName(hash: string, https: bool, rule: nat, path: nat): string {
    "vks_" + hash + "_" + ModeText(https) + "_r" + Itoa(rule) + "_p" + Itoa(path)
  }

  function PolicyName(hash: string, https: bool, rule: nat, path: nat): (r: string)
    ensures |r| <= MAX_NAME && AllAllowed(r)
  {
    Trim(Clean(RawPolicyName(hash, https, rule, path)), MAX_NAME)
  }

  /** Neither index is so long that the cut at fifty characters could reach it. */
  predicate IndexFits(rule: nat, path: nat) {
    |Itoa(rule)| + |Itoa(path)| <= 31
  }

  /** Fewer than 10^15 rules with fewer than 10^15 paths each always fit. */
  lemma SmallIndicesFit(rule: nat, path: nat)
    requires rule < Power10(15) && path < Power10(15)
    ensures IndexFits(rule, path)
  {
    ItoaLength(rule, 15);
    ItoaLength(path, 15);
  }

  /** Digits, a separator, and more digits: the separator's place is determined. */
  lemma DigitsThenSeparator(a: string, x: string, b: string, y: string)
    requires (forall i :: 0 <= i < |a| ==> IsDigit(a[i])) && (forall i :: 0 <= i < |b| ==> IsDigit(b[i]))
    requires a + "-p" + x == b + "-p" + y
    ensures a == b && x == y
  {
    assert '-' !in a && '-' !in b;
    assert a + "-p" + x == a + ['-'] + ("p" + x) && b + "-p" + y == b + ['-'] + ("p" + y);
    SplitAtFirst(a, '-', "p" + x);
    SplitAtFirst(b, '-', "p" + y);
    assert a == Split(a + "-p" + x, '-')[0] == b;
    assert (a + "-p" + x)[|a| + 2..] == x && (b + "-p" + y)[|b| + 2..] == y;
  }

  lemma CleanPolicyName(hash: string, https: bool, rule: nat, path: nat)
    ensures Clean(RawPolicyName(hash, https, rule, path))
            == Clean("vks_" + hash + "_") + Clean(ModeText(https) + "_r") + (Itoa(rule) + "-p" + Itoa(path))
  {
    var head, mode := "vks_" + hash + "_", ModeText(https) + "_r";
    var tail := Itoa(rule) + "_p" + Itoa(path);
    assert RawPolicyName(hash, https, rule, path) == (head + mode) + tail;
    CleanConcat(head, mode);
    CleanConcat(head + mode, tail);
    CleanConcat(Itoa(rule) + "_p", Itoa(path));
    CleanConcat(Itoa(rule), "_p");
    CleanDigits(rule);
    CleanDigits(path);
    assert Clean("_p") == "-p";
  }

  lemma PolicyNameTail(hash: string, https: bool, rule: nat, path: nat)
    requires |hash| == 5 && IndexFits(rule, path)
    ensures var name, m := PolicyName(hash, https, rule, path), |ModeText(https)|;
            |name| > 12 + m && name[10] == ModeText(https)[0] && name[12 + m..] == Itoa(rule) + "-p" + Itoa(path)
  {
    CleanPolicyName(hash, https, rule, path);
    ItoaDigits(rule);
    ItoaDigits(path);
    var head, mode, tail := Clean("vks_" + hash + "_"), Clean(ModeText(https) + "_r"), Itoa(rule) + "-p" + Itoa(path);
    assert |head| == 10 && mode[0] == ModeText(https)[0];
    assert (head + mode + tail)[|head| + |mode|..] == tail && (head + mode + tail)[10] == mode[0];
  }

  /** In full: the hash, whether the listener is the encrypted one, and the numbers of rule and path. */
  lemma PolicyNameIs(hash: string, https: bool, rule: nat, path: nat)
    requires |hash| == 5 && AllAllowed(hash) && IndexFits(rule, path)
    ensures PolicyName(hash, https, rule, path) ==
            "vks-" + hash + "-" + (if https then "true" else "false") + "-r" + Itoa(rule) + "-p" + Itoa(path)
  {
    CleanPolicyName(hash, https, rule, path);
    CleanConcat("vks_" + hash, "_");
    CleanConcat("vks_", hash);
    CleanConcat(ModeText(https), "_r");
    assert Clean("vks_") == "vks-" && Clean("_") == "-" && Clean("_r") == "-r" && Clean(hash) == hash;
    assert Clean("true") == "true" && Clean("false") == "false";
  }

  /** The policies of one Ingress have pairwise different names. */
  lemma PolicyNamesDiffer(hash: string, m1: bool, r1: nat, p1: nat, m2: bool, r2: nat, p2: nat)
    requires |hash| == 5 && IndexFits(r1, p1) && IndexFits(r2, p2)
    requires PolicyName(hash, m1, r1, p1) == PolicyName(hash, m2, r2, p2)
    ensures m1 == m2 && r1 == r2 && p1 == p2
  {
    PolicyNameTail(hash, m1, r1, p1);
    PolicyNameTail(hash, m2, r2, p2);
    ItoaDigits(r1);
    ItoaDigits(r2);
    DigitsThenSeparator(Itoa(r1), Itoa(p1), Itoa(r2), Itoa(p2));
    ItoaInjective(r1, r2);
    ItoaInjective(p1, p2);
  }
}
