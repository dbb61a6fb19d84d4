/**
 The vhost gateway: makeGatewayHTTP and makeGatewayHTTPS compile the vhost map into an
 ordered list of ACLs and `use_backend` rules. The emitted program is given a meaning
 of its own, and that meaning is compared with a direct lookup in the vhost map.
 */
module Gateway {
  import opened Text
  import opened Sorting

  type Vhosts = map<string, seq<string>>

  datatype Scheme = Http | Https

  // ---- the emitted program and its meaning ----

  datatype Match = Exact(host: string) | Domain(domain: string)
  datatype Acl = Acl(token: string, match_: Match)
  datatype Rule = UseBackend(backend: string, token: string)
  datatype Program = Program(acls: seq<Acl>, rules: seq<Rule>, defaultBackend: Option<string>)

  /** HAProxy's domain match, left abstract: (domain, host). */
  type DomainMatch = (string, string) -> bool

  predicate Matches(m: Match, host: string, dom: DomainMatch) {
    match m
    case Exact(h) => Lower(h) == Lower(host)
    case Domain(d) => dom(d, host)
  }

  /** ACLs of the same name are alternatives. */
  predicate Holds(acls: seq<Acl>, token: string, host: string, dom: DomainMatch) {
    exists acl :: acl in acls && acl.token == token && Matches(acl.match_, host, dom)
  }

  /** The first rule whose ACL holds. */
  function FirstRule(rules: seq<Rule>, acls: seq<Acl>, host: string, dom: DomainMatch): Option<string> {
    if rules == [] then None
    else if Holds(acls, rules[0].token, host, dom) then Some(rules[0].backend)
    else FirstRule(rules[1..], acls, host, dom)
  }

  function Eval(p: Program, host: string, dom: DomainMatch): Option<string> {
    var chosen := FirstRule(p.rules, p.acls, host, dom);
    if chosen.Some? then chosen else p.defaultBackend
  }

  // ---- match tokens ----

  function Prefix(scheme: Scheme): string {
    match scheme case Http => "vhost_" case Https => "vhost_ssl_"
  }

  /** strings.Replace(s, "*", "STAR", -1). */
  function SpellStars(s: string): string {
    if s == "" then "" else (if s[0] == '*' then "STAR" else [s[0]]) + SpellStars(s[1..])
  }

  function Token(scheme: Scheme, vhost: string): string {
    SpellStars(Replace(Prefix(scheme) + vhost, '.', '_'))
  }

  lemma {:induction false} NoStarsToSpell(s: string)
    requires '*' !in s
    ensures SpellStars(s) == s
  {
    if s != "" {
      NoStarsToSpell(s[1..]);
      assert s == [s[0]] + s[1..];
    }
  }

  lemma {:induction false} SpellStarsAppend(a: string, b: string)
    ensures SpellStars(a + b) == SpellStars(a) + SpellStars(b)
  {
    if a == "" {
      assert a + b == b;
    } else {
      assert (a + b)[1..] == a[1..] + b;
      SpellStarsAppend(a[1..], b);
    }
  }

  lemma SpellOneStar(p: string, r: string)
    requires '*' !in p && '*' !in r
    ensures SpellStars(p + r) == p + r && SpellStars(p + ['*'] + r) == p + "STAR" + r
  {
    NoStarsToSpell(p);
    NoStarsToSpell(r);
    SpellStarsAppend(p, r);
    SpellStarsAppend(p, ['*']);
    SpellStarsAppend(p + ['*'], r);
    assert ['*'][1..] == "" && SpellStars(['*']) == "STAR" + "";
  }

  lemma ReplaceParts(p: string, r: string)
    requires '.' !in p
    ensures Replace(p + r, '.', '_') == p + Replace(r, '.', '_')
    ensures Replace(p + (['*'] + r), '.', '_') == p + ['*'] + Replace(r, '.', '_')
  {}

  /** A token is the scheme's prefix and the vhost with underscores for dots, and with STAR for a leading star. */
  lemma TokenIs(scheme: Scheme, rest: string)
    requires '*' !in rest
    ensures var prefix := if scheme == Http then "vhost_" else "vhost_ssl_";
            && Token(scheme, rest) == prefix + Replace(rest, '.', '_')
            && Token(scheme, ['*'] + rest) == prefix + "STAR" + Replace(rest, '.', '_')
  {
    var p, r := Prefix(scheme), Replace(rest, '.', '_');
    assert '*' !in r by { assert forall k :: 0 <= k < |r| ==> r[k] != '*'; }
    PrefixWithoutStar(scheme);
    ReplaceParts(p, rest);
    SpellOneStar(p, r);
  }

  lemma PrefixWithoutStar(scheme: Scheme)
    ensures '*' !in Prefix(scheme) && '.' !in Prefix(scheme)
  {}

  predicate HostChar(c: char) {
    'a' <= c <= 'z' || '0' <= c <= '9' || c == '-' || c == '.' || c == '*'
  }

  predicate HostPattern(v: string) { forall c :: c in v ==> HostChar(c) }

  lemma {:induction false} SpellStarsInjective(a: string, b: string)
    requires 'S' !in a && 'S' !in b && SpellStars(a) == SpellStars(b)
    ensures a == b
  {
    if a != "" && b != "" {
      var x := SpellStars(a);
      assert x[0] == (if a[0] == '*' then 'S' else a[0]) && x[0] == (if b[0] == '*' then 'S' else b[0]);
      assert a[0] in a && b[0] in b;
      assert a[0] == b[0];
      var n := if a[0] == '*' then 4 else 1;
      assert x[n..] == SpellStars(a[1..]) && x[n..] == SpellStars(b[1..]);
      SpellStarsInjective(a[1..], b[1..]);
      assert a == [a[0]] + a[1..] && b == [b[0]] + b[1..];
    }
  }

  lemma NoCapitalS(scheme: Scheme, v: string)
    requires HostPattern(v)
    ensures 'S' !in Replace(Prefix(scheme) + v, '.', '_')
  {
    var s := Prefix(scheme) + v;
    PrefixWithoutS(scheme);
    assert forall c :: c in s ==> c in Prefix(scheme) || c in v;
    assert forall i :: 0 <= i < |s| ==> s[i] in s;
  }

  lemma PrefixWithoutS(scheme: Scheme)
    ensures 'S' !in Prefix(scheme)
  {}

  /** On host patterns the token names the vhost. */
  lemma TokenInjective(scheme: Scheme, u: string, v: string)
    requires HostPattern(u) && HostPattern(v) && Token(scheme, u) == Token(scheme, v)
    ensures u == v
  {
    var p := Prefix(scheme);
    var a, b := Replace(p + u, '.', '_'), Replace(p + v, '.', '_');
    NoCapitalS(scheme, u);
    NoCapitalS(scheme, v);
    SpellStarsInjective(a, b);
    forall i | 0 <= i < |u| ensures u[i] == v[i] {
      assert a[|p| + i] == b[|p| + i];
      assert (p + u)[|p| + i] == u[i] && (p + v)[|p| + i] == v[i];
      assert u[i] in u && v[i] in v;
    }
  }

  /** Outside host patterns tokens do collide. */
  lemma UnderscoreCollides(scheme: Scheme)
    ensures Token(scheme, "a.b") == Token(scheme, "a_b")
  {
    var p := Prefix(scheme);
    assert Replace(p + "a.b", '.', '_') == Replace(p + "a_b", '.', '_');
  }

  // ---- the compiler ----

  predicate IsWildcard(vhost: string) { |vhost| >= 3 && vhost[0] == '*' && vhost[1] == '.' }

  /** A wildcard is a star, a dot and a domain, which is what it matches; anything else is matched exactly. */
  lemma WildcardIff(vhost: string)
    ensures IsWildcard(vhost) <==> exists domain :: domain != "" && vhost == "*." + domain
    ensures MatchOf(vhost) == if IsWildcard(vhost) then Domain(vhost[2..]) else Exact(vhost)
  {
    if IsWildcard(vhost) { assert vhost == "*." + vhost[2..]; }
  }

  function MatchOf(vhost: string): Match {
    if IsWildcard(vhost) then Domain(vhost[2..]) else Exact(vhost)
  }

  /** One application's claim to one vhost. */
  datatype Claim = Claim(app: string, vhost: string)

  /** The claims of the first `n` hosts. */
  ghost function ClaimsOf(app: string, hosts: seq<string>, n: nat): seq<Claim>
    requires n <= |hosts|
  {
    if n == 0 then [] else ClaimsOf(app, hosts, n - 1) + [Claim(app, hosts[n - 1])]
  }

  /** The claims of the first `n` keys, in the order of the two nested loops. */
  ghost function Claims(keys: seq<string>, vhosts: Vhosts, n: nat): seq<Claim>
    requires n <= |keys| && forall i :: 0 <= i < |keys| ==> keys[i] in vhosts
  {
    if n == 0 then []
    else Claims(keys, vhosts, n - 1) + ClaimsOf(keys[n - 1], vhosts[keys[n - 1]], |vhosts[keys[n - 1]]|)
  }

  ghost function Acls(scheme: Scheme, cs: seq<Claim>, wild: bool): seq<Acl> {
    if cs == [] then []
    else
      var c := cs[|cs| - 1];
      var rest := Acls(scheme, cs[..|cs| - 1], wild);
      if IsWildcard(c.vhost) == wild then rest + [Acl(Token(scheme, c.vhost), MatchOf(c.vhost))] else rest
  }

  /** Later claims to a token replace earlier ones. */
  ghost function Routes(scheme: Scheme, cs: seq<Claim>, wild: bool): map<string, string> {
    if cs == [] then map[]
    else
      var n := |cs| - 1;
      var rest := Routes(scheme, cs[..n], wild);
      if IsWildcard(cs[n].vhost) == wild then rest[Token(scheme, cs[n].vhost) := cs[n].app] else rest
  }

  ghost function RulesFor(keys: seq<string>, routes: map<string, string>, n: nat): seq<Rule>
    requires n <= |keys| && forall i :: 0 <= i < |keys| ==> keys[i] in routes
  {
    if n == 0 then [] else RulesFor(keys, routes, n - 1) + [UseBackend(routes[keys[n - 1]], keys[n - 1])]
  }

  ghost function Keys<V>(m: map<string, V>): (keys: seq<string>)
    ensures keys == Ordered(m.Keys) && Elements(keys) == m.Keys
    ensures forall i :: 0 <= i < |keys| ==> keys[i] in m
  {
    OrderedIsIncreasing(m.Keys);
    var keys := Ordered(m.Keys);
    assert forall i :: 0 <= i < |keys| ==> keys[i] in Elements(keys);
    keys
  }

  ghost function Rules(routes: map<string, string>): seq<Rule> {
    RulesFor(Keys(routes), routes, |Keys(routes)|)
  }

  ghost function AllClaims(vhosts: Vhosts): seq<Claim> { Claims(Keys(vhosts), vhosts, |Keys(vhosts)|) }

  ghost function Compile(scheme: Scheme, vhosts: Vhosts, default_: string): Program {
    var cs := AllClaims(vhosts);
    Program(
      Acls(scheme, cs, false) + Acls(scheme, cs, true),
      Rules(Routes(scheme, cs, false)) + Rules(Routes(scheme, cs, true)),
      if default_ != "" && default_ in vhosts && vhosts[default_] != [] then Some(default_) else None)
  }

  method EmitRules(routes: map<string, string>) returns (rules: seq<Rule>)
    ensures rules == Rules(routes)
  {
    var keys := SortedKeys(routes);
    assert keys == Keys(routes);
    rules := [];
    for i := 0 to |keys|
      invariant rules == RulesFor(keys, routes, i)
    {
      rules := rules + [UseBackend(routes[keys[i]], keys[i])];
    }
  }

  /** The four local tables that the nested loops grow. */
  datatype Tables = Tables(
    exactMatches: seq<Acl>, suffixMatches: seq<Acl>,
    exactRoutes: map<string, string>, suffixRoutes: map<string, string>)

  ghost predicate TablesFor(t: Tables, scheme: Scheme, cs: seq<Claim>) {
    && t.exactMatches == Acls(scheme, cs, false) && t.suffixMatches == Acls(scheme, cs, true)
    && t.exactRoutes == Routes(scheme, cs, false) && t.suffixRoutes == Routes(scheme, cs, true)
  }

  /** The body of the inner loop. */
  method AddClaim(scheme: Scheme, t: Tables, c: Claim, ghost cs: seq<Claim>) returns (r: Tables)
    requires TablesFor(t, scheme, cs)
    ensures TablesFor(r, scheme, cs + [c])
  {
    var token := Token(scheme, c.vhost);
    assert (cs + [c])[..|cs|] == cs;
    if IsWildcard(c.vhost) {
      r := t.(suffixMatches := t.suffixMatches + [Acl(token, Domain(c.vhost[2..]))],
        suffixRoutes := t.suffixRoutes[token := c.app]);
    } else {
      r := t.(exactMatches := t.exactMatches + [Acl(token, Exact(c.vhost))], exactRoutes := t.exactRoutes[token := c.app]);
    }
  }

  method AddClaimsOf(scheme: Scheme, t: Tables, app: string, hosts: seq<string>, ghost cs: seq<Claim>) returns (r: Tables)
    requires TablesFor(t, scheme, cs)
    ensures TablesFor(r, scheme, cs + ClaimsOf(app, hosts, |hosts|))
  {
    r := t;
    ghost var done := cs;
    assert cs + [] == cs;
    for i := 0 to |hosts|
      invariant done == cs + ClaimsOf(app, hosts, i)
      invariant TablesFor(r, scheme, done)
    {
      r := AddClaim(scheme, r, Claim(app, hosts[i]), done);
      done := done + [Claim(app, hosts[i])];
    }
  }

  ghost predicate Seen(keys: seq<string>, n: nat, key: string)
    requires n <= |keys|
  {
    n > 0 && (keys[n - 1] == key || Seen(keys, n - 1, key))
  }

  lemma {:induction false} SeenInPrefix(keys: seq<string>, n: nat, key: string)
    requires n <= |keys|
    ensures Seen(keys, n, key) <==> exists i :: 0 <= i < n && keys[i] == key
  {
    if n > 0 { SeenInPrefix(keys, n - 1, key); }
  }

  /** The nested loops over the sorted vhost map. */
  method CollectTables(scheme: Scheme, vhosts: Vhosts, default_: string) returns (t: Tables, vhostDefault: string)
    ensures TablesFor(t, scheme, AllClaims(vhosts))
    ensures vhostDefault == if default_ in vhosts && vhosts[default_] != [] then default_ else ""
  {
    t, vhostDefault := Tables([], [], map[], map[]), "";
    var keys := SortedKeys(vhosts);
    for k := 0 to |keys|
      invariant keys == Keys(vhosts)
      invariant TablesFor(t, scheme, Claims(keys, vhosts, k))
      invariant vhostDefault == if Seen(keys, k, default_) && default_ in vhosts && vhosts[default_] != [] then default_ else ""
    {
      var app := keys[k];
      t := AddClaimsOf(scheme, t, app, vhosts[app], Claims(keys, vhosts, k));
      if vhosts[app] != [] && default_ == app { vhostDefault := app; }
    }
    SeenInPrefix(keys, |keys|, default_);
  }

  /** makeGatewayHTTP and makeGatewayHTTPS, which differ in the token prefix. */
  method MakeGateway(scheme: Scheme, vhosts: Vhosts, default_: string) returns (p: Program)
    ensures p == Compile(scheme, vhosts, default_)
  {
    var t, vhostDefault := CollectTables(scheme, vhosts, default_);
    var exactRules := EmitRules(t.exactRoutes);
    var suffixRules := EmitRules(t.suffixRoutes);
    p := Program(t.exactMatches + t.suffixMatches, exactRules + suffixRules,
      if |vhostDefault| != 0 then Some(vhostDefault) else None);
  }
}
