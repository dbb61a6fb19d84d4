/** The compiled gateway program means a direct lookup in the vhost map. */
module GatewayMeaning {
  import opened Text
  import opened Sorting
  import opened Gateway

  // ---- the direct lookup ----

  ghost function ExactApps(vhosts: Vhosts, host: string): set<string> {
    set a, v | a in vhosts && v in vhosts[a] && !IsWildcard(v) && Lower(v) == Lower(host) :: a
  }

  ghost function WildcardTokens(scheme: Scheme, vhosts: Vhosts, host: string, dom: DomainMatch): set<string> {
    set a, v | a in vhosts && v in vhosts[a] && IsWildcard(v) && dom(v[2..], host) :: Token(scheme, v)
  }

  /** The applications that list a vhost of the given kind with the given token. */
  ghost function Listing(scheme: Scheme, vhosts: Vhosts, wild: bool, token: string): set<string> {
    set a, v | a in vhosts && v in vhosts[a] && IsWildcard(v) == wild && Token(scheme, v) == token :: a
  }

  lemma MatchingTokenIsListed(scheme: Scheme, vhosts: Vhosts, host: string, dom: DomainMatch, token: string)
    requires token in WildcardTokens(scheme, vhosts, host, dom)
    ensures Listing(scheme, vhosts, true, token) != {}
  {
    var a, v :| a in vhosts && v in vhosts[a] && IsWildcard(v) && Token(scheme, v) == token;
    assert a in Listing(scheme, vhosts, true, token);
  }

  /** An exact vhost first, then the matching wildcard with the least token, then the default; the greatest app id wins a tie. */
  ghost function Lookup(scheme: Scheme, vhosts: Vhosts, default_: string, host: string, dom: DomainMatch): Option<string> {
    var exact := ExactApps(vhosts, host);
    var tokens := WildcardTokens(scheme, vhosts, host, dom);
    if exact != {} then Some(Greatest(exact))
    else if tokens != {} then
      MatchingTokenIsListed(scheme, vhosts, host, dom, Least(tokens));
      Some(Greatest(Listing(scheme, vhosts, true, Least(tokens))))
    else if default_ != "" && default_ in vhosts && vhosts[default_] != [] then Some(default_)
    else None
  }

  ghost predicate Claimed(vhosts: Vhosts, v: string) { exists a :: a in vhosts && v in vhosts[a] }

  /** No two claimed vhosts share a token, nor differ only in case. */
  ghost predicate Distinguishable(scheme: Scheme, vhosts: Vhosts) {
    forall u, v :: Claimed(vhosts, u) && Claimed(vhosts, v) ==>
      Token(scheme, u) == Token(scheme, v) || Lower(u) == Lower(v) ==> u == v
  }

  lemma {:induction false} LowerFixed(v: string)
    requires HostPattern(v)
    ensures Lower(v) == v
  {
    if v != "" {
      assert v[0] in v && forall c :: c in v[1..] ==> c in v;
      LowerFixed(v[1..]);
    }
  }

  lemma HostPatternsDistinguishable(scheme: Scheme, vhosts: Vhosts)
    requires forall v :: Claimed(vhosts, v) ==> HostPattern(v)
    ensures Distinguishable(scheme, vhosts)
  {
    forall u, v | Claimed(vhosts, u) && Claimed(vhosts, v) && (Token(scheme, u) == Token(scheme, v) || Lower(u) == Lower(v))
      ensures u == v
    {
      LowerFixed(u);
      LowerFixed(v);
      if Token(scheme, u) == Token(scheme, v) { TokenInjective(scheme, u, v); }
    }
  }

  // ---- what the tables hold ----

  lemma {:induction false} ClaimsOfMember(app: string, hosts: seq<string>, n: nat, c: Claim)
    requires n <= |hosts|
    ensures c in ClaimsOf(app, hosts, n) <==> c.app == app && exists i :: 0 <= i < n && hosts[i] == c.vhost
  {
    if n > 0 { ClaimsOfMember(app, hosts, n - 1, c); }
  }

  lemma {:induction false} ClaimsMember(keys: seq<string>, vhosts: Vhosts, n: nat, c: Claim)
    requires n <= |keys| && forall i :: 0 <= i < |keys| ==> keys[i] in vhosts
    ensures c in Claims(keys, vhosts, n) <==> (exists i :: 0 <= i < n && keys[i] == c.app) && c.vhost in vhosts[c.app]
  {
    if n > 0 {
      ClaimsMember(keys, vhosts, n - 1, c);
      ClaimsOfMember(keys[n - 1], vhosts[keys[n - 1]], |vhosts[keys[n - 1]]|, c);
    }
  }

  lemma AllClaimsMember(vhosts: Vhosts, c: Claim)
    ensures c in AllClaims(vhosts) <==> c.app in vhosts && c.vhost in vhosts[c.app]
  {
    ClaimsMember(Keys(vhosts), vhosts, |Keys(vhosts)|, c);
    assert c.app in vhosts <==> c.app in Elements(Keys(vhosts));
  }

  /** Application ids never go down along the list. */
  ghost predicate Ascending(cs: seq<Claim>) {
    forall i, j :: 0 <= i < j < |cs| ==> cs[i].app == cs[j].app || Less(cs[i].app, cs[j].app)
  }

  lemma {:induction false} ClaimsAscend(keys: seq<string>, vhosts: Vhosts, n: nat)
    requires n <= |keys| && Increasing(keys) && forall i :: 0 <= i < |keys| ==> keys[i] in vhosts
    ensures Ascending(Claims(keys, vhosts, n))
  {
    if n > 0 {
      ClaimsAscend(keys, vhosts, n - 1);
      var a: seq<Claim> := Claims(keys, vhosts, n - 1);
      var b: seq<Claim> := ClaimsOf(keys[n - 1], vhosts[keys[n - 1]], |vhosts[keys[n - 1]]|);
      forall i, j | 0 <= i < j < |a| + |b| && j >= |a|
        ensures (a + b)[i].app == keys[n - 1] || Less((a + b)[i].app, keys[n - 1])
        ensures (a + b)[j].app == keys[n - 1]
      {
        ClaimsOfMember(keys[n - 1], vhosts[keys[n - 1]], |vhosts[keys[n - 1]]|, b[j - |a|]);
        if i < |a| {
          ClaimsMember(keys, vhosts, n - 1, a[i]);
        } else {
          ClaimsOfMember(keys[n - 1], vhosts[keys[n - 1]], |vhosts[keys[n - 1]]|, b[i - |a|]);
        }
      }
    }
  }

  ghost function Claimants(scheme: Scheme, cs: seq<Claim>, wild: bool, token: string): set<string> {
    set c | c in cs && IsWildcard(c.vhost) == wild && Token(scheme, c.vhost) == token :: c.app
  }

  lemma GreatestIs(s: set<string>, m: string)
    requires m in s && forall k :: k in s ==> k == m || Less(k, m)
    ensures m == Greatest(s)
  {
    var g := Greatest(s);
    if g != m {
      LessTransitive(m, g, m);
      LessIrreflexive(m);
    }
  }

  lemma ClaimantsSnoc(scheme: Scheme, cs: seq<Claim>, c: Claim, wild: bool, token: string)
    ensures Claimants(scheme, cs + [c], wild, token)
         == if IsWildcard(c.vhost) == wild && Token(scheme, c.vhost) == token then Claimants(scheme, cs, wild, token) + {c.app}
            else Claimants(scheme, cs, wild, token)
  {
    forall d ensures d in cs + [c] <==> d in cs || d == c {}
  }

  lemma LastClaimIsGreatest(scheme: Scheme, cs: seq<Claim>, c: Claim, wild: bool, token: string)
    requires Ascending(cs + [c])
    ensures Ascending(cs)
    ensures forall k :: k in Claimants(scheme, cs, wild, token) ==> k == c.app || Less(k, c.app)
  {
    assert forall i :: 0 <= i < |cs| ==> (cs + [c])[i] == cs[i];
    forall d | d in cs ensures d.app == c.app || Less(d.app, c.app) {
      var i :| 0 <= i < |cs| && cs[i] == d;
      assert (cs + [c])[|cs|] == c;
    }
  }

  /** A token is routed exactly when it is claimed, and to the greatest claimant. */
  lemma {:induction false} RouteOf(scheme: Scheme, cs: seq<Claim>, wild: bool, token: string)
    requires Ascending(cs)
    ensures var apps, routes := Claimants(scheme, cs, wild, token), Routes(scheme, cs, wild);
            && (token in routes <==> apps != {})
            && (token in routes ==> routes[token] == Greatest(apps))
    decreases |cs|
  {
    if cs != [] {
      var front, c := cs[..|cs| - 1], cs[|cs| - 1];
      assert cs == front + [c];
      LastClaimIsGreatest(scheme, front, c, wild, token);
      RouteOf(scheme, front, wild, token);
      ClaimantsSnoc(scheme, front, c, wild, token);
      RoutesSnoc(scheme, front, c, wild, token);
      if IsWildcard(c.vhost) == wild && Token(scheme, c.vhost) == token {
        GreatestIs(Claimants(scheme, cs, wild, token), c.app);
      }
    }
  }

  lemma RoutesSnoc(scheme: Scheme, cs: seq<Claim>, c: Claim, wild: bool, token: string)
    ensures var before, after := Routes(scheme, cs, wild), Routes(scheme, cs + [c], wild);
            var named := IsWildcard(c.vhost) == wild && Token(scheme, c.vhost) == token;
            && (token in after <==> named || token in before)
            && (token in after ==> after[token] == if named then c.app else before[token])
  {
    assert (cs + [c])[..|cs|] == cs;
  }

  lemma {:induction false} AclsMember(scheme: Scheme, cs: seq<Claim>, wild: bool, acl: Acl)
    ensures acl in Acls(scheme, cs, wild) <==>
              exists c :: c in cs && IsWildcard(c.vhost) == wild && acl == Acl(Token(scheme, c.vhost), MatchOf(c.vhost))
    decreases |cs|
  {
    if cs != [] {
      var n := |cs| - 1;
      AclsMember(scheme, cs[..n], wild, acl);
      assert cs == cs[..n] + [cs[n]];
    }
  }

  // ---- which rule fires ----

  lemma {:induction false} FirstRuleAppend(a: seq<Rule>, b: seq<Rule>, acls: seq<Acl>, host: string, dom: DomainMatch)
    ensures FirstRule(a + b, acls, host, dom)
         == if FirstRule(a, acls, host, dom).Some? then FirstRule(a, acls, host, dom) else FirstRule(b, acls, host, dom)
  {
    if a == [] {
      assert a + b == b;
    } else {
      FirstRuleAppend(a[1..], b, acls, host, dom);
      assert (a + b)[1..] == a[1..] + b;
    }
  }

  lemma {:induction false} FirstInOrder(keys: seq<string>, routes: map<string, string>, n: nat,
                                        acls: seq<Acl>, host: string, dom: DomainMatch) returns (i: nat)
    requires n <= |keys| && forall i :: 0 <= i < |keys| ==> keys[i] in routes
    ensures i <= n
    ensures forall j :: 0 <= j < i ==> !Holds(acls, keys[j], host, dom)
    ensures i < n ==> Holds(acls, keys[i], host, dom)
    ensures FirstRule(RulesFor(keys, routes, n), acls, host, dom) == if i < n then Some(routes[keys[i]]) else None
  {
    if n == 0 {
      i := 0;
    } else {
      i := FirstInOrder(keys, routes, n - 1, acls, host, dom);
      var last := [UseBackend(routes[keys[n - 1]], keys[n - 1])];
      FirstRuleAppend(RulesFor(keys, routes, n - 1), last, acls, host, dom);
      assert last[1..] == [];
      if i == n - 1 && !Holds(acls, keys[n - 1], host, dom) { i := n; }
    }
  }

  lemma LeastIs(s: set<string>, m: string)
    requires m in s && forall k :: k in s ==> k == m || Less(m, k)
    ensures m == Least(s)
  {
    var g := Least(s);
    if g != m {
      LessTransitive(m, g, m);
      LessIrreflexive(m);
    }
  }

  ghost function Hits(routes: map<string, string>, acls: seq<Acl>, host: string, dom: DomainMatch): set<string> {
    set t | t in routes && Holds(acls, t, host, dom)
  }

  lemma LeastIndex(keys: seq<string>, i: nat, hits: set<string>)
    requires i < |keys| && Increasing(keys) && keys[i] in hits
    requires forall t :: t in hits ==> exists j :: i <= j < |keys| && keys[j] == t
    ensures keys[i] == Least(hits)
  {
    LeastIs(hits, keys[i]);
  }

  /** A block of rules in token order sends a host to the backend of the least token that holds. */
  lemma LeastHitWins(routes: map<string, string>, acls: seq<Acl>, host: string, dom: DomainMatch)
    ensures var hits := Hits(routes, acls, host, dom);
            FirstRule(Rules(routes), acls, host, dom) == if hits == {} then None else Some(routes[Least(hits)])
  {
    var keys := Keys(routes);
    var i := FirstInOrder(keys, routes, |keys|, acls, host, dom);
    var hits := Hits(routes, acls, host, dom);
    forall t | t in hits ensures exists j :: i <= j < |keys| && keys[j] == t {
      assert t in Elements(keys);
    }
    if i < |keys| {
      assert keys[i] in hits;
      OrderedIsIncreasing(routes.Keys);
      LeastIndex(keys, i, hits);
    }
  }

  // ---- the rules and ACLs of a vhost map ----

  ghost function AllAcls(scheme: Scheme, vhosts: Vhosts): seq<Acl> {
    Acls(scheme, AllClaims(vhosts), false) + Acls(scheme, AllClaims(vhosts), true)
  }

  function AclOf(scheme: Scheme, v: string): Acl { Acl(Token(scheme, v), MatchOf(v)) }

  lemma AclSource(scheme: Scheme, vhosts: Vhosts, acl: Acl) returns (v: string)
    requires acl in AllAcls(scheme, vhosts)
    ensures Claimed(vhosts, v) && acl == AclOf(scheme, v)
  {
    var cs := AllClaims(vhosts);
    AclsMember(scheme, cs, false, acl);
    AclsMember(scheme, cs, true, acl);
    var c :| c in cs && acl == Acl(Token(scheme, c.vhost), MatchOf(c.vhost));
    AllClaimsMember(vhosts, c);
    v := c.vhost;
  }

  lemma AclTarget(scheme: Scheme, vhosts: Vhosts, v: string)
    requires Claimed(vhosts, v)
    ensures AclOf(scheme, v) in AllAcls(scheme, vhosts)
  {
    var a :| a in vhosts && v in vhosts[a];
    AllClaimsMember(vhosts, Claim(a, v));
    AclsMember(scheme, AllClaims(vhosts), IsWildcard(v), AclOf(scheme, v));
  }

  lemma ClaimantsAreListing(scheme: Scheme, vhosts: Vhosts, wild: bool, token: string)
    ensures Claimants(scheme, AllClaims(vhosts), wild, token) == Listing(scheme, vhosts, wild, token)
  {
    forall c: Claim ensures c in AllClaims(vhosts) <==> c.app in vhosts && c.vhost in vhosts[c.app] {
      AllClaimsMember(vhosts, c);
    }
    forall a | a in Listing(scheme, vhosts, wild, token) ensures a in Claimants(scheme, AllClaims(vhosts), wild, token) {
      var v :| v in vhosts[a] && IsWildcard(v) == wild && Token(scheme, v) == token;
      assert Claim(a, v) in AllClaims(vhosts);
    }
  }

  /** A token is routed exactly when some application lists it, and to the greatest such application. */
  lemma RoutedTokens(scheme: Scheme, vhosts: Vhosts, wild: bool, token: string)
    ensures var apps, routes := Listing(scheme, vhosts, wild, token), Routes(scheme, AllClaims(vhosts), wild);
            && (token in routes <==> apps != {})
            && (token in routes ==> routes[token] == Greatest(apps))
  {
    OrderedIsIncreasing(vhosts.Keys);
    ClaimsAscend(Keys(vhosts), vhosts, |Keys(vhosts)|);
    RouteOf(scheme, AllClaims(vhosts), wild, token);
    ClaimantsAreListing(scheme, vhosts, wild, token);
  }

  // ---- exactly when compilation preserves meaning ----

  /** The tokens of the exact vhosts that mean this host. */
  ghost function ExactTokens(scheme: Scheme, vhosts: Vhosts, host: string): set<string> {
    set a, v | a in vhosts && v in vhosts[a] && !IsWildcard(v) && Lower(v) == Lower(host) :: Token(scheme, v)
  }

  lemma ExactToken(scheme: Scheme, vhosts: Vhosts, host: string, t: string)
    ensures t in ExactTokens(scheme, vhosts, host) <==>
              exists v :: Claimed(vhosts, v) && !IsWildcard(v) && Lower(v) == Lower(host) && Token(scheme, v) == t
  {
    if v :| Claimed(vhosts, v) && !IsWildcard(v) && Lower(v) == Lower(host) && Token(scheme, v) == t {
      var a :| a in vhosts && v in vhosts[a];
    }
    if t in ExactTokens(scheme, vhosts, host) {
      var a, v :| a in vhosts && v in vhosts[a] && !IsWildcard(v) && Lower(v) == Lower(host) && Token(scheme, v) == t;
      assert Claimed(vhosts, v);
    }
  }

  lemma WildcardToken(scheme: Scheme, vhosts: Vhosts, host: string, dom: DomainMatch, t: string)
    ensures t in WildcardTokens(scheme, vhosts, host, dom) <==>
              exists v :: Claimed(vhosts, v) && IsWildcard(v) && dom(v[2..], host) && Token(scheme, v) == t
  {
    if v :| Claimed(vhosts, v) && IsWildcard(v) && dom(v[2..], host) && Token(scheme, v) == t {
      var a :| a in vhosts && v in vhosts[a];
    }
    if t in WildcardTokens(scheme, vhosts, host, dom) {
      var a, v :| a in vhosts && v in vhosts[a] && IsWildcard(v) && dom(v[2..], host) && Token(scheme, v) == t;
      assert Claimed(vhosts, v);
    }
  }

  lemma ListedToken(scheme: Scheme, vhosts: Vhosts, wild: bool, t: string)
    ensures Listing(scheme, vhosts, wild, t) != {} <==>
              exists v :: Claimed(vhosts, v) && IsWildcard(v) == wild && Token(scheme, v) == t
  {
    if v :| Claimed(vhosts, v) && IsWildcard(v) == wild && Token(scheme, v) == t {
      var a :| a in vhosts && v in vhosts[a];
      assert a in Listing(scheme, vhosts, wild, t);
    }
    if a :| a in Listing(scheme, vhosts, wild, t) {
      var v :| v in vhosts[a] && IsWildcard(v) == wild && Token(scheme, v) == t;
      assert Claimed(vhosts, v);
    }
  }

  /** The ACLs of a token hold when any of its vhosts, exact or wildcard, matches. */
  lemma AclsHold(scheme: Scheme, vhosts: Vhosts, host: string, dom: DomainMatch, t: string)
    ensures Holds(AllAcls(scheme, vhosts), t, host, dom) <==>
              t in ExactTokens(scheme, vhosts, host) || t in WildcardTokens(scheme, vhosts, host, dom)
  {
    ExactToken(scheme, vhosts, host, t);
    WildcardToken(scheme, vhosts, host, dom, t);
    if acl :| acl in AllAcls(scheme, vhosts) && acl.token == t && Matches(acl.match_, host, dom) {
      var v := AclSource(scheme, vhosts, acl);
    }
    if v :| Claimed(vhosts, v) && Token(scheme, v) == t && Matches(MatchOf(v), host, dom) {
      AclTarget(scheme, vhosts, v);
      assert AclOf(scheme, v).token == t;
    }
  }

  /** The tokens of exact rules that fire, be it for a wildcard with the same token. */
  ghost function Fired(scheme: Scheme, vhosts: Vhosts, host: string, dom: DomainMatch): set<string> {
    set t | t in ExactTokens(scheme, vhosts, host) + WildcardTokens(scheme, vhosts, host, dom)
            && Listing(scheme, vhosts, false, t) != {}
  }

  lemma HitsAre(scheme: Scheme, vhosts: Vhosts, host: string, dom: DomainMatch, t: string)
    ensures var acls, cs := AllAcls(scheme, vhosts), AllClaims(vhosts);
            && (t in Hits(Routes(scheme, cs, false), acls, host, dom) <==> t in Fired(scheme, vhosts, host, dom))
            && (Fired(scheme, vhosts, host, dom) == {} ==>
                 (t in Hits(Routes(scheme, cs, true), acls, host, dom) <==> t in WildcardTokens(scheme, vhosts, host, dom)))
  {
    AclsHold(scheme, vhosts, host, dom, t);
    RoutedTokens(scheme, vhosts, false, t);
    RoutedTokens(scheme, vhosts, true, t);
    if t in ExactTokens(scheme, vhosts, host) { OwnTokensFire(scheme, vhosts, host, dom); }
    if t in WildcardTokens(scheme, vhosts, host, dom) { MatchingTokenIsListed(scheme, vhosts, host, dom, t); }
  }

  lemma OwnTokensFire(scheme: Scheme, vhosts: Vhosts, host: string, dom: DomainMatch)
    ensures ExactTokens(scheme, vhosts, host) <= Fired(scheme, vhosts, host, dom)
  {
    forall t | t in ExactTokens(scheme, vhosts, host) ensures t in Fired(scheme, vhosts, host, dom) {
      ExactToken(scheme, vhosts, host, t);
      ListedToken(scheme, vhosts, false, t);
    }
  }

  /** What the program does with any host: no assumption on the vhosts. */
  lemma EvalIs(scheme: Scheme, vhosts: Vhosts, default_: string, host: string, dom: DomainMatch)
    ensures var fired, tokens := Fired(scheme, vhosts, host, dom), WildcardTokens(scheme, vhosts, host, dom);
            && (fired == {} && tokens != {} ==> Listing(scheme, vhosts, true, Least(tokens)) != {})
            && Eval(Compile(scheme, vhosts, default_), host, dom)
                 == if fired != {} then Some(Greatest(Listing(scheme, vhosts, false, Least(fired))))
                    else if tokens != {} then Some(Greatest(Listing(scheme, vhosts, true, Least(tokens))))
                    else Compile(scheme, vhosts, default_).defaultBackend
  {
    var exact, wild := Routes(scheme, AllClaims(vhosts), false), Routes(scheme, AllClaims(vhosts), true);
    var acls := AllAcls(scheme, vhosts);
    var fired, tokens := Fired(scheme, vhosts, host, dom), WildcardTokens(scheme, vhosts, host, dom);
    forall t { HitsAre(scheme, vhosts, host, dom, t); }
    assert Hits(exact, acls, host, dom) == fired;
    assert fired == {} ==> Hits(wild, acls, host, dom) == tokens;
    LeastHitWins(exact, acls, host, dom);
    LeastHitWins(wild, acls, host, dom);
    FirstRuleAppend(Rules(exact), Rules(wild), acls, host, dom);
    if fired != {} {
      RoutedTokens(scheme, vhosts, false, Least(fired));
    } else if tokens != {} {
      RoutedTokens(scheme, vhosts, true, Least(tokens));
    }
  }

  // ---- a condition on the vhost map alone ----

  /** A token that exact and wildcard vhosts share: its exact rule also fires for the wildcard's hosts. */
  ghost predicate Shared(scheme: Scheme, vhosts: Vhosts, t: string) {
    Listing(scheme, vhosts, false, t) != {} && Listing(scheme, vhosts, true, t) != {}
  }

  ghost predicate WonBy(scheme: Scheme, vhosts: Vhosts, wild: bool, t: string, app: string) {
    var apps := Listing(scheme, vhosts, wild, t);
    apps != {} && Greatest(apps) == app
  }

  /**
   The host of an exact vhost: the least of its tokens is won by the greatest application
   that lists it, and so is every lesser token that it shares with a wildcard.
   */
  ghost predicate ExactResolved(scheme: Scheme, vhosts: Vhosts, u: string) {
    var own, apps := ExactTokens(scheme, vhosts, u), ExactApps(vhosts, u);
    && own != {} && apps != {}
    && WonBy(scheme, vhosts, false, Least(own), Greatest(apps))
    && forall t :: Shared(scheme, vhosts, t) && Less(t, Least(own)) ==> WonBy(scheme, vhosts, false, t, Greatest(apps))
  }

  /** The exact rule of `t` comes before the wildcard rule of `s`, which a lookup prefers. */
  ghost predicate Overtakes(scheme: Scheme, vhosts: Vhosts, s: string, t: string)
    ensures Overtakes(scheme, vhosts, s, t) ==> Listing(scheme, vhosts, true, s) != {}
  {
    && Listing(scheme, vhosts, true, s) != {} && Shared(scheme, vhosts, t)
    && (s == t || (Less(s, t) && Listing(scheme, vhosts, false, s) == {}))
  }

  /**
   A host that matches wildcards only, `s` being the least of their tokens: an exact rule
   fires for the least shared one among them, `t`, and must name the same application.
   */
  ghost predicate WildcardResolved(scheme: Scheme, vhosts: Vhosts, s: string, t: string) {
    Overtakes(scheme, vhosts, s, t) ==> WonBy(scheme, vhosts, false, t, Greatest(Listing(scheme, vhosts, true, s)))
  }

  ghost predicate TokensResolved(scheme: Scheme, vhosts: Vhosts) {
    && (forall u :: Claimed(vhosts, u) && !IsWildcard(u) ==> ExactResolved(scheme, vhosts, u))
    && (forall s, t :: WildcardResolved(scheme, vhosts, s, t))
  }

  ghost predicate Preserved(scheme: Scheme, vhosts: Vhosts, default_: string, host: string, dom: DomainMatch) {
    Eval(Compile(scheme, vhosts, default_), host, dom) == Lookup(scheme, vhosts, default_, host, dom)
  }

  lemma ExactAppsClaim(scheme: Scheme, vhosts: Vhosts, host: string)
    ensures ExactApps(vhosts, host) == {} <==> ExactTokens(scheme, vhosts, host) == {}
  {
    if a :| a in ExactApps(vhosts, host) {
      var v :| v in vhosts[a] && !IsWildcard(v) && Lower(v) == Lower(host);
      assert Token(scheme, v) in ExactTokens(scheme, vhosts, host);
    }
    if t :| t in ExactTokens(scheme, vhosts, host) {
      var a, v :| a in vhosts && v in vhosts[a] && !IsWildcard(v) && Lower(v) == Lower(host) && Token(scheme, v) == t;
      assert a in ExactApps(vhosts, host);
    }
  }

  /** Program and lookup agree, in terms of the tokens that matter for a host. */
  ghost predicate Agrees(scheme: Scheme, vhosts: Vhosts, exact: set<string>, fired: set<string>, tokens: set<string>) {
    if exact != {} then fired != {} && WonBy(scheme, vhosts, false, Least(fired), Greatest(exact))
    else fired != {} ==>
      tokens != {} && Listing(scheme, vhosts, true, Least(tokens)) != {}
      && WonBy(scheme, vhosts, false, Least(fired), Greatest(Listing(scheme, vhosts, true, Least(tokens))))
  }

  ghost predicate AgreesOn(scheme: Scheme, vhosts: Vhosts, host: string, dom: DomainMatch) {
    Agrees(scheme, vhosts, ExactApps(vhosts, host), Fired(scheme, vhosts, host, dom), WildcardTokens(scheme, vhosts, host, dom))
  }

  lemma PreservedIs(scheme: Scheme, vhosts: Vhosts, default_: string, host: string, dom: DomainMatch)
    ensures Preserved(scheme, vhosts, default_, host, dom) <==> AgreesOn(scheme, vhosts, host, dom)
  {
    var tokens, fired := WildcardTokens(scheme, vhosts, host, dom), Fired(scheme, vhosts, host, dom);
    OwnTokensFire(scheme, vhosts, host, dom);
    EvalIs(scheme, vhosts, default_, host, dom);
    ExactAppsClaim(scheme, vhosts, host);
    if fired != {} {
      FiredIsListed(scheme, vhosts, host, dom, Least(fired));
      if ExactApps(vhosts, host) == {} { MatchingTokenIsListed(scheme, vhosts, host, dom, Least(tokens)); }
    }
  }

  lemma FiredIsListed(scheme: Scheme, vhosts: Vhosts, host: string, dom: DomainMatch, t: string)
    requires t in Fired(scheme, vhosts, host, dom)
    ensures Listing(scheme, vhosts, false, t) != {}
    ensures t in WildcardTokens(scheme, vhosts, host, dom) ==> Shared(scheme, vhosts, t)
  {
    if t in WildcardTokens(scheme, vhosts, host, dom) { MatchingTokenIsListed(scheme, vhosts, host, dom, t); }
  }

  /** A host that some exact vhost means. */
  lemma ExactHostPreserved(scheme: Scheme, vhosts: Vhosts, u: string, own: set<string>, exact: set<string>,
      fired: set<string>, tokens: set<string>)
    requires ExactResolved(scheme, vhosts, u) && own == ExactTokens(scheme, vhosts, u) && exact == ExactApps(vhosts, u)
    requires own <= fired && forall t :: t in fired && t !in own ==> Shared(scheme, vhosts, t)
    ensures Agrees(scheme, vhosts, exact, fired, tokens)
  {
    assert Least(own) in fired;
    var m := Least(fired);
    if m in own { LeastIs(own, m); }
  }

  /** A host that no exact vhost means. */
  lemma OtherHostPreserved(scheme: Scheme, vhosts: Vhosts, fired: set<string>, tokens: set<string>)
    requires forall s, t :: WildcardResolved(scheme, vhosts, s, t)
    requires fired == set t | t in tokens && Listing(scheme, vhosts, false, t) != {}
    requires forall t :: t in tokens ==> Listing(scheme, vhosts, true, t) != {}
    ensures Agrees(scheme, vhosts, {}, fired, tokens)
  {
    if fired != {} {
      var s, t := Least(tokens), Least(fired);
      if s in fired && s != t { LessTransitive(s, t, s); LessIrreflexive(s); }
      assert WildcardResolved(scheme, vhosts, s, t);
    }
  }

  lemma ResolvedExact(scheme: Scheme, vhosts: Vhosts, host: string, dom: DomainMatch)
    requires TokensResolved(scheme, vhosts) && ExactTokens(scheme, vhosts, host) != {}
    ensures AgreesOn(scheme, vhosts, host, dom)
  {
    var own, fired := ExactTokens(scheme, vhosts, host), Fired(scheme, vhosts, host, dom);
    OwnTokensFire(scheme, vhosts, host, dom);
    var u := ClaimedFor(scheme, vhosts, host);
    forall t | t in fired && t !in own ensures Shared(scheme, vhosts, t) { FiredIsListed(scheme, vhosts, host, dom, t); }
    ExactHostPreserved(scheme, vhosts, u, own, ExactApps(vhosts, host), fired, WildcardTokens(scheme, vhosts, host, dom));
  }

  lemma FiredWildcards(scheme: Scheme, vhosts: Vhosts, host: string, dom: DomainMatch)
    requires ExactTokens(scheme, vhosts, host) == {}
    ensures var tokens := WildcardTokens(scheme, vhosts, host, dom);
            && Fired(scheme, vhosts, host, dom) == (set t | t in tokens && Listing(scheme, vhosts, false, t) != {})
            && forall t :: t in tokens ==> Listing(scheme, vhosts, true, t) != {}
  {
    forall t | t in WildcardTokens(scheme, vhosts, host, dom) ensures Listing(scheme, vhosts, true, t) != {} {
      MatchingTokenIsListed(scheme, vhosts, host, dom, t);
    }
  }

  lemma ResolvedOther(scheme: Scheme, vhosts: Vhosts, host: string, dom: DomainMatch)
    requires TokensResolved(scheme, vhosts) && ExactTokens(scheme, vhosts, host) == {}
    ensures AgreesOn(scheme, vhosts, host, dom)
  {
    FiredWildcards(scheme, vhosts, host, dom);
    ExactAppsClaim(scheme, vhosts, host);
    OtherHostPreserved(scheme, vhosts, Fired(scheme, vhosts, host, dom), WildcardTokens(scheme, vhosts, host, dom));
  }

  /** The exact vhost that means a host is resolved as that host. */
  lemma ClaimedFor(scheme: Scheme, vhosts: Vhosts, host: string) returns (u: string)
    requires ExactTokens(scheme, vhosts, host) != {}
    ensures Claimed(vhosts, u) && !IsWildcard(u)
    ensures ExactTokens(scheme, vhosts, u) == ExactTokens(scheme, vhosts, host) && ExactApps(vhosts, u) == ExactApps(vhosts, host)
  {
    var t :| t in ExactTokens(scheme, vhosts, host);
    ExactToken(scheme, vhosts, host, t);
    u :| Claimed(vhosts, u) && !IsWildcard(u) && Lower(u) == Lower(host);
  }

  // ---- the condition is needed ----

  lemma {:induction false} LowerLength(s: string)
    ensures |Lower(s)| == |s|
  {
    if s != "" { LowerLength(s[1..]); }
  }

  lemma {:induction false} LongerThanAll(cs: seq<Claim>) returns (n: nat)
    ensures forall c :: c in cs ==> |c.vhost| < n
    decreases |cs|
  {
    if cs == [] {
      n := 0;
    } else {
      var k := |cs| - 1;
      var m := LongerThanAll(cs[..k]);
      assert cs == cs[..k] + [cs[k]];
      n := if m > |cs[k].vhost| then m else |cs[k].vhost| + 1;
    }
  }

  /** Some host is meant by no exact vhost. */
  lemma UnclaimedHost(scheme: Scheme, vhosts: Vhosts) returns (host: string)
    ensures ExactTokens(scheme, vhosts, host) == {}
  {
    var n := LongerThanAll(AllClaims(vhosts));
    host := seq(n, _ => 'x');
    LowerLength(host);
    forall a, v | a in vhosts && v in vhosts[a] ensures Lower(v) != Lower(host) {
      AllClaimsMember(vhosts, Claim(a, v));
      LowerLength(v);
    }
  }

  function Only(v: string, w: string): DomainMatch
    requires IsWildcard(v) && IsWildcard(w)
  {
    (d, _) => d == v[2..] || d == w[2..]
  }

  /** If exactly these two wildcards match, theirs are the matching tokens. */
  lemma OnlyTokens(scheme: Scheme, vhosts: Vhosts, host: string, v: string, w: string)
    requires Claimed(vhosts, v) && IsWildcard(v) && Claimed(vhosts, w) && IsWildcard(w)
    ensures WildcardTokens(scheme, vhosts, host, Only(v, w)) == {Token(scheme, v), Token(scheme, w)}
  {
    forall t ensures t in WildcardTokens(scheme, vhosts, host, Only(v, w)) <==> t == Token(scheme, v) || t == Token(scheme, w) {
      WildcardToken(scheme, vhosts, host, Only(v, w), t);
      if x :| Claimed(vhosts, x) && IsWildcard(x) && Only(v, w)(x[2..], host) && Token(scheme, x) == t {
        assert x == x[..2] + x[2..] && v == v[..2] + v[2..] && w == w[..2] + w[2..];
        assert x[..2] == ['*', '.'] == v[..2] == w[..2];
      }
    }
  }

  ghost predicate AlwaysAgrees(scheme: Scheme, vhosts: Vhosts) { forall host, dom :: AgreesOn(scheme, vhosts, host, dom) }

  /** The host of an exact vhost, with no wildcard matching, or with those of one shared token. */
  lemma ExactNeeded(scheme: Scheme, vhosts: Vhosts, u: string)
    requires AlwaysAgrees(scheme, vhosts) && Claimed(vhosts, u) && !IsWildcard(u)
    ensures ExactResolved(scheme, vhosts, u)
  {
    var own := ExactTokens(scheme, vhosts, u);
    ExactToken(scheme, vhosts, u, Token(scheme, u));
    ExactAppsClaim(scheme, vhosts, u);
    AloneNeeded(scheme, vhosts, u);
    forall t | Shared(scheme, vhosts, t) && Less(t, Least(own))
      ensures WonBy(scheme, vhosts, false, t, Greatest(ExactApps(vhosts, u)))
    {
      LesserNeeded(scheme, vhosts, u, t);
    }
  }

  const NONE: DomainMatch := (_, _) => false

  lemma NoneFires(scheme: Scheme, vhosts: Vhosts, host: string)
    ensures WildcardTokens(scheme, vhosts, host, NONE) == {}
    ensures Fired(scheme, vhosts, host, NONE) == ExactTokens(scheme, vhosts, host)
  {
    OwnTokensFire(scheme, vhosts, host, NONE);
    assert WildcardTokens(scheme, vhosts, host, NONE) == {};
  }

  lemma AloneNeeded(scheme: Scheme, vhosts: Vhosts, u: string)
    requires AlwaysAgrees(scheme, vhosts) && ExactTokens(scheme, vhosts, u) != {} && ExactApps(vhosts, u) != {}
    ensures WonBy(scheme, vhosts, false, Least(ExactTokens(scheme, vhosts, u)), Greatest(ExactApps(vhosts, u)))
  {
    NoneFires(scheme, vhosts, u);
    assert AgreesOn(scheme, vhosts, u, NONE);
  }

  lemma LesserNeeded(scheme: Scheme, vhosts: Vhosts, u: string, t: string)
    requires AlwaysAgrees(scheme, vhosts) && ExactTokens(scheme, vhosts, u) != {} && ExactApps(vhosts, u) != {}
    requires Shared(scheme, vhosts, t) && Less(t, Least(ExactTokens(scheme, vhosts, u)))
    ensures WonBy(scheme, vhosts, false, t, Greatest(ExactApps(vhosts, u)))
  {
    var own := ExactTokens(scheme, vhosts, u);
    ListedToken(scheme, vhosts, true, t);
    var w :| Claimed(vhosts, w) && IsWildcard(w) && Token(scheme, w) == t;
    var dom, fired := Only(w, w), Fired(scheme, vhosts, u, Only(w, w));
    OnlyTokens(scheme, vhosts, u, w, w);
    assert AgreesOn(scheme, vhosts, u, dom);
    forall k | k in fired ensures k == t || Less(t, k) {
      if k in own && k != Least(own) { LessTransitive(t, Least(own), k); }
    }
    assert t in fired;
    LeastIs(fired, t);
  }

  lemma AgreementResolves(scheme: Scheme, vhosts: Vhosts, s: string, t: string)
    requires Overtakes(scheme, vhosts, s, t) && Agrees(scheme, vhosts, {}, {t}, {s, t})
    ensures WildcardResolved(scheme, vhosts, s, t)
  {
    LeastIs({s, t}, s);
    LeastIs({t}, t);
  }

  lemma OvertakenFires(scheme: Scheme, vhosts: Vhosts, host: string, dom: DomainMatch, s: string, t: string)
    requires ExactTokens(scheme, vhosts, host) == {} && WildcardTokens(scheme, vhosts, host, dom) == {s, t}
    requires Overtakes(scheme, vhosts, s, t)
    ensures Fired(scheme, vhosts, host, dom) == {t}
  {}

  /** A host that no exact vhost means, with the wildcards of these two tokens matching. */
  lemma WildcardNeeded(scheme: Scheme, vhosts: Vhosts, s: string, t: string)
    requires AlwaysAgrees(scheme, vhosts)
    ensures WildcardResolved(scheme, vhosts, s, t)
  {
    if Overtakes(scheme, vhosts, s, t) {
      ListedToken(scheme, vhosts, true, s);
      ListedToken(scheme, vhosts, true, t);
      var v :| Claimed(vhosts, v) && IsWildcard(v) && Token(scheme, v) == s;
      var w :| Claimed(vhosts, w) && IsWildcard(w) && Token(scheme, w) == t;
      var host := UnclaimedHost(scheme, vhosts);
      OnlyTokens(scheme, vhosts, host, v, w);
      ExactAppsClaim(scheme, vhosts, host);
      OvertakenFires(scheme, vhosts, host, Only(v, w), s, t);
      assert AgreesOn(scheme, vhosts, host, Only(v, w));
      AgreementResolves(scheme, vhosts, s, t);
    }
  }

  lemma AlwaysAgreesIff(scheme: Scheme, vhosts: Vhosts)
    ensures AlwaysAgrees(scheme, vhosts) <==> TokensResolved(scheme, vhosts)
  {
    if TokensResolved(scheme, vhosts) {
      forall host, dom ensures AgreesOn(scheme, vhosts, host, dom) {
        if ExactTokens(scheme, vhosts, host) != {} {
          ResolvedExact(scheme, vhosts, host, dom);
        } else {
          ResolvedOther(scheme, vhosts, host, dom);
        }
      }
    }
    if AlwaysAgrees(scheme, vhosts) {
      forall u | Claimed(vhosts, u) && !IsWildcard(u) ensures ExactResolved(scheme, vhosts, u) { ExactNeeded(scheme, vhosts, u); }
      forall s, t ensures WildcardResolved(scheme, vhosts, s, t) { WildcardNeeded(scheme, vhosts, s, t); }
    }
  }

  /**
   Compilation preserves meaning for every host and every domain match exactly when the
   tokens resolve, which is a condition on the vhost map alone. No assumption on vhosts.
   */
  lemma AlwaysPreservedIff(scheme: Scheme, vhosts: Vhosts, default_: string)
    ensures (forall host, dom :: Preserved(scheme, vhosts, default_, host, dom)) <==> TokensResolved(scheme, vhosts)
  {
    AlwaysAgreesIff(scheme, vhosts);
    forall host, dom ensures Preserved(scheme, vhosts, default_, host, dom) <==> AgreesOn(scheme, vhosts, host, dom) {
      PreservedIs(scheme, vhosts, default_, host, dom);
    }
  }

  // ---- the vhosts that are routed right, and two families that are not ----

  /** Vhosts that neither share a token nor differ only in case resolve. */
  lemma DistinguishableResolves(scheme: Scheme, vhosts: Vhosts)
    requires Distinguishable(scheme, vhosts)
    ensures TokensResolved(scheme, vhosts)
  {
    forall t ensures !Shared(scheme, vhosts, t) {
      ListedToken(scheme, vhosts, false, t);
      ListedToken(scheme, vhosts, true, t);
    }
    forall u | Claimed(vhosts, u) && !IsWildcard(u) ensures ExactResolved(scheme, vhosts, u) {
      OneExactToken(scheme, vhosts, u);
      LeastIs({Token(scheme, u)}, Token(scheme, u));
    }
  }

  lemma OneExactToken(scheme: Scheme, vhosts: Vhosts, u: string)
    requires Distinguishable(scheme, vhosts) && Claimed(vhosts, u) && !IsWildcard(u)
    ensures ExactTokens(scheme, vhosts, u) == {Token(scheme, u)}
    ensures ExactApps(vhosts, u) == Listing(scheme, vhosts, false, Token(scheme, u)) != {}
  {
    forall a, v | a in vhosts && v in vhosts[a] && !IsWildcard(v)
      ensures Lower(v) == Lower(u) <==> Token(scheme, v) == Token(scheme, u)
      ensures Token(scheme, v) == Token(scheme, u) ==> v == u
    {
      assert Claimed(vhosts, v);
    }
    ListedToken(scheme, vhosts, false, Token(scheme, u));
    ExactToken(scheme, vhosts, u, Token(scheme, u));
  }

  /** Compilation preserves meaning: for every host and every domain match, the program routes as the lookup does. */
  lemma GatewayPreservesMeaning(scheme: Scheme, vhosts: Vhosts, default_: string, host: string, dom: DomainMatch)
    requires Distinguishable(scheme, vhosts)
    ensures Eval(Compile(scheme, vhosts, default_), host, dom) == Lookup(scheme, vhosts, default_, host, dom)
  {
    DistinguishableResolves(scheme, vhosts);
    AlwaysPreservedIff(scheme, vhosts, default_);
    assert Preserved(scheme, vhosts, default_, host, dom);
  }

  /** In particular for vhosts over lower-case letters, digits, `-`, `.` and `*`. */
  lemma GatewayRoutesHosts(scheme: Scheme, vhosts: Vhosts, default_: string, host: string, dom: DomainMatch)
    requires forall a, v :: a in vhosts && v in vhosts[a] ==> HostPattern(v)
    ensures Eval(Compile(scheme, vhosts, default_), host, dom) == Lookup(scheme, vhosts, default_, host, dom)
  {
    HostPatternsDistinguishable(scheme, vhosts);
    GatewayPreservesMeaning(scheme, vhosts, default_, host, dom);
  }

  function Two(p: string, u: string, q: string, v: string): Vhosts { map[p := [u], q := [v]] }

  lemma TwoClaims(p: string, u: string, q: string, v: string, a: string, x: string)
    requires p != q
    ensures a in Two(p, u, q, v) && x in Two(p, u, q, v)[a] <==> (a == p && x == u) || (a == q && x == v)
  {}

  lemma OneFires(scheme: Scheme, vhosts: Vhosts, host: string, dom: DomainMatch, t: string, winner: string)
    requires Fired(scheme, vhosts, host, dom) == {t} && WonBy(scheme, vhosts, false, t, winner)
    ensures Eval(Compile(scheme, vhosts, ""), host, dom) == Some(winner)
  {
    EvalIs(scheme, vhosts, "", host, dom);
    LeastIs({t}, t);
  }

  lemma LookupExact(scheme: Scheme, vhosts: Vhosts, host: string, dom: DomainMatch, app: string)
    requires ExactApps(vhosts, host) == {app}
    ensures Lookup(scheme, vhosts, "", host, dom) == Some(app)
  {}

  lemma LookupWildcard(scheme: Scheme, vhosts: Vhosts, host: string, dom: DomainMatch, t: string, app: string)
    requires ExactApps(vhosts, host) == {} && WildcardTokens(scheme, vhosts, host, dom) == {t}
    requires Listing(scheme, vhosts, true, t) == {app}
    ensures Lookup(scheme, vhosts, "", host, dom) == Some(app)
  {
    LeastIs({t}, t);
  }

  /** What two exact vhosts with one token look like. */
  lemma SharedTables(scheme: Scheme, vhosts: Vhosts, p: string, u: string, q: string, v: string, dom: DomainMatch)
    requires vhosts == Two(p, u, q, v) && p != q && !IsWildcard(u) && !IsWildcard(v)
    requires Token(scheme, u) == Token(scheme, v) && Lower(u) != Lower(v)
    ensures ExactApps(vhosts, u) == {p} && Listing(scheme, vhosts, false, Token(scheme, u)) == {p, q}
    ensures Fired(scheme, vhosts, u, dom) == {Token(scheme, u)}
  {
    var t := Token(scheme, u);
    forall a, x { TwoClaims(p, u, q, v, a, x); }
    assert u in vhosts[p] && v in vhosts[q];
    assert Listing(scheme, vhosts, false, t) == {p, q};
    assert ExactTokens(scheme, vhosts, u) == {t} && WildcardTokens(scheme, vhosts, u, dom) == {};
  }

  /** Two different exact vhosts that share a token: the host of the first is routed to the greater application. */
  lemma {:induction false} SharedTokenMisroutes(scheme: Scheme, p: string, u: string, q: string, v: string, dom: DomainMatch)
    requires Less(p, q) && !IsWildcard(u) && !IsWildcard(v)
    requires Token(scheme, u) == Token(scheme, v) && Lower(u) != Lower(v)
    ensures Lookup(scheme, Two(p, u, q, v), "", u, dom) == Some(p)
    ensures Eval(Compile(scheme, Two(p, u, q, v), ""), u, dom) == Some(q)
  {
    var vhosts := Two(p, u, q, v);
    LessIrreflexive(p);
    GreatestIs({p, q}, q);
    SharedTables(scheme, vhosts, p, u, q, v, dom);
    LookupExact(scheme, vhosts, u, dom, p);
    OneFires(scheme, vhosts, u, dom, Token(scheme, u), q);
  }

  lemma TokenOf(scheme: Scheme, a: string, d: string)
    ensures Token(scheme, a + d)
         == SpellStars(Replace(Prefix(scheme), '.', '_')) + (SpellStars(Replace(a, '.', '_')) + SpellStars(Replace(d, '.', '_')))
  {
    var x, y, z := Replace(Prefix(scheme), '.', '_'), Replace(a, '.', '_'), Replace(d, '.', '_');
    ReplaceAppend(Prefix(scheme), a + d, '.', '_');
    ReplaceAppend(a, d, '.', '_');
    SpellStarsAppend(x, y + z);
    SpellStarsAppend(y, z);
  }

  /** A star is spelled out, and can be met spelled out. */
  lemma StarCollides(scheme: Scheme, d: string)
    ensures Token(scheme, "*." + d) == Token(scheme, "STAR." + d)
  {
    TokenOf(scheme, "*.", d);
    TokenOf(scheme, "STAR.", d);
    assert Replace("*.", '.', '_') == "*" + "_" && Replace("STAR.", '.', '_') == "STAR" + "_";
    SpellStarsAppend("*", "_");
    SpellStarsAppend("STAR", "_");
    assert SpellStars("*") == "STAR" by { assert "*"[1..] == ""; }
    NoStars("STAR");
  }

  lemma {:induction false} NoStars(s: string)
    requires '*' !in s
    ensures SpellStars(s) == s
  {
    if s != "" { NoStars(s[1..]); }
  }

  lemma SpelledStarTables(scheme: Scheme, p: string, q: string, d: string, host: string, dom: DomainMatch)
    requires p != q && d != "" && dom(d, host) && Lower(host) != Lower("STAR." + d)
    ensures var vhosts, t := Two(p, "*." + d, q, "STAR." + d), Token(scheme, "*." + d);
            && ExactApps(vhosts, host) == {} && WildcardTokens(scheme, vhosts, host, dom) == {t}
            && Listing(scheme, vhosts, false, t) == {q} && Listing(scheme, vhosts, true, t) == {p}
            && Fired(scheme, vhosts, host, dom) == {t}
  {
    var u, v := "*." + d, "STAR." + d;
    var vhosts, t := Two(p, u, q, v), Token(scheme, u);
    StarCollides(scheme, d);
    assert IsWildcard(u) && u[2..] == d && !IsWildcard(v);
    forall a, x { TwoClaims(p, u, q, v, a, x); }
    assert u in vhosts[p] && v in vhosts[q];
    assert Listing(scheme, vhosts, false, t) == {q} && Listing(scheme, vhosts, true, t) == {p};
    assert ExactTokens(scheme, vhosts, host) == {} && WildcardTokens(scheme, vhosts, host, dom) == {t};
  }

  /** An exact vhost spelled like a wildcard's token takes every host of the wildcard. */
  lemma SpelledStarMisroutes(scheme: Scheme, p: string, q: string, d: string, host: string, dom: DomainMatch)
    requires p != q && d != "" && dom(d, host) && Lower(host) != Lower("STAR." + d)
    ensures var vhosts := Two(p, "*." + d, q, "STAR." + d);
            Lookup(scheme, vhosts, "", host, dom) == Some(p) && Eval(Compile(scheme, vhosts, ""), host, dom) == Some(q)
  {
    var vhosts := Two(p, "*." + d, q, "STAR." + d);
    SpelledStarTables(scheme, p, q, d, host, dom);
    LookupWildcard(scheme, vhosts, host, dom, Token(scheme, "*." + d), p);
    OneFires(scheme, vhosts, host, dom, Token(scheme, "*." + d), q);
  }
}
