/** What every run of the haproxy manager keeps. */
module HaproxyInvariants {
  import opened Text
  import opened Marathon
  import opened Sorting
  import opened TaskList
  import opened Gateway
  import opened GatewayMeaning
  import opened HaproxyState
  import opened HaproxyBatch

  // ---- vhost lists, defaults and the cache ----

  ghost predicate TableOk(t: VhostTable) {
    && (forall key :: key in t.hosts ==> t.hosts[key] != [])
    && (t.default_ == "" || t.default_ in t.hosts)
  }

  ghost predicate CacheOk(cache: Cache) { forall a :: a in cache ==> cache[a] != map[] }

  ghost predicate Invariant(st: State) { TableOk(st.http) && TableOk(st.https) && CacheOk(st.cache) }

  lemma {:induction false} PublishKeepsTableOk(env: Env, app: App, scheme: Scheme, t: VhostTable, n: nat)
    requires n <= |app.portDefinitions| && TableOk(t)
    ensures TableOk(PublishPorts(env, app, scheme, t, n))
  {
    if n > 0 { PublishKeepsTableOk(env, app, scheme, t, n - 1); }
  }

  lemma {:induction false} CachingKeepsCacheOk(cache: Cache, tasks: seq<Task>, n: nat)
    requires n <= |tasks| && CacheOk(cache)
    ensures CacheOk(CacheTasks(cache, tasks, n))
  {
    if n > 0 {
      CachingKeepsCacheOk(cache, tasks, n - 1);
      var before := CacheTasks(cache, tasks, n - 1);
      var inner := (if tasks[n - 1].appId in before then before[tasks[n - 1].appId]
        else map[])[tasks[n - 1].id := tasks[|tasks| - 1]];
      assert tasks[n - 1].id in inner;
    }
  }

  lemma RemoveEntryKeepsCacheOk(cache: Cache, appId: string, taskId: string)
    requires CacheOk(cache)
    ensures CacheOk(RemoveEntry(cache, appId, taskId))
  {}

  lemma ConfigureKeepsInvariant(env: Env, st: State, app: App)
    requires Invariant(st)
    ensures Invariant(Configure(env, st, app))
  {
    PublishKeepsTableOk(env, app, Http, st.http, |app.portDefinitions|);
    PublishKeepsTableOk(env, app, Https, st.https, |app.portDefinitions|);
  }

  lemma UpdateKeepsInvariant(env: Env, st: State, app: App)
    requires Invariant(st)
    ensures Invariant(UpdateApp(env, st, app))
  {
    ConfigureKeepsInvariant(env, st, app);
    var tasks := TasksAfter(env, app, |app.portDefinitions|);
    CachingKeepsCacheOk(st.cache, tasks, |tasks|);
  }

  lemma {:induction false} ApplyInvariant(env: Env, apps: seq<App>, n: nat)
    requires n <= |apps|
    ensures Invariant(ApplyFirst(env, apps, n))
  {
    if n > 0 {
      ApplyInvariant(env, apps, n - 1);
      UpdateKeepsInvariant(env, ApplyFirst(env, apps, n - 1), apps[n - 1]);
    }
  }

  lemma StepKeepsInvariant(env: Env, st: State, e: Event)
    requires Invariant(st)
    ensures Invariant(Step(env, st, e))
  {
    match e
    case Apply(apps) => ApplyInvariant(env, apps, |apps|);
    case Update(app, _) => UpdateKeepsInvariant(env, st, app);
    case Remove(appId, taskId, remaining) =>
      if remaining.Some? { ConfigureKeepsInvariant(env, st, remaining.value); }
      RemoveEntryKeepsCacheOk(st.cache, appId, taskId);
  }

  /** Over every run: vhost lists are non-empty, a set default has vhosts, and no inner cache map is empty. */
  lemma {:induction false} RunKeepsInvariant(env: Env, st: State, events: seq<Event>)
    requires Invariant(st)
    ensures Invariant(Run(env, st, events))
    decreases |events|
  {
    if events != [] {
      StepKeepsInvariant(env, st, events[0]);
      RunKeepsInvariant(env, Step(env, st, events[0]), events[1..]);
    }
  }

  /** So the gateway emits a default backend exactly when one is set. */
  lemma DefaultEmittedWhenSet(env: Env, st: State, events: seq<Event>)
    requires Invariant(st)
    ensures var t := Run(env, st, events).http;
            Compile(Http, t.hosts, t.default_).defaultBackend == if t.default_ == "" then None else Some(t.default_)
    ensures var t := Run(env, st, events).https;
            Compile(Https, t.hosts, t.default_).defaultBackend == if t.default_ == "" then None else Some(t.default_)
  {
    RunKeepsInvariant(env, st, events);
  }

  // ---- the nested cache as a flat set of pairs ----

  type Pair = (string, string)

  ghost function Flat(cache: Cache): set<Pair> { set a, t | a in cache && t in cache[a] :: (a, t) }

  ghost function PairsOf(tasks: seq<Task>): set<Pair> { set t | t in tasks :: (t.appId, t.id) }

  ghost function FlatStep(pairs: set<Pair>, e: Event): set<Pair> {
    match e
    case Apply(apps) => set app, t | app in apps && t in app.tasks :: (t.appId, t.id)
    case Update(app, _) => pairs + PairsOf(app.tasks)
    case Remove(appId, taskId, _) => pairs - {(appId, taskId)}
  }

  ghost function FlatRun(pairs: set<Pair>, events: seq<Event>): set<Pair>
    decreases |events|
  {
    if events == [] then pairs else FlatRun(FlatStep(pairs, events[0]), events[1..])
  }

  lemma FlatSet(cache: Cache, a: string, t: string, task: Task)
    ensures Flat(SetEntry(cache, a, t, task)) == Flat(cache) + {(a, t)}
  {
    var after := SetEntry(cache, a, t, task);
    forall x, y ensures (x in after && y in after[x]) <==> ((x in cache && y in cache[x]) || (x, y) == (a, t)) {}
    assert a in after && t in after[a];
  }

  lemma FlatRemove(cache: Cache, a: string, t: string)
    ensures Flat(RemoveEntry(cache, a, t)) == Flat(cache) - {(a, t)}
  {
    var after := RemoveEntry(cache, a, t);
    forall x, y ensures (x in after && y in after[x]) <==> (x in cache && y in cache[x] && (x, y) != (a, t)) {
      if a in cache && |cache[a]| != 0 {
        var rest := cache[a] - {t};
        if |rest| == 0 { assert rest == map[]; }
      } else if a in cache {
        assert cache[a] == map[];
      }
    }
  }

  lemma {:induction false} FlatTasks(cache: Cache, tasks: seq<Task>, n: nat)
    requires n <= |tasks|
    ensures Flat(CacheTasks(cache, tasks, n)) == Flat(cache) + PairsOf(tasks[..n])
  {
    if n == 0 {
      assert PairsOf(tasks[..0]) == {};
    } else {
      FlatTasks(cache, tasks, n - 1);
      FlatSet(CacheTasks(cache, tasks, n - 1), tasks[n - 1].appId, tasks[n - 1].id, tasks[|tasks| - 1]);
      assert tasks[..n] == tasks[..n - 1] + [tasks[n - 1]];
      assert PairsOf(tasks[..n]) == PairsOf(tasks[..n - 1]) + {(tasks[n - 1].appId, tasks[n - 1].id)};
    }
  }

  /** sort.Sort permutes, whatever its comparator answers. */
  ghost predicate Permutes(order: (seq<Task>, nat) -> seq<Task>) {
    forall tasks, i :: multiset(order(tasks, i)) == multiset(tasks)
  }

  lemma {:induction false} TasksPermuted(env: Env, app: App, n: nat)
    requires Permutes(env.order)
    ensures multiset(TasksAfter(env, app, n)) == multiset(app.tasks)
  {
    if n > 0 { TasksPermuted(env, app, n - 1); }
  }

  lemma SamePairs(a: seq<Task>, b: seq<Task>)
    requires multiset(a) == multiset(b)
    ensures PairsOf(a) == PairsOf(b)
  {
    forall t ensures t in a <==> t in b {
      assert t in a <==> t in multiset(a);
      assert t in b <==> t in multiset(b);
    }
  }

  lemma FlatUpdate(env: Env, st: State, app: App)
    requires Permutes(env.order)
    ensures Flat(UpdateApp(env, st, app).cache) == Flat(st.cache) + PairsOf(app.tasks)
  {
    var tasks := TasksAfter(env, app, |app.portDefinitions|);
    FlatTasks(st.cache, tasks, |tasks|);
    assert tasks[..|tasks|] == tasks;
    TasksPermuted(env, app, |app.portDefinitions|);
    SamePairs(tasks, app.tasks);
  }

  lemma {:induction false} FlatApply(env: Env, apps: seq<App>, n: nat)
    requires n <= |apps| && Permutes(env.order)
    ensures Flat(ApplyFirst(env, apps, n).cache) == set app, t | app in apps[..n] && t in app.tasks :: (t.appId, t.id)
  {
    if n > 0 {
      FlatApply(env, apps, n - 1);
      FlatUpdate(env, ApplyFirst(env, apps, n - 1), apps[n - 1]);
      assert apps[..n] == apps[..n - 1] + [apps[n - 1]];
      assert forall app :: app in apps[..n] <==> app in apps[..n - 1] || app == apps[n - 1];
    }
  }

  lemma CacheStep(env: Env, st: State, e: Event)
    requires Permutes(env.order)
    ensures Flat(Step(env, st, e).cache) == FlatStep(Flat(st.cache), e)
  {
    match e
    case Apply(apps) =>
      FlatApply(env, apps, |apps|);
      assert apps[..|apps|] == apps;
    case Update(app, _) => FlatUpdate(env, st, app);
    case Remove(appId, taskId, _) => FlatRemove(st.cache, appId, taskId);
  }

  /** Over every run the nested cache holds exactly the pairs that a flat set would hold. */
  lemma {:induction false} CacheRefinesFlatSet(env: Env, st: State, events: seq<Event>)
    requires Permutes(env.order)
    ensures Flat(Run(env, st, events).cache) == FlatRun(Flat(st.cache), events)
    decreases |events|
  {
    if events != [] {
      CacheStep(env, st, events[0]);
      CacheRefinesFlatSet(env, Step(env, st, events[0]), events[1..]);
    }
  }

  lemma {:induction false} CachedIsLast(cache: Cache, tasks: seq<Task>, n: nat, k: nat)
    requires k < n <= |tasks|
    ensures GetEntry(CacheTasks(cache, tasks, n), tasks[k].appId, tasks[k].id) == Some(tasks[|tasks| - 1])
  {
    if k < n - 1 { CachedIsLast(cache, tasks, n - 1, k); }
  }

  /** After an update every task of the application is cached, and every one of these entries is the same task: the last one. */
  lemma UpdateAliasesCache(env: Env, st: State, app: App, t: Task)
    requires Permutes(env.order) && t in app.tasks
    ensures var tasks := TasksAfter(env, app, |app.portDefinitions|);
            && |tasks| == |app.tasks|
            && GetEntry(UpdateApp(env, st, app).cache, t.appId, t.id) == Some(tasks[|tasks| - 1])
  {
    var tasks := TasksAfter(env, app, |app.portDefinitions|);
    TasksPermuted(env, app, |app.portDefinitions|);
    assert |multiset(tasks)| == |tasks| && |multiset(app.tasks)| == |app.tasks|;
    assert t in multiset(app.tasks);
    assert t in tasks;
    var k :| 0 <= k < |tasks| && tasks[k] == t;
    CachedIsLast(st.cache, tasks, |tasks|, k);
  }

  // ---- server lines ----

  /** A port's section has exactly the server lines of its application's listed tasks. */
  lemma SectionConservesServers(env: Env, app: App, i: nat)
    requires Permutes(env.order) && i < |app.portDefinitions|
    ensures multiset(SectionFor(env, app, i).servers) == multiset(ServerLines(app.tasks, i, env.resolve))
  {
    TasksPermuted(env, app, i + 1);
    LinesConserved(TasksAfter(env, app, i + 1), app.tasks, i, env.resolve);
  }

  // ---- gateway referential integrity ----

  ghost predicate Defines(fragment: Fragment, name: string) { exists s :: s in fragment && s.name == name }

  ghost predicate Defined(fragments: map<string, Fragment>, name: string) {
    exists id :: id in fragments && Defines(fragments[id], name)
  }

  ghost predicate Named(p: Program, backend: string) {
    p.defaultBackend == Some(backend) || exists rule :: rule in p.rules && rule.backend == backend
  }

  /** Every backend that the rendered gateways name is defined by a stored fragment. */
  ghost predicate Integrity(st: State) {
    && (forall b :: Named(Compile(Http, st.http.hosts, st.http.default_), b) ==> Defined(st.fragments, b))
    && (forall b :: Named(Compile(Https, st.https.hosts, st.https.default_), b) ==> Defined(st.fragments, b))
  }

  /** The same, said of the keys of the vhost tables. */
  ghost predicate TablesDefined(st: State) {
    && (forall key :: key in st.http.hosts ==> Defined(st.fragments, key))
    && (forall key :: key in st.https.hosts ==> Defined(st.fragments, key))
  }

  lemma {:induction false} RulesMember(keys: seq<string>, routes: map<string, string>, n: nat, rule: Rule)
    requires n <= |keys| && (forall i :: 0 <= i < |keys| ==> keys[i] in routes) && rule in RulesFor(keys, routes, n)
    ensures rule.token in routes && rule.backend == routes[rule.token]
  {
    if rule in RulesFor(keys, routes, n - 1) { RulesMember(keys, routes, n - 1, rule); }
  }

  lemma NamedIsKey(scheme: Scheme, t: VhostTable, b: string)
    requires Named(Compile(scheme, t.hosts, t.default_), b)
    ensures b in t.hosts
  {
    var p := Compile(scheme, t.hosts, t.default_);
    if p.defaultBackend != Some(b) {
      var rule :| rule in p.rules && rule.backend == b;
      var wild := rule !in Rules(Routes(scheme, AllClaims(t.hosts), false));
      var routes := Routes(scheme, AllClaims(t.hosts), wild);
      RulesMember(Keys(routes), routes, |Keys(routes)|, rule);
      RoutedTokens(scheme, t.hosts, wild, rule.token);
    }
  }

  lemma TablesDefinedIsIntegrity(st: State)
    requires TablesDefined(st)
    ensures Integrity(st)
  {
    forall b | Named(Compile(Http, st.http.hosts, st.http.default_), b) ensures Defined(st.fragments, b) {
      NamedIsKey(Http, st.http, b);
    }
    forall b | Named(Compile(Https, st.https.hosts, st.https.default_), b) ensures Defined(st.fragments, b) {
      NamedIsKey(Https, st.https, b);
    }
  }

  lemma {:induction false} SectionsDefine(env: Env, app: App, n: nat, name: string)
    requires n <= |app.portDefinitions|
    ensures Defines(Sections(env, app, n), name) <==> OwnKey(env, app, n, name)
  {
    if n > 0 {
      SectionsDefine(env, app, n - 1, name);
      var before, after := Sections(env, app, n - 1), Sections(env, app, n);
      if Exposed(env, app, n - 1) {
        var s := SectionFor(env, app, n - 1);
        assert after == before + [s];
        assert forall x :: x in after <==> x in before || x == s;
      } else {
        assert after == before;
      }
    }
  }

  lemma KeyComesFromSomewhere(env: Env, app: App, scheme: Scheme, t: VhostTable, key: string)
    requires key in PublishApp(env, app, scheme, t).hosts
    ensures key in t.hosts || Defines(FragmentOf(env, app), key)
  {
    SectionsDefine(env, app, |app.portDefinitions|, key);
    if !OwnKey(env, app, |app.portDefinitions|, key) { OtherKeysKept(env, app, scheme, t, |app.portDefinitions|, key); }
  }

  /** An application that has no fragment yet, or still defines what its stored fragment defines. */
  ghost predicate StillDefines(env: Env, st: State, app: App) {
    app.id in st.fragments ==> forall name :: Defines(st.fragments[app.id], name) ==> Defines(FragmentOf(env, app), name)
  }

  lemma UpdateKeepsTablesDefined(env: Env, st: State, app: App)
    requires TablesDefined(st) && StillDefines(env, st, app)
    ensures TablesDefined(UpdateApp(env, st, app))
  {
    var st' := UpdateApp(env, st, app);
    forall name | Defined(st.fragments, name) ensures Defined(st'.fragments, name) {
      var id :| id in st.fragments && Defines(st.fragments[id], name);
      assert Defines(st'.fragments[id], name);
    }
    assert forall name :: Defines(FragmentOf(env, app), name) ==> Defines(st'.fragments[app.id], name);
    forall key | key in st'.http.hosts ensures Defined(st'.fragments, key) {
      KeyComesFromSomewhere(env, app, Http, st.http, key);
    }
    forall key | key in st'.https.hosts ensures Defined(st'.fragments, key) {
      KeyComesFromSomewhere(env, app, Https, st.https, key);
    }
  }

  /** An Update that defines all the names it defined before keeps integrity. */
  lemma UpdateKeepsIntegrity(env: Env, st: State, app: App)
    requires TablesDefined(st) && StillDefines(env, st, app)
    ensures TablesDefined(UpdateApp(env, st, app)) && Integrity(UpdateApp(env, st, app))
  {
    UpdateKeepsTablesDefined(env, st, app);
    TablesDefinedIsIntegrity(UpdateApp(env, st, app));
  }

  lemma {:induction false} ApplyDefinesTables(env: Env, apps: seq<App>, n: nat)
    requires n <= |apps| && DistinctIds(apps)
    ensures TablesDefined(ApplyFirst(env, apps, n))
    ensures forall id :: id in ApplyFirst(env, apps, n).fragments ==> exists i :: 0 <= i < n && apps[i].id == id
  {
    if n > 0 {
      ApplyDefinesTables(env, apps, n - 1);
      UpdateKeepsTablesDefined(env, ApplyFirst(env, apps, n - 1), apps[n - 1]);
    }
  }

  /** Apply of distinct ids establishes integrity, even where prettified ids collide. */
  lemma ApplyEstablishesIntegrity(env: Env, apps: seq<App>)
    requires DistinctIds(apps)
    ensures TablesDefined(ApplyApps(env, apps)) && Integrity(ApplyApps(env, apps))
  {
    ApplyDefinesTables(env, apps, |apps|);
    TablesDefinedIsIntegrity(ApplyApps(env, apps));
  }

  lemma {:induction false} RuleOfToken(keys: seq<string>, routes: map<string, string>, n: nat, i: nat)
    requires i < n <= |keys| && forall i :: 0 <= i < |keys| ==> keys[i] in routes
    ensures UseBackend(routes[keys[i]], keys[i]) in RulesFor(keys, routes, n)
  {
    if i < n - 1 { RuleOfToken(keys, routes, n - 1, i); }
  }

  lemma RuleNamesWinner(scheme: Scheme, t: VhostTable, rule: Rule)
    requires rule in Compile(scheme, t.hosts, t.default_).rules
    ensures exists wild :: WonBy(scheme, t.hosts, wild, rule.token, rule.backend)
  {
    var wild := rule !in Rules(Routes(scheme, AllClaims(t.hosts), false));
    var routes := Routes(scheme, AllClaims(t.hosts), wild);
    RulesMember(Keys(routes), routes, |Keys(routes)|, rule);
    RoutedTokens(scheme, t.hosts, wild, rule.token);
    assert WonBy(scheme, t.hosts, wild, rule.token, rule.backend);
  }

  lemma WinnerHasRule(scheme: Scheme, t: VhostTable, wild: bool, token: string, b: string)
    requires WonBy(scheme, t.hosts, wild, token, b)
    ensures UseBackend(b, token) in Compile(scheme, t.hosts, t.default_).rules
  {
    var routes := Routes(scheme, AllClaims(t.hosts), wild);
    RoutedTokens(scheme, t.hosts, wild, token);
    assert token in Elements(Keys(routes));
    var i :| 0 <= i < |Keys(routes)| && Keys(routes)[i] == token;
    RuleOfToken(Keys(routes), routes, |Keys(routes)|, i);
    assert UseBackend(b, token) in Rules(routes);
  }

  /** What a gateway names, without looking at the program: the default, and whoever wins a token. */
  lemma NamedIff(scheme: Scheme, t: VhostTable, b: string)
    ensures Named(Compile(scheme, t.hosts, t.default_), b)
       <==> (b == t.default_ != "" && b in t.hosts && t.hosts[b] != [])
            || exists wild, token :: WonBy(scheme, t.hosts, wild, token, b)
  {
    var p := Compile(scheme, t.hosts, t.default_);
    if rule :| rule in p.rules && rule.backend == b { RuleNamesWinner(scheme, t, rule); }
    if wild, token :| WonBy(scheme, t.hosts, wild, token, b) { WinnerHasRule(scheme, t, wild, token, b); }
  }

  // ---- what a change does to integrity ----

  ghost predicate NamedBy(st: State, b: string) {
    exists scheme :: Named(Compile(scheme, TableIn(st, scheme).hosts, TableIn(st, scheme).default_), b)
  }

  lemma NamedByKey(st: State, b: string) returns (scheme: Scheme)
    requires NamedBy(st, b)
    ensures b in TableIn(st, scheme).hosts
  {
    scheme :| Named(Compile(scheme, TableIn(st, scheme).hosts, TableIn(st, scheme).default_), b);
    NamedIsKey(scheme, TableIn(st, scheme), b);
  }

  lemma DefinedByLive(env: Env, live: Snapshots, name: string)
    ensures Defined(FragmentsOf(env, live), name) <==> Owned(env, live, name)
  {
    forall id | id in live ensures Defines(FragmentOf(env, live[id]), name) <==> Owns(env, live[id], name) {
      SectionsDefine(env, live[id], |live[id].portDefinitions|, name);
    }
    if id :| id in live && Owns(env, live[id], name) {
      assert Defines(FragmentsOf(env, live)[id], name);
    }
  }

  /** Integrity, when the fragments are those of live snapshots: every named backend is a port of one of them. */
  lemma IntegrityIsOwned(env: Env, live: Snapshots, st: State)
    requires st.fragments == FragmentsOf(env, live)
    ensures Integrity(st) <==> forall b :: NamedBy(st, b) ==> Owned(env, live, b)
  {
    forall b ensures Defined(st.fragments, b) <==> Owned(env, live, b) { DefinedByLive(env, live, b); }
    assert TableIn(st, Http) == st.http && TableIn(st, Https) == st.https;
    forall b
      ensures NamedBy(st, b) ==>
                Named(Compile(Http, st.http.hosts, st.http.default_), b)
                || Named(Compile(Https, st.https.hosts, st.https.default_), b)
    {
      if scheme :| Named(Compile(scheme, TableIn(st, scheme).hosts, TableIn(st, scheme).default_), b) {
        assert scheme == Http || scheme == Https;
      }
    }
  }

  ghost predicate NowOwns(env: Env, now: Option<App>, b: string) { now.Some? && Owns(env, now.value, b) }

  /** The change takes this name away: the old or the new snapshot has the port, and no fragment does afterwards. */
  ghost predicate Lost(env: Env, live: Snapshots, id: string, now: Option<App>, kept: bool, b: string) {
    ((id in live && Owns(env, live[id], b)) || NowOwns(env, now, b)) && !(kept && NowOwns(env, now, b))
  }

  /** Nobody had this name before, and the new snapshot has not either. */
  ghost predicate Orphan(env: Env, live: Snapshots, now: Option<App>, b: string) {
    !Owned(env, live, b) && !NowOwns(env, now, b)
  }

  lemma OwnedAfterIff(env: Env, live: Snapshots, id: string, now: Option<App>, kept: bool, b: string)
    requires NoCollision(env, live) && (!kept ==> ChangeFits(env, live, id, now))
    ensures Owned(env, ChangeLive(live, id, now, kept), b) <==> !Lost(env, live, id, now, kept, b) && !Orphan(env, live, now, b)
  {
    var after := ChangeLive(live, id, now, kept);
    if other :| other in after && Owns(env, after[other], b) {
      if other != id && Lost(env, live, id, now, kept, b) {
        if NowOwns(env, now, b) { OthersDoNotOwn(env, live, id, now.value, other, b); }
      }
    }
    if !Lost(env, live, id, now, kept, b) && !Orphan(env, live, now, b) {
      if NowOwns(env, now, b) {
        assert id in after && Owns(env, after[id], b);
      } else {
        var other :| other in live && Owns(env, live[other], b);
        assert other in after && Owns(env, after[other], b);
      }
    }
  }

  /** Integrity after a change of one application, said in terms of the snapshots before it. */
  lemma ChangeIntegrityIff(env: Env, live: Snapshots, after: State, id: string, now: Option<App>, kept: bool)
    requires after.fragments == FragmentsOf(env, ChangeLive(live, id, now, kept))
    requires NoCollision(env, live) && (!kept ==> ChangeFits(env, live, id, now))
    ensures Integrity(after) <==>
              forall b :: NamedBy(after, b) ==> !Lost(env, live, id, now, kept, b) && !Orphan(env, live, now, b)
  {
    IntegrityIsOwned(env, ChangeLive(live, id, now, kept), after);
    forall b { OwnedAfterIff(env, live, id, now, kept, b); }
  }

  /** From tables that are defined no change makes an orphan. */
  lemma NoOrphanNamed(env: Env, live: Snapshots, st: State, after: State, now: Option<App>, b: string)
    requires st.fragments == FragmentsOf(env, live) && TablesDefined(st)
    requires forall scheme :: TableIn(after, scheme) == ChangeTable(env, TableIn(st, scheme), now, scheme)
    requires NamedBy(after, b)
    ensures !Orphan(env, live, now, b)
  {
    var scheme := NamedByKey(after, b);
    DefinedByLive(env, live, b);
    if now.Some? {
      KeyComesFromSomewhere(env, now.value, scheme, TableIn(st, scheme), b);
      SectionsDefine(env, now.value, |now.value.portDefinitions|, b);
    }
  }

  lemma UpdatedTables(env: Env, st: State, app: App)
    ensures forall scheme :: TableIn(UpdateApp(env, st, app), scheme) == ChangeTable(env, TableIn(st, scheme), Some(app), scheme)
  {}

  /**
   Update, whatever it does to the layout: integrity holds afterwards exactly when the
   gateways name no port that the update takes away, and nothing that was undefined before.
   */
  lemma UpdateIntegrityIff(env: Env, live: Snapshots, st: State, app: App)
    requires st.fragments == FragmentsOf(env, live) && NoCollision(env, live)
    ensures var after := UpdateApp(env, st, app);
            Integrity(after) <==>
              forall b :: NamedBy(after, b) ==> !Lost(env, live, app.id, Some(app), true, b) && !Orphan(env, live, Some(app), b)
  {
    FragmentsChange(env, live, app.id, app);
    ChangeIntegrityIff(env, live, UpdateApp(env, st, app), app.id, Some(app), true);
  }

  /** From tables that are defined: exactly when the gateways name no port that the application had and has no more. */
  lemma UpdateFromDefinedIff(env: Env, live: Snapshots, st: State, app: App)
    requires st.fragments == FragmentsOf(env, live) && NoCollision(env, live) && TablesDefined(st)
    ensures var after := UpdateApp(env, st, app);
            Integrity(after) <==>
              forall b :: NamedBy(after, b) ==> !(app.id in live && Owns(env, live[app.id], b) && !Owns(env, app, b))
  {
    var after := UpdateApp(env, st, app);
    UpdateIntegrityIff(env, live, st, app);
    UpdatedTables(env, st, app);
    forall b | NamedBy(after, b) ensures !Orphan(env, live, Some(app), b) { NoOrphanNamed(env, live, st, after, Some(app), b); }
  }

  /**
   All of Remove: destroyed, suspended, or with tasks left. Integrity holds afterwards
   exactly when the gateways name no port that it takes away (every port of a destroyed or
   suspended application, the dropped ports of one with tasks left), and nothing that was
   undefined before.
   */
  lemma RemoveKeepsIntegrityIff(env: Env, live: Snapshots, st: State, gone: string, taskId: string, remaining: Option<App>)
    requires st.fragments == FragmentsOf(env, live) && NoCollision(env, live) && ChangeFits(env, live, gone, remaining)
    ensures var after := RemoveApp(env, st, gone, taskId, remaining);
            Integrity(after) <==>
              forall b :: NamedBy(after, b) ==>
                !Lost(env, live, gone, remaining, Keeps(remaining), b) && !Orphan(env, live, remaining, b)
  {
    RemovedFragments(env, live, st, gone, taskId, remaining);
    ChangeIntegrityIff(env, live, RemoveApp(env, st, gone, taskId, remaining), gone, remaining, Keeps(remaining));
  }

  /** From tables that are defined only lost ports matter. */
  lemma RemoveFromDefinedIff(env: Env, live: Snapshots, st: State, gone: string, taskId: string, remaining: Option<App>)
    requires st.fragments == FragmentsOf(env, live) && NoCollision(env, live) && ChangeFits(env, live, gone, remaining)
    requires TablesDefined(st)
    ensures var after := RemoveApp(env, st, gone, taskId, remaining);
            Integrity(after) <==> forall b :: NamedBy(after, b) ==> !Lost(env, live, gone, remaining, Keeps(remaining), b)
  {
    var after := RemoveApp(env, st, gone, taskId, remaining);
    RemoveKeepsIntegrityIff(env, live, st, gone, taskId, remaining);
    forall scheme ensures TableIn(after, scheme) == ChangeTable(env, TableIn(st, scheme), remaining, scheme) {
      RemovedTable(env, st, gone, taskId, remaining, scheme);
    }
    forall b | NamedBy(after, b) ensures !Orphan(env, live, remaining, b) { NoOrphanNamed(env, live, st, after, remaining, b); }
  }

  // ---- instances ----

  lemma SomethingIsNamed(scheme: Scheme, t: VhostTable, key: string)
    requires key in t.hosts && t.hosts[key] != []
    ensures exists b :: Named(Compile(scheme, t.hosts, t.default_), b)
  {
    var v := t.hosts[key][0];
    var apps := Listing(scheme, t.hosts, IsWildcard(v), Token(scheme, v));
    assert v in t.hosts[key] && key in apps;
    NamedIff(scheme, t, Greatest(apps));
    assert WonBy(scheme, t.hosts, IsWildcard(v), Token(scheme, v), Greatest(apps));
  }

  /** In a table of its own, something is named exactly when some port has vhosts. */
  lemma AloneIsNamedIff(env: Env, app: App, scheme: Scheme)
    ensures var t := PublishApp(env, app, scheme, VhostTable(map[], ""));
            HasVhosts(env, app, scheme) <==> exists b :: Named(Compile(scheme, t.hosts, t.default_), b)
  {
    var n, t := |app.portDefinitions|, PublishApp(env, app, scheme, VhostTable(map[], ""));
    if i :| Exposed(env, app, i) && HostList(app, scheme, i) != [] {
      OwnKeyPublished(env, app, scheme, VhostTable(map[], ""), n, i);
      SomethingIsNamed(scheme, t, Key(app, i));
    }
    if b :| Named(Compile(scheme, t.hosts, t.default_), b) {
      NamedIsKey(scheme, t, b);
      if !Owns(env, app, b) { OtherKeysKept(env, app, scheme, VhostTable(map[], ""), n, b); }
      var i :| 0 <= i < n && Exposed(env, app, i) && Key(app, i) == b;
      OwnKeyPublished(env, app, scheme, VhostTable(map[], ""), n, i);
    }
  }

  /** A suspended application that nobody knew before: its vhosts are published, and its backends are not defined. */
  lemma SuspendedAloneIff(env: Env, app: App, taskId: string)
    requires app.tasks == []
    ensures Integrity(RemoveApp(env, EMPTY, app.id, taskId, Some(app)))
       <==> !HasVhosts(env, app, Http) && !HasVhosts(env, app, Https)
  {
    var after := RemoveApp(env, EMPTY, app.id, taskId, Some(app));
    assert EMPTY.fragments == FragmentsOf(env, map[]);
    RemovedFragments(env, map[], EMPTY, app.id, taskId, Some(app));
    IntegrityIsOwned(env, map[], after);
    AloneIsNamedIff(env, app, Http);
    AloneIsNamedIff(env, app, Https);
    assert TableIn(after, Http) == PublishApp(env, app, Http, VhostTable(map[], ""));
    assert TableIn(after, Https) == PublishApp(env, app, Https, VhostTable(map[], ""));
    if scheme, b :| Named(Compile(scheme, TableIn(after, scheme).hosts, TableIn(after, scheme).default_), b) {
      assert NamedBy(after, b) && !Owned(env, map[], b);
      assert scheme == Http || scheme == Https;
    }
  }

  function Vhosted(vhost: string): Labels { map["lb-vhost" := vhost] }

  lemma OneVhost(p: nat, vhost: string)
    requires vhost != "" && ',' !in vhost
    ensures HostList(OnePort(p, Vhosted(vhost)), Http, 0) == [vhost]
  {
    SplitNone(vhost, ',');
  }

  lemma MovedTable(env: Env, p: nat, u: string, q: nat, v: string)
    requires "*" in env.groups && p != q && u != "" && ',' !in u && v != "" && ',' !in v
    ensures var first, second := OnePort(p, Vhosted(u)), OnePort(q, Vhosted(v));
            UpdateApp(env, ApplyApps(env, [first]), second).http.hosts == map[Key(first, 0) := [u], Key(second, 0) := [v]]
  {
    var first, second := OnePort(p, Vhosted(u)), OnePort(q, Vhosted(v));
    OneIsSeparate(env, first);
    OneVhost(p, u);
    OneVhost(q, v);
    assert Exposed(env, first, 0) && Exposed(env, second, 0);
    assert PublishPorts(env, first, Http, EMPTY.http, 0) == EMPTY.http;
    var t := ApplyApps(env, [first]).http;
    assert PublishPorts(env, second, Http, t, 0) == t;
  }

  lemma {:induction false} MovedIsNamed(env: Env, after: State, p: nat, q: nat)
    requires "*" in env.groups && p != q
    requires after == UpdateApp(env, ApplyApps(env, [OnePort(p, Vhosted("h"))]), OnePort(q, Vhosted("g")))
    ensures NamedBy(after, Key(OnePort(p, Vhosted("h")), 0))
  {
    var key, other := Key(OnePort(p, Vhosted("h")), 0), Key(OnePort(q, Vhosted("g")), 0);
    MovedTable(env, p, "h", q, "g");
    MovedKey(p, Vhosted("h"), q, Vhosted("g"));
    OldNameIsNamed(after.http.hosts, key, other);
    NamedIff(Http, after.http, key);
    assert TableIn(after, Http) == after.http;
  }

  /** For instance: an application moves its port and changes its vhost, and the old port is named but not defined. */
  lemma {:induction false} MovedPortBreaksIntegrity(env: Env, p: nat, q: nat)
    requires "*" in env.groups && p != q
    ensures var before := ApplyApps(env, [OnePort(p, Vhosted("h"))]);
            Integrity(before) && !Integrity(UpdateApp(env, before, OnePort(q, Vhosted("g"))))
  {
    var first, second := OnePort(p, Vhosted("h")), OnePort(q, Vhosted("g"));
    var before, key := ApplyApps(env, [first]), Key(first, 0);
    OneIsSeparate(env, first);
    ApplyFragments(env, [first], 1);
    ApplyEstablishesIntegrity(env, [first]);
    MovedIsNamed(env, UpdateApp(env, before, second), p, q);
    MovedKey(p, Vhosted("h"), q, Vhosted("g"));
    OnePortOwns(env, p, Vhosted("h"), key);
    OnePortOwns(env, q, Vhosted("g"), key);
    UpdateFromDefinedIff(env, map["/a" := first], before, second);
  }

  lemma OldNameIsNamed(hosts: Vhosts, key: string, other: string)
    requires hosts == map[key := ["h"], other := ["g"]] && key != other
    ensures WonBy(Http, hosts, false, Token(Http, "h"), key)
  {
    if Token(Http, "g") == Token(Http, "h") { TokenInjective(Http, "g", "h"); }
    assert "h" in hosts[key];
    assert Listing(Http, hosts, false, Token(Http, "h")) == {key};
  }

  // ---- integrity over runs ----

  /** The gateways name no port of a snapshot of the log that no live application has any more. */
  ghost predicate NothingLostNamed(env: Env, live: Snapshots, log: seq<App>, st: State) {
    forall k, b :: 0 <= k < |log| && Owns(env, log[k], b) && NamedBy(st, b) ==> Owned(env, live, b)
  }

  lemma {:induction false} IntegrityByLog(env: Env, live: Snapshots, log: seq<App>, st: State)
    requires st.fragments == FragmentsOf(env, live) && Replays(env, log, st)
    ensures Integrity(st) <==> NothingLostNamed(env, live, log, st)
  {
    IntegrityIsOwned(env, live, st);
    if NothingLostNamed(env, live, log, st) {
      forall b | NamedBy(st, b) ensures Owned(env, live, b) {
        var scheme := NamedByKey(st, b);
        assert TableIn(st, scheme) == TableIn(ApplyApps(env, log), scheme);
        ReplayedKey(env, log, |log|, scheme, b);
      }
    }
  }

  /**
   Over every run, with no assumption at all: every named backend is defined exactly when
   the gateways name no port of a snapshot since the last Apply that no live application
   has any more, be it destroyed, suspended or moved.
   */
  lemma {:induction false} RunIntegrityIff(env: Env, live: Snapshots, log: seq<App>, st: State, events: seq<Event>)
    requires st.fragments == FragmentsOf(env, live) && Replays(env, log, st)
    ensures Integrity(Run(env, st, events))
       <==> NothingLostNamed(env, AdvanceAll(live, events), LogAll(log, events), Run(env, st, events))
  {
    RunFragments(env, live, st, events);
    RunReplays(env, log, st, events);
    IntegrityByLog(env, AdvanceAll(live, events), LogAll(log, events), Run(env, st, events));
  }
}
