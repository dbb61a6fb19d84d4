/**
 Incremental equals batch: along every run the manager's fragments are those of the live
 application snapshots, and so are the vhost tables on the keys that live ports have.
 What else a table holds is stale, and it equals a batch's exactly when nothing is.
 */
module HaproxyBatch {
  import opened Text
  import opened Marathon
  import opened Helper
  import opened Gateway
  import opened HaproxyState

  /** The applications that have a fragment. */
  type Snapshots = map<string, App>

  // ---- one application's ports in a vhost table ----

  lemma KeyNamesPort(a: App, i: nat, b: App, j: nat)
    requires i < |a.portDefinitions| && j < |b.portDefinitions| && Key(a, i) == Key(b, j)
    ensures i == j
  {
    PrettifyCollides(a.id, i, a.portDefinitions[i].port, b.id, j, b.portDefinitions[j].port);
  }

  ghost predicate OwnKey(env: Env, app: App, n: nat, key: string) {
    exists i :: 0 <= i < n && Exposed(env, app, i) && Key(app, i) == key
  }

  /** One of the application's exposed ports has this key. */
  ghost predicate Owns(env: Env, app: App, key: string) { OwnKey(env, app, |app.portDefinitions|, key) }

  lemma {:induction false} OtherKeysKept(env: Env, app: App, scheme: Scheme, t: VhostTable, n: nat, key: string)
    requires n <= |app.portDefinitions| && !OwnKey(env, app, n, key)
    ensures var r := PublishPorts(env, app, scheme, t, n);
            (key in r.hosts <==> key in t.hosts) && (key in t.hosts ==> r.hosts[key] == t.hosts[key])
  {
    if n > 0 {
      assert !OwnKey(env, app, n - 1, key);
      OtherKeysKept(env, app, scheme, t, n - 1, key);
    }
  }

  lemma {:induction false} OwnKeyPublished(env: Env, app: App, scheme: Scheme, t: VhostTable, n: nat, i: nat)
    requires i < n <= |app.portDefinitions| && Exposed(env, app, i)
    ensures var r := PublishPorts(env, app, scheme, t, n);
            && (Key(app, i) in r.hosts <==> HostList(app, scheme, i) != [])
            && (Key(app, i) in r.hosts ==> r.hosts[Key(app, i)] == HostList(app, scheme, i))
  {
    if i < n - 1 {
      OwnKeyPublished(env, app, scheme, t, n - 1, i);
      if Exposed(env, app, n - 1) && Key(app, n - 1) == Key(app, i) { KeyNamesPort(app, n - 1, app, i); }
    }
  }

  // ---- vhost tables of many applications ----

  function TableIn(st: State, scheme: Scheme): VhostTable {
    match scheme case Http => st.http case Https => st.https
  }

  /** Keys of different applications do not collide. */
  ghost predicate NoCollision(env: Env, v: Snapshots) {
    forall a, b, key :: a in v && b in v && Owns(env, v[a], key) && Owns(env, v[b], key) ==> a == b
  }

  ghost predicate Keyed(v: Snapshots) { forall id :: id in v ==> v[id].id == id }

  /** Rooted ids without dots never collide. */
  lemma PlainIdsDoNotCollide(env: Env, v: Snapshots)
    requires Keyed(v) && forall id :: id in v ==> PlainId(id)
    ensures NoCollision(env, v)
  {
    forall a, b, key | a in v && b in v && Owns(env, v[a], key) && Owns(env, v[b], key) ensures a == b {
      var i :| 0 <= i < |v[a].portDefinitions| && Exposed(env, v[a], i) && Key(v[a], i) == key;
      var j :| 0 <= j < |v[b].portDefinitions| && Exposed(env, v[b], j) && Key(v[b], j) == key;
      PrettifyInjective(a, i, v[a].portDefinitions[i].port, b, j, v[b].portDefinitions[j].port);
    }
  }

  /** The table holds the vhosts of port `i`, if it has any. */
  ghost predicate Shows(app: App, scheme: Scheme, hosts: Vhosts, i: nat)
    requires i < |app.portDefinitions|
  {
    var key, list := Key(app, i), HostList(app, scheme, i);
    (key in hosts <==> list != []) && (key in hosts ==> hosts[key] == list)
  }

  /** On the keys of live ports the table is up to date. */
  ghost predicate Current(env: Env, v: Snapshots, scheme: Scheme, hosts: Vhosts) {
    forall id, i :: id in v && Exposed(env, v[id], i) ==> Shows(v[id], scheme, hosts, i)
  }

  ghost predicate Owned(env: Env, v: Snapshots, key: string) { exists id :: id in v && Owns(env, v[id], key) }

  /** The table has no other keys. */
  ghost predicate NoStale(env: Env, v: Snapshots, hosts: Vhosts) {
    forall key :: key in hosts ==> Owned(env, v, key)
  }

  ghost predicate HasVhosts(env: Env, app: App, scheme: Scheme) {
    exists i :: Exposed(env, app, i) && HostList(app, scheme, i) != []
  }

  lemma OwnerPort(env: Env, v: Snapshots, key: string) returns (id: string, i: nat)
    requires Owned(env, v, key)
    ensures id in v && Exposed(env, v[id], i) && Key(v[id], i) == key
  {
    var owner :| owner in v && Owns(env, v[owner], key);
    var port: nat :| port < |v[owner].portDefinitions| && Exposed(env, v[owner], port) && Key(v[owner], port) == key;
    id, i := owner, port;
  }

  /** Two up-to-date tables of the same snapshots, one without stale keys: equal exactly when the other has none. */
  lemma TablesEqualIff(env: Env, v: Snapshots, scheme: Scheme, a: Vhosts, b: Vhosts)
    requires Current(env, v, scheme, a) && Current(env, v, scheme, b) && NoStale(env, v, b)
    ensures a == b <==> NoStale(env, v, a)
  {
    if NoStale(env, v, a) {
      forall key | key in a || key in b ensures key in a && key in b && a[key] == b[key] {
        var id, i := OwnerPort(env, v, key);
        assert Shows(v[id], scheme, a, i) && Shows(v[id], scheme, b, i);
      }
    }
  }

  // ---- one application changes ----

  /** A change configures the snapshot `now`, if there is one; the application is live afterwards if it is `kept`. */
  function ChangeLive(v: Snapshots, id: string, now: Option<App>, kept: bool): Snapshots {
    if now.Some? && kept then v[id := now.value] else v - {id}
  }

  function ChangeTable(env: Env, t: VhostTable, now: Option<App>, scheme: Scheme): VhostTable {
    if now.Some? then PublishApp(env, now.value, scheme, t) else t
  }

  ghost predicate ChangeFits(env: Env, v: Snapshots, id: string, now: Option<App>) {
    now.Some? ==> NoCollision(env, v[id := now.value])
  }

  lemma OthersDoNotOwn(env: Env, v: Snapshots, id: string, now: App, other: string, key: string)
    requires NoCollision(env, v[id := now]) && other in v && other != id && Owns(env, v[other], key)
    ensures !Owns(env, now, key)
  {
    var w := v[id := now];
    assert w[other] == v[other] && w[id] == now;
  }

  /** Live ports stay up to date. */
  lemma ChangeKeepsCurrent(env: Env, v: Snapshots, id: string, now: Option<App>, kept: bool, scheme: Scheme, t: VhostTable)
    requires Current(env, v, scheme, t.hosts) && ChangeFits(env, v, id, now)
    ensures Current(env, ChangeLive(v, id, now, kept), scheme, ChangeTable(env, t, now, scheme).hosts)
  {
    var w, hosts := ChangeLive(v, id, now, kept), ChangeTable(env, t, now, scheme).hosts;
    forall other, i | other in w && Exposed(env, w[other], i) ensures Shows(w[other], scheme, hosts, i) {
      if other == id {
        OwnKeyPublished(env, now.value, scheme, t, |now.value.portDefinitions|, i);
      } else {
        assert Shows(v[other], scheme, t.hosts, i);
        if now.Some? {
          assert Owns(env, v[other], Key(v[other], i));
          OthersDoNotOwn(env, v, id, now.value, other, Key(v[other], i));
          OtherKeysKept(env, now.value, scheme, t, |now.value.portDefinitions|, Key(v[other], i));
        }
      }
    }
  }

  /** The ports that had vhosts are still there, and what is not kept has no vhosts. */
  ghost predicate LeavesNothing(env: Env, v: Snapshots, id: string, now: Option<App>, kept: bool, scheme: Scheme) {
    && (forall i :: id in v && Exposed(env, v[id], i) && HostList(v[id], scheme, i) != [] ==>
          now.Some? && Owns(env, now.value, Key(v[id], i)))
    && (now.Some? && !kept ==> !HasVhosts(env, now.value, scheme))
  }

  /** A port that had vhosts and is gone leaves them behind. */
  lemma GonePortIsStale(env: Env, v: Snapshots, id: string, now: Option<App>, kept: bool, scheme: Scheme, t: VhostTable, i: nat)
    requires Current(env, v, scheme, t.hosts) && NoCollision(env, v) && id in v
    requires Exposed(env, v[id], i) && HostList(v[id], scheme, i) != [] && !(now.Some? && Owns(env, now.value, Key(v[id], i)))
    ensures !NoStale(env, ChangeLive(v, id, now, kept), ChangeTable(env, t, now, scheme).hosts)
  {
    var key := Key(v[id], i);
    assert Shows(v[id], scheme, t.hosts, i) && Owns(env, v[id], key);
    if now.Some? { OtherKeysKept(env, now.value, scheme, t, |now.value.portDefinitions|, key); }
    forall other | other in ChangeLive(v, id, now, kept) ensures !Owns(env, ChangeLive(v, id, now, kept)[other], key) {}
    assert !Owned(env, ChangeLive(v, id, now, kept), key);
  }

  /** Vhosts of an application that is not kept are stale at once. */
  lemma UnkeptIsStale(env: Env, v: Snapshots, id: string, now: App, scheme: Scheme, t: VhostTable)
    requires NoCollision(env, v[id := now]) && HasVhosts(env, now, scheme)
    ensures !NoStale(env, v - {id}, PublishApp(env, now, scheme, t).hosts)
  {
    var i :| Exposed(env, now, i) && HostList(now, scheme, i) != [];
    OwnKeyPublished(env, now, scheme, t, |now.portDefinitions|, i);
    assert Owns(env, now, Key(now, i));
    forall other | other in v - {id} ensures !Owns(env, v[other], Key(now, i)) {
      if Owns(env, v[other], Key(now, i)) { OthersDoNotOwn(env, v, id, now, other, Key(now, i)); }
    }
    assert !Owned(env, v - {id}, Key(now, i));
  }

  lemma NothingLeft(env: Env, v: Snapshots, id: string, now: Option<App>, kept: bool, scheme: Scheme, t: VhostTable, key: string)
    requires Current(env, v, scheme, t.hosts) && NoStale(env, v, t.hosts) && ChangeFits(env, v, id, now)
    requires LeavesNothing(env, v, id, now, kept, scheme) && key in ChangeTable(env, t, now, scheme).hosts
    ensures Owned(env, ChangeLive(v, id, now, kept), key)
  {
    var w := ChangeLive(v, id, now, kept);
    if now.Some? && Owns(env, now.value, key) {
      var i :| 0 <= i < |now.value.portDefinitions| && Exposed(env, now.value, i) && Key(now.value, i) == key;
      OwnKeyPublished(env, now.value, scheme, t, |now.value.portDefinitions|, i);
      assert HasVhosts(env, now.value, scheme);
      assert id in w && Owns(env, w[id], key);
    } else {
      if now.Some? { OtherKeysKept(env, now.value, scheme, t, |now.value.portDefinitions|, key); }
      var other, i := OwnerPort(env, v, key);
      assert Shows(v[other], scheme, t.hosts, i);
      assert other in w && Owns(env, w[other], key);
    }
  }

  /** When a change of a table without stale keys leaves none: no condition on the layout is assumed. */
  lemma ChangeStaleIff(env: Env, v: Snapshots, id: string, now: Option<App>, kept: bool, scheme: Scheme, t: VhostTable)
    requires Current(env, v, scheme, t.hosts) && NoStale(env, v, t.hosts) && NoCollision(env, v) && ChangeFits(env, v, id, now)
    ensures NoStale(env, ChangeLive(v, id, now, kept), ChangeTable(env, t, now, scheme).hosts)
       <==> LeavesNothing(env, v, id, now, kept, scheme)
  {
    if LeavesNothing(env, v, id, now, kept, scheme) {
      forall key | key in ChangeTable(env, t, now, scheme).hosts ensures Owned(env, ChangeLive(v, id, now, kept), key) {
        NothingLeft(env, v, id, now, kept, scheme, t, key);
      }
    } else if i :| id in v && Exposed(env, v[id], i) && HostList(v[id], scheme, i) != []
                   && !(now.Some? && Owns(env, now.value, Key(v[id], i))) {
      GonePortIsStale(env, v, id, now, kept, scheme, t, i);
    } else {
      UnkeptIsStale(env, v, id, now.value, scheme, t);
    }
  }

  // ---- runs ----

  ghost function FragmentsOf(env: Env, live: Snapshots): map<string, Fragment> {
    map id | id in live :: FragmentOf(env, live[id])
  }

  /** The fragments are exactly those of the live snapshots, and both tables are up to date. */
  ghost predicate Represents(env: Env, live: Snapshots, st: State) {
    && st.fragments == FragmentsOf(env, live)
    && forall scheme :: Current(env, live, scheme, TableIn(st, scheme).hosts)
  }

  function SnapshotsOf(apps: seq<App>, n: nat): Snapshots
    requires n <= |apps|
  {
    if n == 0 then map[] else SnapshotsOf(apps, n - 1)[apps[n - 1].id := apps[n - 1]]
  }

  /** A suspended application, which has no task left, loses its fragment. */
  function Keeps(remaining: Option<App>): bool { remaining.Some? && |remaining.value.tasks| > 0 }

  function Advance(live: Snapshots, e: Event): Snapshots {
    match e
    case Apply(apps) => SnapshotsOf(apps, |apps|)
    case Update(app, _) => ChangeLive(live, app.id, Some(app), true)
    case Remove(appId, _, remaining) => ChangeLive(live, appId, remaining, Keeps(remaining))
  }

  function AdvanceAll(live: Snapshots, events: seq<Event>): Snapshots
    decreases |events|
  {
    if events == [] then live else AdvanceAll(Advance(live, events[0]), events[1..])
  }

  /** What one event makes of the snapshot that an application has, if it is live. */
  ghost predicate Becomes(e: Event, id: string, before: Option<App>, after: Option<App>) {
    match e
    case Apply(apps) =>
      && (forall k :: 0 <= k < |apps| && apps[k].id == id && (forall j :: k < j < |apps| ==> apps[j].id != id) ==>
            after == Some(apps[k]))
      && ((forall app: App :: app in apps ==> app.id != id) ==> after == None)
    case Update(app, _) => after == if app.id == id then Some(app) else before
    case Remove(appId, _, remaining) =>
      after == if appId != id then before else if remaining.Some? && remaining.value.tasks != [] then remaining else None
  }

  ghost function SnapshotOf(live: Snapshots, id: string): Option<App> { if id in live then Some(live[id]) else None }

  lemma {:induction false} LastSnapshot(apps: seq<App>, n: nat, k: nat)
    requires k < n <= |apps| && forall j :: k < j < n ==> apps[j].id != apps[k].id
    ensures SnapshotOf(SnapshotsOf(apps, n), apps[k].id) == Some(apps[k])
  {
    if k < n - 1 { LastSnapshot(apps, n - 1, k); }
  }

  lemma {:induction false} NoSnapshot(apps: seq<App>, n: nat, id: string)
    requires n <= |apps| && forall k :: 0 <= k < n ==> apps[k].id != id
    ensures id !in SnapshotsOf(apps, n)
  {
    if n > 0 { NoSnapshot(apps, n - 1, id); }
  }

  /** Live snapshots change exactly as the events say; an application without tasks is not live any more. */
  lemma LiveFollowsEvents(live: Snapshots, e: Event, id: string)
    ensures Becomes(e, id, SnapshotOf(live, id), SnapshotOf(Advance(live, e), id))
  {
    if e.Apply? {
      var apps: seq<App>, after := e.apps, Advance(live, e);
      forall k | 0 <= k < |apps| && apps[k].id == id && (forall j :: k < j < |apps| ==> apps[j].id != id)
        ensures SnapshotOf(after, id) == Some(apps[k])
      {
        LastSnapshot(apps, |apps|, k);
      }
      if forall app: App :: app in apps ==> app.id != id {
        forall k | 0 <= k < |apps| ensures apps[k].id != id { assert apps[k] in apps; }
        NoSnapshot(apps, |apps|, id);
      }
    }
  }

  ghost predicate DistinctIds(apps: seq<App>) {
    forall i, j :: 0 <= i < j < |apps| ==> apps[i].id != apps[j].id
  }

  /** Distinct ids and no collision, said of a list. */
  ghost predicate Separate(env: Env, apps: seq<App>) {
    DistinctIds(apps) && NoCollision(env, SnapshotsOf(apps, |apps|))
  }

  /** Keys of live applications do not collide; layouts may change at will. */
  ghost predicate Legal(env: Env, live: Snapshots, e: Event) {
    match e
    case Apply(apps) => Separate(env, apps)
    case Update(app, _) => ChangeFits(env, live, app.id, Some(app))
    case Remove(appId, _, remaining) => ChangeFits(env, live, appId, remaining)
  }

  ghost predicate LegalRun(env: Env, live: Snapshots, events: seq<Event>)
    decreases |events|
  {
    events != [] ==> Legal(env, live, events[0]) && LegalRun(env, Advance(live, events[0]), events[1..])
  }

  lemma FragmentsChange(env: Env, live: Snapshots, id: string, app: App)
    ensures FragmentsOf(env, live[id := app]) == FragmentsOf(env, live)[id := FragmentOf(env, app)]
    ensures FragmentsOf(env, live - {id}) == FragmentsOf(env, live) - {id}
  {}

  lemma UpdateRepresents(env: Env, live: Snapshots, st: State, app: App)
    requires Represents(env, live, st) && ChangeFits(env, live, app.id, Some(app))
    ensures Represents(env, live[app.id := app], UpdateApp(env, st, app))
  {
    FragmentsChange(env, live, app.id, app);
    forall scheme ensures Current(env, live[app.id := app], scheme, TableIn(UpdateApp(env, st, app), scheme).hosts) {
      ChangeKeepsCurrent(env, live, app.id, Some(app), true, scheme, TableIn(st, scheme));
    }
  }

  lemma RemovedFragments(env: Env, live: Snapshots, st: State, appId: string, taskId: string, remaining: Option<App>)
    requires st.fragments == FragmentsOf(env, live)
    ensures RemoveApp(env, st, appId, taskId, remaining).fragments
         == FragmentsOf(env, ChangeLive(live, appId, remaining, Keeps(remaining)))
  {
    if remaining.Some? { FragmentsChange(env, live, appId, remaining.value); }
  }

  lemma RemovedTable(env: Env, st: State, appId: string, taskId: string, remaining: Option<App>, scheme: Scheme)
    ensures TableIn(RemoveApp(env, st, appId, taskId, remaining), scheme)
         == ChangeTable(env, TableIn(st, scheme), remaining, scheme)
  {}

  lemma RemoveRepresents(env: Env, live: Snapshots, st: State, appId: string, taskId: string, remaining: Option<App>)
    requires Represents(env, live, st) && ChangeFits(env, live, appId, remaining)
    ensures Represents(env, ChangeLive(live, appId, remaining, Keeps(remaining)), RemoveApp(env, st, appId, taskId, remaining))
  {
    RemovedFragments(env, live, st, appId, taskId, remaining);
    forall scheme
      ensures Current(env, ChangeLive(live, appId, remaining, Keeps(remaining)), scheme,
                      TableIn(RemoveApp(env, st, appId, taskId, remaining), scheme).hosts)
    {
      RemovedTable(env, st, appId, taskId, remaining, scheme);
      ChangeKeepsCurrent(env, live, appId, remaining, Keeps(remaining), scheme, TableIn(st, scheme));
    }
  }

  lemma {:induction false} SnapshotsMember(apps: seq<App>, n: nat)
    requires n <= |apps| && DistinctIds(apps)
    ensures Keyed(SnapshotsOf(apps, n))
    ensures forall i :: 0 <= i < n ==> apps[i].id in SnapshotsOf(apps, n) && SnapshotsOf(apps, n)[apps[i].id] == apps[i]
    ensures forall id :: id in SnapshotsOf(apps, n) ==> exists i :: 0 <= i < n && apps[i].id == id
  {
    if n > 0 { SnapshotsMember(apps, n - 1); }
  }

  lemma PrefixDoesNotCollide(env: Env, apps: seq<App>, n: nat)
    requires n <= |apps| && DistinctIds(apps) && NoCollision(env, SnapshotsOf(apps, |apps|))
    ensures NoCollision(env, SnapshotsOf(apps, n))
  {
    SnapshotsMember(apps, n);
    SnapshotsMember(apps, |apps|);
    var v, w := SnapshotsOf(apps, n), SnapshotsOf(apps, |apps|);
    forall id | id in v ensures id in w && w[id] == v[id] {
      var i :| 0 <= i < n && apps[i].id == id;
    }
  }

  lemma {:induction false} ApplyRepresents(env: Env, apps: seq<App>, n: nat)
    requires n <= |apps| && Separate(env, apps)
    ensures Represents(env, SnapshotsOf(apps, n), ApplyFirst(env, apps, n))
  {
    if n > 0 {
      ApplyRepresents(env, apps, n - 1);
      PrefixDoesNotCollide(env, apps, n);
      UpdateRepresents(env, SnapshotsOf(apps, n - 1), ApplyFirst(env, apps, n - 1), apps[n - 1]);
    }
  }

  lemma NewAppLeavesNothing(env: Env, v: Snapshots, st: State, app: App, scheme: Scheme)
    requires Represents(env, v, st) && NoStale(env, v, TableIn(st, scheme).hosts) && app.id !in v
    requires NoCollision(env, v) && NoCollision(env, v[app.id := app])
    ensures NoStale(env, v[app.id := app], TableIn(UpdateApp(env, st, app), scheme).hosts)
  {
    ChangeStaleIff(env, v, app.id, Some(app), true, scheme, TableIn(st, scheme));
  }

  /** The application that comes next in a batch. */
  lemma NextApp(env: Env, apps: seq<App>, n: nat)
    requires n < |apps| && Separate(env, apps)
    ensures apps[n].id !in SnapshotsOf(apps, n)
    ensures NoCollision(env, SnapshotsOf(apps, n)) && NoCollision(env, SnapshotsOf(apps, n)[apps[n].id := apps[n]])
  {
    PrefixDoesNotCollide(env, apps, n);
    PrefixDoesNotCollide(env, apps, n + 1);
    SnapshotsMember(apps, n);
  }

  /** A batch leaves no stale keys. */
  lemma {:induction false} ApplyLeavesNothing(env: Env, apps: seq<App>, scheme: Scheme, n: nat)
    requires n <= |apps| && Separate(env, apps)
    ensures NoStale(env, SnapshotsOf(apps, n), TableIn(ApplyFirst(env, apps, n), scheme).hosts)
  {
    if n == 0 {
      assert ApplyFirst(env, apps, 0) == EMPTY;
    } else {
      ApplyLeavesNothing(env, apps, scheme, n - 1);
      ApplyRepresents(env, apps, n - 1);
      NextApp(env, apps, n - 1);
      NewAppLeavesNothing(env, SnapshotsOf(apps, n - 1), ApplyFirst(env, apps, n - 1), apps[n - 1], scheme);
    }
  }

  lemma StepRepresents(env: Env, live: Snapshots, st: State, e: Event)
    requires Represents(env, live, st) && Legal(env, live, e)
    ensures Represents(env, Advance(live, e), Step(env, st, e))
  {
    match e
    case Apply(apps) => ApplyRepresents(env, apps, |apps|);
    case Update(app, _) => UpdateRepresents(env, live, st, app);
    case Remove(appId, taskId, remaining) => RemoveRepresents(env, live, st, appId, taskId, remaining);
  }

  /** Every run of Apply, Update and Remove whose live keys do not collide represents its live snapshots. */
  lemma {:induction false} RunRepresents(env: Env, live: Snapshots, st: State, events: seq<Event>)
    requires Represents(env, live, st) && LegalRun(env, live, events)
    ensures Represents(env, AdvanceAll(live, events), Run(env, st, events))
    decreases |events|
  {
    if events != [] {
      StepRepresents(env, live, st, events[0]);
      RunRepresents(env, Advance(live, events[0]), Step(env, st, events[0]), events[1..]);
    }
  }

  /** A state that represents the snapshots of a list, against one Apply of that list. */
  lemma {:induction false} BatchEqualsIff(env: Env, st: State, final: seq<App>, scheme: Scheme)
    requires Separate(env, final) && Represents(env, SnapshotsOf(final, |final|), st)
    ensures st.fragments == ApplyApps(env, final).fragments
    ensures TableIn(st, scheme).hosts == TableIn(ApplyApps(env, final), scheme).hosts
       <==> NoStale(env, SnapshotsOf(final, |final|), TableIn(st, scheme).hosts)
  {
    ApplyRepresents(env, final, |final|);
    ApplyLeavesNothing(env, final, scheme, |final|);
    TablesEqualIff(env, SnapshotsOf(final, |final|), scheme,
                   TableIn(st, scheme).hosts, TableIn(ApplyApps(env, final), scheme).hosts);
  }

  /**
   Incremental equals batch, exactly: after any run, with whatever changes of layout and
   removals, the fragments are those of one Apply of the live snapshots in any order, and
   a vhost table is that batch's exactly when it has no stale key.
   */
  lemma {:induction false} IncrementalEqualsBatchIff(env: Env, live: Snapshots, st: State, events: seq<Event>,
      final: seq<App>, scheme: Scheme)
    requires Represents(env, live, st) && LegalRun(env, live, events)
    requires Separate(env, final) && AdvanceAll(live, events) == SnapshotsOf(final, |final|)
    ensures var incremental, batch := Run(env, st, events), ApplyApps(env, final);
            && incremental.fragments == batch.fragments
            && (TableIn(incremental, scheme).hosts == TableIn(batch, scheme).hosts <==>
                  NoStale(env, AdvanceAll(live, events), TableIn(incremental, scheme).hosts))
  {
    RunRepresents(env, live, st, events);
    BatchEqualsIff(env, Run(env, st, events), final, scheme);
  }

  /** An event after which a table without stale keys has none. */
  ghost predicate Tidy(env: Env, live: Snapshots, e: Event, scheme: Scheme) {
    match e
    case Apply(_) => true
    case Update(app, _) => LeavesNothing(env, live, app.id, Some(app), true, scheme)
    case Remove(appId, _, remaining) => LeavesNothing(env, live, appId, remaining, Keeps(remaining), scheme)
  }

  lemma TidyIff(env: Env, live: Snapshots, st: State, e: Event, scheme: Scheme)
    requires Represents(env, live, st) && NoCollision(env, live) && Legal(env, live, e)
    requires NoStale(env, live, TableIn(st, scheme).hosts)
    ensures NoStale(env, Advance(live, e), TableIn(Step(env, st, e), scheme).hosts) <==> Tidy(env, live, e, scheme)
  {
    match e
    case Apply(apps) => ApplyLeavesNothing(env, apps, scheme, |apps|);
    case Update(app, _) => ChangeStaleIff(env, live, app.id, Some(app), true, scheme, TableIn(st, scheme));
    case Remove(appId, _, remaining) =>
      ChangeStaleIff(env, live, appId, remaining, Keeps(remaining), scheme, TableIn(st, scheme));
  }

  ghost predicate TidyRun(env: Env, live: Snapshots, events: seq<Event>, scheme: Scheme)
    decreases |events|
  {
    events != [] ==> Tidy(env, live, events[0], scheme) && TidyRun(env, Advance(live, events[0]), events[1..], scheme)
  }

  lemma AdvanceDoesNotCollide(env: Env, live: Snapshots, e: Event)
    requires NoCollision(env, live) && Legal(env, live, e)
    ensures NoCollision(env, Advance(live, e))
  {}

  lemma {:induction false} TidyRunLeavesNothing(env: Env, live: Snapshots, st: State, events: seq<Event>, scheme: Scheme)
    requires Represents(env, live, st) && NoCollision(env, live) && NoStale(env, live, TableIn(st, scheme).hosts)
    requires LegalRun(env, live, events) && TidyRun(env, live, events, scheme)
    ensures NoStale(env, AdvanceAll(live, events), TableIn(Run(env, st, events), scheme).hosts)
    decreases |events|
  {
    if events != [] {
      TidyIff(env, live, st, events[0], scheme);
      StepRepresents(env, live, st, events[0]);
      AdvanceDoesNotCollide(env, live, events[0]);
      TidyRunLeavesNothing(env, Advance(live, events[0]), Step(env, st, events[0]), events[1..], scheme);
    }
  }

  /** In particular runs whose updates keep what was published end with the tables of a batch. */
  lemma {:induction false} IncrementalEqualsBatch(env: Env, live: Snapshots, st: State, events: seq<Event>,
      final: seq<App>, scheme: Scheme)
    requires Represents(env, live, st) && NoCollision(env, live) && NoStale(env, live, TableIn(st, scheme).hosts)
    requires LegalRun(env, live, events) && TidyRun(env, live, events, scheme)
    requires Separate(env, final) && AdvanceAll(live, events) == SnapshotsOf(final, |final|)
    ensures var incremental, batch := Run(env, st, events), ApplyApps(env, final);
            incremental.fragments == batch.fragments && TableIn(incremental, scheme).hosts == TableIn(batch, scheme).hosts
  {
    TidyRunLeavesNothing(env, live, st, events, scheme);
    IncrementalEqualsBatchIff(env, live, st, events, final, scheme);
  }

  /** The same ports, with the same exposure. */
  ghost predicate SameLayout(env: Env, a: App, b: App) {
    && a.id == b.id && |a.portDefinitions| == |b.portDefinitions|
    && forall i :: 0 <= i < |a.portDefinitions| ==>
         a.portDefinitions[i].port == b.portDefinitions[i].port && (Exposed(env, a, i) <==> Exposed(env, b, i))
  }

  lemma SameLayoutOwns(env: Env, a: App, b: App, key: string)
    requires SameLayout(env, a, b) && Owns(env, a, key)
    ensures Owns(env, b, key)
  {
    var i :| 0 <= i < |a.portDefinitions| && Exposed(env, a, i) && Key(a, i) == key;
    assert Key(b, i) == key;
  }

  /** An update that keeps the port layout is tidy. */
  lemma SameLayoutIsTidy(env: Env, live: Snapshots, app: App, taskId: string, scheme: Scheme)
    requires app.id in live ==> SameLayout(env, live[app.id], app)
    ensures Tidy(env, live, Update(app, taskId), scheme)
  {
    forall i | app.id in live && Exposed(env, live[app.id], i) ensures Owns(env, app, Key(live[app.id], i)) {
      assert Owns(env, live[app.id], Key(live[app.id], i));
      SameLayoutOwns(env, live[app.id], app, Key(live[app.id], i));
    }
  }

  /** One event from a table without stale keys, against a batch of what is live afterwards. */
  lemma {:induction false} EventEqualsBatchIff(env: Env, live: Snapshots, st: State, e: Event, final: seq<App>, scheme: Scheme)
    requires Represents(env, live, st) && NoCollision(env, live) && Legal(env, live, e)
    requires NoStale(env, live, TableIn(st, scheme).hosts)
    requires Separate(env, final) && Advance(live, e) == SnapshotsOf(final, |final|)
    ensures TableIn(Step(env, st, e), scheme).hosts == TableIn(ApplyApps(env, final), scheme).hosts
       <==> Tidy(env, live, e, scheme)
  {
    TidyIff(env, live, st, e, scheme);
    StepRepresents(env, live, st, e);
    BatchEqualsIff(env, Step(env, st, e), final, scheme);
  }

  /** Apply and then Update, against one Apply of the updated list: exactly when each port that had vhosts is still there. */
  lemma {:induction false} UpdateAfterApplyTableIff(env: Env, apps: seq<App>, i: nat, app: App, scheme: Scheme)
    requires i < |apps| && app.id == apps[i].id && Separate(env, apps) && Separate(env, apps[i := app])
    ensures TableIn(UpdateApp(env, ApplyApps(env, apps), app), scheme).hosts
         == TableIn(ApplyApps(env, apps[i := app]), scheme).hosts
       <==> forall k :: Exposed(env, apps[i], k) && HostList(apps[i], scheme, k) != [] ==> Owns(env, app, Key(apps[i], k))
  {
    SnapshotsMember(apps, |apps|);
    UpdatedSnapshots(apps, i, app, |apps|);
    ApplyRepresents(env, apps, |apps|);
    ApplyLeavesNothing(env, apps, scheme, |apps|);
    EventEqualsBatchIff(env, SnapshotsOf(apps, |apps|), ApplyApps(env, apps), Update(app, ""), apps[i := app], scheme);
  }

  lemma {:induction false} UpdatedSnapshots(apps: seq<App>, i: nat, app: App, n: nat)
    requires i < |apps| && n <= |apps| && DistinctIds(apps) && app.id == apps[i].id
    ensures SnapshotsOf(apps[i := app], n) == if i < n then SnapshotsOf(apps, n)[app.id := app] else SnapshotsOf(apps, n)
  {
    if n > 0 { UpdatedSnapshots(apps, i, app, n - 1); }
  }

  // ---- runs without any assumption ----

  lemma {:induction false} ApplyFragments(env: Env, apps: seq<App>, n: nat)
    requires n <= |apps|
    ensures ApplyFirst(env, apps, n).fragments == FragmentsOf(env, SnapshotsOf(apps, n))
  {
    if n > 0 {
      ApplyFragments(env, apps, n - 1);
      FragmentsChange(env, SnapshotsOf(apps, n - 1), apps[n - 1].id, apps[n - 1]);
    }
  }

  /** Over every run the fragments are those of the live snapshots. */
  lemma {:induction false} RunFragments(env: Env, live: Snapshots, st: State, events: seq<Event>)
    requires st.fragments == FragmentsOf(env, live)
    ensures Run(env, st, events).fragments == FragmentsOf(env, AdvanceAll(live, events))
    decreases |events|
  {
    if events != [] {
      match events[0] {
        case Apply(apps) => ApplyFragments(env, apps, |apps|);
        case Update(app, _) => FragmentsChange(env, live, app.id, app);
        case Remove(appId, taskId, remaining) => RemovedFragments(env, live, st, appId, taskId, remaining);
      }
      RunFragments(env, Advance(live, events[0]), Step(env, st, events[0]), events[1..]);
    }
  }

  /** The snapshots configured since the last Apply, in order. */
  function LogAfter(log: seq<App>, e: Event): seq<App> {
    match e
    case Apply(apps) => apps
    case Update(app, _) => log + [app]
    case Remove(_, _, remaining) => if remaining.Some? then log + [remaining.value] else log
  }

  function LogAll(log: seq<App>, events: seq<Event>): seq<App>
    decreases |events|
  {
    if events == [] then log else LogAll(LogAfter(log, events[0]), events[1..])
  }

  /** Both tables are those of one Apply of the log, in its order. */
  ghost predicate Replays(env: Env, log: seq<App>, st: State) {
    forall scheme :: TableIn(st, scheme) == TableIn(ApplyApps(env, log), scheme)
  }

  lemma {:induction false} AppliedPrefix(env: Env, a: seq<App>, b: seq<App>, n: nat)
    requires n <= |a| <= |b| && a == b[..|a|]
    ensures ApplyFirst(env, a, n) == ApplyFirst(env, b, n)
  {
    if n > 0 { AppliedPrefix(env, a, b, n - 1); }
  }

  lemma OneMoreReplayed(env: Env, log: seq<App>, app: App, scheme: Scheme)
    ensures TableIn(ApplyApps(env, log + [app]), scheme) == PublishApp(env, app, scheme, TableIn(ApplyApps(env, log), scheme))
  {
    AppliedPrefix(env, log, log + [app], |log|);
    assert ApplyFirst(env, log + [app], |log| + 1) == UpdateApp(env, ApplyFirst(env, log + [app], |log|), app);
  }

  lemma StepReplays(env: Env, log: seq<App>, st: State, e: Event)
    requires Replays(env, log, st)
    ensures Replays(env, LogAfter(log, e), Step(env, st, e))
  {
    forall scheme ensures TableIn(Step(env, st, e), scheme) == TableIn(ApplyApps(env, LogAfter(log, e)), scheme) {
      match e {
        case Apply(apps) =>
        case Update(app, _) => OneMoreReplayed(env, log, app, scheme);
        case Remove(appId, taskId, remaining) =>
          RemovedTable(env, st, appId, taskId, remaining, scheme);
          if remaining.Some? { OneMoreReplayed(env, log, remaining.value, scheme); }
      }
    }
  }

  /** Over every run the tables are those of one Apply of all snapshots configured since the last Apply. */
  lemma {:induction false} RunReplays(env: Env, log: seq<App>, st: State, events: seq<Event>)
    requires Replays(env, log, st)
    ensures Replays(env, LogAll(log, events), Run(env, st, events))
    decreases |events|
  {
    if events != [] {
      StepReplays(env, log, st, events[0]);
      RunReplays(env, LogAfter(log, events[0]), Step(env, st, events[0]), events[1..]);
    }
  }

  /** Every key of a table belongs to a snapshot of the log. */
  lemma {:induction false} ReplayedKey(env: Env, log: seq<App>, n: nat, scheme: Scheme, key: string)
    requires n <= |log| && key in TableIn(ApplyFirst(env, log, n), scheme).hosts
    ensures exists k :: 0 <= k < n && Owns(env, log[k], key)
  {
    if n > 0 && !Owns(env, log[n - 1], key) {
      OtherKeysKept(env, log[n - 1], scheme, TableIn(ApplyFirst(env, log, n - 1), scheme), |log[n - 1].portDefinitions|, key);
      ReplayedKey(env, log, n - 1, scheme, key);
    }
  }

  // ---- a moved port ----

  /** One TCP port with these labels and no tasks. */
  function OnePort(port: nat, labels: Labels): App {
    AppRecord("/a", [], [PortDefinition(port, "tcp", labels)], None, map[], [], [])
  }

  lemma OnePortOwns(env: Env, port: nat, labels: Labels, key: string)
    requires "*" in env.groups
    ensures Exposed(env, OnePort(port, labels), 0)
    ensures Owns(env, OnePort(port, labels), key) <==> key == Key(OnePort(port, labels), 0)
  {}

  lemma MovedKey(p: nat, labels: Labels, q: nat, moved: Labels)
    requires p != q
    ensures Key(OnePort(p, labels), 0) != Key(OnePort(q, moved), 0)
  {
    PrettifyCollides("/a", 0, p, "/a", 0, q);
  }

  lemma OneIsSeparate(env: Env, app: App)
    ensures Separate(env, [app]) && SnapshotsOf([app], 1) == map[app.id := app]
    ensures ApplyApps(env, [app]) == UpdateApp(env, EMPTY, app)
  {
    assert SnapshotsOf([app], 0) == map[] && ApplyFirst(env, [app], 0) == EMPTY;
  }

  /** For instance, an application that moves its only port leaves the old one in the table. */
  lemma {:induction false} MovedPortIsStale(env: Env, p: nat, labels: Labels, q: nat, moved: Labels)
    requires "*" in env.groups && p != q && Label(labels, "lb-vhost") != ""
    ensures var first, second := OnePort(p, labels), OnePort(q, moved);
            && ApplyApps(env, [first]).http.hosts != map[]
            && UpdateApp(env, ApplyApps(env, [first]), second).http.hosts != ApplyApps(env, [second]).http.hosts
  {
    var first, second := OnePort(p, labels), OnePort(q, moved);
    OneIsSeparate(env, first);
    OneIsSeparate(env, second);
    OnePortOwns(env, p, labels, Key(first, 0));
    OnePortOwns(env, q, moved, Key(first, 0));
    MovedKey(p, labels, q, moved);
    assert [first][0 := second] == [second];
    OwnKeyPublished(env, first, Http, EMPTY.http, 1, 0);
    UpdateAfterApplyTableIff(env, [first], 0, second, Http);
  }
}
