/**
 HaproxyMgr as a state machine on values: what Apply, Update and Remove make of the
 stored fragments, the two vhost tables and the task cache, and the configuration that
 a reload tick assembles from them.
 */
module HaproxyState {
  import opened Text
  import opened Marathon
  import opened Helper
  import opened Sorting
  import opened TaskList
  import opened Gateway

  // ---- what is stored ----

  /** http: a frontend and a backend of the same name; the others: one `listen` section. */
  datatype Kind = HttpSection | RedisSection | SmtpSection | TcpSection

  /** A port's section; `options` is all its literal option text. */
  datatype Section = Section(name: string, port: nat, kind: Kind, options: string, servers: seq<Server>)

  type Fragment = seq<Section>

  datatype VhostTable = VhostTable(hosts: Vhosts, default_: string)

  type Cache = map<string, map<string, Task>>

  datatype State = State(fragments: map<string, Fragment>, http: VhostTable, https: VhostTable, cache: Cache)

  /** The manager's settings, and what its surroundings answer. */
  datatype Env = Env(
    order: (seq<Task>, nat) -> seq<Task>,   // what sort.Sort makes of a task list
    resolve: Resolver,
    options: (App, nat) -> string,
    groups: seq<string>,
    gatewayEnabled: bool)

  const EMPTY := State(map[], VhostTable(map[], ""), VhostTable(map[], ""), map[])

  // ---- makeConfig ----

  predicate GroupIncluded(groups: seq<string>, name: string) {
    exists g :: g in groups && (g == name || g == "*")
  }

  /** The port definitions that makeConfig turns into a section. */
  predicate Exposed(env: Env, app: App, i: nat) {
    && i < |app.portDefinitions|
    && GroupIncluded(env.groups, Label(app.portDefinitions[i].labels, "lb-group"))
    && GetTransportProtocol(app, i) == "tcp"
  }

  function Key(app: App, i: nat): string
    requires i < |app.portDefinitions|
  {
    PrettifyAppId(app.id, i, app.portDefinitions[i].port)
  }

  function KindOf(protocol: string): Kind {
    if protocol == "http" then HttpSection
    else if protocol in ["redis-master", "redis-server", "redis"] then RedisSection
    else if protocol == "smtp" then SmtpSection
    else TcpSection
  }

  /** app.Tasks after the in-place sorts of the first `n` ports. */
  function TasksAfter(env: Env, app: App, n: nat): seq<Task> {
    if n == 0 then app.tasks
    else if Exposed(env, app, n - 1) then env.order(TasksAfter(env, app, n - 1), n - 1)
    else TasksAfter(env, app, n - 1)
  }

  function SectionFor(env: Env, app: App, i: nat): Section
    requires i < |app.portDefinitions|
  {
    Section(Key(app, i), app.portDefinitions[i].port, KindOf(GetApplicationProtocol(app, i)), env.options(app, i),
            ServerLines(TasksAfter(env, app, i + 1), i, env.resolve))
  }

  function Sections(env: Env, app: App, n: nat): Fragment
    requires n <= |app.portDefinitions|
  {
    if n == 0 then []
    else Sections(env, app, n - 1) + if Exposed(env, app, n - 1) then [SectionFor(env, app, n - 1)] else []
  }

  function FragmentOf(env: Env, app: App): Fragment { Sections(env, app, |app.portDefinitions|) }

  function VhostLabel(scheme: Scheme): string { match scheme case Http => "lb-vhost" case Https => "lb-vhost-ssl" }

  function DefaultLabel(scheme: Scheme): string {
    match scheme case Http => "lb-vhost-default" case Https => "lb-vhost-default-ssl"
  }

  function HostList(app: App, scheme: Scheme, i: nat): seq<string>
    requires i < |app.portDefinitions|
  {
    MakeStringArray(Label(app.portDefinitions[i].labels, VhostLabel(scheme)))
  }

  /** One port's effect on a vhost table. */
  function Publish(t: VhostTable, key: string, hosts: seq<string>, wantsDefault: bool): VhostTable {
    if hosts != [] then VhostTable(t.hosts[key := hosts], if wantsDefault then key else t.default_)
    else VhostTable(t.hosts - {key}, if t.default_ == key then "" else t.default_)
  }

  function PublishPorts(env: Env, app: App, scheme: Scheme, t: VhostTable, n: nat): VhostTable
    requires n <= |app.portDefinitions|
  {
    if n == 0 then t
    else
      var before := PublishPorts(env, app, scheme, t, n - 1);
      if Exposed(env, app, n - 1) then
        Publish(before, Key(app, n - 1), HostList(app, scheme, n - 1),
                Label(app.portDefinitions[n - 1].labels, DefaultLabel(scheme)) == "1")
      else before
  }

  function PublishApp(env: Env, app: App, scheme: Scheme, t: VhostTable): VhostTable {
    PublishPorts(env, app, scheme, t, |app.portDefinitions|)
  }

  // ---- the task cache ----

  function SetEntry(cache: Cache, appId: string, taskId: string, task: Task): Cache {
    cache[appId := (if appId in cache then cache[appId] else map[])[taskId := task]]
  }

  /** The caching loop: it stores the address of its loop variable, so every entry it writes ends up as the last task. */
  function CacheTasks(cache: Cache, tasks: seq<Task>, n: nat): Cache
    requires n <= |tasks|
  {
    if n == 0 then cache
    else SetEntry(CacheTasks(cache, tasks, n - 1), tasks[n - 1].appId, tasks[n - 1].id, tasks[|tasks| - 1])
  }

  function GetEntry(cache: Cache, appId: string, taskId: string): Option<Task> {
    if appId in cache && taskId in cache[appId] then Some(cache[appId][taskId]) else None
  }

  function RemoveEntry(cache: Cache, appId: string, taskId: string): Cache {
    if appId in cache && |cache[appId]| != 0 then
      var rest := cache[appId] - {taskId};
      if |rest| == 0 then cache - {appId} else cache[appId := rest]
    else cache
  }

  // ---- the operations ----

  function Configure(env: Env, st: State, app: App): State {
    st.(http := PublishApp(env, app, Http, st.http), https := PublishApp(env, app, Https, st.https))
  }

  /** Update, and the body of Apply's loop. */
  function UpdateApp(env: Env, st: State, app: App): State {
    var tasks := TasksAfter(env, app, |app.portDefinitions|);
    Configure(env, st, app).(
      fragments := st.fragments[app.id := FragmentOf(env, app)],
      cache := CacheTasks(st.cache, tasks, |tasks|))
  }

  function ApplyFirst(env: Env, apps: seq<App>, n: nat): State
    requires n <= |apps|
  {
    if n == 0 then EMPTY else UpdateApp(env, ApplyFirst(env, apps, n - 1), apps[n - 1])
  }

  function ApplyApps(env: Env, apps: seq<App>): State { ApplyFirst(env, apps, |apps|) }

  function RemoveApp(env: Env, st: State, appId: string, taskId: string, app: Option<App>): State {
    var configured := if app.Some? then Configure(env, st, app.value) else st;
    configured.(
      fragments := if app.Some? && |app.value.tasks| > 0 then st.fragments[appId := FragmentOf(env, app.value)]
        else st.fragments - {appId},
      cache := RemoveEntry(st.cache, appId, taskId))
  }

  datatype Event =
    | Apply(apps: seq<App>)
    | Update(app: App, taskId: string)
    | Remove(appId: string, taskId: string, remaining: Option<App>)

  function Step(env: Env, st: State, e: Event): State {
    match e
    case Apply(apps) => ApplyApps(env, apps)
    case Update(app, _) => UpdateApp(env, st, app)
    case Remove(appId, taskId, remaining) => RemoveApp(env, st, appId, taskId, remaining)
  }

  function Run(env: Env, st: State, events: seq<Event>): State
    decreases |events|
  {
    if events == [] then st else Run(env, Step(env, st, events[0]), events[1..])
  }

  // ---- the configuration ----

  datatype Config = Config(gateways: seq<Program>, sections: seq<Section>, tail: string)

  ghost function JoinFragments(fragments: map<string, Fragment>, keys: seq<string>, n: nat): Fragment
    requires n <= |keys| && forall i :: 0 <= i < |keys| ==> keys[i] in fragments
  {
    if n == 0 then [] else JoinFragments(fragments, keys, n - 1) + fragments[keys[n - 1]]
  }

  /** The assembled configuration: a function of the manager's state and the tail file alone. */
  ghost function Render(env: Env, st: State, tail: string): Config {
    Config(
      if env.gatewayEnabled
      then [Compile(Http, st.http.hosts, st.http.default_), Compile(Https, st.https.hosts, st.https.default_)] else [],
      JoinFragments(st.fragments, Keys(st.fragments), |Keys(st.fragments)|),
      tail)
  }
}
