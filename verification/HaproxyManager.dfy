/** HaproxyMgr as an object whose methods update its maps, each proved to be the state machine's step. */
module HaproxyManager {
  import opened Text
  import opened Marathon
  import opened Helper
  import opened Sorting
  import opened TaskList
  import opened Gateway
  import opened HaproxyState

  class HaproxyMgr {
    const env: Env
    var appConfigFragments: map<string, Fragment>
    var vhosts: Vhosts
    var vhostDefault: string
    var vhostsHTTPS: Vhosts
    var vhostDefaultHTTPS: string
    var appStateCache: Cache

    ghost function View(): State
      reads this
    {
      State(appConfigFragments, VhostTable(vhosts, vhostDefault), VhostTable(vhostsHTTPS, vhostDefaultHTTPS), appStateCache)
    }

    constructor (env: Env)
      ensures this.env == env && View() == EMPTY
    {
      this.env := env;
      appConfigFragments, appStateCache := map[], map[];
      vhosts, vhostDefault := map[], "";
      vhostsHTTPS, vhostDefaultHTTPS := map[], "";
    }

    /** makeConfigForPort for an included port; `tasks` is app.Tasks, which it sorts. */
    method MakeConfigForPort(app: App, portIndex: nat, tasks: seq<Task>) returns (result: Fragment, sorted: seq<Task>)
      requires portIndex < |app.portDefinitions| && tasks == TasksAfter(env, app, portIndex)
      requires GroupIncluded(env.groups, Label(app.portDefinitions[portIndex].labels, "lb-group"))
      modifies `vhosts, `vhostDefault, `vhostsHTTPS, `vhostDefaultHTTPS
      ensures sorted == TasksAfter(env, app, portIndex + 1)
      ensures result == if Exposed(env, app, portIndex) then [SectionFor(env, app, portIndex)] else []
      ensures VhostTable(vhosts, vhostDefault) == PublishPortsStep(app, portIndex, Http, old(VhostTable(vhosts, vhostDefault)))
      ensures VhostTable(vhostsHTTPS, vhostDefaultHTTPS) ==
        PublishPortsStep(app, portIndex, Https, old(VhostTable(vhostsHTTPS, vhostDefaultHTTPS)))
    {
      if GetTransportProtocol(app, portIndex) != "tcp" { return [], tasks; }
      var portDef := app.portDefinitions[portIndex];
      var appId := PrettifyAppId(app.id, portIndex, portDef.port);

      var lbVirtualHosts := MakeStringArray(Label(portDef.labels, "lb-vhost"));
      if |lbVirtualHosts| != 0 {
        vhosts := vhosts[appId := lbVirtualHosts];
        if Label(portDef.labels, "lb-vhost-default") == "1" { vhostDefault := appId; }
      } else {
        vhosts := vhosts - {appId};
        if vhostDefault == appId { vhostDefault := ""; }
      }

      lbVirtualHosts := MakeStringArray(Label(portDef.labels, "lb-vhost-ssl"));
      if |lbVirtualHosts| != 0 {
        vhostsHTTPS := vhostsHTTPS[appId := lbVirtualHosts];
        if Label(portDef.labels, "lb-vhost-default-ssl") == "1" { vhostDefaultHTTPS := appId; }
      } else {
        vhostsHTTPS := vhostsHTTPS - {appId};
        if vhostDefaultHTTPS == appId { vhostDefaultHTTPS := ""; }
      }

      sorted := env.order(tasks, portIndex);
      var servers := EmitLines(sorted, portIndex, env.resolve);
      result := [Section(appId, portDef.port, KindOf(GetApplicationProtocol(app, portIndex)),
                         env.options(app, portIndex), servers)];
    }

    /** What makeConfigForPort does to the vhost table of one scheme. */
    ghost function PublishPortsStep(app: App, i: nat, scheme: Scheme, t: VhostTable): VhostTable
      requires i < |app.portDefinitions|
    {
      if Exposed(env, app, i)
      then Publish(t, Key(app, i), HostList(app, scheme, i), Label(app.portDefinitions[i].labels, DefaultLabel(scheme)) == "1")
      else t
    }

    /** makeConfig; `tasks` is what its in-place sorts leave in app.Tasks. */
    method MakeConfig(app: App) returns (config: Fragment, tasks: seq<Task>)
      modifies `vhosts, `vhostDefault, `vhostsHTTPS, `vhostDefaultHTTPS
      ensures config == FragmentOf(env, app)
      ensures tasks == TasksAfter(env, app, |app.portDefinitions|)
      ensures View() == Configure(env, old(View()), app)
    {
      config, tasks := [], app.tasks;
      for i := 0 to |app.portDefinitions|
        invariant config == Sections(env, app, i) && tasks == TasksAfter(env, app, i)
        invariant VhostTable(vhosts, vhostDefault) == PublishPorts(env, app, Http, old(VhostTable(vhosts, vhostDefault)), i)
        invariant VhostTable(vhostsHTTPS, vhostDefaultHTTPS) ==
          PublishPorts(env, app, Https, old(VhostTable(vhostsHTTPS, vhostDefaultHTTPS)), i)
      {
        if GroupIncluded(env.groups, Label(app.portDefinitions[i].labels, "lb-group")) {
          var section: Fragment;
          section, tasks := MakeConfigForPort(app, i, tasks);
          config := config + section;
        }
      }
    }

    /** The loop that stores the address of its loop variable for every task. */
    method CacheTasksOf(tasks: seq<Task>)
      modifies `appStateCache
      ensures appStateCache == CacheTasks(old(appStateCache), tasks, |tasks|)
    {
      for i := 0 to |tasks|
        invariant appStateCache == CacheTasks(old(appStateCache), tasks, i)
      {
        var byTask: map<string, Task> := map[];
        if tasks[i].appId in appStateCache { byTask := appStateCache[tasks[i].appId]; }
        appStateCache := appStateCache[tasks[i].appId := byTask[tasks[i].id := tasks[|tasks| - 1]]];
      }
    }

    method RemoveAppStateCacheEntry(appId: string, taskId: string)
      modifies `appStateCache
      ensures appStateCache == RemoveEntry(old(appStateCache), appId, taskId)
    {
      if appId in appStateCache && |appStateCache[appId]| != 0 {
        appStateCache := appStateCache[appId := appStateCache[appId] - {taskId}];
        if |appStateCache[appId]| == 0 { appStateCache := appStateCache - {appId}; }
      }
    }

    method Apply(apps: seq<App>)
      modifies this
      ensures View() == ApplyApps(env, apps)
    {
      appConfigFragments, appStateCache := map[], map[];
      vhosts, vhostDefault := map[], "";
      vhostsHTTPS, vhostDefaultHTTPS := map[], "";
      for i := 0 to |apps|
        invariant View() == ApplyFirst(env, apps, i)
      {
        var config, tasks := MakeConfig(apps[i]);
        appConfigFragments := appConfigFragments[apps[i].id := config];
        CacheTasksOf(tasks);
      }
    }

    /** Update, up to the commands it sends to a running HAProxy. */
    method Update(app: App, taskId: string)
      modifies this
      ensures View() == UpdateApp(env, old(View()), app)
    {
      var config, tasks := MakeConfig(app);
      appConfigFragments := appConfigFragments[app.id := config];
      CacheTasksOf(tasks);
    }

    method Remove(appId: string, taskId: string, app: Option<App>)
      modifies this
      ensures View() == RemoveApp(env, old(View()), appId, taskId, app)
    {
      if app.Some? {
        var config, _ := MakeConfig(app.value);
        if |app.value.tasks| > 0 {
          appConfigFragments := appConfigFragments[appId := config];
        } else {
          appConfigFragments := appConfigFragments - {appId};
        }
      } else {
        appConfigFragments := appConfigFragments - {appId};
      }
      RemoveAppStateCacheEntry(appId, taskId);
    }

    /** The assembling half of writeConfig: maps are ranged over in any order, and the result does not show it. */
    method AssembleConfig(tail: string) returns (config: Config)
      ensures config == Render(env, View(), tail)
      ensures config.tail == tail && |config.gateways| == if env.gatewayEnabled then 2 else 0
    {
      var gateways := [];
      if env.gatewayEnabled {
        var http := MakeGateway(Http, vhosts, vhostDefault);
        var https := MakeGateway(Https, vhostsHTTPS, vhostDefaultHTTPS);
        gateways := [http, https];
      }
      var names := SortedKeys(appConfigFragments);
      assert names == Keys(appConfigFragments);
      var sections := [];
      for i := 0 to |names|
        invariant sections == JoinFragments(appConfigFragments, names, i)
      {
        sections := sections + appConfigFragments[names[i]];
      }
      config := Config(gateways, sections, tail);
    }
  }
}
