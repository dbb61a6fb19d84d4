/** The parts of Marathon's application records that mmsd reads. */
module Marathon {
  import opened Text

  type Labels = map<string, string>

  /** `state` is nil for old Marathon services; `alive` is the answer of Task.IsAlive. */
  datatype Task = Task(id: string, appId: string, host: string, ports: seq<nat>, state: Option<string>, alive: bool)

  datatype PortDefinition = PortDefinition(port: nat, protocol: string, labels: Labels)

  datatype HealthCheck = HealthCheck(portIndex: int, protocol: string)

  /** `portMappings` holds the protocols of the Docker port mappings, if there is a Docker container. */
  datatype AppRecord = AppRecord(
    id: string,
    ports: seq<nat>,
    portDefinitions: seq<PortDefinition>,
    portMappings: Option<seq<string>>,
    labels: Labels,
    tasks: seq<Task>,
    healthChecks: seq<HealthCheck>)

  /** Marathon never hands out an empty application id, and mmsd slices off its first byte unconditionally. */
  type App = a: AppRecord | |a.id| > 0 witness AppRecord("/", [], [], None, map[], [], [])

  const TASK_RUNNING := "TASK_RUNNING"

  /** Go's map index: the zero value for a missing key. */
  function Label(labels: Labels, key: string): string {
    if key in labels then labels[key] else ""
  }

  // ---- which tasks of a list ----

  /** The positions of the tasks with a property. */
  ghost function Where(tasks: seq<Task>, p: Task -> bool): set<int> { set k | 0 <= k < |tasks| && p(tasks[k]) }

  lemma WhereSnoc(tasks: seq<Task>, t: Task, p: Task -> bool)
    ensures Where(tasks + [t], p) == Where(tasks, p) + if p(t) then {|tasks|} else {}
    ensures |Where(tasks + [t], p)| == |Where(tasks, p)| + if p(t) then 1 else 0
  {
    var before, after := Where(tasks, p), Where(tasks + [t], p);
    forall k ensures k in after <==> k in before || (p(t) && k == |tasks|) {}
    assert |tasks| !in before;
  }
}
