/** sorted_task_list.go, and the server lines that haproxy sections take from a task list. */
module TaskList {
  import opened Text
  import opened Sorting
  import opened Marathon

  /** SortedTaskList.Less: by host, or else by port, which is not an order in general. */
  predicate TaskLess(a: Task, b: Task, portIndex: nat) {
    if |a.ports| > portIndex && |b.ports| > portIndex
    then Text.Less(a.host, b.host) || a.ports[portIndex] < b.ports[portIndex]
    else Text.Less(a.host, b.host)
  }

  function Comparator(portIndex: nat): (Task, Task) -> bool {
    (a: Task, b: Task) => TaskLess(a, b, portIndex)
  }

  /** Less holds both ways exactly when hosts and ports are in opposite order. */
  lemma LessBothWays(a: Task, b: Task, i: nat)
    ensures TaskLess(a, b, i) && TaskLess(b, a, i)
       <==> |a.ports| > i && |b.ports| > i &&
            ((Text.Less(a.host, b.host) && b.ports[i] < a.ports[i]) || (Text.Less(b.host, a.host) && a.ports[i] < b.ports[i]))
  {
    if Text.Less(a.host, b.host) && Text.Less(b.host, a.host) {
      LessTransitive(a.host, b.host, a.host);
      LessIrreflexive(a.host);
    }
  }

  /** All tasks that have the port have the same one. */
  ghost predicate SamePort(m: multiset<Task>, i: nat) {
    forall a, b :: a in m && b in m && |a.ports| > i && |b.ports| > i ==> a.ports[i] == b.ports[i]
  }

  lemma SamePortIsOrder(m: multiset<Task>, i: nat)
    requires SamePort(m, i)
    ensures StrictWeak(Comparator(i), m)
    ensures forall a, b :: a in m && b in m ==> (Comparator(i)(a, b) <==> Text.Less(a.host, b.host))
  {
    forall a, b | a in m && b in m ensures TaskLess(a, b, i) <==> Text.Less(a.host, b.host) {}
    forall a, b | Text.Less(a, b) ensures !Text.Less(b, a) {
      if Text.Less(b, a) { LessTransitive(a, b, a); LessIrreflexive(a); }
    }
    forall a, b, c | !Text.Less(a, b) && !Text.Less(b, c) ensures !Text.Less(a, c) {
      if Text.Less(a, c) {
        LessTotal(a, b);
        if a != b { LessTransitive(b, a, c); }
      }
    }
  }

  // ---- server lines ----

  datatype Server = Server(host: string, port: nat, address: string)

  type Resolver = string -> string

  /** Running, or of unknown state, and with a port at this index. */
  predicate Listed(t: Task, portIndex: nat) {
    (t.state == None || t.state == Some(TASK_RUNNING)) && |t.ports| > portIndex
  }

  function ServerLine(t: Task, portIndex: nat, resolve: Resolver): Server
    requires |t.ports| > portIndex
  {
    Server(t.host, t.ports[portIndex], resolve(t.host))
  }

  /** The lines of a task list, in its order. */
  function ServerLines(tasks: seq<Task>, portIndex: nat, resolve: Resolver): seq<Server> {
    if tasks == [] then []
    else
      var t := tasks[|tasks| - 1];
      ServerLines(tasks[..|tasks| - 1], portIndex, resolve)
      + if Listed(t, portIndex) then [ServerLine(t, portIndex, resolve)] else []
  }

  lemma {:induction false} LinesAppend(a: seq<Task>, b: seq<Task>, i: nat, resolve: Resolver)
    ensures ServerLines(a + b, i, resolve) == ServerLines(a, i, resolve) + ServerLines(b, i, resolve)
    decreases |b|
  {
    if b == [] {
      assert a + b == a;
    } else {
      var n := |b| - 1;
      assert (a + b)[..|a| + n] == a + b[..n];
      LinesAppend(a, b[..n], i, resolve);
    }
  }

  /**
   What a task list's server lines are, in Marathon's own terms: each stands for a task
   that is running or of unknown state and has the port, with the task's host and port and
   the address of its host; there are as many as such tasks, each as often as it is due.
   */
  ghost predicate LinesOf(lines: multiset<Server>, tasks: seq<Task>, i: nat, resolve: Resolver) {
    && (forall line: Server :: line in lines <==>
          exists k :: 0 <= k < |tasks| && (tasks[k].state == None || tasks[k].state == Some("TASK_RUNNING"))
            && i < |tasks[k].ports|
            && line.host == tasks[k].host && line.port == tasks[k].ports[i] && line.address == resolve(tasks[k].host))
    && |lines| == |Where(tasks, (t: Task) => (t.state == None || t.state == Some("TASK_RUNNING")) && i < |t.ports|)|
    && (forall line: Server :: lines[line] ==
          |Where(tasks, (t: Task) => (t.state == None || t.state == Some("TASK_RUNNING")) && i < |t.ports|
                             && line == Server(t.host, t.ports[i], resolve(t.host)))|)
  }

  lemma {:induction false} LineIff(tasks: seq<Task>, i: nat, resolve: Resolver, line: Server)
    ensures line in ServerLines(tasks, i, resolve) <==>
              exists k :: 0 <= k < |tasks| && (tasks[k].state == None || tasks[k].state == Some("TASK_RUNNING"))
                && i < |tasks[k].ports|
                && line.host == tasks[k].host && line.port == tasks[k].ports[i] && line.address == resolve(tasks[k].host)
  {
    if tasks != [] { LineIff(tasks[..|tasks| - 1], i, resolve, line); }
  }

  lemma {:induction false} LineCount(tasks: seq<Task>, i: nat, resolve: Resolver)
    ensures |ServerLines(tasks, i, resolve)|
         == |Where(tasks, (t: Task) => (t.state == None || t.state == Some("TASK_RUNNING")) && i < |t.ports|)|
  {
    if tasks != [] {
      var n := |tasks| - 1;
      LineCount(tasks[..n], i, resolve);
      assert tasks == tasks[..n] + [tasks[n]];
      WhereSnoc(tasks[..n], tasks[n], (t: Task) => (t.state == None || t.state == Some("TASK_RUNNING")) && i < |t.ports|);
    }
  }

  lemma {:induction false} LineMultiplicity(tasks: seq<Task>, i: nat, resolve: Resolver, line: Server)
    ensures multiset(ServerLines(tasks, i, resolve))[line]
         == |Where(tasks, (t: Task) => (t.state == None || t.state == Some("TASK_RUNNING")) && i < |t.ports|
                               && line == Server(t.host, t.ports[i], resolve(t.host)))|
  {
    if tasks != [] {
      var n := |tasks| - 1;
      LineMultiplicity(tasks[..n], i, resolve, line);
      assert tasks == tasks[..n] + [tasks[n]];
      WhereSnoc(tasks[..n], tasks[n], (t: Task) => (t.state == None || t.state == Some("TASK_RUNNING")) && i < |t.ports|
                                           && line == Server(t.host, t.ports[i], resolve(t.host)));
    }
  }

  /** The server lines of a list are exactly these. */
  lemma LinesAre(tasks: seq<Task>, i: nat, resolve: Resolver)
    ensures LinesOf(multiset(ServerLines(tasks, i, resolve)), tasks, i, resolve)
  {
    var lines := ServerLines(tasks, i, resolve);
    LineCount(tasks, i, resolve);
    forall line: Server { LineMultiplicity(tasks, i, resolve, line); }
    forall line: Server
      ensures line in multiset(lines) <==>
                exists k :: 0 <= k < |tasks| && (tasks[k].state == None || tasks[k].state == Some("TASK_RUNNING"))
                  && i < |tasks[k].ports|
                  && line.host == tasks[k].host && line.port == tasks[k].ports[i] && line.address == resolve(tasks[k].host)
    {
      LineIff(tasks, i, resolve, line);
    }
  }

  /** And in the order of the list: a task's line comes after as many lines as tasks before it are listed. */
  lemma {:induction false} LineAt(tasks: seq<Task>, i: nat, resolve: Resolver, k: nat)
    requires k < |tasks| && (tasks[k].state == None || tasks[k].state == Some("TASK_RUNNING")) && i < |tasks[k].ports|
    ensures var at := |Where(tasks[..k], (t: Task) => (t.state == None || t.state == Some("TASK_RUNNING")) && i < |t.ports|)|;
            && at < |ServerLines(tasks, i, resolve)|
            && ServerLines(tasks, i, resolve)[at] == Server(tasks[k].host, tasks[k].ports[i], resolve(tasks[k].host))
  {
    var n := |tasks| - 1;
    if k < n {
      LineAt(tasks[..n], i, resolve, k);
      assert tasks[..n][..k] == tasks[..k];
    } else {
      LineCount(tasks[..n], i, resolve);
    }
  }

  lemma DropOne<T>(a: seq<T>, pre: seq<T>, post: seq<T>, t: T)
    requires multiset(a + [t]) == multiset(pre + [t] + post)
    ensures multiset(a) == multiset(pre + post)
  {
    var m, n := multiset(a), multiset(pre + post);
    assert multiset(a + [t]) == m + multiset{t};
    assert multiset(pre + [t] + post) == n + multiset{t};
    assert m == m + multiset{t} - multiset{t} && n == n + multiset{t} - multiset{t};
  }

  lemma InsertBoth<T>(a: seq<T>, pre: seq<T>, mid: seq<T>, post: seq<T>)
    requires multiset(a) == multiset(pre + post)
    ensures multiset(a + mid) == multiset(pre + mid + post)
  {}

  /** Server lines are conserved: permuting the tasks permutes the lines. */
  lemma {:induction false} LinesConserved(a: seq<Task>, b: seq<Task>, i: nat, resolve: Resolver)
    requires multiset(a) == multiset(b)
    ensures multiset(ServerLines(a, i, resolve)) == multiset(ServerLines(b, i, resolve))
    decreases |a|
  {
    if a == [] {
      assert |multiset(b)| == 0;
    } else {
      var t := a[|a| - 1];
      assert t in multiset(b);
      var k :| 0 <= k < |b| && b[k] == t;
      var a', pre, post := a[..|a| - 1], b[..k], b[k + 1..];
      assert a == a' + [t] && b == pre + [t] + post;
      DropOne(a', pre, post, t);
      LinesConserved(a', pre + post, i, resolve);
      LinesAppend(pre, post, i, resolve);
      LinesAppend(pre + [t], post, i, resolve);
      LinesAppend(pre, [t], i, resolve);
      LinesAppend(a', [t], i, resolve);
      InsertBoth(ServerLines(a', i, resolve), ServerLines(pre, i, resolve), ServerLines([t], i, resolve),
        ServerLines(post, i, resolve));
    }
  }

  ghost predicate HostsAscend(lines: seq<Server>) {
    forall p, q :: 0 <= p < q < |lines| ==> !Text.Less(lines[q].host, lines[p].host)
  }

  lemma {:induction false} LineHasTask(tasks: seq<Task>, i: nat, resolve: Resolver, line: Server)
    requires line in ServerLines(tasks, i, resolve)
    ensures exists k :: 0 <= k < |tasks| && Listed(tasks[k], i) && line == ServerLine(tasks[k], i, resolve)
  {
    var n := |tasks| - 1;
    if line in ServerLines(tasks[..n], i, resolve) {
      LineHasTask(tasks[..n], i, resolve, line);
      var k :| 0 <= k < n && Listed(tasks[k], i) && line == ServerLine(tasks[k], i, resolve);
    }
  }

  /** Tasks in host order give lines in host order. */
  lemma {:induction false} LinesAscend(tasks: seq<Task>, i: nat, resolve: Resolver)
    requires forall p, q :: 0 <= p < q < |tasks| ==> !Text.Less(tasks[q].host, tasks[p].host)
    ensures HostsAscend(ServerLines(tasks, i, resolve))
  {
    if tasks != [] {
      var n := |tasks| - 1;
      LinesAscend(tasks[..n], i, resolve);
      var before := ServerLines(tasks[..n], i, resolve);
      forall p | 0 <= p < |before| ensures !Text.Less(tasks[n].host, before[p].host) {
        LineHasTask(tasks[..n], i, resolve, before[p]);
      }
    }
  }

  /** The loop that emits server lines. */
  method EmitLines(tasks: seq<Task>, portIndex: nat, resolve: Resolver) returns (lines: seq<Server>)
    ensures lines == ServerLines(tasks, portIndex, resolve)
  {
    lines := [];
    for k := 0 to |tasks|
      invariant lines == ServerLines(tasks[..k], portIndex, resolve)
    {
      assert tasks[..k + 1][..k] == tasks[..k];
      if tasks[k].state == None || tasks[k].state == Some(TASK_RUNNING) {
        if |tasks[k].ports| > portIndex { lines := lines + [ServerLine(tasks[k], portIndex, resolve)]; }
      }
    }
    assert tasks[..|tasks|] == tasks;
  }

  /** sortTasks followed by the loop that emits server lines; the caller's slice is sorted in place. */
  method EmitServers(tasks: array<Task>, portIndex: nat, resolve: Resolver) returns (lines: seq<Server>)
    modifies tasks
    ensures multiset(tasks[..]) == multiset(old(tasks[..]))
    ensures lines == ServerLines(tasks[..], portIndex, resolve)
    ensures LinesOf(multiset(lines), old(tasks[..]), portIndex, resolve)
    ensures SamePort(multiset(old(tasks[..])), portIndex) ==> HostsAscend(lines)
  {
    Sort(tasks, Comparator(portIndex));
    lines := EmitLines(tasks[..], portIndex, resolve);
    LinesConserved(tasks[..], old(tasks[..]), portIndex, resolve);
    LinesAre(old(tasks[..]), portIndex, resolve);
    if SamePort(multiset(old(tasks[..])), portIndex) {
      SortedByHost(tasks[..], portIndex);
      LinesAscend(tasks[..], portIndex, resolve);
    }
  }

  lemma SortedByHost(tasks: seq<Task>, i: nat)
    requires SamePort(multiset(tasks), i)
    requires StrictWeak(Comparator(i), multiset(tasks)) ==> Sorted(tasks, Comparator(i))
    ensures forall p, q :: 0 <= p < q < |tasks| ==> !Text.Less(tasks[q].host, tasks[p].host)
  {
    SamePortIsOrder(multiset(tasks), i);
    forall p, q | 0 <= p < q < |tasks| ensures !Text.Less(tasks[q].host, tasks[p].host) {
      assert tasks[p] in multiset(tasks) && tasks[q] in multiset(tasks);
      assert !Comparator(i)(tasks[q], tasks[p]);
    }
  }
}
