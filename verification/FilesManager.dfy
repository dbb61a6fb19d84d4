/**
 files_manager.go: one `.instances` file per application port, written beside its old
 version and renamed over it, with superfluous files swept at the end of Apply.
 */
module FilesManager {
  import opened Text
  import opened Marathon
  import opened Helper
  import opened Sorting
  import opened FileCompare

  type Listing = map<string, Bytes>

  // ---- names and contents ----

  const INSTANCES := ".instances"
  const TMP := ".tmp"

  predicate EndsWith(name: string, suffix: string) {
    |name| >= |suffix| && name[|name| - |suffix|..] == suffix
  }

  function ConfigName(app: App, i: nat): string
    requires i < |app.ports|
  {
    PrettifyAppId(app.id, i, app.ports[i]) + INSTANCES
  }

  lemma NamesEnd(app: App, i: nat)
    requires i < |app.ports|
    ensures EndsWith(ConfigName(app, i), INSTANCES) && !EndsWith(ConfigName(app, i) + TMP, INSTANCES)
  {
    var name := ConfigName(app, i) + TMP;
    assert name[|name| - 1] == 'p' && INSTANCES[|INSTANCES| - 1] == 's';
    if |name| >= |INSTANCES| { assert name[|name| - |INSTANCES|..][|INSTANCES| - 1] == name[|name| - 1]; }
  }

  function TaskLines(tasks: seq<Task>, i: nat): string {
    if tasks == [] then ""
    else
      var t := tasks[|tasks| - 1];
      TaskLines(tasks[..|tasks| - 1], i) + if i < |t.ports| then t.host + ":" + Dec(t.ports[i]) + "\n" else ""
  }

  function Header(app: App, i: nat): string
    requires i < |app.ports|
  {
    ("Service-Name: " + PrettifyAppId(app.id, i, app.ports[i]) + "\r\n")
    + ("Service-Port: " + Dec(app.ports[i]) + "\r\n")
    + ("Service-Transport-Proto: " + GetTransportProtocol(app, i) + "\r\n")
    + ("Service-Application-Proto: " + GetApplicationProtocol(app, i) + "\r\n")
    + (if HealthCheckProtocol(app.healthChecks, i) != ""
       then "Health-Check-Proto: " + GetApplicationProtocol(app, i) + "\r\n" else "")
    + "\r\n"
  }

  function Content(app: App, i: nat): Bytes
    requires i < |app.ports|
  {
    Header(app, i) + TaskLines(app.tasks, i)
  }

  function TmpName(app: App, i: nat): string
    requires i < |app.ports|
  {
    ConfigName(app, i) + TMP
  }

  /** Both names, read from the end. */
  lemma NamesRead(app: App, i: nat) returns (stem: string, index: string, port: string)
    requires i < |app.ports|
    ensures ConfigName(app, i) == stem + "-" + index + "-" + port + ".instances"
    ensures TmpName(app, i) == stem + "-" + index + "-" + port + ".instances.tmp"
    ensures '-' !in index && '-' !in port && Digits(index) == Some(i) && Digits(port) == Some(app.ports[i])
    ensures |stem| == |app.id| - 1
    ensures forall k :: 0 <= k < |stem| ==> stem[k] == if app.id[k + 1] == '/' then '.' else app.id[k + 1]
  {
    stem, index, port := PrettifyReads(app.id, i, app.ports[i]);
    var name := stem + "-" + index + "-" + port;
    assert name + ".instances" + ".tmp" == name + ".instances.tmp";
  }

  // ---- reading an instances file ----

  /** Lines, each ended by LF. */
  function Terminated(lines: seq<string>): string {
    if lines == [] then "" else lines[0] + ['\n'] + Terminated(lines[1..])
  }

  lemma {:induction false} TerminatedAppend(a: seq<string>, b: seq<string>)
    ensures Terminated(a + b) == Terminated(a) + Terminated(b)
  {
    if a == [] {
      assert a + b == b;
    } else {
      assert (a + b)[1..] == a[1..] + b;
      TerminatedAppend(a[1..], b);
      assert a[0] + ['\n'] + (Terminated(a[1..]) + Terminated(b)) == a[0] + ['\n'] + Terminated(a[1..]) + Terminated(b);
    }
  }

  /** No line holds an LF. */
  ghost predicate Unbroken(lines: seq<string>) { forall line :: line in lines ==> '\n' !in line }

  /** Cutting at LF gives the lines back. */
  lemma {:induction false} SplitTerminated(lines: seq<string>)
    requires Unbroken(lines)
    ensures Split(Terminated(lines), '\n') == lines + [""]
  {
    if lines != [] {
      assert lines[0] in lines && forall line :: line in lines[1..] ==> line in lines;
      SplitTerminated(lines[1..]);
      SplitFirst(lines[0], Terminated(lines[1..]), '\n');
      assert lines == [lines[0]] + lines[1..];
    }
  }

  /** The host and, after the last colon, the port in decimal. */
  ghost predicate IsTaskLine(line: string, t: Task, i: nat) {
    exists port :: ':' !in port && line == t.host + ":" + port && i < |t.ports| && Digits(port) == Some(t.ports[i])
  }

  /** The line of task `k` comes after as many lines as tasks before it have the port. */
  ghost predicate TaskLineAt(lines: seq<string>, tasks: seq<Task>, i: nat, k: nat)
    requires k < |tasks|
  {
    var at := |Where(tasks[..k], (t: Task) => i < |t.ports|)|;
    at < |lines| && IsTaskLine(lines[at], tasks[k], i)
  }

  /** One line for each task that has the port, in task order. */
  ghost predicate AreTaskLines(lines: seq<string>, tasks: seq<Task>, i: nat) {
    && |lines| == |Where(tasks, (t: Task) => i < |t.ports|)|
    && forall k :: 0 <= k < |tasks| && i < |tasks[k].ports| ==> TaskLineAt(lines, tasks, i, k)
  }

  /** The lines behind the text of TaskLines. */
  function TaskLineList(tasks: seq<Task>, i: nat): seq<string> {
    if tasks == [] then []
    else
      var t := tasks[|tasks| - 1];
      TaskLineList(tasks[..|tasks| - 1], i) + if i < |t.ports| then [t.host + ":" + Dec(t.ports[i])] else []
  }

  lemma OneTerminated(line: string)
    ensures Terminated([line]) == line + "\n" && Terminated([]) == ""
  {
    assert [line][1..] == [] && line + ['\n'] + "" == line + "\n";
  }

  lemma {:induction false} TaskLinesText(tasks: seq<Task>, i: nat)
    ensures TaskLines(tasks, i) == Terminated(TaskLineList(tasks, i))
  {
    if tasks != [] {
      var front, t := tasks[..|tasks| - 1], tasks[|tasks| - 1];
      TaskLinesText(front, i);
      var more := if i < |t.ports| then [t.host + ":" + Dec(t.ports[i])] else [];
      TerminatedAppend(TaskLineList(front, i), more);
      if i < |t.ports| { OneTerminated(more[0]); }
    }
  }

  lemma MoreTaskLines(lines: seq<string>, tasks: seq<Task>, t: Task, i: nat, more: seq<string>)
    requires AreTaskLines(lines, tasks, i)
    requires if i < |t.ports| then |more| == 1 && IsTaskLine(more[0], t, i) else more == []
    ensures AreTaskLines(lines + more, tasks + [t], i)
  {
    WhereSnoc(tasks, t, (t: Task) => i < |t.ports|);
    var all := tasks + [t];
    forall k | 0 <= k < |all| && i < |all[k].ports| ensures TaskLineAt(lines + more, all, i, k) {
      assert all[..k] == tasks[..k];
      if k < |tasks| { assert TaskLineAt(lines, tasks, i, k); }
    }
  }

  lemma {:induction false} TaskLinesPlaced(tasks: seq<Task>, i: nat)
    ensures AreTaskLines(TaskLineList(tasks, i), tasks, i)
  {
    if tasks != [] {
      var front, t := tasks[..|tasks| - 1], tasks[|tasks| - 1];
      assert front + [t] == tasks;
      TaskLinesPlaced(front, i);
      var more := if i < |t.ports| then [t.host + ":" + Dec(t.ports[i])] else [];
      if i < |t.ports| { DigitsOfDec(t.ports[i]); }
      MoreTaskLines(TaskLineList(front, i), front, t, i, more);
    }
  }

  ghost predicate CleanHosts(tasks: seq<Task>) { forall k :: 0 <= k < |tasks| ==> '\n' !in tasks[k].host }

  lemma {:induction false} TaskLinesUnbroken(tasks: seq<Task>, i: nat)
    requires CleanHosts(tasks)
    ensures Unbroken(TaskLineList(tasks, i))
  {
    if tasks != [] { TaskLinesUnbroken(tasks[..|tasks| - 1], i); }
  }

  /** Some health check is for this port, and the first such has a protocol. */
  ghost predicate HasCheck(app: App, i: nat) {
    exists k: nat :: FirstCheck(app.healthChecks, i, k) && app.healthChecks[k].protocol != ""
  }

  /** The header's fields in order, each line ending in CR, and then the first empty line. */
  ghost predicate IsHeader(lines: seq<string>, app: App, i: nat)
    requires i < |app.ports|
  {
    && |lines| == (if HasCheck(app, i) then 6 else 5)
    && lines[0] == "Service-Name: " + PrettifyAppId(app.id, i, app.ports[i]) + "\r"
    && lines[1] == "Service-Port: " + Dec(app.ports[i]) + "\r"
    && lines[2] == "Service-Transport-Proto: " + GetTransportProtocol(app, i) + "\r"
    && lines[3] == "Service-Application-Proto: " + GetApplicationProtocol(app, i) + "\r"
    && (HasCheck(app, i) ==> lines[4] == "Health-Check-Proto: " + GetApplicationProtocol(app, i) + "\r")
    && lines[|lines| - 1] == "\r" && forall k :: 0 <= k < |lines| - 1 ==> lines[k] != "\r"
  }

  /** An instances file, line by line. */
  ghost predicate IsInstancesFile(lines: seq<string>, app: App, i: nat)
    requires i < |app.ports|
  {
    exists h :: 0 <= h <= |lines| && IsHeader(lines[..h], app, i) && AreTaskLines(lines[h..], app.tasks, i)
  }

  lemma CheckIff(app: App, i: nat)
    ensures HealthCheckProtocol(app.healthChecks, i) != "" <==> HasCheck(app, i)
  {
    HealthCheckIs(app.healthChecks, i);
    if k: nat :| k < |app.healthChecks| && app.healthChecks[k].portIndex == i {
      var first := FirstOf(app.healthChecks, i, k);
      LowerIs(app.healthChecks[first].protocol);
      assert HealthCheckProtocol(app.healthChecks, i) == Lower(app.healthChecks[first].protocol);
    }
  }

  /** A field that CRLF ends is a line that ends in CR. */
  lemma FieldTerminated(lines: seq<string>, field: string)
    ensures Terminated(lines + [field + "\r"]) == Terminated(lines) + (field + "\r\n")
  {
    var line := field + "\r";
    TerminatedAppend(lines, [line]);
    assert [line][1..] == [] && line + ['\n'] + "" == field + "\r\n";
  }

  lemma HeaderTerminated(name: string, port: string, transport: string, application: string, check: Option<string>)
    returns (lines: seq<string>)
    ensures Terminated(lines) == (name + "\r\n") + (port + "\r\n") + (transport + "\r\n") + (application + "\r\n")
                                 + (if check.Some? then check.value + "\r\n" else "") + "\r\n"
    ensures lines == [name + "\r", port + "\r", transport + "\r", application + "\r"]
                     + if check.Some? then [check.value + "\r", "\r"] else ["\r"]
  {
    var fields := [name + "\r"];
    FieldTerminated([], name);
    assert [] + fields == fields && "" + (name + "\r\n") == name + "\r\n";
    FieldTerminated(fields, port);
    fields := fields + [port + "\r"];
    FieldTerminated(fields, transport);
    fields := fields + [transport + "\r"];
    FieldTerminated(fields, application);
    fields := fields + [application + "\r"];
    var header := Terminated(fields);
    if check.Some? {
      FieldTerminated(fields, check.value);
      fields := fields + [check.value + "\r"];
    } else {
      assert header + "" == header;
    }
    FieldTerminated(fields, "");
    assert "" + "\r" == "\r" && "" + "\r\n" == "\r\n";
    lines := fields + ["\r"];
  }

  /** No LF inside a field or a host. */
  ghost predicate NoLineBreaks(app: App, i: nat) {
    && '\n' !in app.id && '\n' !in GetTransportProtocol(app, i) && '\n' !in GetApplicationProtocol(app, i)
    && CleanHosts(app.tasks)
  }

  lemma FieldWithoutBreaks(app: App, i: nat)
    requires i < |app.ports| && NoLineBreaks(app, i)
    ensures '\n' !in PrettifyAppId(app.id, i, app.ports[i]) && '\n' !in Dec(app.ports[i])
  {
    var stem := Replace(app.id[1..], '/', '.');
    forall k | 0 <= k < |stem| ensures stem[k] != '\n' { assert app.id[k + 1] in app.id; }
    assert PrettifyAppId(app.id, i, app.ports[i]) == stem + ("-" + Dec(i) + "-" + Dec(app.ports[i]));
  }

  lemma HeaderRead(app: App, i: nat) returns (lines: seq<string>)
    requires i < |app.ports|
    ensures Header(app, i) == Terminated(lines) && IsHeader(lines, app, i)
  {
    var application := GetApplicationProtocol(app, i);
    CheckIff(app, i);
    lines := HeaderTerminated(
      "Service-Name: " + PrettifyAppId(app.id, i, app.ports[i]),
      "Service-Port: " + Dec(app.ports[i]),
      "Service-Transport-Proto: " + GetTransportProtocol(app, i),
      "Service-Application-Proto: " + application,
      if HasCheck(app, i) then Some("Health-Check-Proto: " + application) else None);
    forall k | 0 <= k < |lines| - 1 ensures lines[k] != "\r" { assert lines[k][0] == 'S' || lines[k][0] == 'H'; }
  }

  lemma LineWithoutBreaks(label_: string, value: string)
    requires '\n' !in label_ && '\n' !in value
    ensures '\n' !in label_ + value + "\r"
  {}

  lemma HeaderWithoutBreaks(lines: seq<string>, app: App, i: nat)
    requires i < |app.ports| && NoLineBreaks(app, i) && IsHeader(lines, app, i)
    ensures Unbroken(lines)
  {
    FieldWithoutBreaks(app, i);
    LineWithoutBreaks("Service-Name: ", PrettifyAppId(app.id, i, app.ports[i]));
    LineWithoutBreaks("Service-Port: ", Dec(app.ports[i]));
    LineWithoutBreaks("Service-Transport-Proto: ", GetTransportProtocol(app, i));
    LineWithoutBreaks("Service-Application-Proto: ", GetApplicationProtocol(app, i));
    LineWithoutBreaks("Health-Check-Proto: ", GetApplicationProtocol(app, i));
  }

  /** A file's text is its lines, each ended by LF. */
  lemma ContentLines(app: App, i: nat) returns (lines: seq<string>)
    requires i < |app.ports|
    ensures Content(app, i) == Terminated(lines) && IsInstancesFile(lines, app, i)
    ensures NoLineBreaks(app, i) ==> Unbroken(lines)
  {
    var header := HeaderRead(app, i);
    var tasks := TaskLineList(app.tasks, i);
    TaskLinesText(app.tasks, i);
    TaskLinesPlaced(app.tasks, i);
    lines := header + tasks;
    TerminatedAppend(header, tasks);
    assert lines[..|header|] == header && lines[|header|..] == tasks;
    if NoLineBreaks(app, i) {
      HeaderWithoutBreaks(header, app, i);
      TaskLinesUnbroken(app.tasks, i);
    }
  }

  /** Reading a file back: cut at LF it is the header's lines and the tasks' lines. */
  lemma ContentReadsBack(app: App, i: nat) returns (lines: seq<string>)
    requires i < |app.ports| && NoLineBreaks(app, i)
    ensures Split(Content(app, i), '\n') == lines + [""] && IsInstancesFile(lines, app, i)
  {
    lines := ContentLines(app, i);
    SplitTerminated(lines);
  }

  /** What a port writes: its file's name, its temp file's name and the complete rendering. */
  datatype Entry = Entry(name: string, tmp: string, content: Bytes)

  ghost function EntriesUpTo(app: App, n: nat): (es: seq<Entry>)
    requires n <= |app.ports|
    ensures |es| == n
  {
    if n == 0 then [] else EntriesUpTo(app, n - 1) + [Entry(ConfigName(app, n - 1), TmpName(app, n - 1), Content(app, n - 1))]
  }

  ghost function EntriesOf(app: App): (es: seq<Entry>)
    ensures |es| == |app.ports|
  {
    EntriesUpTo(app, |app.ports|)
  }

  lemma {:induction false} EntryUpTo(app: App, n: nat, i: nat)
    requires i < n <= |app.ports|
    ensures EntriesUpTo(app, n)[i] == Entry(ConfigName(app, i), TmpName(app, i), Content(app, i))
  {
    var before := EntriesUpTo(app, n - 1);
    assert EntriesUpTo(app, n) == before + [Entry(ConfigName(app, n - 1), TmpName(app, n - 1), Content(app, n - 1))];
    if i < n - 1 { EntryUpTo(app, n - 1, i); }
  }

  lemma EntryAt(app: App, i: nat)
    requires i < |app.ports|
    ensures EntriesOf(app)[i] == Entry(ConfigName(app, i), TmpName(app, i), Content(app, i))
  {
    EntryUpTo(app, |app.ports|, i);
  }

  /** Every temp file name that handling `apps` uses. */
  ghost function Temps(apps: seq<App>): set<string> {
    set app, e | app in apps && e in EntriesOf(app) :: e.tmp
  }

  lemma TempsAreNotInstances(apps: seq<App>)
    ensures forall name :: name in Temps(apps) ==> !EndsWith(name, INSTANCES)
    ensures forall app, i :: app in apps && 0 <= i < |app.ports| ==>
      ConfigName(app, i) !in Temps(apps) && TmpName(app, i) in Temps(apps)
  {
    forall name | name in Temps(apps) ensures !EndsWith(name, INSTANCES) {
      var app, e :| app in apps && e in EntriesOf(app) && e.tmp == name;
      var i :| 0 <= i < |app.ports| && EntriesOf(app)[i] == e;
      EntryAt(app, i);
      NamesEnd(app, i);
    }
    forall app, i | app in apps && 0 <= i < |app.ports|
      ensures ConfigName(app, i) !in Temps(apps) && TmpName(app, i) in Temps(apps)
    {
      NamesEnd(app, i);
      EntryAt(app, i);
      assert EntriesOf(app)[i] in EntriesOf(app);
    }
  }

  // ---- the directory ----

  /** How a write fares: it succeeds, it cannot open the file, or it stops after some bytes. */
  datatype Fault = NoFault | NotOpened | Stopped(after: nat)

  /** The environment's choice for each file name; none is a success. */
  function FaultOf(faults: map<string, Fault>, name: string): Fault {
    if name in faults then faults[name] else NoFault
  }

  /** The temp files of the first `n` entries can be written. */
  ghost predicate Writable(faults: map<string, Fault>, es: seq<Entry>, n: nat)
    requires n <= |es|
  {
    n > 0 ==> Writable(faults, es, n - 1) && FaultOf(faults, es[n - 1].tmp) == NoFault
  }

  lemma {:induction false} FirstFaultStays(faults: map<string, Fault>, es: seq<Entry>, i: nat, n: nat)
    requires i < n <= |es| && FaultOf(faults, es[i].tmp) != NoFault
    ensures !Writable(faults, es, n)
  {
    if i < n - 1 { FirstFaultStays(faults, es, i, n - 1); }
  }

  /** How many of the first `n` entries are written before one fails. */
  ghost function Delivered(faults: map<string, Fault>, es: seq<Entry>, n: nat): (k: nat)
    requires n <= |es|
    ensures k <= n
  {
    if n == 0 then 0
    else
      var k := Delivered(faults, es, n - 1);
      if k == n - 1 && FaultOf(faults, es[n - 1].tmp) == NoFault then n else k
  }

  lemma {:induction false} DeliveredIff(faults: map<string, Fault>, es: seq<Entry>, n: nat, i: nat)
    requires i <= n <= |es|
    ensures i <= Delivered(faults, es, n) <==> Writable(faults, es, i)
  {
    if n > 0 {
      if i < n {
        DeliveredIff(faults, es, n - 1, i);
      } else {
        DeliveredIff(faults, es, n - 1, n - 1);
      }
    }
  }

  /** The entry at which writing stops has a fault. */
  lemma {:induction false} DeliveredAt(faults: map<string, Fault>, es: seq<Entry>, n: nat, i: nat)
    requires i < n <= |es| && Writable(faults, es, i) && FaultOf(faults, es[i].tmp) != NoFault
    ensures Delivered(faults, es, n) == i
  {
    if i < n - 1 { DeliveredAt(faults, es, n - 1, i); } else { DeliveredIff(faults, es, i, i); }
  }

  /** The same files, except possibly for one name. */
  ghost predicate Apart(h: Listing, g: Listing, name: string) { h - {name} == g - {name} }

  class Directory {
    var files: Listing
    /** Every state so far, the present one last. */
    ghost var history: seq<Listing>

    ghost predicate Valid() reads this { history != [] && history[|history| - 1] == files }

    constructor (files: Listing)
      ensures this.files == files && history == [files] && Valid()
    {
      this.files, history := files, [files];
    }

    /** ioutil.WriteFile: truncates, then writes byte after byte. */
    method Write(name: string, content: Bytes, fault: Fault) returns (ok: bool)
      requires Valid()
      modifies this
      ensures Valid() && old(history) <= history
      ensures ok <==> fault == NoFault
      ensures ok ==> files == old(files)[name := content]
      ensures Apart(files, old(files), name)
      ensures forall k :: |old(history)| <= k < |history| ==> Apart(history[k], old(files), name)
    {
      ok := fault == NoFault;
      if fault == NotOpened { return; }
      var written := if fault.Stopped? && fault.after < |content| then content[..fault.after] else content;
      ghost var before := files;
      history := history + seq(|written| + 1, k requires 0 <= k <= |written| => before[name := written[..k]]);
      assert written[..|written|] == written;
      files := files[name := written];
    }

    method Rename(from: string, to: string)
      requires Valid() && from in files && from != to
      modifies this
      ensures Valid() && files == old(files)[to := old(files)[from]] - {from}
      ensures history == old(history) + [files]
    {
      files := files[to := files[from]] - {from};
      history := history + [files];
    }

    method Remove(name: string)
      requires Valid()
      modifies this
      ensures Valid() && files == old(files) - {name}
      ensures history == old(history) + [files]
    {
      files := files - {name};
      history := history + [files];
    }
  }

  // ---- what an observer may see ----

  /** `c` is a complete rendering of an application port that maps to `name`. */
  ghost predicate Rendered(apps: seq<App>, name: string, c: Bytes) {
    exists app, e :: app in apps && e in EntriesOf(app) && e.name == name && e.content == c
  }

  ghost function RenderedBy(apps: seq<App>): (string, Bytes) -> bool { (name, c) => Rendered(apps, name, c) }

  /** Each file but a temp file holds its previous complete content or a complete rendering, and the kept ones are there. */
  ghost predicate Good(h: Listing, start: Listing, rendered: (string, Bytes) -> bool, temps: set<string>, keep: set<string>) {
    && (forall name :: name in h && name !in temps ==> (name in start && h[name] == start[name]) || rendered(name, h[name]))
    && keep <= h.Keys
  }

  lemma GoodApart(h: Listing, g: Listing, start: Listing, rendered: (string, Bytes) -> bool, temps: set<string>,
      keep: set<string>, name: string)
    requires Good(h, start, rendered, temps, keep) && name in temps && name !in keep && Apart(g, h, name)
    ensures Good(g, start, rendered, temps, keep)
  {
    forall x | x != name ensures (x in g <==> x in h) && (x in g ==> g[x] == h[x]) {
      assert x in g <==> x in g - {name};
      assert x in h <==> x in h - {name};
    }
  }

  lemma GoodRename(h: Listing, start: Listing, rendered: (string, Bytes) -> bool, temps: set<string>, keep: set<string>, e: Entry)
    requires Good(h, start, rendered, temps, keep) && e.tmp !in keep && rendered(e.name, e.content)
    ensures Good(h[e.name := e.content] - {e.tmp}, start, rendered, temps, keep)
  {}

  // ---- what one application's ports do to a directory ----

  /** The directory after the first `n` entries. */
  ghost function Written(f: Listing, es: seq<Entry>, n: nat): Listing
    requires n <= |es|
  {
    if n == 0 then f else Written(f, es, n - 1)[es[n - 1].name := es[n - 1].content] - {es[n - 1].tmp}
  }

  /** A state on the way: some entries are done, and at most one temp file is being written. */
  ghost predicate OnTheWay(h: Listing, f: Listing, es: seq<Entry>) {
    exists n :: 0 <= n <= |es| && (h == Written(f, es, n) || (n < |es| && Apart(h, Written(f, es, n), es[n].tmp)))
  }

  lemma OnTheWayAt(h: Listing, f: Listing, es: seq<Entry>, n: nat)
    requires n <= |es| && (h == Written(f, es, n) || (n < |es| && Apart(h, Written(f, es, n), es[n].tmp)))
    ensures OnTheWay(h, f, es)
  {}

  /** The states while entry `i` is handled. */
  lemma PortOnTheWay(history: seq<Listing>, mark: nat, f: Listing, es: seq<Entry>, i: nat, after: Listing, ok: bool)
    requires i < |es| && if ok then after == Written(f, es, i + 1) else Apart(after, Written(f, es, i), es[i].tmp)
    requires forall k :: mark <= k < |history| ==>
               Apart(history[k], Written(f, es, i), es[i].tmp) || (ok && history[k] == after)
    ensures OnTheWay(after, f, es)
    ensures forall k :: mark <= k < |history| ==> OnTheWay(history[k], f, es)
  {
    OnTheWayAt(after, f, es, if ok then i + 1 else i);
    forall k | mark <= k < |history| ensures OnTheWay(history[k], f, es) {
      OnTheWayAt(history[k], f, es, if Apart(history[k], Written(f, es, i), es[i].tmp) then i else i + 1);
    }
  }

  lemma {:induction false} WrittenIsGood(f: Listing, es: seq<Entry>, n: nat, start: Listing,
      rendered: (string, Bytes) -> bool, temps: set<string>, keep: set<string>)
    requires n <= |es| && Good(f, start, rendered, temps, keep)
    requires forall i :: 0 <= i < |es| ==> es[i].tmp !in keep && rendered(es[i].name, es[i].content)
    ensures Good(Written(f, es, n), start, rendered, temps, keep)
  {
    if n > 0 {
      WrittenIsGood(f, es, n - 1, start, rendered, temps, keep);
      GoodRename(Written(f, es, n - 1), start, rendered, temps, keep, es[n - 1]);
    }
  }

  /** No state on the way of an application of `apps` shows anything but complete files. */
  lemma OnTheWayIsGood(h: Listing, f: Listing, app: App, start: Listing, apps: seq<App>, keep: set<string>)
    requires OnTheWay(h, f, EntriesOf(app)) && app in apps && keep !! Temps(apps) &&
      Good(f, start, RenderedBy(apps), Temps(apps), keep)
    ensures Good(h, start, RenderedBy(apps), Temps(apps), keep)
  {
    var es := EntriesOf(app);
    var n :| 0 <= n <= |es| && (h == Written(f, es, n) || (n < |es| && Apart(h, Written(f, es, n), es[n].tmp)));
    forall i | 0 <= i < |es| ensures es[i].tmp in Temps(apps) && RenderedBy(apps)(es[i].name, es[i].content) {
      assert es[i] in es;
    }
    WrittenIsGood(f, es, n, start, RenderedBy(apps), Temps(apps), keep);
    if h != Written(f, es, n) { GoodApart(Written(f, es, n), h, start, RenderedBy(apps), Temps(apps), keep, es[n].tmp); }
  }

  // ---- what Apply is to leave ----

  /** The files of the first `n` entries, the last entry of a name winning. */
  ghost function WantedOf(w: Listing, es: seq<Entry>, n: nat): Listing
    requires n <= |es|
  {
    if n == 0 then w else WantedOf(w, es, n - 1)[es[n - 1].name := es[n - 1].content]
  }

  ghost function WantedAll(ess: seq<seq<Entry>>, n: nat): Listing
    requires n <= |ess|
  {
    if n == 0 then map[] else WantedOf(WantedAll(ess, n - 1), ess[n - 1], |ess[n - 1]|)
  }

  ghost function AllEntries(apps: seq<App>): (ess: seq<seq<Entry>>)
    ensures |ess| == |apps| && forall k :: 0 <= k < |apps| ==> ess[k] == EntriesOf(apps[k])
  {
    seq(|apps|, k requires 0 <= k < |apps| => EntriesOf(apps[k]))
  }

  /** The directory that a full Apply is to leave: for every name the rendering of the last port that maps to it. */
  ghost function Wanted(apps: seq<App>): Listing { WantedAll(AllEntries(apps), |apps|) }

  /** What the ports deliver: each application's entries up to its first failed write. */
  ghost function DeliveredEntries(faults: map<string, Fault>, apps: seq<App>): (ess: seq<seq<Entry>>)
    ensures |ess| == |apps|
  {
    seq(|apps|, k requires 0 <= k < |apps| => EntriesOf(apps[k])[..Delivered(faults, EntriesOf(apps[k]), |apps[k].ports|)])
  }

  ghost function DeliveredAll(faults: map<string, Fault>, apps: seq<App>, n: nat): Listing
    requires n <= |apps|
  {
    WantedAll(DeliveredEntries(faults, apps), n)
  }

  ghost function DeliveredFiles(faults: map<string, Fault>, apps: seq<App>): Listing { DeliveredAll(faults, apps, |apps|) }

  /** The names of the ports that are written: those of whose application no port up to them has a fault. */
  ghost function PublishedNames(faults: map<string, Fault>, apps: seq<App>): set<string> {
    set k, i | 0 <= k < |apps| && 0 <= i < |apps[k].ports| && Writable(faults, EntriesOf(apps[k]), i + 1)
      :: ConfigName(apps[k], i)
  }

  /** The directory holds everything wanted, and besides that at most leftovers. */
  ghost predicate Holds(files: Listing, wanted: Listing, leftovers: set<string>) {
    && (forall name :: name in wanted ==> name in files && files[name] == wanted[name])
    && files.Keys <= wanted.Keys + leftovers
  }

  lemma HoldsRename(f: Listing, w: Listing, leftovers: set<string>, e: Entry)
    requires Holds(f, w, leftovers) && e.tmp !in w && e.tmp != e.name
    ensures Holds(f[e.name := e.content] - {e.tmp}, w[e.name := e.content], leftovers)
  {}

  lemma HoldsApart(f: Listing, g: Listing, w: Listing, leftovers: set<string>, name: string)
    requires Holds(f, w, leftovers) && Apart(g, f, name) && name !in w && name in leftovers
    ensures Holds(g, w, leftovers)
  {
    forall x | x != name ensures (x in g <==> x in f) && (x in g ==> g[x] == f[x]) {
      assert x in g <==> x in g - {name};
      assert x in f <==> x in f - {name};
    }
  }

  lemma {:induction false} WrittenHolds(f: Listing, es: seq<Entry>, n: nat, w: Listing, leftovers: set<string>,
      temps: set<string>)
    requires n <= |es| && Holds(f, w, leftovers) && w.Keys !! temps
    requires forall i :: 0 <= i < |es| ==> es[i].tmp in temps && es[i].name !in temps
    ensures Holds(Written(f, es, n), WantedOf(w, es, n), leftovers) && WantedOf(w, es, n).Keys !! temps
  {
    if n > 0 {
      WrittenHolds(f, es, n - 1, w, leftovers, temps);
      HoldsRename(Written(f, es, n - 1), WantedOf(w, es, n - 1), leftovers, es[n - 1]);
    }
  }

  ghost function Names(es: seq<Entry>, n: nat): set<string>
    requires n <= |es|
  {
    if n == 0 then {} else Names(es, n - 1) + {es[n - 1].name}
  }

  lemma {:induction false} WantedOfKeys(w: Listing, es: seq<Entry>, n: nat)
    requires n <= |es|
    ensures WantedOf(w, es, n).Keys == w.Keys + Names(es, n)
  {
    if n > 0 { WantedOfKeys(w, es, n - 1); }
  }

  /** A prefix of the entries does not depend on the rest. */
  lemma {:induction false} WantedOfPrefix(w: Listing, es: seq<Entry>, d: nat, n: nat)
    requires n <= d <= |es|
    ensures WantedOf(w, es[..d], n) == WantedOf(w, es, n) && Names(es[..d], n) == Names(es, n)
  {
    if n > 0 { WantedOfPrefix(w, es, d, n - 1); }
  }

  lemma {:induction false} NamesMember(es: seq<Entry>, n: nat, name: string)
    requires n <= |es|
    ensures name in Names(es, n) <==> exists i :: 0 <= i < n && es[i].name == name
  {
    if n > 0 { NamesMember(es, n - 1, name); }
  }

  lemma {:induction false} WantedAllKeys(ess: seq<seq<Entry>>, n: nat, name: string)
    requires n <= |ess|
    ensures name in WantedAll(ess, n) <==> exists k, i :: 0 <= k < n && 0 <= i < |ess[k]| && ess[k][i].name == name
  {
    if n > 0 {
      var es := ess[n - 1];
      WantedAllKeys(ess, n - 1, name);
      WantedOfKeys(WantedAll(ess, n - 1), es, |es|);
      NamesMember(es, |es|, name);
    }
  }

  /** A name is wanted exactly when some port maps to it. */
  lemma WantedKeys(apps: seq<App>, name: string)
    ensures name in Wanted(apps) <==>
              exists k, i :: 0 <= k < |apps| && 0 <= i < |apps[k].ports| && ConfigName(apps[k], i) == name
  {
    var ess: seq<seq<Entry>> := AllEntries(apps);
    WantedAllKeys(ess, |ess|, name);
    forall k, i | 0 <= k < |apps| && 0 <= i < |apps[k].ports| ensures ess[k][i].name == ConfigName(apps[k], i) {
      EntryAt(apps[k], i);
    }
  }

  lemma {:induction false} LastEntryWins(w: Listing, es: seq<Entry>, n: nat, i: nat)
    requires i < n <= |es| && forall j :: i < j < n ==> es[j].name != es[i].name
    ensures es[i].name in WantedOf(w, es, n) && WantedOf(w, es, n)[es[i].name] == es[i].content
  {
    if i < n - 1 { LastEntryWins(w, es, n - 1, i); }
  }

  lemma {:induction false} OthersKept(w: Listing, es: seq<Entry>, n: nat, name: string)
    requires n <= |es| && name in w && forall j :: 0 <= j < n ==> es[j].name != name
    ensures name in WantedOf(w, es, n) && WantedOf(w, es, n)[name] == w[name]
  {
    if n > 0 { OthersKept(w, es, n - 1, name); }
  }

  lemma ConfigNameInjective(a: App, i: nat, b: App, j: nat)
    requires i < |a.ports| && j < |b.ports| && PlainId(a.id) && PlainId(b.id) && ConfigName(a, i) == ConfigName(b, j)
    ensures a.id == b.id && i == j
  {
    var x, y := PrettifyAppId(a.id, i, a.ports[i]), PrettifyAppId(b.id, j, b.ports[j]);
    assert x == (x + INSTANCES)[..|x|] && y == (y + INSTANCES)[..|y|];
    PrettifyInjective(a.id, i, a.ports[i], b.id, j, b.ports[j]);
  }

  lemma NameIsOwn(a: App, i: nat, b: App)
    requires i < |a.ports| && PlainId(a.id) && PlainId(b.id)
    ensures forall j :: 0 <= j < |b.ports| && EntriesOf(b)[j].name == ConfigName(a, i) ==> a.id == b.id && i == j
  {
    forall j | 0 <= j < |b.ports| && EntriesOf(b)[j].name == ConfigName(a, i) ensures a.id == b.id && i == j {
      EntryAt(b, j);
      ConfigNameInjective(a, i, b, j);
    }
  }

  /** No later entry has the name of entry `i` of list `k`. */
  ghost predicate LastOwner(ess: seq<seq<Entry>>, k: nat, i: nat)
    requires k < |ess| && i < |ess[k]|
  {
    forall l, j :: 0 <= l < |ess| && 0 <= j < |ess[l]| && ess[l][j].name == ess[k][i].name ==> l < k || (l == k && j <= i)
  }

  /** Every name holds the rendering of the last port that maps to it. */
  lemma {:induction false} LastOwnerWins(ess: seq<seq<Entry>>, n: nat, k: nat, i: nat)
    requires k < n <= |ess| && i < |ess[k]| && LastOwner(ess, k, i)
    ensures ess[k][i].name in WantedAll(ess, n) && WantedAll(ess, n)[ess[k][i].name] == ess[k][i].content
    decreases n
  {
    var es := ess[n - 1];
    if k == n - 1 {
      LastEntryWins(WantedAll(ess, n - 1), es, |es|, i);
    } else {
      LastOwnerWins(ess, n - 1, k, i);
      forall j | 0 <= j < |es| ensures es[j].name != ess[k][i].name { assert es[j] == ess[n - 1][j]; }
      OthersKept(WantedAll(ess, n - 1), es, |es|, ess[k][i].name);
    }
  }

  /** With distinct plain ids, every port's file holds that port's own rendering. */
  lemma EveryPortHasItsFile(apps: seq<App>, k: nat, i: nat)
    requires k < |apps| && i < |apps[k].ports|
    requires forall j :: 0 <= j < |apps| ==> PlainId(apps[j].id)
    requires forall j, l :: 0 <= j < l < |apps| ==> apps[j].id != apps[l].id
    ensures ConfigName(apps[k], i) in Wanted(apps) && Wanted(apps)[ConfigName(apps[k], i)] == Content(apps[k], i)
  {
    var ess: seq<seq<Entry>> := AllEntries(apps);
    EntryAt(apps[k], i);
    forall l, j | 0 <= l < |ess| && 0 <= j < |ess[l]| && ess[l][j].name == ess[k][i].name ensures l == k && j == i {
      NameIsOwn(apps[k], i, apps[l]);
    }
    LastOwnerWins(ess, |ess|, k, i);
  }

  // ---- lemmas for the two halves of Apply ----

  ghost predicate AllWritable(faults: map<string, Fault>, apps: seq<App>, n: nat)
    requires n <= |apps|
  {
    forall k :: 0 <= k < n ==> Writable(faults, EntriesOf(apps[k]), |apps[k].ports|)
  }

  ghost predicate StatesGood(history: seq<Listing>, from: nat, start: Listing, rendered: (string, Bytes) -> bool,
      temps: set<string>, keep: set<string>) {
    forall k :: from <= k < |history| ==> Good(history[k], start, rendered, temps, keep)
  }

  lemma {:induction false} NameInEntries(es: seq<Entry>, n: nat, name: string) returns (i: nat)
    requires n <= |es| && name in Names(es, n)
    ensures i < n && es[i].name == name
  {
    if es[n - 1].name == name { i := n - 1; } else { i := NameInEntries(es, n - 1, name); }
  }

  lemma NamesAreNotTemps(apps: seq<App>, app: App, n: nat)
    requires app in apps && n <= |app.ports|
    ensures Names(EntriesOf(app), n) !! Temps(apps)
  {
    TempsAreNotInstances(apps);
    forall name | name in Names(EntriesOf(app), n) ensures name !in Temps(apps) {
      var i := NameInEntries(EntriesOf(app), n, name);
      EntryAt(app, i);
    }
  }

  /** One application up to its first fault: the directory holds what is delivered so far. */
  lemma AppHolds(faults: map<string, Fault>, apps: seq<App>, k: nat, f: Listing, leftovers: set<string>)
    requires k < |apps| && Holds(f, DeliveredAll(faults, apps, k), leftovers)
    requires DeliveredAll(faults, apps, k).Keys !! Temps(apps)
    ensures var es := EntriesOf(apps[k]); var n := Delivered(faults, es, |es|);
            && Holds(Written(f, es, n), DeliveredAll(faults, apps, k + 1), leftovers)
            && DeliveredAll(faults, apps, k + 1).Keys == DeliveredAll(faults, apps, k).Keys + Names(es, n)
  {
    var es := EntriesOf(apps[k]);
    var n := Delivered(faults, es, |es|);
    TempsAreNotInstances(apps);
    forall i | 0 <= i < |es| ensures es[i].tmp in Temps(apps) && es[i].name !in Temps(apps) { EntryAt(apps[k], i); }
    var before := DeliveredAll(faults, apps, k);
    WrittenHolds(f, es, n, before, leftovers, Temps(apps));
    WantedOfPrefix(before, es, n, n);
    WantedOfKeys(before, es, n);
    assert DeliveredEntries(faults, apps)[k] == es[..n];
    assert DeliveredAll(faults, apps, k + 1) == WantedOf(before, es[..n], n);
  }

  /** What holds after `k` applications, of the directory and of the names that were written. */
  ghost predicate Progress(faults: map<string, Fault>, apps: seq<App>, k: nat, start: Listing, files: Listing, names: set<string>)
    requires k <= |apps|
  {
    && Good(files, start, RenderedBy(apps), Temps(apps), start.Keys - Temps(apps))
    && names !! Temps(apps) && names == DeliveredAll(faults, apps, k).Keys
    && Holds(files, DeliveredAll(faults, apps, k), start.Keys + Temps(apps))
    && (AllWritable(faults, apps, k) ==> files.Keys <= names + start.Keys)
  }

  /** Where writing one application stops: `n` entries done, and a temp file that may be damaged. */
  ghost predicate StopsAt(after: Listing, before: Listing, es: seq<Entry>, n: nat)
    requires n <= |es|
  {
    if n == |es| then after == Written(before, es, n) else Apart(after, Written(before, es, n), es[n].tmp)
  }

  lemma StoppedHolds(faults: map<string, Fault>, apps: seq<App>, k: nat, before: Listing, after: Listing, leftovers: set<string>)
    requires k < |apps| && Holds(before, DeliveredAll(faults, apps, k), leftovers + Temps(apps))
    requires DeliveredAll(faults, apps, k).Keys !! Temps(apps)
    requires var es := EntriesOf(apps[k]); StopsAt(after, before, es, Delivered(faults, es, |es|))
    ensures Holds(after, DeliveredAll(faults, apps, k + 1), leftovers + Temps(apps))
  {
    var es := EntriesOf(apps[k]);
    var n := Delivered(faults, es, |es|);
    AppHolds(faults, apps, k, before, leftovers + Temps(apps));
    NamesAreNotTemps(apps, apps[k], n);
    if n < |es| {
      assert es[n].tmp in Temps(apps) by { assert es[n] in es; }
      HoldsApart(Written(before, es, n), after, DeliveredAll(faults, apps, k + 1), leftovers + Temps(apps), es[n].tmp);
    }
  }

  lemma ProgressStep(faults: map<string, Fault>, apps: seq<App>, k: nat, start: Listing, before: Listing,
      after: Listing, names: set<string>, n: nat)
    requires k < |apps| && Progress(faults, apps, k, start, before, names)
    requires var es := EntriesOf(apps[k]); n == Delivered(faults, es, |es|) && StopsAt(after, before, es, n)
    ensures Progress(faults, apps, k + 1, start, after, names + Names(EntriesOf(apps[k]), n))
  {
    var es := EntriesOf(apps[k]);
    OnTheWayAt(after, before, es, n);
    OnTheWayIsGood(after, before, apps[k], start, apps, start.Keys - Temps(apps));
    NamesAreNotTemps(apps, apps[k], n);
    AppHolds(faults, apps, k, before, start.Keys + Temps(apps));
    StoppedHolds(faults, apps, k, before, after, start.Keys);
    if AllWritable(faults, apps, k + 1) {
      assert AllWritable(faults, apps, k);
      DeliveredIff(faults, es, |es|, |es|);
      AppHolds(faults, apps, k, before, start.Keys);
    }
  }

  /** Port `i` is written, under this name. */
  ghost predicate Writes(faults: map<string, Fault>, app: App, i: nat, name: string) {
    i < |app.ports| && Writable(faults, EntriesOf(app), i + 1) && ConfigName(app, i) == name
  }

  lemma DeliveredRow(faults: map<string, Fault>, apps: seq<App>, k: nat)
    requires k < |apps|
    ensures DeliveredEntries(faults, apps)[k] == EntriesOf(apps[k])[..Delivered(faults, EntriesOf(apps[k]), |apps[k].ports|)]
  {}

  /** The delivered entries are those of the written ports. */
  lemma DeliveredEntry(faults: map<string, Fault>, apps: seq<App>, k: nat, i: nat)
    requires k < |apps| && i < |DeliveredEntries(faults, apps)[k]|
    ensures var e := DeliveredEntries(faults, apps)[k][i];
            Writes(faults, apps[k], i, e.name) && e.content == Content(apps[k], i)
  {
    DeliveredRow(faults, apps, k);
    EntryAt(apps[k], i);
    DeliveredIff(faults, EntriesOf(apps[k]), |apps[k].ports|, i + 1);
  }

  lemma WrittenIsDelivered(faults: map<string, Fault>, apps: seq<App>, k: nat, i: nat, name: string)
    requires k < |apps| && Writes(faults, apps[k], i, name)
    ensures i < |DeliveredEntries(faults, apps)[k]| && DeliveredEntries(faults, apps)[k][i].name == name
  {
    DeliveredRow(faults, apps, k);
    EntryAt(apps[k], i);
    DeliveredIff(faults, EntriesOf(apps[k]), |apps[k].ports|, i + 1);
  }

  /** The delivered names are those of the written ports. */
  lemma DeliveredKeys(faults: map<string, Fault>, apps: seq<App>, name: string)
    ensures name in DeliveredFiles(faults, apps) <==> exists k, i :: 0 <= k < |apps| && Writes(faults, apps[k], i, name)
  {
    WantedAllKeys(DeliveredEntries(faults, apps), |apps|, name);
    if name in DeliveredFiles(faults, apps) {
      var k, i := DeliveredSomewhere(DeliveredEntries(faults, apps), |apps|, name);
      DeliveredEntry(faults, apps, k, i);
    }
    if k, i :| 0 <= k < |apps| && Writes(faults, apps[k], i, name) {
      WrittenIsDelivered(faults, apps, k, i, name);
    }
  }

  lemma DeliveredSomewhere(ess: seq<seq<Entry>>, n: nat, name: string) returns (k: nat, i: nat)
    requires n <= |ess| && name in WantedAll(ess, n)
    ensures k < n && i < |ess[k]| && ess[k][i].name == name
  {
    WantedAllKeys(ess, n, name);
    k, i :| 0 <= k < n && 0 <= i < |ess[k]| && ess[k][i].name == name;
  }

  lemma PublishedAreDelivered(faults: map<string, Fault>, apps: seq<App>)
    ensures DeliveredFiles(faults, apps).Keys == PublishedNames(faults, apps)
  {
    forall name ensures name in DeliveredFiles(faults, apps) <==> name in PublishedNames(faults, apps) {
      DeliveredKeys(faults, apps, name);
      if name in PublishedNames(faults, apps) { PublishedWrites(faults, apps, name); }
      if k, i :| 0 <= k < |apps| && Writes(faults, apps[k], i, name) { WritesPublished(faults, apps, k, i, name); }
    }
  }

  lemma WritesPublished(faults: map<string, Fault>, apps: seq<App>, k: nat, i: nat, name: string)
    requires k < |apps| && Writes(faults, apps[k], i, name)
    ensures name in PublishedNames(faults, apps)
  {
    assert ConfigName(apps[k], i) in PublishedNames(faults, apps);
  }

  lemma PublishedWrites(faults: map<string, Fault>, apps: seq<App>, name: string)
    requires name in PublishedNames(faults, apps)
    ensures exists k, i :: 0 <= k < |apps| && Writes(faults, apps[k], i, name)
  {
    var k, i :| 0 <= k < |apps| && 0 <= i < |apps[k].ports|
                && Writable(faults, EntriesOf(apps[k]), i + 1) && ConfigName(apps[k], i) == name;
    assert Writes(faults, apps[k], i, name);
  }

  /** Without faults everything that is wanted is delivered. */
  lemma DeliveredIsWanted(faults: map<string, Fault>, apps: seq<App>)
    requires AllWritable(faults, apps, |apps|)
    ensures DeliveredFiles(faults, apps) == Wanted(apps)
  {
    var all: seq<seq<Entry>>, ess: seq<seq<Entry>> := AllEntries(apps), DeliveredEntries(faults, apps);
    forall k | 0 <= k < |apps| ensures ess[k] == all[k] {
      DeliveredRow(faults, apps, k);
      DeliveredIff(faults, EntriesOf(apps[k]), |apps[k].ports|, |apps[k].ports|);
    }
    assert ess == all;
  }

  /** A published name holds the rendering of the last written port that maps to it. */
  lemma LastDeliveredWins(faults: map<string, Fault>, apps: seq<App>, k: nat, i: nat, name: string)
    requires k < |apps| && Writes(faults, apps[k], i, name)
    requires forall l: nat, j: nat :: l < |apps| && Writes(faults, apps[l], j, name) ==> l < k || (l == k && j <= i)
    ensures var files := DeliveredFiles(faults, apps); name in files && files[name] == Content(apps[k], i)
  {
    var ess: seq<seq<Entry>> := DeliveredEntries(faults, apps);
    WrittenIsDelivered(faults, apps, k, i, name);
    DeliveredEntry(faults, apps, k, i);
    forall l, j | 0 <= l < |ess| && 0 <= j < |ess[l]| && ess[l][j].name == name ensures l < k || (l == k && j <= i) {
      DeliveredEntry(faults, apps, l, j);
    }
    assert LastOwner(ess, k, i);
    LastOwnerWins(ess, |ess|, k, i);
  }

  lemma GoodKeepsFewer(h: Listing, start: Listing, rendered: (string, Bytes) -> bool, temps: set<string>,
      keep: set<string>, gone: set<string>, kept: set<string>)
    requires Good(h, start, rendered, temps, keep) && kept <= keep - gone
    ensures Good(h - gone, start, rendered, temps, kept)
  {}

  /** Extending a good history by the states on one application's way. */
  lemma WriteAppStatesGood(history: seq<Listing>, from: nat, mark: nat, before: Listing, app: App, start: Listing,
      apps: seq<App>, keep: set<string>)
    requires from <= mark <= |history| && StatesGood(history[..mark], from, start, RenderedBy(apps), Temps(apps), keep)
    requires forall k :: mark <= k < |history| ==> OnTheWay(history[k], before, EntriesOf(app))
    requires app in apps && keep !! Temps(apps) && Good(before, start, RenderedBy(apps), Temps(apps), keep)
    ensures StatesGood(history, from, start, RenderedBy(apps), Temps(apps), keep)
  {
    forall k | from <= k < |history| ensures Good(history[k], start, RenderedBy(apps), Temps(apps), keep) {
      if k < mark {
        assert history[k] == history[..mark][k];
      } else {
        OnTheWayIsGood(history[k], before, app, start, apps, keep);
      }
    }
  }

  /** The states of both halves of Apply, for the files that are kept to its end. */
  lemma ApplyStatesGood(history: seq<Listing>, from: nat, mark: nat, start: Listing, written: Listing, apps: seq<App>,
      published: set<string>)
    requires from <= mark <= |history| && published !! Temps(apps)
    requires StatesGood(history[..mark], from, start, RenderedBy(apps), Temps(apps), start.Keys - Temps(apps))
    requires Good(written, start, RenderedBy(apps), Temps(apps), start.Keys - Temps(apps))
    requires forall k :: mark <= k < |history| ==> exists gone :: gone <= start.Keys - published && history[k] == written - gone
    ensures StatesGood(history, from, start, RenderedBy(apps), Temps(apps), start.Keys * published)
  {
    var temps, rendered := Temps(apps), RenderedBy(apps);
    forall k | from <= k < |history| ensures Good(history[k], start, rendered, temps, start.Keys * published) {
      if k < mark {
        assert history[k] == history[..mark][k] && history[k] == history[k] - {};
        GoodKeepsFewer(history[k], start, rendered, temps, start.Keys - temps, {}, start.Keys * published);
      } else {
        var gone :| gone <= start.Keys - published && history[k] == written - gone;
        GoodKeepsFewer(written, start, rendered, temps, start.Keys - temps, gone, start.Keys * published);
      }
    }
  }

  /** The sweep leaves what is delivered, and temp files of failed writes that were not there before. */
  lemma HeldAfterSweep(f: Listing, w: Listing, old_: set<string>, temps: set<string>)
    requires Holds(f, w, old_ + temps) && w.Keys !! temps
    ensures var after := f - (old_ - w.Keys);
            && (forall name :: name in w ==> name in after && after[name] == w[name])
            && (forall name :: name !in temps ==> (name in after <==> name in w))
            && (forall name :: name in old_ ==> (name in after <==> name in w))
            && (f.Keys <= w.Keys + old_ ==> after == w)
  {}

  // ---- the manager ----

  class FilesManager {
    const dir: Directory
    const read: Reader
    const faults: map<string, Fault>

    constructor (dir: Directory, read: Reader, faults: map<string, Fault>)
      ensures this.dir == dir && this.read == read && this.faults == faults
    {
      this.dir, this.read, this.faults := dir, read, faults;
    }

    /** writeFile up to the write: the text of one `.instances` file. */
    method MakeContent(app: App, portIndex: nat) returns (b: Bytes)
      requires portIndex < |app.ports|
      ensures b == Content(app, portIndex)
    {
      b := "";
      for k := 0 to |app.tasks|
        invariant b == TaskLines(app.tasks[..k], portIndex)
      {
        var t := app.tasks[k];
        assert app.tasks[..k + 1][..k] == app.tasks[..k];
        if portIndex < |t.ports| { b := b + (t.host + ":" + Dec(t.ports[portIndex]) + "\n"); }
      }
      assert app.tasks[..|app.tasks|] == app.tasks;
      b := Header(app, portIndex) + b;
    }

    /** Moves a complete temp file over its `.instances` file, or drops it if nothing changed. */
    method PublishFile(tmp: string, cfg: string)
      requires dir.Valid() && tmp in dir.files && tmp != cfg
      modifies dir
      ensures dir.Valid() && dir.files == old(dir.files)[cfg := old(dir.files)[tmp]] - {tmp}
      ensures dir.history == old(dir.history) + [dir.files]
    {
      if cfg !in dir.files {
        dir.Rename(tmp, cfg);
      } else {
        var same := FileIsIdentical(Some(dir.files[tmp]), Some(dir.files[cfg]), read, read);
        if !same {
          dir.Rename(tmp, cfg);
        } else {
          IdenticalSound(dir.files[tmp], dir.files[cfg], read, read);
          dir.Remove(tmp);
        }
      }
    }

    /** One port: write the temp file, then publish it. */
    method WritePort(app: App, i: nat) returns (cfg: string, ok: bool)
      requires dir.Valid() && i < |app.ports|
      modifies dir
      ensures cfg == ConfigName(app, i)
      ensures dir.Valid() && old(dir.history) <= dir.history
      ensures ok <==> FaultOf(faults, cfg + TMP) == NoFault
      ensures if ok then dir.files == old(dir.files)[cfg := Content(app, i)] - {cfg + TMP}
        else Apart(dir.files, old(dir.files), cfg + TMP)
      ensures forall k :: |old(dir.history)| <= k < |dir.history| ==>
                Apart(dir.history[k], old(dir.files), cfg + TMP) || (ok && dir.history[k] == dir.files)
    {
      cfg := PrettifyAppId(app.id, i, app.ports[i]) + INSTANCES;
      NamesEnd(app, i);
      var b := MakeContent(app, i);
      ok := dir.Write(cfg + TMP, b, FaultOf(faults, cfg + TMP));
      if ok { PublishFile(cfg + TMP, cfg); }
    }

    /** writeApp: stops at the first write that fails. */
    method WriteApp(app: App) returns (files: seq<string>, ok: bool)
      requires dir.Valid()
      modifies dir
      ensures dir.Valid() && old(dir.history) <= dir.history
      ensures OnTheWay(dir.files, old(dir.files), EntriesOf(app))
      ensures forall k :: |old(dir.history)| <= k < |dir.history| ==> OnTheWay(dir.history[k], old(dir.files), EntriesOf(app))
      ensures ok <==> Writable(faults, EntriesOf(app), |app.ports|)
      ensures |files| == Delivered(faults, EntriesOf(app), |app.ports|)
      ensures StopsAt(dir.files, old(dir.files), EntriesOf(app), |files|)
      ensures Elements(files) == Names(EntriesOf(app), |files|)
    {
      files, ok := [], true;
      ghost var es := EntriesOf(app);
      for i := 0 to |app.ports|
        invariant dir.Valid() && old(dir.history) <= dir.history
        invariant dir.files == Written(old(dir.files), es, i) && Elements(files) == Names(es, i) && |files| == i
        invariant Writable(faults, es, i)
        invariant forall k :: |old(dir.history)| <= k < |dir.history| ==> OnTheWay(dir.history[k], old(dir.files), es)
      {
        var cfg: string;
        ghost var mark := |dir.history|;
        cfg, ok := WritePort(app, i);
        EntryAt(app, i);
        assert ok ==> dir.files == Written(old(dir.files), es, i + 1);
        PortOnTheWay(dir.history, mark, old(dir.files), es, i, dir.files, ok);
        if !ok {
          FirstFaultStays(faults, es, i, |app.ports|);
          DeliveredAt(faults, es, |app.ports|, i);
          return;
        }
        ElementsAppend(files, [cfg]);
        assert Elements([cfg]) == {cfg};
        files := files + [cfg];
      }
      DeliveredIff(faults, es, |app.ports|, |app.ports|);
    }

    /** The first half of Apply: every application in turn, whatever fails. */
    method WriteApps(apps: seq<App>) returns (newFiles: seq<string>)
      requires dir.Valid()
      modifies dir
      ensures dir.Valid() && old(dir.history) <= dir.history
      ensures var keep := old(dir.files.Keys) - Temps(apps);
              && Good(dir.files, old(dir.files), RenderedBy(apps), Temps(apps), keep)
              && StatesGood(dir.history, |old(dir.history)|, old(dir.files), RenderedBy(apps), Temps(apps), keep)
      ensures Progress(faults, apps, |apps|, old(dir.files), dir.files, Elements(newFiles))
    {
      newFiles := [];
      ghost var start, keep := dir.files, dir.files.Keys - Temps(apps);
      for k := 0 to |apps|
        invariant dir.Valid() && old(dir.history) <= dir.history
        invariant StatesGood(dir.history, |old(dir.history)|, start, RenderedBy(apps), Temps(apps), keep)
        invariant Progress(faults, apps, k, start, dir.files, Elements(newFiles))
      {
        ghost var before, mark := dir.files, |dir.history|;
        var filenames, ok := WriteApp(apps[k]);
        WriteAppStatesGood(dir.history, |old(dir.history)|, mark, before, apps[k], start, apps, keep);
        ProgressStep(faults, apps, k, start, before, dir.files, Elements(newFiles), |filenames|);
        ElementsAppend(newFiles, filenames);
        newFiles := newFiles + filenames;
      }
    }

    /** The second half of Apply: drops the old files that no application wrote. */
    method Sweep(oldFiles: seq<string>, newFiles: seq<string>)
      requires dir.Valid()
      modifies dir
      ensures dir.Valid() && old(dir.history) <= dir.history
      ensures dir.files == old(dir.files) - (Elements(oldFiles) - Elements(newFiles))
      ensures forall k :: |old(dir.history)| <= k < |dir.history| ==>
                exists gone :: gone <= Elements(oldFiles) - Elements(newFiles) && dir.history[k] == old(dir.files) - gone
    {
      var diff := FindMissing(oldFiles, newFiles);
      ghost var before := dir.files;
      ghost var gone := {};
      for i := 0 to |diff|
        invariant dir.Valid() && old(dir.history) <= dir.history
        invariant gone == Elements(diff[..i]) && dir.files == before - gone
        invariant forall k :: |old(dir.history)| <= k < |dir.history| ==>
                    exists g :: g <= Elements(oldFiles) - Elements(newFiles) && dir.history[k] == before - g
      {
        assert diff[i] in diff;
        assert diff[..i + 1] == diff[..i] + [diff[i]];
        assert Elements(diff[..i + 1]) == gone + {diff[i]};
        assert forall x :: x in diff[..i + 1] ==> x in diff;
        dir.Remove(diff[i]);
        assert dir.files == before - (gone + {diff[i]});
        gone := gone + {diff[i]};
      }
      assert diff[..|diff|] == diff;
      assert Elements(diff) == Elements(oldFiles) - Elements(newFiles);
    }

    method Apply(apps: seq<App>)
      requires dir.Valid()
      modifies dir
      ensures dir.Valid() && old(dir.history) <= dir.history
      // atomic publish, at every state that a concurrent reader can see
      ensures StatesGood(dir.history, |old(dir.history)|, old(dir.files), RenderedBy(apps), Temps(apps),
        old(dir.files.Keys) * PublishedNames(faults, apps))
      // under any faults: exactly the files of the written ports, and at most temp files of failed writes
      ensures forall name :: name in PublishedNames(faults, apps) ==>
                name in dir.files && name in DeliveredFiles(faults, apps) && dir.files[name] == DeliveredFiles(faults, apps)[name]
      ensures forall name :: name !in Temps(apps) ==> (name in dir.files <==> name in PublishedNames(faults, apps))
      // a failed write costs the port its old file: an old file survives exactly when a port wrote it
      ensures forall name :: name in old(dir.files) ==> (name in dir.files <==> name in PublishedNames(faults, apps))
      // reconciliation
      ensures AllWritable(faults, apps, |apps|) ==> dir.files == Wanted(apps)
    {
      var oldFiles := SortedKeys(dir.files);
      OrderedIsIncreasing(dir.files.Keys);
      var newFiles := WriteApps(apps);
      ghost var start, published, written, mark := old(dir.files), Elements(newFiles), dir.files, |dir.history|;
      Sweep(oldFiles, newFiles);
      PublishedAreDelivered(faults, apps);
      ApplyStatesGood(dir.history, |old(dir.history)|, mark, start, written, apps, published);
      HeldAfterSweep(written, DeliveredFiles(faults, apps), start.Keys, Temps(apps));
      if AllWritable(faults, apps, |apps|) { DeliveredIsWanted(faults, apps); }
    }
  }
}
