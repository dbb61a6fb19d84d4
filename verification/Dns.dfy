/** dns_manager.go: an index of application snapshots under reversed, dotted names. */
module Dns {
  import opened Text
  import opened Marathon
  import opened Helper

  type Address = string

  /** net.ResolveIPAddr; None is its error. */
  type Resolve = string -> Option<Address>

  datatype Entry = Entry(ipAddresses: seq<Address>, app: App)

  type Db = map<string, Entry>

  // ---- names ----

  function Reverse(parts: seq<string>): (r: seq<string>)
    ensures |r| == |parts| && forall i :: 0 <= i < |r| ==> r[i] == parts[|parts| - 1 - i]
  {
    if parts == [] then [] else Reverse(parts[1..]) + [parts[0]]
  }

  function DnsName(appId: string): string { Join(Reverse(Split(appId, '/')[1..]), '.') }

  method MakeDnsNameFromAppId(appId: string) returns (reversed: string)
    ensures reversed == DnsName(appId)
  {
    var parts := Split(appId, '/')[1..];
    var reversedParts := [];
    for i := 0 to |parts|
      invariant |reversedParts| == i && forall k :: 0 <= k < i ==> reversedParts[k] == parts[|parts| - 1 - k]
    {
      reversedParts := reversedParts + [parts[|parts| - i - 1]];
    }
    assert reversedParts == Reverse(parts);
    reversed := Join(reversedParts, '.');
  }

  lemma {:induction false} SplitRooted(id: string)
    requires id != "" && id[0] == '/'
    ensures Split(id, '/') == [""] + Split(id[1..], '/')
  {}

  /** The name of a rooted, dot-free id, cut at its dots, is the id's segments backwards. */
  lemma DnsNameReads(id: string)
    requires PlainId(id)
    ensures Split(DnsName(id), '.') == Reverse(Split(id[1..], '/'))
  {
    var parts := Split(id[1..], '/');
    SplitRooted(id);
    assert Split(id, '/')[1..] == parts;
    SplitPartsClean(id, '/');
    forall x | x in Reverse(parts) ensures '.' !in x { assert x in Split(id, '/'); }
    SplitJoin(Reverse(parts), '.');
  }

  /** On plain ids the reversed name is a key. */
  lemma DnsNameInjective(a: string, b: string)
    requires PlainId(a) && PlainId(b) && DnsName(a) == DnsName(b)
    ensures a == b
  {
    var p, q := Split(a, '/')[1..], Split(b, '/')[1..];
    SplitRooted(a);
    SplitRooted(b);
    SplitPartsClean(a, '/');
    SplitPartsClean(b, '/');
    forall x | x in Reverse(p) ensures '.' !in x { assert x in Split(a, '/'); }
    forall x | x in Reverse(q) ensures '.' !in x { assert x in Split(b, '/'); }
    SplitJoin(Reverse(p), '.');
    SplitJoin(Reverse(q), '.');
    forall i | 0 <= i < |p| ensures p[i] == q[i] {
      assert Reverse(p)[|p| - 1 - i] == Reverse(q)[|p| - 1 - i];
    }
    assert Split(a, '/') == [""] + p && Split(b, '/') == [""] + q && p == q;
    JoinSplit(a, '/');
    JoinSplit(b, '/');
  }

  function DotLabels(parts: seq<string>): seq<string> {
    if parts == [] then [] else Split(parts[0], '.') + DotLabels(parts[1..])
  }

  /** The labels of an id: its segments backwards, each cut at its dots; no segment at all counts as an empty one. */
  function NameLabels(id: string): seq<string> {
    var parts := Reverse(Split(id, '/')[1..]);
    if parts == [] then [""] else DotLabels(parts)
  }

  lemma {:induction false} SplitOfJoin(parts: seq<string>)
    requires parts != []
    ensures Split(Join(parts, '.'), '.') == DotLabels(parts)
  {
    if |parts| > 1 {
      SplitOfJoin(parts[1..]);
      SplitConcat(parts[0], Join(parts[1..], '.'), '.');
      assert Join(parts, '.') == parts[0] + (['.'] + Join(parts[1..], '.'));
    } else {
      assert parts[1..] == [];
    }
  }

  lemma NameIsLabels(id: string)
    ensures Split(DnsName(id), '.') == NameLabels(id) && Join(NameLabels(id), '.') == DnsName(id)
  {
    var parts := Reverse(Split(id, '/')[1..]);
    if parts != [] { SplitOfJoin(parts); }
    JoinSplit(DnsName(id), '.');
  }

  /** Two ids share a name exactly when their labels agree. */
  lemma DnsNamesCollide(a: string, b: string)
    ensures DnsName(a) == DnsName(b) <==> NameLabels(a) == NameLabels(b)
  {
    NameIsLabels(a);
    NameIsLabels(b);
  }

  /** A dot in an id does collide: `/x.y` and `/y/x` share a name. */
  lemma DottedIdsCollide(x: string, y: string)
    requires '/' !in x && '/' !in y
    ensures DnsName("/" + x + "." + y) == DnsName("/" + y + "/" + x)
  {
    var a, b := "/" + x + "." + y, "/" + y + "/" + x;
    assert a[1..] == x + "." + y && b[1..] == y + ['/'] + x;
    SplitRooted(a);
    SplitRooted(b);
    SplitNone(x + "." + y, '/');
    SplitFirst(y, x, '/');
    SplitNone(x, '/');
    assert Split(a, '/')[1..] == [x + "." + y] && Split(b, '/')[1..] == [y, x];
    ReverseShort(x + "." + y, x, y);
    TwoLabels(x, y);
    DnsNamesCollide(a, b);
  }

  lemma ReverseShort(s: string, x: string, y: string)
    ensures Reverse([s]) == [s] && Reverse([y, x]) == [x, y]
  {
    assert [y, x][1..] == [x] && [x][1..] == [] && [s][1..] == [];
  }

  lemma TwoLabels(x: string, y: string)
    ensures DotLabels([x + "." + y]) == DotLabels([x, y])
  {
    SplitConcat(x, y, '.');
    assert x + "." + y == x + (['.'] + y);
    assert [x, y][1..] == [y] && [y][1..] == [] && [x + "." + y][1..] == [];
  }

  // ---- snapshots ----

  /** All hosts resolved in task order, or None at the first failure. */
  function Addresses(resolve: Resolve, tasks: seq<Task>, n: nat): Option<seq<Address>>
    requires n <= |tasks|
  {
    if n == 0 then Some([])
    else
      var before := Addresses(resolve, tasks, n - 1);
      var ip := resolve(tasks[n - 1].host);
      if before.Some? && ip.Some? then Some(before.value + [ip.value]) else None
  }

  function EntryOf(resolve: Resolve, app: App): Option<Entry> {
    var ips := Addresses(resolve, app.tasks, |app.tasks|);
    if ips.Some? then Some(Entry(ips.value, app)) else None
  }

  datatype Event = Apply(apps: seq<App>) | Update(app: App) | Remove(appId: string, remaining: Option<App>)

  /** How many applications Apply gets through before one does not resolve. */
  function Applied(resolve: Resolve, apps: seq<App>, n: nat): nat
    requires n <= |apps|
  {
    if n == 0 then 0
    else
      var k := Applied(resolve, apps, n - 1);
      if k == n - 1 && EntryOf(resolve, apps[n - 1]).Some? then n else k
  }

  function UpdateDb(resolve: Resolve, db: Db, app: App): Db {
    var entry := EntryOf(resolve, app);
    if entry.Some? then db[DnsName(app.id) := entry.value] else db
  }

  function ApplyDb(resolve: Resolve, apps: seq<App>, n: nat): Db
    requires n <= |apps|
  {
    if n == 0 then map[] else UpdateDb(resolve, ApplyDb(resolve, apps, n - 1), apps[n - 1])
  }

  lemma {:induction false} AppliedBound(resolve: Resolve, apps: seq<App>, n: nat)
    requires n <= |apps|
    ensures Applied(resolve, apps, n) <= n
    ensures Applied(resolve, apps, n) == n <==> forall k :: 0 <= k < n ==> EntryOf(resolve, apps[k]).Some?
    ensures Applied(resolve, apps, n) < n ==> EntryOf(resolve, apps[Applied(resolve, apps, n)]).None?
  {
    if n > 0 { AppliedBound(resolve, apps, n - 1); }
  }

  function StepDb(resolve: Resolve, db: Db, e: Event): Db {
    match e
    case Apply(apps) => AppliedBound(resolve, apps, |apps|); ApplyDb(resolve, apps, Applied(resolve, apps, |apps|))
    case Update(app) => UpdateDb(resolve, db, app)
    case Remove(appId, remaining) =>
      if remaining.None? then db - {DnsName(appId)} else UpdateDb(resolve, db, remaining.value)
  }

  function RunDb(resolve: Resolve, events: seq<Event>, n: nat): Db
    requires n <= |events|
  {
    if n == 0 then map[] else StepDb(resolve, RunDb(resolve, events, n - 1), events[n - 1])
  }

  /** strings.TrimSuffix. */
  function TrimSuffix(s: string, suffix: string): string {
    if |s| >= |suffix| && s[|s| - |suffix|..] == suffix then s[..|s| - |suffix|] else s
  }

  lemma TrimIs(s: string, suffix: string)
    ensures TrimSuffix(s, suffix) + suffix == s || (TrimSuffix(s, suffix) == s && forall p: string :: p + suffix != s)
  {
    if |s| >= |suffix| && s[|s| - |suffix|..] == suffix {
      assert s[..|s| - |suffix|] + suffix == s;
    } else {
      forall p: string ensures p + suffix != s { assert (p + suffix)[|p|..] == suffix; }
    }
  }

  function Lookup(db: Db, question: string, baseName: string): Option<Entry> {
    var name := TrimSuffix(question, "." + baseName);
    if name in db then Some(db[name]) else None
  }

  // ---- the index refines "the last snapshot of an id" ----

  /** The last of the first `n` applications with this id. */
  function LastOf(resolve: Resolve, apps: seq<App>, n: nat, id: string): Option<Entry>
    requires n <= |apps|
  {
    if n == 0 then None
    else if apps[n - 1].id == id && EntryOf(resolve, apps[n - 1]).Some? then EntryOf(resolve, apps[n - 1])
    else LastOf(resolve, apps, n - 1, id)
  }

  /** Read backwards from event `n`: the last snapshot of this id that resolved and was not dropped since. */
  function LastSnapshot(resolve: Resolve, events: seq<Event>, n: nat, id: string): Option<Entry>
    requires n <= |events|
  {
    if n == 0 then None
    else
      match events[n - 1]
      case Apply(apps) => AppliedBound(resolve, apps, |apps|); LastOf(resolve, apps, Applied(resolve, apps, |apps|), id)
      case Update(app) =>
        if app.id == id && EntryOf(resolve, app).Some? then EntryOf(resolve, app) else LastSnapshot(resolve, events, n - 1, id)
      case Remove(appId, remaining) =>
        if remaining.None? then
          if appId == id then None else LastSnapshot(resolve, events, n - 1, id)
        else if remaining.value.id == id && EntryOf(resolve, remaining.value).Some? then EntryOf(resolve, remaining.value)
        else LastSnapshot(resolve, events, n - 1, id)
  }

  /** No application of this event shares the name of `id` without being `id`. */
  predicate NoRival(e: Event, id: string) {
    match e
    case Apply(apps) => forall app: App :: app in apps && DnsName(app.id) == DnsName(id) ==> app.id == id
    case Update(app) => DnsName(app.id) == DnsName(id) ==> app.id == id
    case Remove(appId, remaining) =>
      && (DnsName(appId) == DnsName(id) ==> appId == id)
      && (remaining.Some? && DnsName(remaining.value.id) == DnsName(id) ==> remaining.value.id == id)
  }

  predicate PlainEvent(e: Event) {
    match e
    case Apply(apps) => forall app: App :: app in apps ==> PlainId(app.id)
    case Update(app) => PlainId(app.id)
    case Remove(appId, remaining) => PlainId(appId) && (remaining.Some? ==> PlainId(remaining.value.id))
  }

  function Get(db: Db, name: string): Option<Entry> { if name in db then Some(db[name]) else None }

  lemma LookupIsGet(db: Db, name: string, baseName: string)
    ensures Lookup(db, name + "." + baseName, baseName) == Get(db, name)
  {
    assert name + "." + baseName == name + ("." + baseName);
  }

  lemma UpdateDbAt(resolve: Resolve, db: Db, app: App, id: string)
    requires DnsName(app.id) == DnsName(id) ==> app.id == id
    ensures Get(UpdateDb(resolve, db, app), DnsName(id))
         == if app.id == id && EntryOf(resolve, app).Some? then EntryOf(resolve, app) else Get(db, DnsName(id))
  {}

  lemma {:induction false} ApplyDbAt(resolve: Resolve, apps: seq<App>, n: nat, id: string)
    requires n <= |apps| && forall app: App :: app in apps && DnsName(app.id) == DnsName(id) ==> app.id == id
    ensures Get(ApplyDb(resolve, apps, n), DnsName(id)) == LastOf(resolve, apps, n, id)
  {
    if n > 0 {
      ApplyDbAt(resolve, apps, n - 1, id);
      assert apps[n - 1] in apps;
      UpdateDbAt(resolve, ApplyDb(resolve, apps, n - 1), apps[n - 1], id);
    }
  }

  lemma {:induction false} RunDbAt(resolve: Resolve, events: seq<Event>, n: nat, id: string)
    requires n <= |events| && forall e :: e in events ==> NoRival(e, id)
    ensures Get(RunDb(resolve, events, n), DnsName(id)) == LastSnapshot(resolve, events, n, id)
  {
    if n > 0 {
      RunDbAt(resolve, events, n - 1, id);
      assert events[n - 1] in events;
      var db := RunDb(resolve, events, n - 1);
      match events[n - 1]
      case Apply(apps) =>
        AppliedBound(resolve, apps, |apps|);
        ApplyDbAt(resolve, apps, Applied(resolve, apps, |apps|), id);
      case Update(app) => UpdateDbAt(resolve, db, app, id);
      case Remove(appId, remaining) =>
        if remaining.Some? { UpdateDbAt(resolve, db, remaining.value, id); }
    }
  }

  /** On plain ids nobody has a rival. */
  lemma PlainIdsHaveNoRivals(e: Event, id: string)
    requires PlainId(id) && PlainEvent(e)
    ensures NoRival(e, id)
  {
    match e
    case Apply(apps) =>
      forall app: App | app in apps && DnsName(app.id) == DnsName(id) ensures app.id == id { DnsNameInjective(app.id, id); }
    case Update(app) => if DnsName(app.id) == DnsName(id) { DnsNameInjective(app.id, id); }
    case Remove(appId, remaining) =>
      if DnsName(appId) == DnsName(id) { DnsNameInjective(appId, id); }
      if remaining.Some? && DnsName(remaining.value.id) == DnsName(id) { DnsNameInjective(remaining.value.id, id); }
  }

  /**
   After any run in which no other application shares its name, the query for an
   application finds exactly its last snapshot, or nothing.
   */
  lemma LookupFindsLastSnapshot(resolve: Resolve, events: seq<Event>, id: string, baseName: string)
    requires forall e :: e in events ==> NoRival(e, id)
    ensures Lookup(RunDb(resolve, events, |events|), DnsName(id) + "." + baseName, baseName)
         == LastSnapshot(resolve, events, |events|, id)
  {
    RunDbAt(resolve, events, |events|, id);
    LookupIsGet(RunDb(resolve, events, |events|), DnsName(id), baseName);
  }

  lemma {:induction false} AddressesOf(resolve: Resolve, tasks: seq<Task>, n: nat)
    requires n <= |tasks| && forall k :: 0 <= k < n ==> resolve(tasks[k].host).Some?
    ensures var ips := Addresses(resolve, tasks, n);
            ips.Some? && |ips.value| == n && forall k :: 0 <= k < n ==> Some(ips.value[k]) == resolve(tasks[k].host)
  {
    if n > 0 { AddressesOf(resolve, tasks, n - 1); }
  }

  /** With resolvable hosts no snapshot is passed over: Apply takes all applications, and an Update is what is found next. */
  lemma ResolvableIsTaken(resolve: Resolve, apps: seq<App>, k: nat)
    requires k < |apps| && forall app: App, t :: app in apps && t in app.tasks ==> resolve(t.host).Some?
    ensures Applied(resolve, apps, |apps|) == |apps|
    ensures var e := EntryOf(resolve, apps[k]);
            e.Some? && e.value.app == apps[k] && |e.value.ipAddresses| == |apps[k].tasks|
            && forall i :: 0 <= i < |apps[k].tasks| ==> Some(e.value.ipAddresses[i]) == resolve(apps[k].tasks[i].host)
  {
    forall j | 0 <= j < |apps| ensures EntryOf(resolve, apps[j]).Some? {
      assert apps[j] in apps;
      AddressesOf(resolve, apps[j].tasks, |apps[j].tasks|);
    }
    AppliedBound(resolve, apps, |apps|);
    AddressesOf(resolve, apps[k].tasks, |apps[k].tasks|);
  }

  // ---- answers ----

  datatype QueryType = TypeA | TypeSRV | OtherType

  datatype Record = A(ip: Address) | SRV(target: string, port: nat)

  function ARecords(ips: seq<Address>): seq<Record> {
    if ips == [] then [] else ARecords(ips[..|ips| - 1]) + [A(ips[|ips| - 1])]
  }

  /** The records of one task; the port goes through a 16-bit conversion. */
  function TaskSRV(host: string, ports: seq<nat>): seq<Record> {
    if ports == [] then [] else TaskSRV(host, ports[..|ports| - 1]) + [SRV(host + ".", ports[|ports| - 1] % 0x1_0000)]
  }

  function SRVRecords(tasks: seq<Task>): seq<Record> {
    if tasks == [] then []
    else SRVRecords(tasks[..|tasks| - 1]) + TaskSRV(tasks[|tasks| - 1].host, tasks[|tasks| - 1].ports)
  }

  lemma {:induction false} ARecordAt(ips: seq<Address>, k: nat)
    requires k < |ips|
    ensures |ARecords(ips)| == |ips| && ARecords(ips)[k] == A(ips[k])
  {
    var n := |ips| - 1;
    if k < n { ARecordAt(ips[..n], k); } else if n > 0 { ARecordAt(ips[..n], 0); }
  }

  /** How many ports the first `i` tasks have. */
  function PortsBefore(tasks: seq<Task>, i: nat): nat
    requires i <= |tasks|
  {
    if i == 0 then 0 else PortsBefore(tasks, i - 1) + |tasks[i - 1].ports|
  }

  lemma {:induction false} TaskSRVAt(host: string, ports: seq<nat>)
    ensures |TaskSRV(host, ports)| == |ports|
    ensures forall j :: 0 <= j < |ports| ==> TaskSRV(host, ports)[j] == SRV(host + ".", ports[j] % 0x1_0000)
  {
    if ports != [] { TaskSRVAt(host, ports[..|ports| - 1]); }
  }

  lemma {:induction false} PortsBeforePrefix(tasks: seq<Task>, n: nat, i: nat)
    requires i <= n <= |tasks|
    ensures PortsBefore(tasks[..n], i) == PortsBefore(tasks, i)
  {
    if i > 0 { PortsBeforePrefix(tasks, n, i - 1); }
  }

  /** One SRV record for every task and port, tasks in order and a task's ports in order. */
  lemma {:induction false} SRVRecordAt(tasks: seq<Task>, i: nat, j: nat)
    requires i < |tasks| && j < |tasks[i].ports|
    ensures |SRVRecords(tasks)| == PortsBefore(tasks, |tasks|) && PortsBefore(tasks, i) + j < |SRVRecords(tasks)|
    ensures SRVRecords(tasks)[PortsBefore(tasks, i) + j] == SRV(tasks[i].host + ".", tasks[i].ports[j] % 0x1_0000)
  {
    var n := |tasks| - 1;
    SRVCount(tasks);
    SRVCount(tasks[..n]);
    PortsBeforePrefix(tasks, n, n);
    PortsBeforePrefix(tasks, n, i);
    TaskSRVAt(tasks[n].host, tasks[n].ports);
    if i < n { SRVRecordAt(tasks[..n], i, j); }
  }

  lemma {:induction false} SRVCount(tasks: seq<Task>)
    ensures |SRVRecords(tasks)| == PortsBefore(tasks, |tasks|)
  {
    if tasks != [] {
      var n := |tasks| - 1;
      SRVCount(tasks[..n]);
      PortsBeforePrefix(tasks, n, n);
      TaskSRVAt(tasks[n].host, tasks[n].ports);
    }
  }

  function Answers(pushSRV: bool, found: Option<Entry>, qtype: QueryType): (seq<Record>, seq<Record>) {
    if found.None? then ([], [])
    else match qtype
      case TypeSRV => (SRVRecords(found.value.app.tasks), [])
      case TypeA => (ARecords(found.value.ipAddresses), if pushSRV then SRVRecords(found.value.app.tasks) else [])
      case OtherType => ([], [])
  }

  /** Address records of these hosts, in order. */
  ghost predicate AreAddresses(records: seq<Record>, ips: seq<Address>) {
    |records| == |ips| && forall k :: 0 <= k < |ips| ==> records[k] == A(ips[k])
  }

  /** The record of port `j` of task `i`, in its place. */
  ghost predicate TargetAt(records: seq<Record>, tasks: seq<Task>, i: nat, j: nat)
    requires i < |tasks| && j < |tasks[i].ports|
  {
    var at := PortsBefore(tasks, i) + j;
    at < |records| && records[at] == SRV(tasks[i].host + ".", tasks[i].ports[j] % 65536)
  }

  /** Service records of these tasks: one for every port, tasks in order and a task's ports in order. */
  ghost predicate AreTargets(records: seq<Record>, tasks: seq<Task>) {
    && |records| == PortsBefore(tasks, |tasks|)
    && forall i, j :: 0 <= i < |tasks| && 0 <= j < |tasks[i].ports| ==> TargetAt(records, tasks, i, j)
  }

  lemma ARecordsAre(ips: seq<Address>)
    ensures AreAddresses(ARecords(ips), ips)
  {
    forall k: nat | k < |ips| ensures |ARecords(ips)| == |ips| && ARecords(ips)[k] == A(ips[k]) { ARecordAt(ips, k); }
  }

  lemma SRVRecordsAre(tasks: seq<Task>)
    ensures AreTargets(SRVRecords(tasks), tasks)
  {
    SRVCount(tasks);
    forall i, j | 0 <= i < |tasks| && 0 <= j < |tasks[i].ports|
      ensures TargetAt(SRVRecords(tasks), tasks, i, j)
    {
      SRVRecordAt(tasks, i, j);
    }
  }

  /** What is answered to which question. */
  ghost predicate Replies(found: Option<Entry>, qtype: QueryType, pushSRV: bool, answer: seq<Record>, extra: seq<Record>) {
    && (found.None? || qtype == OtherType ==> answer == [] && extra == [])
    && (found.Some? && qtype == TypeA ==>
          && AreAddresses(answer, found.value.ipAddresses)
          && if pushSRV then AreTargets(extra, found.value.app.tasks) else extra == [])
    && (found.Some? && qtype == TypeSRV ==> AreTargets(answer, found.value.app.tasks) && extra == [])
  }

  /** Addresses for A, targets for SRV, and targets beside the addresses if so configured. */
  lemma AnswersAre(pushSRV: bool, found: Option<Entry>, qtype: QueryType)
    ensures Replies(found, qtype, pushSRV, Answers(pushSRV, found, qtype).0, Answers(pushSRV, found, qtype).1)
  {
    if found.Some? {
      ARecordsAre(found.value.ipAddresses);
      SRVRecordsAre(found.value.app.tasks);
    }
  }

  // ---- what a query is told after a run ----

  ghost predicate AllResolve(resolve: Resolve, app: App) { forall t :: t in app.tasks ==> resolve(t.host).Some? }

  /** The records are the addresses that the tasks' hosts resolve to, in task order. */
  ghost predicate Resolved(resolve: Resolve, answer: seq<Record>, tasks: seq<Task>) {
    |answer| == |tasks| && forall k :: 0 <= k < |tasks| ==> answer[k].A? && resolve(tasks[k].host) == Some(answer[k].ip)
  }

  /** The answer to an A query for an application after the first `n` events. */
  ghost function Ask(resolve: Resolve, events: seq<Event>, n: nat, id: string, baseName: string, pushSRV: bool): seq<Record>
    requires n <= |events|
  {
    Answers(pushSRV, Lookup(RunDb(resolve, events, n), DnsName(id) + "." + baseName, baseName), TypeA).0
  }

  /** A snapshot is stored exactly when all its hosts resolve, with their addresses in task order. */
  lemma EntryIs(resolve: Resolve, app: App)
    ensures EntryOf(resolve, app).Some? <==> AllResolve(resolve, app)
    ensures var e := EntryOf(resolve, app);
            e.Some? ==>
              && e.value.app == app && |e.value.ipAddresses| == |app.tasks|
              && forall k :: 0 <= k < |app.tasks| ==> resolve(app.tasks[k].host) == Some(e.value.ipAddresses[k])
  {
    if k: nat :| k < |app.tasks| && resolve(app.tasks[k].host).None? {
      assert app.tasks[k] in app.tasks;
      UnresolvedStops(resolve, app.tasks, k, |app.tasks|);
    } else {
      AddressesOf(resolve, app.tasks, |app.tasks|);
    }
  }

  lemma AnswerIs(resolve: Resolve, app: App, pushSRV: bool)
    requires AllResolve(resolve, app)
    ensures Resolved(resolve, Answers(pushSRV, EntryOf(resolve, app), TypeA).0, app.tasks)
  {
    EntryIs(resolve, app);
    AnswersAre(pushSRV, EntryOf(resolve, app), TypeA);
  }

  lemma {:induction false} LastOfIsEntry(resolve: Resolve, apps: seq<App>, n: nat, id: string)
    requires n <= |apps| && LastOf(resolve, apps, n, id).Some?
    ensures var e := LastOf(resolve, apps, n, id); e.value.app.id == id && e == EntryOf(resolve, e.value.app)
  {
    EntryIs(resolve, apps[n - 1]);
    if !(apps[n - 1].id == id && EntryOf(resolve, apps[n - 1]).Some?) { LastOfIsEntry(resolve, apps, n - 1, id); }
  }

  lemma {:induction false} SnapshotIsEntry(resolve: Resolve, events: seq<Event>, n: nat, id: string)
    requires n <= |events| && LastSnapshot(resolve, events, n, id).Some?
    ensures var e := LastSnapshot(resolve, events, n, id); e.value.app.id == id && e == EntryOf(resolve, e.value.app)
  {
    match events[n - 1]
    case Apply(apps) =>
      AppliedBound(resolve, apps, |apps|);
      LastOfIsEntry(resolve, apps, Applied(resolve, apps, |apps|), id);
    case Update(app) =>
      EntryIs(resolve, app);
      if !(app.id == id && EntryOf(resolve, app).Some?) { SnapshotIsEntry(resolve, events, n - 1, id); }
    case Remove(appId, remaining) =>
      if remaining.Some? { EntryIs(resolve, remaining.value); }
      if !(remaining.Some? && remaining.value.id == id && EntryOf(resolve, remaining.value).Some?) {
        SnapshotIsEntry(resolve, events, n - 1, id);
      }
  }

  /**
   After any run in which no other application shares its name, an A query for an
   application is answered with exactly the resolved hosts of its last snapshot's tasks, in
   task order, or with nothing.
   */
  lemma QueryAnswersLastSnapshot(resolve: Resolve, events: seq<Event>, id: string, baseName: string, pushSRV: bool)
    requires forall e :: e in events ==> NoRival(e, id)
    ensures var found := LastSnapshot(resolve, events, |events|, id);
            var answer := Ask(resolve, events, |events|, id, baseName, pushSRV);
            if found.None? then answer == [] else found.value.app.id == id && Resolved(resolve, answer, found.value.app.tasks)
  {
    LookupFindsLastSnapshot(resolve, events, id, baseName);
    var found := LastSnapshot(resolve, events, |events|, id);
    if found.Some? {
      SnapshotIsEntry(resolve, events, |events|, id);
      EntryIs(resolve, found.value.app);
      AnswerIs(resolve, found.value.app, pushSRV);
    }
  }

  lemma {:induction false} LastOfAt(resolve: Resolve, apps: seq<App>, n: nat, id: string, k: nat)
    requires k < n <= |apps| && apps[k].id == id && EntryOf(resolve, apps[k]).Some?
    requires forall j :: k < j < n ==> apps[j].id != id
    ensures LastOf(resolve, apps, n, id) == EntryOf(resolve, apps[k])
  {
    if k < n - 1 { LastOfAt(resolve, apps, n - 1, id, k); }
  }

  lemma {:induction false} LastOfNone(resolve: Resolve, apps: seq<App>, n: nat, id: string)
    requires n <= |apps| && forall j :: 0 <= j < n ==> apps[j].id != id
    ensures LastOf(resolve, apps, n, id) == None
  {
    if n > 0 { LastOfNone(resolve, apps, n - 1, id); }
  }

  /** The first `m` applications resolve, and the next one, if any, does not. */
  ghost predicate ResolvesUpTo(resolve: Resolve, apps: seq<App>, m: nat) {
    m <= |apps| && (forall j :: 0 <= j < m ==> AllResolve(resolve, apps[j])) && (m < |apps| ==> !AllResolve(resolve, apps[m]))
  }

  lemma AppliedIs(resolve: Resolve, apps: seq<App>, m: nat)
    requires ResolvesUpTo(resolve, apps, m)
    ensures Applied(resolve, apps, |apps|) == m
  {
    forall j | 0 <= j < |apps| ensures EntryOf(resolve, apps[j]).Some? <==> AllResolve(resolve, apps[j]) {
      EntryIs(resolve, apps[j]);
    }
    AppliedBound(resolve, apps, m);
    if m < |apps| { FirstFailure(resolve, apps, m, |apps|); }
  }

  /** The answer after Apply: from the last application of that id before the first that does not resolve. */
  ghost predicate ToldByApply(resolve: Resolve, apps: seq<App>, m: nat, id: string, answer: seq<Record>)
    requires m <= |apps|
  {
    && (forall k :: 0 <= k < m && apps[k].id == id && (forall j :: k < j < m ==> apps[j].id != id) ==>
          Resolved(resolve, answer, apps[k].tasks))
    && ((forall k :: 0 <= k < m ==> apps[k].id != id) ==> answer == [])
  }

  /** How one event changes the answer, and that others' events do not. */
  ghost predicate Told(resolve: Resolve, e: Event, id: string, before: seq<Record>, after: seq<Record>) {
    match e
    case Apply(apps) => forall m: nat :: ResolvesUpTo(resolve, apps, m) ==> ToldByApply(resolve, apps, m, id, after)
    case Update(app) => if app.id == id && AllResolve(resolve, app) then Resolved(resolve, after, app.tasks) else after == before
    case Remove(appId, remaining) =>
      if remaining.None? then after == if appId == id then [] else before
      else
        var app := remaining.value;
        if app.id == id && AllResolve(resolve, app) then Resolved(resolve, after, app.tasks) else after == before
  }

  lemma ApplyTold(resolve: Resolve, apps: seq<App>, m: nat, id: string, pushSRV: bool)
    requires ResolvesUpTo(resolve, apps, m)
    ensures ToldByApply(resolve, apps, m, id, Answers(pushSRV, LastOf(resolve, apps, m, id), TypeA).0)
  {
    forall k | 0 <= k < m && apps[k].id == id && (forall j :: k < j < m ==> apps[j].id != id)
      ensures Resolved(resolve, Answers(pushSRV, LastOf(resolve, apps, m, id), TypeA).0, apps[k].tasks)
    {
      EntryIs(resolve, apps[k]);
      LastOfAt(resolve, apps, m, id, k);
      AnswerIs(resolve, apps[k], pushSRV);
    }
    if forall k :: 0 <= k < m ==> apps[k].id != id { LastOfNone(resolve, apps, m, id); }
  }

  lemma AskIsLast(resolve: Resolve, events: seq<Event>, n: nat, id: string, baseName: string, pushSRV: bool)
    requires n <= |events| && forall e :: e in events ==> NoRival(e, id)
    ensures Ask(resolve, events, n, id, baseName, pushSRV) == Answers(pushSRV, LastSnapshot(resolve, events, n, id), TypeA).0
  {
    RunDbAt(resolve, events, n, id);
    LookupIsGet(RunDb(resolve, events, n), DnsName(id), baseName);
  }

  /** A stored snapshot is told of its own id, one that does not resolve or another's is not. */
  lemma UpdateTold(resolve: Resolve, app: App, id: string, before: Option<Entry>, pushSRV: bool)
    ensures var after := if app.id == id && EntryOf(resolve, app).Some? then EntryOf(resolve, app) else before;
            if app.id == id && AllResolve(resolve, app)
            then Resolved(resolve, Answers(pushSRV, after, TypeA).0, app.tasks) else after == before
  {
    EntryIs(resolve, app);
    if AllResolve(resolve, app) { AnswerIs(resolve, app, pushSRV); }
  }

  lemma LastSnapshotTold(resolve: Resolve, events: seq<Event>, n: nat, id: string, pushSRV: bool)
    requires n < |events|
    ensures Told(resolve, events[n], id, Answers(pushSRV, LastSnapshot(resolve, events, n, id), TypeA).0,
                 Answers(pushSRV, LastSnapshot(resolve, events, n + 1, id), TypeA).0)
  {
    var before := LastSnapshot(resolve, events, n, id);
    match events[n]
    case Apply(apps) =>
      forall m: nat | ResolvesUpTo(resolve, apps, m)
        ensures ToldByApply(resolve, apps, m, id, Answers(pushSRV, LastSnapshot(resolve, events, n + 1, id), TypeA).0)
      {
        AppliedIs(resolve, apps, m);
        ApplyTold(resolve, apps, m, id, pushSRV);
      }
    case Update(app) => UpdateTold(resolve, app, id, before, pushSRV);
    case Remove(appId, remaining) =>
      if remaining.Some? { UpdateTold(resolve, remaining.value, id, before, pushSRV); }
  }

  /** What an A query is answered changes along a run exactly as the events say. */
  lemma QueryFollowsEvents(resolve: Resolve, events: seq<Event>, n: nat, id: string, baseName: string, pushSRV: bool)
    requires n < |events| && forall e :: e in events ==> NoRival(e, id)
    ensures Told(resolve, events[n], id, Ask(resolve, events, n, id, baseName, pushSRV),
                 Ask(resolve, events, n + 1, id, baseName, pushSRV))
  {
    AskIsLast(resolve, events, n, id, baseName, pushSRV);
    AskIsLast(resolve, events, n + 1, id, baseName, pushSRV);
    LastSnapshotTold(resolve, events, n, id, pushSRV);
  }

  // ---- the manager ----

  /** Every entry is stored under its own application's name. */
  ghost predicate OwnNames(db: Db) { forall name :: name in db ==> name == DnsName(db[name].app.id) }

  class DnsManager {
    const resolve: Resolve
    const baseName: string
    const pushSRV: bool
    var db: Db
    /** The database after every step under the mutex: what concurrent lookups can see. */
    ghost var history: seq<Db>

    constructor (resolve: Resolve, baseName: string, pushSRV: bool)
      ensures this.resolve == resolve && this.baseName == baseName && this.pushSRV == pushSRV
      ensures db == map[] && history == [map[]]
    {
      this.resolve, this.baseName, this.pushSRV := resolve, baseName, pushSRV;
      db, history := map[], [map[]];
    }

    ghost predicate NewStatesOwn(from: nat) reads this { forall k :: from <= k < |history| ==> OwnNames(history[k]) }

    method UpdateApp(app: App) returns (ok: bool)
      requires OwnNames(db)
      modifies this
      ensures ok <==> EntryOf(resolve, app).Some?
      ensures db == UpdateDb(resolve, old(db), app)
      ensures OwnNames(db) && old(history) <= history && NewStatesOwn(|old(history)|)
    {
      var ips := [];
      for i := 0 to |app.tasks|
        invariant Addresses(resolve, app.tasks, i) == Some(ips)
      {
        var ip := resolve(app.tasks[i].host);
        if ip.None? {
          UnresolvedStops(resolve, app.tasks, i, |app.tasks|);
          return false;
        }
        ips := ips + [ip.value];
      }
      var reversed := MakeDnsNameFromAppId(app.id);
      db := db[reversed := Entry(ips, app)];
      history := history + [db];
      ok := true;
    }

    /** Apply empties the database in one locked step and then adds applications one by one, up to the first that fails. */
    method Apply(apps: seq<App>) returns (ok: bool)
      modifies this
      ensures db == StepDb(resolve, old(db), Event.Apply(apps))
      ensures OwnNames(db) && old(history) <= history && NewStatesOwn(|old(history)|)
    {
      db := map[];
      history := history + [db];
      for i := 0 to |apps|
        invariant db == ApplyDb(resolve, apps, i) && OwnNames(db)
        invariant old(history) <= history && NewStatesOwn(|old(history)|)
        invariant Applied(resolve, apps, i) == i
      {
        ok := UpdateApp(apps[i]);
        if !ok {
          FirstFailure(resolve, apps, i, |apps|);
          return;
        }
      }
      ok := true;
    }

    method Update(app: App) returns (ok: bool)
      requires OwnNames(db)
      modifies this
      ensures db == StepDb(resolve, old(db), Event.Update(app))
      ensures OwnNames(db) && old(history) <= history && NewStatesOwn(|old(history)|)
    {
      ok := UpdateApp(app);
    }

    method Remove(appId: string, app: Option<App>) returns (ok: bool)
      requires OwnNames(db)
      modifies this
      ensures db == StepDb(resolve, old(db), Event.Remove(appId, app))
      ensures OwnNames(db) && old(history) <= history && NewStatesOwn(|old(history)|)
    {
      if app.None? {
        var name := MakeDnsNameFromAppId(appId);
        db := db - {name};
        history := history + [db];
        return true;
      }
      ok := UpdateApp(app.value);
    }

    method MakeAllA(entry: Entry) returns (result: seq<Record>)
      ensures result == ARecords(entry.ipAddresses)
    {
      result := [];
      for i := 0 to |entry.ipAddresses|
        invariant result == ARecords(entry.ipAddresses[..i])
      {
        assert entry.ipAddresses[..i + 1][..i] == entry.ipAddresses[..i];
        result := result + [A(entry.ipAddresses[i])];
      }
      assert entry.ipAddresses[..|entry.ipAddresses|] == entry.ipAddresses;
    }

    method MakeAllSRV(entry: Entry) returns (result: seq<Record>)
      ensures result == SRVRecords(entry.app.tasks)
    {
      result := [];
      var tasks := entry.app.tasks;
      for i := 0 to |tasks|
        invariant result == SRVRecords(tasks[..i])
      {
        var ports := tasks[i].ports;
        ghost var before := result;
        for j := 0 to |ports|
          invariant result == before + TaskSRV(tasks[i].host, ports[..j])
        {
          assert ports[..j + 1][..j] == ports[..j];
          result := result + [SRV(tasks[i].host + ".", ports[j] % 0x1_0000)];
        }
        assert ports[..|ports|] == ports;
        assert tasks[..i + 1][..i] == tasks[..i];
      }
      assert tasks[..|tasks|] == tasks;
    }

    method DnsHandler(question: string, qtype: QueryType) returns (answer: seq<Record>, extra: seq<Record>)
      ensures (answer, extra) == Answers(pushSRV, Lookup(db, question, baseName), qtype)
      ensures var name := TrimSuffix(question, "." + baseName);
              Replies(if name in db then Some(db[name]) else None, qtype, pushSRV, answer, extra)
    {
      AnswersAre(pushSRV, Lookup(db, question, baseName), qtype);
      var name := TrimSuffix(question, "." + baseName);
      answer, extra := [], [];
      if name in db {
        var entry := db[name];
        match qtype {
          case TypeSRV => answer := MakeAllSRV(entry);
          case TypeA =>
            answer := MakeAllA(entry);
            if pushSRV { extra := MakeAllSRV(entry); }
          case OtherType =>
        }
      }
    }
  }

  lemma {:induction false} UnresolvedStops(resolve: Resolve, tasks: seq<Task>, i: nat, n: nat)
    requires i < n <= |tasks| && resolve(tasks[i].host).None?
    ensures Addresses(resolve, tasks, n).None?
  {
    if i < n - 1 { UnresolvedStops(resolve, tasks, i, n - 1); }
  }

  lemma {:induction false} FirstFailure(resolve: Resolve, apps: seq<App>, i: nat, n: nat)
    requires i < n <= |apps| && EntryOf(resolve, apps[i]).None? && Applied(resolve, apps, i) == i
    ensures Applied(resolve, apps, n) == i
  {
    if i < n - 1 { FirstFailure(resolve, apps, i, n - 1); }
  }
}
