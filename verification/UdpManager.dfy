/** udp_manager.go: touch/sweep reconciliation of UDP frontends with an application's alive tasks. */
module UdpManager {
  import opened Text
  import opened Marathon
  import opened Helper
  import opened Sorting
  import opened UdpProxy

  // ---- names ----

  function BackendName(t: Task): string { t.host + "-" + t.id }

  function BackendAddr(t: Task, i: nat): string
    requires i < |t.ports|
  {
    t.host + ":" + Dec(t.ports[i])
  }

  /** An alive task without this port would be an index out of range. */
  predicate PortsReady(tasks: seq<Task>, i: nat) {
    forall k :: 0 <= k < |tasks| && tasks[k].alive ==> i < |tasks[k].ports|
  }

  /** The names of the alive ones among the first `n` tasks. */
  ghost function Wanted(tasks: seq<Task>, n: nat): set<string>
    requires n <= |tasks|
  {
    if n == 0 then {} else Wanted(tasks, n - 1) + if tasks[n - 1].alive then {BackendName(tasks[n - 1])} else {}
  }

  /** The names that the first `n` tasks add to the present ones, in task order. */
  ghost function NewNames(present: seq<string>, tasks: seq<Task>, i: nat, resolve: Resolve, n: nat): seq<string>
    requires n <= |tasks| && PortsReady(tasks, i)
  {
    if n == 0 then []
    else
      var before := NewNames(present, tasks, i, resolve, n - 1);
      var t := tasks[n - 1];
      if t.alive && BackendName(t) !in present && BackendName(t) !in before && resolve(BackendAddr(t, i)).Some?
      then before + [BackendName(t)] else before
  }

  ghost function KeepNames(names: seq<string>, wanted: set<string>): seq<string> {
    if names == [] then []
    else KeepNames(names[..|names| - 1], wanted) + if names[|names| - 1] in wanted then [names[|names| - 1]] else []
  }

  /** The backend names after a reconciliation: survivors in their order, then new ones in task order. */
  ghost function Reconciled(present: seq<string>, tasks: seq<Task>, i: nat, resolve: Resolve): seq<string>
    requires PortsReady(tasks, i)
  {
    KeepNames(present, Wanted(tasks, |tasks|)) + NewNames(present, tasks, i, resolve, |tasks|)
  }

  // ---- what a backend stands for ----

  /** An alive task on port `i`, its host and id the name, its host and port an address that resolves. */
  ghost predicate Reaches(t: Task, i: nat, resolve: Resolve, name: string, addr: string) {
    && t.alive && name == t.host + "-" + t.id
    && i < |t.ports| && resolve(t.host + ":" + Dec(t.ports[i])) == Some(addr)
  }

  /** The backend's name and address are those of an alive task. */
  ghost predicate StandsFor(b: Backend, tasks: seq<Task>, i: nat, resolve: Resolve) {
    exists t :: t in tasks && Reaches(t, i, resolve, b.name, b.addr)
  }

  /** Whatever is in the list and was not before stands for an alive task. */
  ghost predicate Newcomers(before: seq<Backend>, after: seq<Backend>, tasks: seq<Task>, i: nat, resolve: Resolve) {
    forall b :: b in after && b !in before ==> StandsFor(b, tasks, i, resolve)
  }

  /** The names in a frontend's list before and after a reconciliation. */
  ghost predicate ListFollowsTasks(before: seq<string>, after: seq<string>, tasks: seq<Task>, i: nat, resolve: Resolve) {
    && (forall name :: name in before ==> (name in after <==> exists t :: t in tasks && t.alive && name == t.host + "-" + t.id))
    && (forall name :: name !in before ==>
         (name in after <==> exists t, addr :: t in tasks && Reaches(t, i, resolve, name, addr)))
  }

  // ---- what reconciled names are ----

  /** Some alive task of this name has an address that resolves. */
  ghost predicate Resolvable(tasks: seq<Task>, i: nat, resolve: Resolve, n: nat, name: string)
    requires n <= |tasks| && PortsReady(tasks, i)
  {
    exists k :: 0 <= k < n && tasks[k].alive && BackendName(tasks[k]) == name && resolve(BackendAddr(tasks[k], i)).Some?
  }

  lemma {:induction false} WantedMember(tasks: seq<Task>, n: nat, name: string)
    requires n <= |tasks|
    ensures name in Wanted(tasks, n) <==> exists k :: 0 <= k < n && tasks[k].alive && BackendName(tasks[k]) == name
  {
    if n > 0 { WantedMember(tasks, n - 1, name); }
  }

  lemma {:induction false} NewNamesMember(present: seq<string>, tasks: seq<Task>, i: nat, resolve: Resolve, n: nat, name: string)
    requires n <= |tasks| && PortsReady(tasks, i)
    ensures name in NewNames(present, tasks, i, resolve, n) <==> name !in present && Resolvable(tasks, i, resolve, n, name)
  {
    if n > 0 {
      NewNamesMember(present, tasks, i, resolve, n - 1, name);
      if Resolvable(tasks, i, resolve, n, name) && !Resolvable(tasks, i, resolve, n - 1, name) {
        assert BackendName(tasks[n - 1]) == name;
      }
    }
  }

  lemma {:induction false} NewNamesDistinct(present: seq<string>, tasks: seq<Task>, i: nat, resolve: Resolve, n: nat)
    requires n <= |tasks| && PortsReady(tasks, i)
    ensures Distinct(NewNames(present, tasks, i, resolve, n))
  {
    if n > 0 { NewNamesDistinct(present, tasks, i, resolve, n - 1); }
  }

  lemma {:induction false} KeepNamesMember(names: seq<string>, wanted: set<string>, name: string)
    ensures name in KeepNames(names, wanted) <==> name in names && name in wanted
  {
    if names != [] {
      var n := |names| - 1;
      KeepNamesMember(names[..n], wanted, name);
      assert names == names[..n] + [names[n]];
    }
  }

  lemma {:induction false} KeepNamesDistinct(names: seq<string>, wanted: set<string>)
    requires Distinct(names)
    ensures Distinct(KeepNames(names, wanted))
  {
    if names != [] {
      var n := |names| - 1;
      KeepNamesDistinct(names[..n], wanted);
      KeepNamesMember(names[..n], wanted, names[n]);
    }
  }

  /** After a reconciliation exactly the alive tasks that were present or resolve are there. */
  lemma ReconciledMember(present: seq<string>, tasks: seq<Task>, i: nat, resolve: Resolve, name: string)
    requires PortsReady(tasks, i)
    ensures name in Reconciled(present, tasks, i, resolve)
       <==> name in Wanted(tasks, |tasks|) && (name in present || Resolvable(tasks, i, resolve, |tasks|, name))
  {
    KeepNamesMember(present, Wanted(tasks, |tasks|), name);
    NewNamesMember(present, tasks, i, resolve, |tasks|, name);
    WantedMember(tasks, |tasks|, name);
  }

  /** A present name stays exactly if an alive task has it; another comes exactly if an alive task of that name can be reached. */
  lemma ReconciledFollowsTasks(present: seq<string>, tasks: seq<Task>, i: nat, resolve: Resolve)
    requires PortsReady(tasks, i)
    ensures ListFollowsTasks(present, Reconciled(present, tasks, i, resolve), tasks, i, resolve)
  {
    var after := Reconciled(present, tasks, i, resolve);
    forall name
      ensures name in present ==> (name in after <==> exists t :: t in tasks && t.alive && name == t.host + "-" + t.id)
      ensures name !in present ==> (name in after <==> exists t, addr :: t in tasks && Reaches(t, i, resolve, name, addr))
    {
      ReconciledMember(present, tasks, i, resolve, name);
      WantedMember(tasks, |tasks|, name);
      ResolvableIff(tasks, i, resolve, name);
    }
  }

  lemma ResolvableIff(tasks: seq<Task>, i: nat, resolve: Resolve, name: string)
    requires PortsReady(tasks, i)
    ensures Resolvable(tasks, i, resolve, |tasks|, name) <==> exists t, addr :: t in tasks && Reaches(t, i, resolve, name, addr)
  {
    if k :| 0 <= k < |tasks| && tasks[k].alive && BackendName(tasks[k]) == name && resolve(BackendAddr(tasks[k], i)).Some? {
      assert tasks[k] in tasks && Reaches(tasks[k], i, resolve, name, resolve(BackendAddr(tasks[k], i)).value);
    }
  }

  lemma ReconciledDistinct(present: seq<string>, tasks: seq<Task>, i: nat, resolve: Resolve)
    requires PortsReady(tasks, i) && Distinct(present)
    ensures Distinct(Reconciled(present, tasks, i, resolve))
  {
    var a, b := KeepNames(present, Wanted(tasks, |tasks|)), NewNames(present, tasks, i, resolve, |tasks|);
    KeepNamesDistinct(present, Wanted(tasks, |tasks|));
    NewNamesDistinct(present, tasks, i, resolve, |tasks|);
    forall x | x in a ensures x !in b {
      KeepNamesMember(present, Wanted(tasks, |tasks|), x);
      NewNamesMember(present, tasks, i, resolve, |tasks|, x);
    }
    DistinctAppend(a, b);
  }

  lemma DistinctAppend(a: seq<string>, b: seq<string>)
    requires Distinct(a) && Distinct(b) && forall x :: x in a ==> x !in b
    ensures Distinct(a + b)
  {
    forall i, j | 0 <= i < j < |a + b| ensures (a + b)[i] != (a + b)[j] {
      if i < |a| <= j { assert a[i] in a && b[j - |a|] in b; }
    }
  }

  lemma {:induction false} KeepAll(names: seq<string>, wanted: set<string>)
    requires forall n :: n in names ==> n in wanted
    ensures KeepNames(names, wanted) == names
  {
    if names != [] {
      var n := |names| - 1;
      assert names == names[..n] + [names[n]];
      KeepAll(names[..n], wanted);
    }
  }

  lemma {:induction false} NothingNew(present: seq<string>, tasks: seq<Task>, i: nat, resolve: Resolve, n: nat)
    requires n <= |tasks| && PortsReady(tasks, i)
    requires forall name :: Resolvable(tasks, i, resolve, n, name) ==> name in present
    ensures NewNames(present, tasks, i, resolve, n) == []
  {
    if n > 0 {
      forall name | Resolvable(tasks, i, resolve, n - 1, name) ensures name in present {
        assert Resolvable(tasks, i, resolve, n, name);
      }
      NothingNew(present, tasks, i, resolve, n - 1);
      var t := tasks[n - 1];
      if t.alive && resolve(BackendAddr(t, i)).Some? { assert Resolvable(tasks, i, resolve, n, BackendName(t)); }
    }
  }

  /** Reconciling again with the same snapshot changes nothing, not even the order. */
  lemma ReconcileIdempotent(present: seq<string>, tasks: seq<Task>, i: nat, resolve: Resolve)
    requires PortsReady(tasks, i)
    ensures var once := Reconciled(present, tasks, i, resolve);
            Reconciled(once, tasks, i, resolve) == once
  {
    var once := Reconciled(present, tasks, i, resolve);
    forall name | name in once ensures name in Wanted(tasks, |tasks|) { ReconciledMember(present, tasks, i, resolve, name); }
    KeepAll(once, Wanted(tasks, |tasks|));
    forall name | Resolvable(tasks, i, resolve, |tasks|, name) ensures name in once {
      WantedMember(tasks, |tasks|, name);
      ReconciledMember(present, tasks, i, resolve, name);
    }
    NothingNew(once, tasks, i, resolve, |tasks|);
  }

  // ---- one frontend ----

  lemma {:induction false} KeepHasNames(bs: seq<Backend>, wanted: set<string>)
    ensures NamesOf(Keep(bs, wanted)) == KeepNames(NamesOf(bs), wanted)
  {
    if bs != [] {
      var n := |bs| - 1;
      KeepHasNames(bs[..n], wanted);
      assert NamesOf(bs)[..n] == NamesOf(bs[..n]);
    }
  }

  lemma NewNamesWanted(present: seq<string>, tasks: seq<Task>, i: nat, resolve: Resolve, n: nat)
    requires n <= |tasks| && PortsReady(tasks, i)
    ensures forall name :: name in NewNames(present, tasks, i, resolve, n) ==> name in Wanted(tasks, n) && name !in present
  {
    forall name | name in NewNames(present, tasks, i, resolve, n) ensures name in Wanted(tasks, n) && name !in present {
      NewNamesMember(present, tasks, i, resolve, n, name);
      WantedMember(tasks, n, name);
    }
  }

  /** One alive task: its backend is found or made, and touched. */
  method TouchTask(fe: Frontend, name: string, addr: string, resolve: Resolve)
    requires fe.Valid()
    modifies fe, fe.backends
    ensures fe.Valid() && old(fe.backends) <= fe.backends
    ensures NamesOf(fe.backends) == NamesOf(old(fe.backends))
      + if name !in NamesOf(old(fe.backends)) && resolve(addr).Some? then [name] else []
    ensures forall b :: b in fe.backends[|old(fe.backends)|..] ==> fresh(b) && b.touched && b.sent == 0
    ensures forall b :: b in fe.backends[|old(fe.backends)|..] ==> b.name == name && resolve(addr) == Some(b.addr)
    ensures forall b :: b in old(fe.backends) ==> b.sent == old(b.sent) && (b.touched <==> old(b.touched) || b.name == name)
  {
    ghost var names := NamesOf(fe.backends);
    Listed(fe.backends);
    var be := fe.AddBackend(name, addr, resolve);
    if be != null {
      be.Touch();
      if name in names {
        forall b | b in old(fe.backends) && b.name == name ensures b == be { SameName(old(fe.backends), b, be); }
      } else {
        DistinctAppend(names, [name]);
        assert NamesOf(fe.backends) == names + [name];
      }
    }
  }

  lemma Listed(bs: seq<Backend>)
    ensures forall b :: b in bs ==> b.name in NamesOf(bs)
  {
    forall b | b in bs ensures b.name in NamesOf(bs) {
      var i :| 0 <= i < |bs| && bs[i] == b;
      assert NamesOf(bs)[i] == b.name;
    }
  }

  lemma SameName(bs: seq<Backend>, a: Backend, b: Backend)
    requires Distinct(NamesOf(bs)) && a in bs && b in bs && a.name == b.name
    ensures a == b
  {
    var i :| 0 <= i < |bs| && bs[i] == a;
    var j :| 0 <= j < |bs| && bs[j] == b;
    assert NamesOf(bs)[i] == NamesOf(bs)[j];
  }

  lemma NewNamesStep(present: seq<string>, tasks: seq<Task>, i: nat, resolve: Resolve, k: nat)
    requires k < |tasks| && PortsReady(tasks, i) && tasks[k].alive
    ensures var names := present + NewNames(present, tasks, i, resolve, k);
            var name := BackendName(tasks[k]);
            present + NewNames(present, tasks, i, resolve, k + 1)
              == names + if name !in names && resolve(BackendAddr(tasks[k], i)).Some? then [name] else []
  {}

  /** From this position on the backends are new: touched, without sends, and each stands for an alive task. */
  ghost predicate NewFrom(bs: seq<Backend>, from: nat, tasks: seq<Task>, i: nat, resolve: Resolve)
    reads bs
  {
    forall j :: from <= j < |bs| ==> bs[j].touched && bs[j].sent == 0 && StandsFor(bs[j], tasks, i, resolve)
  }

  /** The loop body of TouchAlive for an alive task; `start` is the list that the loop started with. */
  method TouchNext(fe: Frontend, ghost start: seq<Backend>, tasks: seq<Task>, k: nat, portIndex: nat, resolve: Resolve)
    requires fe.Valid() && PortsReady(tasks, portIndex) && k < |tasks| && tasks[k].alive && start <= fe.backends
    requires NamesOf(fe.backends) == NamesOf(start) + NewNames(NamesOf(start), tasks, portIndex, resolve, k)
    requires NewFrom(fe.backends, |start|, tasks, portIndex, resolve)
    requires forall b :: b in start ==> (b.touched <==> b.name in Wanted(tasks, k))
    modifies fe, fe.backends
    ensures fe.Valid() && start <= fe.backends
    ensures NamesOf(fe.backends) == NamesOf(start) + NewNames(NamesOf(start), tasks, portIndex, resolve, k + 1)
    ensures NewFrom(fe.backends, |start|, tasks, portIndex, resolve)
    ensures forall b :: b in start ==> b.sent == old(b.sent) && (b.touched <==> b.name in Wanted(tasks, k + 1))
    ensures forall j :: 0 <= j < |fe.backends| ==> fe.backends[j] in old(fe.backends) || fresh(fe.backends[j])
  {
    ghost var before := fe.backends;
    NewNamesStep(NamesOf(start), tasks, portIndex, resolve, k);
    TouchTask(fe, BackendName(tasks[k]), BackendAddr(tasks[k], portIndex), resolve);
    forall j | |start| <= j < |fe.backends|
      ensures fe.backends[j].touched && fe.backends[j].sent == 0 && StandsFor(fe.backends[j], tasks, portIndex, resolve)
    {
      if j < |before| {
        assert fe.backends[j] == before[j] && before[j] in before;
      } else {
        assert fe.backends[j] in fe.backends[|before|..];
        assert Reaches(tasks[k], portIndex, resolve, fe.backends[j].name, fe.backends[j].addr);
      }
    }
    assert forall b :: b in start ==> b in before;
    forall j | 0 <= j < |fe.backends| ensures fe.backends[j] in before || fresh(fe.backends[j]) {
      if j < |before| { assert fe.backends[j] == before[j]; } else { assert fe.backends[j] in fe.backends[|before|..]; }
    }
  }

  /** ClearTouch and the loop over the tasks. */
  method TouchAlive(fe: Frontend, tasks: seq<Task>, portIndex: nat, resolve: Resolve)
    requires fe.Valid() && PortsReady(tasks, portIndex)
    modifies fe, fe.backends
    ensures fe.Valid() && old(fe.backends) <= fe.backends
    ensures NamesOf(fe.backends) == NamesOf(old(fe.backends))
      + NewNames(NamesOf(old(fe.backends)), tasks, portIndex, resolve, |tasks|)
    ensures NewFrom(fe.backends, |old(fe.backends)|, tasks, portIndex, resolve)
    ensures forall k :: |old(fe.backends)| <= k < |fe.backends| ==> fresh(fe.backends[k])
    ensures forall b :: b in old(fe.backends) ==> b.sent == old(b.sent) && (b.touched <==> b.name in Wanted(tasks, |tasks|))
  {
    ghost var start := fe.backends;
    fe.ClearTouch();
    for k := 0 to |tasks|
      invariant fe.Valid() && start <= fe.backends
      invariant NamesOf(fe.backends) == NamesOf(start) + NewNames(NamesOf(start), tasks, portIndex, resolve, k)
      invariant NewFrom(fe.backends, |start|, tasks, portIndex, resolve)
      invariant forall b :: b in start ==> b.sent == old(b.sent) && (b.touched <==> b.name in Wanted(tasks, k))
      invariant forall j :: 0 <= j < |fe.backends| ==> fe.backends[j] in start || fresh(fe.backends[j])
    {
      if tasks[k].alive { TouchNext(fe, start, tasks, k, portIndex, resolve); }
    }
    FreshTail(fe.backends, start);
  }

  /** In a list without repetitions what comes after the old part is not old. */
  lemma FreshTail(bs: seq<Backend>, start: seq<Backend>)
    requires Distinct(NamesOf(bs)) && start <= bs
    ensures forall k :: |start| <= k < |bs| ==> bs[k] !in start
  {
    ObjectsDistinct(bs);
    assert forall j :: 0 <= j < |start| ==> start[j] == bs[j];
  }

  /**
   The body of applyApp for one UDP port. Survivors are the same objects with unchanged
   counters in their old order; new backends follow in task order.
   */
  method Reconcile(fe: Frontend, tasks: seq<Task>, portIndex: nat, resolve: Resolve)
    requires fe.Valid() && PortsReady(tasks, portIndex)
    modifies fe, fe.backends
    ensures fe.Valid()
    ensures NamesOf(fe.backends) == Reconciled(NamesOf(old(fe.backends)), tasks, portIndex, resolve)
    ensures var kept := Keep(old(fe.backends), Wanted(tasks, |tasks|));
            && kept <= fe.backends
            && forall k :: |kept| <= k < |fe.backends| ==> fresh(fe.backends[k]) && fe.backends[k].sent == 0
    ensures forall b: Backend :: old(allocated(b)) ==> b.sent == old(b.sent)
    ensures forall k :: 0 <= k < |fe.backends| ==> fe.backends[k] in old(fe.backends) || fresh(fe.backends[k])
    // in the tasks' own terms: which names stay and come, and whom a new backend stands for
    ensures ListFollowsTasks(NamesOf(old(fe.backends)), NamesOf(fe.backends), tasks, portIndex, resolve)
    ensures Newcomers(old(fe.backends), fe.backends, tasks, portIndex, resolve)
  {
    ghost var start := fe.backends;
    TouchAlive(fe, tasks, portIndex, resolve);
    ghost var touched := fe.backends;
    Sweep(fe, start, tasks, portIndex, resolve);
    ghost var kept := Keep(start, Wanted(tasks, |tasks|));
    KeepIsPart(start, Wanted(tasks, |tasks|));
    forall k | 0 <= k < |kept| ensures fe.backends[k] in start { assert fe.backends[k] == kept[k] && kept[k] in kept; }
    ReconciledFollowsTasks(NamesOf(start), tasks, portIndex, resolve);
    NewcomersAfterSweep(start, touched, fe.backends, tasks, portIndex, resolve);
  }

  lemma NewcomersAfterSweep(start: seq<Backend>, touched: seq<Backend>, after: seq<Backend>, tasks: seq<Task>, i: nat,
      resolve: Resolve)
    requires start <= touched && after == Keep(start, Wanted(tasks, |tasks|)) + touched[|start|..]
    requires forall k :: |start| <= k < |touched| ==> StandsFor(touched[k], tasks, i, resolve)
    ensures Newcomers(start, after, tasks, i, resolve)
  {
    KeepIsPart(start, Wanted(tasks, |tasks|));
    var added := touched[|start|..];
    forall b | b in added ensures StandsFor(b, tasks, i, resolve) {
      var k :| 0 <= k < |added| && added[k] == b;
      assert touched[|start| + k] == b;
    }
  }

  /** RemoveUntouched after the touching loop. */
  method Sweep(fe: Frontend, ghost start: seq<Backend>, tasks: seq<Task>, portIndex: nat, resolve: Resolve)
    requires PortsReady(tasks, portIndex) && Distinct(NamesOf(start)) && start <= fe.backends
    requires NamesOf(fe.backends) == NamesOf(start) + NewNames(NamesOf(start), tasks, portIndex, resolve, |tasks|)
    requires forall k :: |start| <= k < |fe.backends| ==> fe.backends[k].touched
    requires forall b :: b in start ==> (b.touched <==> b.name in Wanted(tasks, |tasks|))
    modifies fe
    ensures fe.Valid()
    ensures NamesOf(fe.backends) == Reconciled(NamesOf(start), tasks, portIndex, resolve)
    ensures fe.backends == Keep(start, Wanted(tasks, |tasks|)) + old(fe.backends)[|start|..]
  {
    ghost var added := fe.backends[|start|..];
    assert fe.backends == start + added;
    SweptNames(start, added, tasks, portIndex, resolve);
    TouchedIsWanted(start, added, tasks);
    fe.RemoveUntouched();
  }

  /** Among listed and new backends the touched ones are those with the name of an alive task. */
  lemma TouchedIsWanted(start: seq<Backend>, added: seq<Backend>, tasks: seq<Task>)
    requires forall b :: b in start ==> (b.touched <==> b.name in Wanted(tasks, |tasks|))
    requires forall k :: 0 <= k < |added| ==> (start + added)[|start| + k].touched && added[k].name in Wanted(tasks, |tasks|)
    ensures Touched(start + added) == Keep(start, Wanted(tasks, |tasks|)) + added
  {
    var all := start + added;
    forall k | 0 <= k < |all| ensures all[k].touched <==> all[k].name in Wanted(tasks, |tasks|) {
      if k < |start| { assert all[k] == start[k] && start[k] in start; }
    }
    TouchedIsKept(all, Wanted(tasks, |tasks|));
    KeepAppend(start, added, Wanted(tasks, |tasks|));
  }

  /** The names that a sweep leaves. */
  lemma SweptNames(start: seq<Backend>, added: seq<Backend>, tasks: seq<Task>, i: nat, resolve: Resolve)
    requires PortsReady(tasks, i) && Distinct(NamesOf(start))
    requires NamesOf(start + added) == NamesOf(start) + NewNames(NamesOf(start), tasks, i, resolve, |tasks|)
    ensures forall k :: 0 <= k < |added| ==> added[k].name in Wanted(tasks, |tasks|)
    ensures var names := NamesOf(Keep(start, Wanted(tasks, |tasks|)) + added);
            names == Reconciled(NamesOf(start), tasks, i, resolve) && Distinct(names)
  {
    var wanted, new_ := Wanted(tasks, |tasks|), NewNames(NamesOf(start), tasks, i, resolve, |tasks|);
    NewNamesWanted(NamesOf(start), tasks, i, resolve, |tasks|);
    forall k | 0 <= k < |added| ensures added[k].name in wanted && new_[k] == added[k].name {
      assert NamesOf(start + added)[|start| + k] == new_[k];
      assert new_[k] in new_;
    }
    KeepHasNames(start, wanted);
    ReconciledDistinct(NamesOf(start), tasks, i, resolve);
    assert NamesOf(Keep(start, wanted) + added) == NamesOf(Keep(start, wanted)) + new_;
  }

  // ---- which objects survive ----

  lemma {:induction false} KeepIsPart(bs: seq<Backend>, names: set<string>)
    ensures forall b :: b in Keep(bs, names) ==> b in bs
  {
    if bs != [] {
      KeepIsPart(bs[..|bs| - 1], names);
      assert bs == bs[..|bs| - 1] + [bs[|bs| - 1]];
    }
  }

  /** `news` is what is left of `olds` under these names, the same objects in the same order, followed by newly made backends. */
  ghost predicate Descends(olds: seq<Backend>, news: seq<Backend>, names: set<string>, before: set<object>) {
    Keep(olds, names) <= news && forall k :: |Keep(olds, names)| <= k < |news| ==> news[k] !in before
  }

  lemma {:induction false} KeepConcat(a: seq<Backend>, b: seq<Backend>, names: set<string>)
    ensures Keep(a + b, names) == Keep(a, names) + Keep(b, names)
    decreases |b|
  {
    if b == [] {
      assert a + b == a;
    } else {
      var n := |b| - 1;
      assert (a + b)[..|a| + n] == a + b[..n];
      KeepConcat(a, b[..n], names);
    }
  }

  lemma {:induction false} KeepTwice(bs: seq<Backend>, s: set<string>, w: set<string>)
    ensures Keep(Keep(bs, s), w) == Keep(bs, s * w)
  {
    if bs != [] {
      var n := |bs| - 1;
      KeepTwice(bs[..n], s, w);
      KeepConcat(Keep(bs[..n], s), if bs[n].name in s then [bs[n]] else [], w);
      assert Keep([bs[n]], w) == if bs[n].name in w then [bs[n]] else [] by { assert [bs[n]][..0] == []; }
    }
  }

  lemma DescendsTwice(a: seq<Backend>, b: seq<Backend>, c: seq<Backend>, s: set<string>, w: set<string>,
      r: set<object>, r': set<object>)
    requires Descends(a, b, s, r) && Descends(b, c, w, r') && r <= r'
    ensures Descends(a, c, s * w, r)
  {
    var kept := Keep(a, s);
    var rest := b[|kept|..];
    assert b == kept + rest;
    KeepConcat(kept, rest, w);
    KeepTwice(a, s, w);
    KeepIsPart(rest, w);
    forall x | x in rest ensures x !in r {
      var m :| 0 <= m < |rest| && rest[m] == x;
      assert b[|kept| + m] == x;
    }
    forall k | |Keep(a, s * w)| <= k < |c| ensures c[k] !in r {
      if k < |Keep(b, w)| {
        assert c[k] == Keep(b, w)[k] == Keep(rest, w)[k - |Keep(a, s * w)|];
        assert c[k] in Keep(rest, w);
      }
    }
  }

  function NameSet(bs: seq<Backend>): set<string> { set b | b in bs :: b.name }

  lemma {:induction false} KeepsAll(bs: seq<Backend>, names: set<string>)
    requires forall b :: b in bs ==> b.name in names
    ensures Keep(bs, names) == bs
  {
    if bs != [] {
      KeepsAll(bs[..|bs| - 1], names);
      assert bs == bs[..|bs| - 1] + [bs[|bs| - 1]];
    }
  }

  lemma DescendsUnchanged(bs: seq<Backend>, before: set<object>)
    ensures Descends(bs, bs, NameSet(bs), before)
  {
    KeepsAll(bs, NameSet(bs));
  }

  // ---- all frontends ----

  /** What the source demands of an application with UDP ports: a definition for the port, and ports on its alive tasks. */
  predicate UdpReady(app: App) {
    forall i :: 0 <= i < |app.ports| && GetTransportProtocol(app, i) == "udp" ==>
      i < |app.portDefinitions| && PortsReady(app.tasks, i)
  }

  function FrontendName(app: App, i: nat): string
    requires i < |app.portDefinitions|
  {
    PrettifyAppId(app.id, i, app.portDefinitions[i].port)
  }

  /** Of these backend names of frontend `n`, the ones that the first `i` ports of an application leave. */
  ghost function Surviving(names: set<string>, app: App, n: string, i: nat): set<string>
    requires i <= |app.ports| && UdpReady(app)
  {
    if i == 0 then names
    else
      var before := Surviving(names, app, n, i - 1);
      if GetTransportProtocol(app, i - 1) == "udp" && FrontendName(app, i - 1) == n
      then before * Wanted(app.tasks, |app.tasks|) else before
  }

  lemma {:induction false} SurvivingMeet(names: set<string>, more: set<string>, app: App, n: string, i: nat)
    requires i <= |app.ports| && UdpReady(app) && names <= more
    ensures Surviving(names, app, n, i) == names * Surviving(more, app, n, i)
  {
    if i > 0 { SurvivingMeet(names, more, app, n, i - 1); }
  }

  lemma {:induction false} KeepAgrees(bs: seq<Backend>, s: set<string>, w: set<string>)
    requires forall b :: b in bs ==> (b.name in s <==> b.name in w)
    ensures Keep(bs, s) == Keep(bs, w)
  {
    if bs != [] {
      assert bs == bs[..|bs| - 1] + [bs[|bs| - 1]];
      KeepAgrees(bs[..|bs| - 1], s, w);
    }
  }

  /** What survived so far, and then an application. */
  lemma ThenApply(start: seq<Backend>, mid: seq<Backend>, now: seq<Backend>, names: set<string>, app: App, n: string,
      r: set<object>, r': set<object>)
    requires UdpReady(app) && r <= r' && Descends(start, mid, names, r)
    requires Descends(mid, now, Surviving(NameSet(mid), app, n, |app.ports|), r')
    ensures Descends(start, now, Surviving(names, app, n, |app.ports|), r)
  {
    var more := names + NameSet(mid);
    SurvivingMeet(names, more, app, n, |app.ports|);
    SurvivingMeet(NameSet(mid), more, app, n, |app.ports|);
    KeepAgrees(mid, Surviving(NameSet(mid), app, n, |app.ports|), Surviving(more, app, n, |app.ports|));
    DescendsTwice(start, mid, now, names, Surviving(more, app, n, |app.ports|), r, r');
  }

  ghost function SurvivingAll(names: set<string>, apps: seq<App>, n: string, k: nat): set<string>
    requires k <= |apps| && forall a: App :: a in apps ==> UdpReady(a)
  {
    if k == 0 then names else Surviving(SurvivingAll(names, apps, n, k - 1), apps[k - 1], n, |apps[k - 1].ports|)
  }

  /** The backends of every frontend. */
  type Lists = map<string, seq<Backend>>

  ghost function ListAt(lists: Lists, n: string): seq<Backend> { if n in lists then lists[n] else [] }

  /** One frontend keeps its backends of these names, and the others are as they were. */
  ghost predicate PortLists(before: Lists, after: Lists, name: string, wanted: set<string>, r: set<object>) {
    && (forall n :: n != name ==> ListAt(after, n) == ListAt(before, n))
    && Descends(ListAt(before, name), ListAt(after, name), wanted, r)
  }

  /** One of the first `i` ports, a UDP port, has this frontend name, and the backend stands for a task there. */
  ghost predicate StandsForPort(b: Backend, name: string, app: App, i: nat, resolve: Resolve) {
    exists k :: 0 <= k < i && k < |app.portDefinitions| && app.portDefinitions[k].protocol == "udp"
      && name == PrettifyAppId(app.id, k, app.portDefinitions[k].port) && StandsFor(b, app.tasks, k, resolve)
  }

  ghost predicate StandsForSome(b: Backend, name: string, apps: seq<App>, n: nat, resolve: Resolve)
    requires n <= |apps|
  {
    exists j :: 0 <= j < n && StandsForPort(b, name, apps[j], |apps[j].ports|, resolve)
  }

  /**
   Every frontend keeps the backends that the first `i` ports leave, and whatever else is
   in its list stands for an alive task on one of these ports.
   */
  ghost predicate AppLists(before: Lists, after: Lists, app: App, i: nat, resolve: Resolve, r: set<object>)
    requires i <= |app.ports| && UdpReady(app)
  {
    && (forall n :: Descends(ListAt(before, n), ListAt(after, n), Surviving(NameSet(ListAt(before, n)), app, n, i), r))
    && forall n, b :: b in ListAt(after, n) && b !in ListAt(before, n) ==> StandsForPort(b, n, app, i, resolve)
  }

  ghost predicate AllLists(before: Lists, after: Lists, apps: seq<App>, k: nat, resolve: Resolve, r: set<object>)
    requires k <= |apps| && forall a: App :: a in apps ==> UdpReady(a)
  {
    && (forall n :: Descends(ListAt(before, n), ListAt(after, n), SurvivingAll(NameSet(ListAt(before, n)), apps, n, k), r))
    && forall n, b :: b in ListAt(after, n) && b !in ListAt(before, n) ==> StandsForSome(b, n, apps, k, resolve)
  }

  lemma NothingApplied(lists: Lists, app: App, resolve: Resolve, r: set<object>)
    requires UdpReady(app)
    ensures AppLists(lists, lists, app, 0, resolve, r)
  {
    forall n ensures Descends(ListAt(lists, n), ListAt(lists, n), NameSet(ListAt(lists, n)), r) {
      DescendsUnchanged(ListAt(lists, n), r);
    }
  }

  lemma NoneApplied(lists: Lists, apps: seq<App>, resolve: Resolve, r: set<object>)
    requires forall a: App :: a in apps ==> UdpReady(a)
    ensures AllLists(lists, lists, apps, 0, resolve, r)
  {
    forall n ensures Descends(ListAt(lists, n), ListAt(lists, n), NameSet(ListAt(lists, n)), r) {
      DescendsUnchanged(ListAt(lists, n), r);
    }
  }

  ghost predicate OnePortLists(before: Lists, after: Lists, app: App, i: nat, resolve: Resolve, r: set<object>)
    requires i < |app.ports| && UdpReady(app)
  {
    if GetTransportProtocol(app, i) == "udp" then
      var name := FrontendName(app, i);
      && PortLists(before, after, name, Wanted(app.tasks, |app.tasks|), r)
      && Newcomers(ListAt(before, name), ListAt(after, name), app.tasks, i, resolve)
    else after == before
  }

  lemma DescendsStep(before: Lists, mid: Lists, after: Lists, app: App, i: nat, resolve: Resolve, r: set<object>,
      r': set<object>, n: string)
    requires i < |app.ports| && UdpReady(app) && r <= r'
    requires Descends(ListAt(before, n), ListAt(mid, n), Surviving(NameSet(ListAt(before, n)), app, n, i), r)
    requires OnePortLists(mid, after, app, i, resolve, r')
    ensures Descends(ListAt(before, n), ListAt(after, n), Surviving(NameSet(ListAt(before, n)), app, n, i + 1), r)
  {
    if GetTransportProtocol(app, i) == "udp" && FrontendName(app, i) == n {
      DescendsTwice(ListAt(before, n), ListAt(mid, n), ListAt(after, n), Surviving(NameSet(ListAt(before, n)), app, n, i),
                    Wanted(app.tasks, |app.tasks|), r, r');
    }
  }

  lemma NewStep(mid: Lists, after: Lists, app: App, i: nat, resolve: Resolve, r: set<object>, n: string, b: Backend)
    requires i < |app.ports| && UdpReady(app) && OnePortLists(mid, after, app, i, resolve, r) && b in ListAt(after, n)
    ensures b in ListAt(mid, n) || StandsForPort(b, n, app, i + 1, resolve)
  {
    if b !in ListAt(mid, n) {
      assert FrontendName(app, i) == n && StandsFor(b, app.tasks, i, resolve);
      assert app.portDefinitions[i].protocol == "udp";
    }
  }

  lemma AppListsStep(before: Lists, mid: Lists, after: Lists, app: App, i: nat, resolve: Resolve, r: set<object>, r': set<object>)
    requires i < |app.ports| && UdpReady(app) && r <= r'
    requires AppLists(before, mid, app, i, resolve, r) && OnePortLists(mid, after, app, i, resolve, r')
    ensures AppLists(before, after, app, i + 1, resolve, r)
  {
    forall n ensures Descends(ListAt(before, n), ListAt(after, n), Surviving(NameSet(ListAt(before, n)), app, n, i + 1), r) {
      DescendsStep(before, mid, after, app, i, resolve, r, r', n);
    }
    forall n, b | b in ListAt(after, n) && b !in ListAt(before, n) ensures StandsForPort(b, n, app, i + 1, resolve) {
      NewStep(mid, after, app, i, resolve, r', n, b);
    }
  }

  lemma AllListsStep(before: Lists, mid: Lists, after: Lists, apps: seq<App>, k: nat, resolve: Resolve, r: set<object>,
      r': set<object>)
    requires k < |apps| && (forall a: App :: a in apps ==> UdpReady(a)) && r <= r' && AllLists(before, mid, apps, k, resolve, r)
    requires AppLists(mid, after, apps[k], |apps[k].ports|, resolve, r')
    ensures AllLists(before, after, apps, k + 1, resolve, r)
  {
    forall n ensures Descends(ListAt(before, n), ListAt(after, n), SurvivingAll(NameSet(ListAt(before, n)), apps, n, k + 1), r) {
      ThenApply(ListAt(before, n), ListAt(mid, n), ListAt(after, n), SurvivingAll(NameSet(ListAt(before, n)), apps, n, k),
                apps[k], n, r, r');
    }
    forall n, b | b in ListAt(after, n) && b !in ListAt(before, n) ensures StandsForSome(b, n, apps, k + 1, resolve) {
      if b in ListAt(mid, n) { assert StandsForSome(b, n, apps, k, resolve); }
    }
  }

  /** The backend names of every frontend. */
  type Names = map<string, seq<string>>

  /** One frontend; `spawnable` are the frontends that can get their socket. */
  ghost function PortView(view: Names, name: string, tasks: seq<Task>, i: nat, spawnable: set<string>, resolve: Resolve): Names
    requires PortsReady(tasks, i)
  {
    if name in view then view[name := Reconciled(view[name], tasks, i, resolve)]
    else if name in spawnable then view[name := Reconciled([], tasks, i, resolve)]
    else view
  }

  /** One port of an application. */
  ghost function OnePort(view: Names, app: App, i: nat, spawnable: set<string>, resolve: Resolve): Names
    requires i < |app.ports| && UdpReady(app)
  {
    if GetTransportProtocol(app, i) == "udp" then PortView(view, FrontendName(app, i), app.tasks, i, spawnable, resolve) else view
  }

  /** The first `n` ports of an application. */
  ghost function ApplyPorts(view: Names, app: App, spawnable: set<string>, resolve: Resolve, n: nat): Names
    requires n <= |app.ports| && UdpReady(app)
  {
    if n == 0 then view else OnePort(ApplyPorts(view, app, spawnable, resolve, n - 1), app, n - 1, spawnable, resolve)
  }

  ghost function ApplyAll(view: Names, apps: seq<App>, spawnable: set<string>, resolve: Resolve, n: nat): Names
    requires n <= |apps| && forall a: App :: a in apps ==> UdpReady(a)
  {
    if n == 0 then view
    else ApplyPorts(ApplyAll(view, apps, spawnable, resolve, n - 1), apps[n - 1], spawnable, resolve, |apps[n - 1].ports|)
  }

  ghost function NamesIn(lists: Lists): Names { map n | n in lists :: NamesOf(lists[n]) }

  /** The frontend's list is there, empty if it is new. */
  ghost predicate Spawned(before: Lists, after: Lists, name: string, spawnable: set<string>) {
    after == if name !in before && name in spawnable then before[name := []] else before
  }

  /** One present frontend is reconciled, and no other. */
  ghost predicate ReconciledList(before: Lists, after: Lists, name: string, tasks: seq<Task>, i: nat, resolve: Resolve,
      r: set<object>)
    requires PortsReady(tasks, i)
  {
    && name in before && name in after && after == before[name := after[name]]
    && NamesOf(after[name]) == Reconciled(NamesOf(before[name]), tasks, i, resolve)
    && Descends(before[name], after[name], Wanted(tasks, |tasks|), r)
    && Newcomers(before[name], after[name], tasks, i, resolve)
  }

  lemma NamesUpdate(lists: Lists, name: string, list: seq<Backend>)
    ensures NamesIn(lists[name := list]) == NamesIn(lists)[name := NamesOf(list)]
  {}

  lemma PortNames(before: Lists, spawned: Lists, after: Lists, name: string, tasks: seq<Task>, i: nat,
      spawnable: set<string>, resolve: Resolve, r: set<object>)
    requires PortsReady(tasks, i) && Spawned(before, spawned, name, spawnable)
    requires if name in spawned then ReconciledList(spawned, after, name, tasks, i, resolve, r) else after == spawned
    ensures NamesIn(after) == PortView(NamesIn(before), name, tasks, i, spawnable, resolve)
  {
    if name in spawned {
      assert after == before[name := after[name]];
      NamesUpdate(before, name, after[name]);
      assert NamesOf([]) == [];
    }
  }

  lemma PortKeeps(before: Lists, spawned: Lists, after: Lists, name: string, tasks: seq<Task>, i: nat,
      spawnable: set<string>, resolve: Resolve, r: set<object>, r': set<object>)
    requires PortsReady(tasks, i) && Spawned(before, spawned, name, spawnable) && r <= r'
    requires if name in spawned then ReconciledList(spawned, after, name, tasks, i, resolve, r') else after == spawned
    ensures PortLists(before, after, name, Wanted(tasks, |tasks|), r)
    ensures Newcomers(ListAt(before, name), ListAt(after, name), tasks, i, resolve)
  {}

  /** A frontend that none of these UDP ports names is left alone. */
  lemma {:induction false} OtherFrontendKept(view: Names, app: App, spawnable: set<string>, resolve: Resolve, n: nat,
      name: string)
    requires n <= |app.ports| && UdpReady(app)
    requires forall k :: 0 <= k < n && GetTransportProtocol(app, k) == "udp" ==> FrontendName(app, k) != name
    ensures var after := ApplyPorts(view, app, spawnable, resolve, n);
            (name in after <==> name in view) && (name in view ==> after[name] == view[name])
  {
    if n > 0 { OtherFrontendKept(view, app, spawnable, resolve, n - 1, name); }
  }

  /** Frontend names tell ports apart. */
  lemma FrontendNamesPort(app: App, i: nat, k: nat)
    requires i < |app.portDefinitions| && k < |app.portDefinitions| && FrontendName(app, i) == FrontendName(app, k)
    ensures i == k
  {
    PrettifyCollides(app.id, i, app.portDefinitions[i].port, app.id, k, app.portDefinitions[k].port);
  }

  lemma UdpPortReconciled(view: Names, app: App, spawnable: set<string>, resolve: Resolve, i: nat)
    requires i < |app.ports| && UdpReady(app) && GetTransportProtocol(app, i) == "udp"
    ensures var name := FrontendName(app, i);
            var after := ApplyPorts(view, app, spawnable, resolve, i + 1);
            && (name in after <==> name in view || name in spawnable)
            && (name in after ==> after[name] == Reconciled(if name in view then view[name] else [], app.tasks, i, resolve))
  {
    var name := FrontendName(app, i);
    forall k | 0 <= k < i && GetTransportProtocol(app, k) == "udp" ensures FrontendName(app, k) != name {
      if FrontendName(app, k) == name { FrontendNamesPort(app, i, k); }
    }
    OtherFrontendKept(view, app, spawnable, resolve, i, name);
  }

  lemma {:induction false} LaterPortsKeep(view: Names, app: App, spawnable: set<string>, resolve: Resolve, i: nat, n: nat)
    requires i < n <= |app.ports| && UdpReady(app) && GetTransportProtocol(app, i) == "udp"
    ensures var name := FrontendName(app, i);
            var first, after := ApplyPorts(view, app, spawnable, resolve, i + 1), ApplyPorts(view, app, spawnable, resolve, n);
            (name in after <==> name in first) && (name in first ==> after[name] == first[name])
  {
    if i < n - 1 {
      LaterPortsKeep(view, app, spawnable, resolve, i, n - 1);
      if GetTransportProtocol(app, n - 1) == "udp" && FrontendName(app, n - 1) == FrontendName(app, i) {
        FrontendNamesPort(app, i, n - 1);
      }
    }
  }

  /** Every UDP port's frontend, if it is there or can be opened, lists the port's alive tasks afterwards. */
  lemma UdpPortFollowsTasks(view: Names, app: App, spawnable: set<string>, resolve: Resolve, i: nat)
    requires UdpReady(app) && i < |app.ports| && i < |app.portDefinitions| && app.portDefinitions[i].protocol == "udp"
    ensures var name := PrettifyAppId(app.id, i, app.portDefinitions[i].port);
            var after := ApplyPorts(view, app, spawnable, resolve, |app.ports|);
            && (name in after <==> name in view || name in spawnable)
            && (name in after ==>
                  ListFollowsTasks(if name in view then view[name] else [], after[name], app.tasks, i, resolve))
  {
    var name := FrontendName(app, i);
    UdpPortReconciled(view, app, spawnable, resolve, i);
    LaterPortsKeep(view, app, spawnable, resolve, i, |app.ports|);
    ReconciledFollowsTasks(if name in view then view[name] else [], app.tasks, i, resolve);
  }

  /** No frontend name holds a slash, so prefixes that start with one match nothing. */
  ghost predicate Slashless(names: set<string>) { forall name :: name in names ==> '/' !in name }

  class UdpManager {
    const resolve: Resolve
    var servers: map<string, Frontend>
    /** The frontends and backends this manager has made. */
    ghost var Repr: set<object>

    /** Frontends are not shared, and the backends of each have distinct names. */
    ghost predicate Valid()
      reads this, Repr
    {
      && Slashless(servers.Keys)
      && (forall n :: n in servers ==> servers[n] in Repr && servers[n].Valid())
      && (forall n, k :: n in servers && 0 <= k < |servers[n].backends| ==> servers[n].backends[k] in Repr)
      && (forall n, m :: n in servers && m in servers && n != m ==> servers[n] != servers[m])
    }

    ghost function View(): Names
      reads this, servers.Values
    {
      NamesIn(Backends())
    }

    ghost function Backends(): Lists
      reads this, servers.Values
    {
      map n | n in servers :: servers[n].backends
    }

    constructor (resolve: Resolve)
      ensures this.resolve == resolve && servers == map[] && Valid() && View() == map[] && Repr == {}
    {
      this.resolve, servers, Repr := resolve, map[], {};
    }

    /** GetFrontend; null is an error from opening the socket. */
    method GetFrontend(app: App, portIndex: nat, spawnable: set<string>) returns (fe: Frontend?)
      requires Valid() && portIndex < |app.portDefinitions|
      modifies `servers, `Repr
      ensures Valid() && fresh(Repr - old(Repr)) && old(Repr) <= Repr
      ensures var name := FrontendName(app, portIndex);
              if name in old(servers) then servers == old(servers) && fe == servers[name]
              else if name in spawnable then
                && fe != null && fresh(fe) && fe.name == name && fe.backends == []
                && (fe.multicast <==> Label(app.labels, "lb-mode") == "multicast")
                && servers == old(servers)[name := fe]
              else fe == null && servers == old(servers)
      ensures Spawned(old(Backends()), Backends(), FrontendName(app, portIndex), spawnable)
    {
      var name := PrettifyAppId(app.id, portIndex, app.portDefinitions[portIndex].port);
      PrettifyHasNoSlash(app.id, portIndex, app.portDefinitions[portIndex].port);
      if name in servers { return servers[name]; }
      var multicast := Label(app.labels, "lb-mode") == "multicast";
      if name !in spawnable { return null; }
      fe := new Frontend(name, multicast);
      servers := servers[name := fe];
      Repr := Repr + {fe};
    }

    /** removeApp: drops the frontends whose name starts with the raw application id. */
    method RemoveApp(appId: string)
      requires Valid()
      modifies `servers
      ensures Valid()
      ensures servers == map n | n in old(servers) && !(appId <= n) :: old(servers)[n]
      ensures appId != "" && appId[0] == '/' ==> servers == old(servers)
    {
      var todo, removals := servers.Keys, {};
      while todo != {}
        invariant todo <= servers.Keys
        invariant removals == set n | n in servers.Keys - todo && appId <= n
        decreases todo
      {
        var name :| name in todo;
        if appId <= name { removals := removals + {name}; }
        todo := todo - {name};
      }
      if appId != "" && appId[0] == '/' {
        forall n | n in servers ensures !(appId <= n) { RootedIsNoPrefix(appId, n); }
        assert removals == {};
      }
      servers := servers - removals;
    }

    /** Reconciles one present frontend, and no other. */
    method ReconcileServer(name: string, tasks: seq<Task>, portIndex: nat)
      requires Valid() && name in servers && PortsReady(tasks, portIndex)
      modifies `Repr, servers[name], servers[name].backends
      ensures servers == old(servers)
      ensures Valid() && fresh(Repr - old(Repr)) && old(Repr) <= Repr
      ensures NamesOf(servers[name].backends) == Reconciled(NamesOf(old(servers[name].backends)), tasks, portIndex, resolve)
      ensures forall n :: n in servers && n != name ==> servers[n].backends == old(servers[n].backends)
      ensures Descends(old(servers[name].backends), servers[name].backends, Wanted(tasks, |tasks|), old(Repr))
      ensures Newcomers(old(servers[name].backends), servers[name].backends, tasks, portIndex, resolve)
      ensures forall b: Backend :: old(allocated(b)) ==> b.sent == old(b.sent)
    {
      var fe := servers[name];
      ghost var start := fe.backends;
      assert forall n :: n in servers && n != name ==> servers[n] != fe;
      Reconcile(fe, tasks, portIndex, resolve);
      KeepIsPart(start, Wanted(tasks, |tasks|));
      Repr := Repr + set k | 0 <= k < |fe.backends| :: fe.backends[k];
    }

    /** The same, seen as lists. */
    method ReconcileList(name: string, tasks: seq<Task>, portIndex: nat)
      requires Valid() && name in servers && PortsReady(tasks, portIndex)
      modifies `Repr, servers[name], servers[name].backends
      ensures servers == old(servers)
      ensures Valid() && fresh(Repr - old(Repr)) && old(Repr) <= Repr
      ensures ReconciledList(old(Backends()), Backends(), name, tasks, portIndex, resolve, old(Repr))
      ensures forall b: Backend :: old(allocated(b)) ==> b.sent == old(b.sent)
    {
      ReconcileServer(name, tasks, portIndex);
    }

    /** A UDP port: its frontend is found or opened, and reconciled. */
    method ApplyPort(app: App, i: nat, spawnable: set<string>)
      requires Valid() && i < |app.portDefinitions| && PortsReady(app.tasks, i)
      modifies this, Repr
      ensures Valid() && fresh(Repr - old(Repr)) && old(Repr) <= Repr
      ensures View() == PortView(old(View()), FrontendName(app, i), app.tasks, i, spawnable, resolve)
      ensures forall n :: n in old(servers) ==> n in servers && servers[n] == old(servers)[n]
      ensures PortLists(old(Backends()), Backends(), FrontendName(app, i), Wanted(app.tasks, |app.tasks|), old(Repr))
      ensures var name := FrontendName(app, i);
              Newcomers(ListAt(old(Backends()), name), ListAt(Backends(), name), app.tasks, i, resolve)
      ensures forall b: Backend :: old(allocated(b)) ==> b.sent == old(b.sent)
    {
      ghost var lists, name := Backends(), FrontendName(app, i);
      var fe := GetFrontend(app, i, spawnable);
      ghost var spawned, repr := Backends(), Repr;
      if fe != null { ReconcileList(FrontendName(app, i), app.tasks, i); }
      PortNames(lists, spawned, Backends(), name, app.tasks, i, spawnable, resolve, repr);
      PortKeeps(lists, spawned, Backends(), name, app.tasks, i, spawnable, resolve, old(Repr), repr);
    }

    /** The loop body of applyApp; `before` are the lists that the loop started with. */
    method ApplyPortOf(app: App, i: nat, spawnable: set<string>, ghost before: Lists, ghost r: set<object>)
      requires Valid() && UdpReady(app) && i < |app.ports| && r <= Repr
      requires AppLists(before, Backends(), app, i, resolve, r)
      modifies this, Repr
      ensures Valid() && fresh(Repr - old(Repr)) && old(Repr) <= Repr
      ensures View() == OnePort(old(View()), app, i, spawnable, resolve)
      ensures forall n :: n in old(servers) ==> n in servers && servers[n] == old(servers)[n]
      ensures AppLists(before, Backends(), app, i + 1, resolve, r)
      ensures forall b: Backend :: old(allocated(b)) ==> b.sent == old(b.sent)
    {
      if GetTransportProtocol(app, i) == "udp" {
        ApplyPort(app, i, spawnable);
      }
      AppListsStep(before, old(Backends()), Backends(), app, i, resolve, r, old(Repr));
    }

    /**
     applyApp. Of every frontend's backends, those whose names survive remain: the same
     objects, in their order, with their counters; whatever else it has is newly made.
     */
    method ApplyApp(app: App, spawnable: set<string>)
      requires Valid() && UdpReady(app)
      modifies this, Repr
      ensures Valid() && fresh(Repr - old(Repr)) && old(Repr) <= Repr
      ensures View() == ApplyPorts(old(View()), app, spawnable, resolve, |app.ports|)
      ensures forall n :: n in old(servers) ==> n in servers && servers[n] == old(servers)[n]
      ensures AppLists(old(Backends()), Backends(), app, |app.ports|, resolve, old(Repr))
      ensures forall b: Backend :: old(allocated(b)) ==> b.sent == old(b.sent)
    {
      NothingApplied(Backends(), app, resolve, Repr);
      for i := 0 to |app.ports|
        invariant Valid() && fresh(Repr - old(Repr)) && old(Repr) <= Repr
        invariant View() == ApplyPorts(old(View()), app, spawnable, resolve, i)
        invariant forall n :: n in old(servers) ==> n in servers && servers[n] == old(servers)[n]
        invariant AppLists(old(Backends()), Backends(), app, i, resolve, old(Repr))
        invariant forall b: Backend :: old(allocated(b)) ==> b.sent == old(b.sent)
      {
        ApplyPortOf(app, i, spawnable, old(Backends()), old(Repr));
      }
    }

    /** The loop body of Apply; `before` are the lists that the loop started with. */
    method ApplyNext(apps: seq<App>, k: nat, spawnable: set<string>, ghost before: Lists, ghost r: set<object>)
      requires Valid() && k < |apps| && (forall a: App :: a in apps ==> UdpReady(a)) && r <= Repr
      requires AllLists(before, Backends(), apps, k, resolve, r)
      modifies this, Repr
      ensures Valid() && fresh(Repr - old(Repr)) && old(Repr) <= Repr
      ensures View() == ApplyPorts(old(View()), apps[k], spawnable, resolve, |apps[k].ports|)
      ensures forall n :: n in old(servers) ==> n in servers && servers[n] == old(servers)[n]
      ensures AllLists(before, Backends(), apps, k + 1, resolve, r)
      ensures forall b: Backend :: old(allocated(b)) ==> b.sent == old(b.sent)
    {
      ApplyApp(apps[k], spawnable);
      AllListsStep(before, old(Backends()), Backends(), apps, k, resolve, r, old(Repr));
    }

    method Apply(apps: seq<App>, spawnable: set<string>)
      requires Valid() && forall a: App :: a in apps ==> UdpReady(a)
      modifies this, Repr
      ensures Valid() && fresh(Repr - old(Repr)) && old(Repr) <= Repr
      ensures View() == ApplyAll(old(View()), apps, spawnable, resolve, |apps|)
      ensures forall n :: n in old(servers) ==> n in servers && servers[n] == old(servers)[n]
      ensures AllLists(old(Backends()), Backends(), apps, |apps|, resolve, old(Repr))
      ensures forall b: Backend :: old(allocated(b)) ==> b.sent == old(b.sent)
    {
      NoneApplied(Backends(), apps, resolve, Repr);
      for i := 0 to |apps|
        invariant Valid() && fresh(Repr - old(Repr)) && old(Repr) <= Repr
        invariant View() == ApplyAll(old(View()), apps, spawnable, resolve, i)
        invariant forall n :: n in old(servers) ==> n in servers && servers[n] == old(servers)[n]
        invariant AllLists(old(Backends()), Backends(), apps, i, resolve, old(Repr))
        invariant forall b: Backend :: old(allocated(b)) ==> b.sent == old(b.sent)
      {
        ApplyNext(apps, i, spawnable, old(Backends()), old(Repr));
      }
    }

    method Update(app: App, spawnable: set<string>)
      requires Valid() && UdpReady(app)
      modifies this, Repr
      ensures Valid() && fresh(Repr - old(Repr)) && old(Repr) <= Repr
      ensures View() == ApplyPorts(old(View()), app, spawnable, resolve, |app.ports|)
      ensures AppLists(old(Backends()), Backends(), app, |app.ports|, resolve, old(Repr))
      ensures forall b: Backend :: old(allocated(b)) ==> b.sent == old(b.sent)
    {
      ApplyApp(app, spawnable);
    }

    /** Remove of a destroyed application leaves every frontend where it was, as its rooted id is a prefix of none. */
    method Remove(appId: string, app: Option<App>, spawnable: set<string>)
      requires Valid() && (app.Some? ==> UdpReady(app.value))
      modifies this, Repr
      ensures Valid() && fresh(Repr - old(Repr)) && old(Repr) <= Repr
      ensures app.Some? ==>
                && View() == ApplyPorts(old(View()), app.value, spawnable, resolve, |app.value.ports|)
                && AppLists(old(Backends()), Backends(), app.value, |app.value.ports|, resolve, old(Repr))
      ensures app.None? ==> servers == map n | n in old(servers) && !(appId <= n) :: old(servers)[n]
      ensures app.None? && appId != "" && appId[0] == '/' ==> Backends() == old(Backends()) && View() == old(View())
      ensures forall b: Backend :: old(allocated(b)) ==> b.sent == old(b.sent)
    {
      if app.Some? { ApplyApp(app.value, spawnable); } else { RemoveApp(appId); }
    }
  }

  lemma RootedIsNoPrefix(id: string, name: string)
    requires id != "" && id[0] == '/' && '/' !in name
    ensures !(id <= name)
  {
    if name != "" { assert name[0] in name; }
  }
}
