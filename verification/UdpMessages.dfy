/**
 Message conservation over runs of one UDP frontend. Every datagram is handled by its
 own goroutine: a dispatch only decides which backends are to get the message, and each
 send counts later, possibly when its backend has been swept already. `Traffic` is a
 frontend with these goroutines; each of its methods is a step of the machine, or the
 steps of a message whose goroutines run at once.
 */
module UdpMessages {
  import opened Marathon
  import opened UdpProxy
  import opened Manager = UdpManager

  /**
   `live` is the frontend's list, `made` every backend it ever had, `sent` their counters,
   and `pending` the sends that are not yet counted.
   */
  datatype State = State(live: seq<Backend>, made: seq<Backend>, sent: seq<nat>, pending: seq<Backend>)

  datatype Event =
    | RoundRobin
    | Multicast
    | Send(goroutine: nat)
    | Reconcile(names: set<string>, added: seq<Backend>)

  const INITIAL := State([], [], [], [])

  predicate Objects(bs: seq<Backend>) { forall i, j :: 0 <= i < j < |bs| ==> bs[i] != bs[j] }

  /** What the program does not panic on, what can be sent, and that new backends are new. */
  ghost predicate Enabled(s: State, e: Event) {
    match e
    case RoundRobin => s.live != []
    case Multicast => true
    case Send(g) => g < |s.pending|
    case Reconcile(_, added) => Objects(added) && forall b :: b in added ==> b !in s.made
  }

  function Zeros(n: nat): seq<nat> { if n == 0 then [] else Zeros(n - 1) + [0] }

  /** One more for this backend. */
  ghost function Counted(made: seq<Backend>, sent: seq<nat>, b: Backend): seq<nat>
    requires |made| == |sent|
  {
    seq(|sent|, k requires 0 <= k < |sent| => if made[k] == b then sent[k] + 1 else sent[k])
  }

  ghost predicate WellFormed(s: State) {
    && |s.made| == |s.sent| && Objects(s.made)
    && (forall b :: b in s.live ==> b in s.made) && (forall b :: b in s.pending ==> b in s.made)
  }

  ghost function Step(s: State, e: Event): State
    requires WellFormed(s) && Enabled(s, e)
  {
    match e
    case RoundRobin => s.(pending := s.pending + [s.live[0]])
    case Multicast => s.(pending := s.pending + s.live)
    case Send(g) => s.(sent := Counted(s.made, s.sent, s.pending[g]), pending := s.pending[..g] + s.pending[g + 1..])
    case Reconcile(names, added) =>
      s.(live := Keep(s.live, names) + added, made := s.made + added, sent := s.sent + Zeros(|added|))
  }

  lemma {:induction false} ZerosLength(n: nat)
    ensures |Zeros(n)| == n && forall k :: 0 <= k < n ==> Zeros(n)[k] == 0
  {
    if n > 0 { ZerosLength(n - 1); }
  }

  /** Live backends and pending sends are always of backends that were made, also after a sweep. */
  lemma StepKeepsForm(s: State, e: Event)
    requires WellFormed(s) && Enabled(s, e)
    ensures WellFormed(Step(s, e))
  {
    match e
    case RoundRobin => assert s.live[0] in s.live;
    case Multicast =>
    case Send(g) =>
    case Reconcile(names, added) =>
      KeepIsPart(s.live, names);
      ZerosLength(|added|);
      forall k | 0 <= k < |added| ensures added[k] !in s.made { assert added[k] in added; }
  }

  /** A run is legal if every event can happen when it does. */
  ghost predicate Legal(events: seq<Event>, n: nat)
    requires n <= |events|
    ensures Legal(events, n) ==> WellFormed(After(events, n))
    decreases n, 1
  {
    if n == 0 then true
    else
      Legal(events, n - 1)
      && Enabled(After(events, n - 1), events[n - 1])
      && (StepKeepsForm(After(events, n - 1), events[n - 1]); true)
  }

  ghost function After(events: seq<Event>, n: nat): State
    requires n <= |events|
    decreases n, 0
  {
    if n == 0 then INITIAL
    else
      var before := After(events, n - 1);
      if WellFormed(before) && Enabled(before, events[n - 1]) then Step(before, events[n - 1]) else before
  }

  /** One for a round-robin message, and the number of backends for a multicast. */
  function Issues(s: State, e: Event): nat {
    match e
    case RoundRobin => 1
    case Multicast => |s.live|
    case Send(_) => 0
    case Reconcile(_, _) => 0
  }

  ghost function Issued(events: seq<Event>, n: nat): nat
    requires n <= |events|
  {
    if n == 0 then 0 else Issued(events, n - 1) + Issues(After(events, n - 1), events[n - 1])
  }

  /** Over live and swept backends alike. */
  function Total(counts: seq<nat>): nat {
    if counts == [] then 0 else Total(counts[..|counts| - 1]) + counts[|counts| - 1]
  }

  lemma {:induction false} CountedElsewhere(made: seq<Backend>, sent: seq<nat>, b: Backend)
    requires |made| == |sent| && b !in made
    ensures Counted(made, sent, b) == sent
  {
    forall k | 0 <= k < |made| ensures made[k] != b { assert made[k] in made; }
  }

  lemma {:induction false} TotalCounted(made: seq<Backend>, sent: seq<nat>, b: Backend)
    requires |made| == |sent| && Objects(made) && b in made
    ensures Total(Counted(made, sent, b)) == Total(sent) + 1
    decreases |made|
  {
    var n := |made| - 1;
    var counted := Counted(made, sent, b);
    assert counted[..n] == Counted(made[..n], sent[..n], b);
    if made[n] == b {
      CountedElsewhere(made[..n], sent[..n], b);
    } else {
      assert made == made[..n] + [made[n]];
      TotalCounted(made[..n], sent[..n], b);
    }
  }

  lemma {:induction false} TotalZeros(counts: seq<nat>, n: nat)
    ensures Total(counts + Zeros(n)) == Total(counts)
  {
    if n == 0 {
      assert counts + Zeros(0) == counts;
    } else {
      TotalZeros(counts, n - 1);
      assert (counts + Zeros(n))[..|counts + Zeros(n)| - 1] == counts + Zeros(n - 1);
    }
  }

  /** All sends that are counted or still to be counted. */
  function Sends(s: State): nat { Total(s.sent) + |s.pending| }

  lemma StepConserves(s: State, e: Event)
    requires WellFormed(s) && Enabled(s, e)
    ensures Sends(Step(s, e)) == Sends(s) + Issues(s, e)
  {
    match e
    case RoundRobin =>
    case Multicast =>
    case Send(g) => TotalCounted(s.made, s.sent, s.pending[g]);
    case Reconcile(_, added) => TotalZeros(s.sent, |added|);
  }

  /** Conservation: at every point of every run, counted and pending sends are all the sends that were issued. */
  lemma {:induction false} SendsConserved(events: seq<Event>, n: nat)
    requires n <= |events| && Legal(events, n)
    ensures Sends(After(events, n)) == Issued(events, n)
  {
    if n > 0 {
      SendsConserved(events, n - 1);
      StepConserves(After(events, n - 1), events[n - 1]);
    }
  }

  /** Every pending send can still be counted, also when its backend was swept in between. */
  lemma PendingCanBeSent(events: seq<Event>, n: nat)
    requires n <= |events| && Legal(events, n)
    ensures var s := After(events, n);
            forall g :: 0 <= g < |s.pending| ==>
              Enabled(s, Send(g)) && s.pending[g] in s.made && Total(Step(s, Send(g)).sent) == Total(s.sent) + 1
  {
    var s := After(events, n);
    forall g | 0 <= g < |s.pending| ensures Total(Step(s, Send(g)).sent) == Total(s.sent) + 1 {
      assert s.pending[g] in s.pending;
      TotalCounted(s.made, s.sent, s.pending[g]);
    }
  }

  // ---- the frontend object and its goroutines ----

  ghost function Counts(bs: seq<Backend>): (counts: seq<nat>)
    reads bs
    ensures |counts| == |bs| && forall k :: 0 <= k < |bs| ==> counts[k] == bs[k].sent
  {
    if bs == [] then [] else Counts(bs[..|bs| - 1]) + [bs[|bs| - 1].sent]
  }

  lemma CountsAre(bs: seq<Backend>, counts: seq<nat>)
    requires |counts| == |bs| && forall k :: 0 <= k < |bs| ==> bs[k].sent == counts[k]
    ensures Counts(bs) == counts
  {}

  /** A dispatch to the first backend and its send. */
  lemma RoundRobinValue(s: State)
    requires WellFormed(s) && s.live != []
    ensures var dispatched, t := Step(s, RoundRobin), s.(sent := Counted(s.made, s.sent, s.live[0]));
            && WellFormed(dispatched) && Enabled(dispatched, Send(|s.pending|)) && Step(dispatched, Send(|s.pending|)) == t
            && WellFormed(t) && Sends(t) == Sends(s) + 1
  {
    StepKeepsForm(s, RoundRobin);
    StepConserves(s, RoundRobin);
    StepKeepsForm(Step(s, RoundRobin), Send(|s.pending|));
    StepConserves(Step(s, RoundRobin), Send(|s.pending|));
    assert (s.pending + [s.live[0]])[..|s.pending|] + [] == s.pending;
  }

  /** One pending send counts. */
  lemma SendValue(s: State, g: nat)
    requires WellFormed(s) && g < |s.pending|
    ensures var t := s.(sent := Counted(s.made, s.sent, s.pending[g]), pending := s.pending[..g] + s.pending[g + 1..]);
            t == Step(s, Send(g)) && WellFormed(t) && Sends(t) == Sends(s)
  {
    StepKeepsForm(s, Send(g));
    StepConserves(s, Send(g));
  }

  /** A dispatch to every live backend. */
  lemma MulticastValue(s: State)
    requires WellFormed(s)
    ensures var t := s.(pending := s.pending + s.live);
            t == Step(s, Multicast) && WellFormed(t) && Sends(t) == Sends(s) + |s.live|
  {
    StepKeepsForm(s, Multicast);
    StepConserves(s, Multicast);
  }

  ghost function AfterReconcile(s: State, names: set<string>, added: seq<Backend>): State {
    State(Keep(s.live, names) + added, s.made + added, s.sent + Zeros(|added|), s.pending)
  }

  lemma ReconcileValue(s: State, names: set<string>, added: seq<Backend>)
    requires WellFormed(s) && Enabled(s, Event.Reconcile(names, added))
    ensures var t := AfterReconcile(s, names, added);
            t == Step(s, Event.Reconcile(names, added)) && WellFormed(t) && Sends(t) == Sends(s)
  {
    StepKeepsForm(s, Event.Reconcile(names, added));
    StepConserves(s, Event.Reconcile(names, added));
  }

  ghost function SentToAll(s: State): State
    requires |s.made| == |s.sent|
  {
    s.(sent := Marked(s.made, s.sent, Members(s.live)))
  }

  function Members(bs: seq<Backend>): set<Backend> { set b | b in bs }

  /** `n` times the goroutine at position `g`, as the earlier ones leave the list. */
  ghost function SendEach(s: State, g: nat, n: nat): State {
    if n == 0 then s
    else
      var before := SendEach(s, g, n - 1);
      if WellFormed(before) && Enabled(before, Send(g)) then Step(before, Send(g)) else before
  }

  /** After `n` of the sends of a multicast. */
  ghost function PartlySent(s: State, n: nat): State
    requires |s.made| == |s.sent| && n <= |s.live|
  {
    State(s.live, s.made, Marked(s.made, s.sent, Members(s.live[..n])), s.pending + s.live[n..])
  }

  lemma MarkOneMore(made: seq<Backend>, sent: seq<nat>, targets: set<Backend>, b: Backend)
    requires |made| == |sent| && b !in targets
    ensures Counted(made, Marked(made, sent, targets), b) == Marked(made, sent, targets + {b})
  {
    MarkedCounts(made, sent, targets);
    MarkedCounts(made, sent, targets + {b});
  }

  lemma OneMoreSent(s: State, n: nat)
    requires WellFormed(s) && Objects(s.live) && n < |s.live|
    ensures var t := PartlySent(s, n);
            && WellFormed(t) && Enabled(t, Send(|s.pending|))
            && Step(t, Send(|s.pending|)) == PartlySent(s, n + 1)
  {
    var t, g, b := PartlySent(s, n), |s.pending|, s.live[n];
    assert t.pending[g] == b;
    assert t.pending[..g] + t.pending[g + 1..] == s.pending + s.live[n + 1..];
    var targets := Members(s.live[..n]);
    assert b !in targets;
    assert s.live[..n + 1] == s.live[..n] + [b];
    assert Members(s.live[..n + 1]) == targets + {b};
    MarkOneMore(s.made, s.sent, targets, b);
  }

  lemma {:induction false} SendsInTurn(s: State, n: nat)
    requires WellFormed(s) && Objects(s.live) && n <= |s.live|
    ensures SendEach(Step(s, Multicast), |s.pending|, n) == PartlySent(s, n)
  {
    if n == 0 {
      NoneMarked(s.made, s.sent);
      assert s.live[..0] == [] && s.live[0..] == s.live;
      assert Members(s.live[..0]) == {};
    } else {
      SendsInTurn(s, n - 1);
      OneMoreSent(s, n - 1);
    }
  }

  lemma {:induction false} NoneMarked(made: seq<Backend>, sent: seq<nat>)
    requires |made| == |sent|
    ensures Marked(made, sent, {}) == sent
  {
    if made != [] { NoneMarked(made[..|made| - 1], sent[..|made| - 1]); }
  }

  /** A multicast whose goroutines all run at once is the dispatch and one send for each live backend. */
  lemma MulticastIsSends(s: State)
    requires WellFormed(s) && Objects(s.live)
    ensures SendEach(Step(s, Multicast), |s.pending|, |s.live|) == SentToAll(s)
  {
    SendsInTurn(s, |s.live|);
    assert s.live[..|s.live|] == s.live && s.live[|s.live|..] == [];
    assert s.pending + [] == s.pending;
  }

  lemma SentToAllConserves(s: State)
    requires WellFormed(s) && Objects(s.live)
    ensures WellFormed(SentToAll(s)) && Sends(SentToAll(s)) == Sends(s) + |s.live|
  {
    TargetCount(s.live);
    TotalMarked(s.made, s.sent, Members(s.live));
  }

  class Traffic {
    const fe: Frontend
    ghost var made: seq<Backend>
    ghost var pending: seq<Backend>
    /** How many sends the datagrams so far have asked for. */
    ghost var issued: nat

    ghost function View(): State
      reads `made, `pending, fe, made
    {
      State(fe.backends, made, Counts(made), pending)
    }

    /** Conservation on the objects: counters and waiting goroutines add up to what was issued. */
    ghost predicate Valid()
      reads this, fe, made
    {
      fe.Valid() && WellFormed(View()) && Sends(View()) == issued
    }

    constructor (name: string, multicast: bool)
      ensures Valid() && issued == 0 && View() == INITIAL
    {
      fe := new Frontend(name, multicast);
      made, pending, issued := [], [], 0;
    }

    /** A datagram for a round-robin frontend: the first backend is chosen. */
    ghost method DispatchRoundRobin()
      requires Valid() && fe.backends != []
      modifies `pending, `issued
      ensures Valid() && View() == Step(old(View()), RoundRobin) && issued == old(issued) + 1
    {
      StepKeepsForm(View(), RoundRobin);
      StepConserves(View(), RoundRobin);
      pending, issued := pending + [fe.backends[0]], issued + 1;
    }

    /** A datagram for a multicast frontend: a goroutine for each backend. */
    ghost method DispatchMulticast()
      requires Valid()
      modifies `pending, `issued
      ensures Valid() && View() == Step(old(View()), Multicast) && issued == old(issued) + |fe.backends|
    {
      MulticastValue(View());
      pending, issued := pending + fe.backends, issued + |fe.backends|;
    }

    /** One of the goroutines gets to run Backend.Send, whether its backend is still listed or not. */
    method Deliver(ghost g: nat, b: Backend)
      requires Valid() && g < |pending| && b == pending[g]
      modifies `pending, b`sent
      ensures Valid() && View() == Step(old(View()), Send(g)) && issued == old(issued)
    {
      ghost var before := View();
      ghost var after := before.(sent := Counted(made, before.sent, b), pending := pending[..g] + pending[g + 1..]);
      SendValue(before, g);
      b.Send();
      CountsAre(made, after.sent);
      pending := after.pending;
      assert View() == after;
    }

    /** RoundRobin that runs through at once: a dispatch and its send. */
    method RoundRobinAtOnce()
      requires Valid() && fe.backends != []
      modifies `issued, {fe.backends[0]}
      ensures Valid() && issued == old(issued) + 1 && pending == old(pending)
      ensures View() == Step(Step(old(View()), RoundRobin), Send(|pending|))
    {
      ghost var before := View();
      RoundRobinValue(before);
      fe.RoundRobin();
      issued := issued + 1;
      CountsAre(made, Counted(made, before.sent, fe.backends[0]));
      assert View() == before.(sent := Counted(made, before.sent, fe.backends[0]));
    }

    /** Frontend.Multicast, seen on all backends that were made. */
    method CountAll()
      requires fe.Valid()
      modifies fe.backends
      ensures fe.Valid() && unchanged(fe, this)
      ensures View() == SentToAll(old(View()))
    {
      ghost var sent := Counts(made);
      fe.Multicast();
      MarkedCounts(made, sent, Members(fe.backends));
      forall k | 0 <= k < |made| ensures made[k].sent == Marked(made, sent, Members(fe.backends))[k] {
        if made[k] in fe.backends { assert made[k].sent == sent[k] + 1; } else { assert made[k].sent == sent[k]; }
      }
      CountsAre(made, Marked(made, sent, Members(fe.backends)));
    }

    /** Multicast whose goroutines all run at once: one send for every backend. */
    method MulticastAtOnce()
      requires Valid()
      modifies `issued, fe.backends
      ensures Valid() && issued == old(issued) + |fe.backends| && pending == old(pending)
      ensures View() == SentToAll(old(View()))
    {
      ghost var before := View();
      ObjectsDistinct(fe.backends);
      SentToAllConserves(before);
      issued := issued + |fe.backends|;
      assert View() == before;
      CountAll();
      assert View() == SentToAll(before);
    }

    /** applyApp's reconciliation, as far as the frontend goes. */
    method Relist(tasks: seq<Task>, portIndex: nat, resolve: Resolve) returns (ghost added: seq<Backend>)
      requires Valid() && PortsReady(tasks, portIndex)
      modifies fe, fe.backends
      ensures fe.Valid() && fe.backends == Keep(old(fe.backends), Wanted(tasks, |tasks|)) + added
      ensures Objects(added) && forall b :: b in added ==> fresh(b) && b.sent == 0
      ensures Counts(made) == old(Counts(made)) && unchanged(`made, `pending, `issued)
    {
      ghost var start, names := fe.backends, Wanted(tasks, |tasks|);
      Manager.Reconcile(fe, tasks, portIndex, resolve);
      added := fe.backends[|Keep(start, names)|..];
      ObjectsDistinct(fe.backends);
      CountsAre(made, old(Counts(made)));
    }

    /** applyApp's reconciliation of this frontend. */
    method ReconcileWith(tasks: seq<Task>, portIndex: nat, resolve: Resolve) returns (ghost added: seq<Backend>)
      requires Valid() && PortsReady(tasks, portIndex)
      modifies `made, fe, fe.backends
      ensures Valid() && issued == old(issued)
      ensures Enabled(old(View()), Event.Reconcile(Wanted(tasks, |tasks|), added))
      ensures View() == Step(old(View()), Event.Reconcile(Wanted(tasks, |tasks|), added))
    {
      ghost var before := View();
      added := Relist(tasks, portIndex, resolve);
      ReconcileValue(before, Wanted(tasks, |tasks|), added);
      ghost var all, counts := made + added, before.sent + Zeros(|added|);
      NewCounts(made, before.sent, added);
      made := all;
      CountsAre(made, counts);
      assert View() == AfterReconcile(before, Wanted(tasks, |tasks|), added);
    }
  }

  lemma NewCounts(made: seq<Backend>, sent: seq<nat>, added: seq<Backend>)
    requires Counts(made) == sent && forall b :: b in added ==> b.sent == 0
    ensures var all, counts := made + added, sent + Zeros(|added|);
            |all| == |counts| && forall k :: 0 <= k < |all| ==> all[k].sent == counts[k]
  {
    ZerosLength(|added|);
    assert forall k :: 0 <= k < |added| ==> added[k] in added;
  }

  /** One more for each of these backends. */
  ghost function Marked(made: seq<Backend>, sent: seq<nat>, targets: set<Backend>): (r: seq<nat>)
    requires |made| == |sent|
    ensures |r| == |sent|
  {
    if made == [] then []
    else
      var n := |made| - 1;
      Marked(made[..n], sent[..n], targets) + [if made[n] in targets then sent[n] + 1 else sent[n]]
  }

  lemma {:induction false} MarkedCounts(made: seq<Backend>, sent: seq<nat>, targets: set<Backend>)
    requires |made| == |sent|
    ensures forall k :: 0 <= k < |made| ==> Marked(made, sent, targets)[k] == if made[k] in targets then sent[k] + 1 else sent[k]
  {
    if made != [] { MarkedCounts(made[..|made| - 1], sent[..|made| - 1], targets); }
  }

  lemma {:induction false} TotalMarked(made: seq<Backend>, sent: seq<nat>, targets: set<Backend>)
    requires |made| == |sent| && Objects(made) && forall b :: b in targets ==> b in made
    ensures Total(Marked(made, sent, targets)) == Total(sent) + |targets|
    decreases |made|
  {
    if made == [] {
      assert targets == {};
    } else {
      var n := |made| - 1;
      assert made == made[..n] + [made[n]];
      if made[n] in targets {
        MarkedWithout(made[..n], sent[..n], targets, made[n]);
        TotalMarked(made[..n], sent[..n], targets - {made[n]});
      } else {
        TotalMarked(made[..n], sent[..n], targets);
      }
    }
  }

  lemma {:induction false} MarkedWithout(made: seq<Backend>, sent: seq<nat>, targets: set<Backend>, b: Backend)
    requires |made| == |sent| && forall k :: 0 <= k < |made| ==> made[k] != b
    ensures Marked(made, sent, targets) == Marked(made, sent, targets - {b})
    decreases |made|
  {
    if made != [] { MarkedWithout(made[..|made| - 1], sent[..|made| - 1], targets, b); }
  }

  lemma {:induction false} TargetCount(bs: seq<Backend>)
    requires Objects(bs)
    ensures |Members(bs)| == |bs|
  {
    if bs != [] {
      var n := |bs| - 1;
      TargetCount(bs[..n]);
      assert bs == bs[..n] + [bs[n]];
      assert Members(bs) == Members(bs[..n]) + {bs[n]};
    }
  }
}
