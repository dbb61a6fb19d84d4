/**
 From application events to a served host: after a tick that goes well, the running
 configuration sends a vhost of a live application to a section that holds exactly the
 server lines of the listed tasks of a live application with that vhost.
 */
module EndToEnd {
  import opened Text
  import opened Marathon
  import opened Helper
  import opened Sorting
  import opened TaskList
  import opened Gateway
  import opened GatewayMeaning
  import opened HaproxyState
  import opened HaproxyBatch
  import opened HaproxySections
  import HaproxyInvariants
  import opened Reload

  // ---- the manager along a run of the system ----

  /** The handler calls among the first `n` events. */
  function HandlersOf(events: seq<SystemEvent>, n: nat): seq<Event>
    requires n <= |events|
  {
    if n == 0 then [] else HandlersOf(events, n - 1) + if events[n - 1].Handler? then [events[n - 1].event] else []
  }

  lemma {:induction false} RunSnoc(env: Env, st: State, events: seq<Event>, e: Event)
    ensures Run(env, st, events + [e]) == Step(env, Run(env, st, events), e)
    decreases |events|
  {
    if events == [] {
      assert ([] + [e])[1..] == [] && ([] + [e])[0] == e;
    } else {
      assert (events + [e])[0] == events[0] && (events + [e])[1..] == events[1..] + [e];
      RunSnoc(env, Step(env, st, events[0]), events[1..], e);
    }
  }

  lemma {:induction false} ManagerRuns(x: Setting, s: System, events: seq<SystemEvent>, n: nat)
    requires n <= |events|
    ensures At(x, s, events, n).mgr == Run(x.env, s.mgr, HandlersOf(events, n))
  {
    if n > 0 {
      ManagerRuns(x, s, events, n - 1);
      if events[n - 1].Handler? {
        RunSnoc(x.env, s.mgr, HandlersOf(events, n - 1), events[n - 1].event);
      } else {
        assert HandlersOf(events, n) == HandlersOf(events, n - 1);
      }
    }
  }

  lemma {:induction false} RunDoesNotCollide(env: Env, live: Snapshots, events: seq<Event>)
    requires NoCollision(env, live) && LegalRun(env, live, events)
    ensures NoCollision(env, AdvanceAll(live, events))
    decreases |events|
  {
    if events != [] {
      AdvanceDoesNotCollide(env, live, events[0]);
      RunDoesNotCollide(env, Advance(live, events[0]), events[1..]);
    }
  }

  // ---- sections of the configuration ----

  lemma {:induction false} SectionMember(env: Env, app: App, n: nat, s: Section)
    requires n <= |app.portDefinitions|
    ensures s in Sections(env, app, n) <==> exists i :: 0 <= i < n && Exposed(env, app, i) && s == SectionFor(env, app, i)
  {
    if n > 0 {
      SectionMember(env, app, n - 1, s);
      var last := if Exposed(env, app, n - 1) then [SectionFor(env, app, n - 1)] else [];
      assert Sections(env, app, n) == Sections(env, app, n - 1) + last;
    }
  }

  lemma {:induction false} JoinedMember(fragments: map<string, Fragment>, keys: seq<string>, n: nat, s: Section)
    requires n <= |keys| && forall i :: 0 <= i < |keys| ==> keys[i] in fragments
    ensures s in JoinFragments(fragments, keys, n) <==> exists i :: 0 <= i < n && s in fragments[keys[i]]
  {
    if n > 0 { JoinedMember(fragments, keys, n - 1, s); }
  }

  /** The sections of the configuration are those of the exposed ports of live applications. */
  lemma RenderedSection(env: Env, live: Snapshots, st: State, tail: string, s: Section)
    requires st.fragments == FragmentsOf(env, live)
    ensures s in Render(env, st, tail).sections <==>
              exists id, i :: id in live && Exposed(env, live[id], i) && s == SectionFor(env, live[id], i)
  {
    var keys := Keys(st.fragments);
    JoinedMember(st.fragments, keys, |keys|, s);
    forall id | id in live
      ensures s in st.fragments[id] <==>
                exists i :: 0 <= i < |live[id].portDefinitions| && Exposed(env, live[id], i) && s == SectionFor(env, live[id], i)
      ensures exists k :: 0 <= k < |keys| && keys[k] == id
    {
      SectionMember(env, live[id], |live[id].portDefinitions|, s);
      assert id in Elements(keys);
    }
  }

  /** The configuration has a section with this port's name, and every such section is the port's, servers included. */
  ghost predicate ServedBy(config: Config, env: Env, app: App, i: nat)
    requires i < |app.portDefinitions|
  {
    var name := PrettifyAppId(app.id, i, app.portDefinitions[i].port);
    && (exists s :: s in config.sections && s.name == name)
    && forall s :: s in config.sections && s.name == name ==> SectionOf(s, env, app, i)
  }

  lemma SectionOfSamePort(env: Env, a: App, i: nat, b: App, j: nat)
    requires HaproxyInvariants.Permutes(env.order) && i < |a.portDefinitions| && j < |b.portDefinitions|
    requires a == b && Key(a, i) == Key(b, j)
    ensures SectionOf(SectionFor(env, b, j), env, a, i)
  {
    KeyNamesPort(a, i, b, j);
    SectionIs(env, a, i);
  }

  lemma LivePortIsServed(env: Env, live: Snapshots, st: State, tail: string, id: string, i: nat)
    requires st.fragments == FragmentsOf(env, live) && NoCollision(env, live) && HaproxyInvariants.Permutes(env.order)
    requires id in live && Exposed(env, live[id], i)
    ensures ServedBy(Render(env, st, tail), env, live[id], i)
  {
    var config, name := Render(env, st, tail), Key(live[id], i);
    var own := SectionFor(env, live[id], i);
    RenderedSection(env, live, st, tail, own);
    assert own in config.sections && own.name == name;
    forall s | s in config.sections && s.name == name ensures SectionOf(s, env, live[id], i) {
      RenderedSection(env, live, st, tail, s);
      var other, j: nat :| other in live && Exposed(env, live[other], j) && s == SectionFor(env, live[other], j);
      assert Owns(env, live[id], name) && Owns(env, live[other], name);
      SectionOfSamePort(env, live[id], i, live[other], j);
    }
  }

  // ---- the host ----

  /** This port's label lists the host, up to case. */
  ghost predicate ListsHost(app: App, scheme: Scheme, i: nat, host: string)
    requires i < |app.portDefinitions|
  {
    exists v :: v in MakeStringArray(LabelOf(app, i, "lb-vhost", "lb-vhost-ssl", scheme))
      && !IsWildcard(v) && Lower(v) == Lower(host)
  }

  lemma ListedHost(app: App, scheme: Scheme, i: nat, host: string)
    requires i < |app.portDefinitions|
    ensures ListsHost(app, scheme, i, host) <==>
              exists v :: v in HostList(app, scheme, i) && !IsWildcard(v) && Lower(v) == Lower(host)
  {
    assert HostList(app, scheme, i) == MakeStringArray(LabelOf(app, i, "lb-vhost", "lb-vhost-ssl", scheme));
  }

  /** Whoever the lookup finds for the vhost of a live port is a live port with that vhost. */
  lemma LookupFindsLivePort(env: Env, live: Snapshots, scheme: Scheme, t: VhostTable, id: string, i: nat,
      host: string, dom: DomainMatch) returns (found: string, port: nat)
    requires Current(env, live, scheme, t.hosts) && NoStale(env, live, t.hosts)
    requires id in live && Exposed(env, live[id], i) && ListsHost(live[id], scheme, i, host)
    ensures found in live && Exposed(env, live[found], port) && ListsHost(live[found], scheme, port, host)
    ensures Lookup(scheme, t.hosts, t.default_, host, dom) == Some(Key(live[found], port))
  {
    ListedHost(live[id], scheme, i, host);
    var v :| v in HostList(live[id], scheme, i) && !IsWildcard(v) && Lower(v) == Lower(host);
    assert Shows(live[id], scheme, t.hosts, i);
    assert Key(live[id], i) in ExactApps(t.hosts, host);
    var b := Greatest(ExactApps(t.hosts, host));
    assert b in t.hosts && exists w :: w in t.hosts[b] && !IsWildcard(w) && Lower(w) == Lower(host);
    found, port := OwnerPort(env, live, b);
    assert Shows(live[found], scheme, t.hosts, port);
    ListedHost(live[found], scheme, port, host);
  }

  ghost predicate HostPatterns(hosts: Vhosts) { forall a, v :: a in hosts && v in hosts[a] ==> HostPattern(v) }

  /** The configuration's gateway sends the host to the section of this live port, which lists it and holds its tasks. */
  ghost predicate RoutesTo(env: Env, live: Snapshots, config: Config, scheme: Scheme, host: string, dom: DomainMatch,
      id: string, i: nat) {
    && id in live && Exposed(env, live[id], i) && ListsHost(live[id], scheme, i, host)
    && |config.gateways| == 2
    && Eval(config.gateways[if scheme == Http then 0 else 1], host, dom) == Some(Key(live[id], i))
    && ServedBy(config, env, live[id], i)
  }

  lemma {:induction false} VhostIsRouted(env: Env, live: Snapshots, st: State, tail: string, scheme: Scheme,
      id: string, i: nat, host: string, dom: DomainMatch) returns (found: string, port: nat)
    requires Represents(env, live, st) && NoCollision(env, live)
    requires env.gatewayEnabled && HaproxyInvariants.Permutes(env.order)
    requires NoStale(env, live, TableIn(st, scheme).hosts) && HostPatterns(TableIn(st, scheme).hosts)
    requires id in live && Exposed(env, live[id], i) && ListsHost(live[id], scheme, i, host)
    ensures RoutesTo(env, live, Render(env, st, tail), scheme, host, dom, found, port)
  {
    var t := TableIn(st, scheme);
    found, port := LookupFindsLivePort(env, live, scheme, t, id, i, host, dom);
    GatewayRoutesHosts(scheme, t.hosts, t.default_, host, dom);
    LivePortIsServed(env, live, st, tail, found, port);
  }

  lemma ManagerRepresents(x: Setting, s: System, live: Snapshots, events: seq<SystemEvent>, n: nat)
    requires n <= |events| && Represents(x.env, live, s.mgr) && NoCollision(x.env, live)
    requires LegalRun(x.env, live, HandlersOf(events, n))
    ensures Represents(x.env, AdvanceAll(live, HandlersOf(events, n)), At(x, s, events, n).mgr)
    ensures NoCollision(x.env, AdvanceAll(live, HandlersOf(events, n)))
  {
    ManagerRuns(x, s, events, n);
    RunRepresents(x.env, live, s.mgr, HandlersOf(events, n));
    RunDoesNotCollide(x.env, live, HandlersOf(events, n));
  }

  /**
   The whole way. Handler calls, ticks and deaths happen in any order, the last event is a
   tick, all ticks went well, live keys did not collide, and the table has no stale key.
   Then the process of the pid file runs the configuration of the current manager state,
   whose gateway sends every vhost of a live port to the section of a live port that lists
   it, and that section's servers are the listed tasks of that application.
   */
  lemma {:induction false} VhostIsServed(x: Setting, s: System, live: Snapshots, events: seq<SystemEvent>, n: nat,
      scheme: Scheme, id: string, i: nat, host: string, dom: DomainMatch) returns (found: string, port: nat)
    requires 0 < n <= |events| && Serving(s.world) && AllSucceed(x, s, events, n) && events[n - 1].Tick?
    requires x.env.gatewayEnabled && HaproxyInvariants.Permutes(x.env.order)
    requires Represents(x.env, live, s.mgr) && NoCollision(x.env, live) && LegalRun(x.env, live, HandlersOf(events, n))
    requires var hosts := TableIn(At(x, s, events, n).mgr, scheme).hosts;
             NoStale(x.env, AdvanceAll(live, HandlersOf(events, n)), hosts) && HostPatterns(hosts)
    requires var now := AdvanceAll(live, HandlersOf(events, n));
             id in now && Exposed(x.env, now[id], i) && ListsHost(now[id], scheme, i, host)
    ensures var after := At(x, s, events, n);
            var config := Render(x.env, after.mgr, events[n - 1].choices.tail.value);
            && Serves(after.world, x.print_(config))
            && config.tail == events[n - 1].choices.tail.value
            && RoutesTo(x.env, AdvanceAll(live, HandlersOf(events, n)), config, scheme, host, dom, found, port)
  {
    RunServes(x, s, events, n);
    ManagerRepresents(x, s, live, events, n);
    found, port := VhostIsRouted(x.env, AdvanceAll(live, HandlersOf(events, n)), At(x, s, events, n).mgr,
                                 events[n - 1].choices.tail.value, scheme, id, i, host, dom);
  }
}
