/**
 What a configuration holds, in the terms of Marathon's records: which ports get a
 section, what is in it, in which order sections come, and what the labels of a port do to
 the vhost tables.
 */
module HaproxySections {
  import opened Text
  import opened Marathon
  import opened Helper
  import opened Sorting
  import opened TaskList
  import opened Gateway
  import opened HaproxyState
  import opened HaproxyBatch
  import HaproxyInvariants
  import HaproxyDefault

  // ---- which ports ----

  /** A port gets a section exactly if it is a TCP port of a configured group; the group `*` stands for all, also for none. */
  lemma ExposedIff(env: Env, app: App, i: nat)
    ensures Exposed(env, app, i) <==>
              && i < |app.portDefinitions| && app.portDefinitions[i].protocol == "tcp"
              && var labels := app.portDefinitions[i].labels;
                 exists g :: g in env.groups && (g == "*" || g == if "lb-group" in labels then labels["lb-group"] else "")
  {
    TransportIs(app, i);
  }

  // ---- what is in a section ----

  /** The section kind that the application protocol stands for. */
  ghost predicate KindFits(kind: Kind, protocol: string) {
    && (kind == HttpSection <==> protocol == "http")
    && (kind == RedisSection <==> protocol == "redis" || protocol == "redis-master" || protocol == "redis-server")
    && (kind == SmtpSection <==> protocol == "smtp")
  }

  /**
   A port's section: named after application, index and port, bound to the port of the
   definition, of the kind of its application protocol, and with the lines of its tasks.
   */
  ghost predicate SectionOf(s: Section, env: Env, app: App, i: nat)
    requires i < |app.portDefinitions|
  {
    && s.name == PrettifyAppId(app.id, i, app.portDefinitions[i].port) && s.port == app.portDefinitions[i].port
    && KindFits(s.kind, GetApplicationProtocol(app, i)) && s.options == env.options(app, i)
    && LinesOf(multiset(s.servers), app.tasks, i, env.resolve)
  }

  lemma SectionIs(env: Env, app: App, i: nat)
    requires HaproxyInvariants.Permutes(env.order) && i < |app.portDefinitions|
    ensures SectionOf(SectionFor(env, app, i), env, app, i)
  {
    HaproxyInvariants.SectionConservesServers(env, app, i);
    LinesAre(app.tasks, i, env.resolve);
  }

  /** A TCP port for which neither the label nor a health check names a protocol has a plain TCP section. */
  lemma UnnamedIsTcp(env: Env, app: App, i: nat)
    requires Exposed(env, app, i) && NoProtocol(app, i)
    ensures SectionFor(env, app, i).kind == TcpSection
  {
    TransportIs(app, i);
    ApplicationIs(app, i);
  }

  /** An order like sort.Sort's: it permutes, and it sorts where Less is an order. */
  ghost predicate Sorts(order: (seq<Task>, nat) -> seq<Task>) {
    && HaproxyInvariants.Permutes(order)
    && forall tasks, i :: StrictWeak(Comparator(i), multiset(order(tasks, i))) ==> Sorted(order(tasks, i), Comparator(i))
  }

  /** The lines of a section ascend by host if all tasks have the same port: it is this port's sorting that they show. */
  lemma SectionAscends(env: Env, app: App, i: nat)
    requires Sorts(env.order) && Exposed(env, app, i) && SamePort(multiset(app.tasks), i)
    ensures HostsAscend(SectionFor(env, app, i).servers)
  {
    HaproxyInvariants.TasksPermuted(env, app, i + 1);
    SortedByHost(TasksAfter(env, app, i + 1), i);
    LinesAscend(TasksAfter(env, app, i + 1), i, env.resolve);
  }

  // ---- in which order ----

  /** How many of the first `n` ports get a section. */
  ghost function ExposedBefore(env: Env, app: App, n: nat): nat {
    if n == 0 then 0 else ExposedBefore(env, app, n - 1) + if Exposed(env, app, n - 1) then 1 else 0
  }

  lemma {:induction false} SectionCount(env: Env, app: App, n: nat)
    requires n <= |app.portDefinitions|
    ensures |Sections(env, app, n)| == ExposedBefore(env, app, n)
  {
    if n > 0 { SectionCount(env, app, n - 1); }
  }

  /** A fragment holds one section for every such port, by index. */
  lemma {:induction false} SectionAt(env: Env, app: App, n: nat, i: nat)
    requires i < n <= |app.portDefinitions| && Exposed(env, app, i)
    ensures ExposedBefore(env, app, i) < |Sections(env, app, n)| == ExposedBefore(env, app, n)
    ensures Sections(env, app, n)[ExposedBefore(env, app, i)] == SectionFor(env, app, i)
  {
    SectionCount(env, app, n - 1);
    SectionCount(env, app, n);
    if i < n - 1 { SectionAt(env, app, n - 1, i); }
  }

  /** How many sections the fragments of the first `n` ids have. */
  ghost function SectionsBefore(fragments: map<string, Fragment>, ids: seq<string>, n: nat): nat
    requires n <= |ids| && forall k :: 0 <= k < |ids| ==> ids[k] in fragments
  {
    if n == 0 then 0 else SectionsBefore(fragments, ids, n - 1) + |fragments[ids[n - 1]]|
  }

  lemma {:induction false} JoinedAt(fragments: map<string, Fragment>, ids: seq<string>, n: nat, k: nat, j: nat)
    requires n <= |ids| && forall k :: 0 <= k < |ids| ==> ids[k] in fragments
    ensures |JoinFragments(fragments, ids, n)| == SectionsBefore(fragments, ids, n)
    ensures k < n && j < |fragments[ids[k]]| ==>
              var at := SectionsBefore(fragments, ids, k) + j;
              at < |JoinFragments(fragments, ids, n)| && JoinFragments(fragments, ids, n)[at] == fragments[ids[k]][j]
  {
    if n > 0 { JoinedAt(fragments, ids, n - 1, k, j); }
  }

  lemma RenderedSections(env: Env, st: State, tail: string)
    ensures Render(env, st, tail).sections == JoinFragments(st.fragments, Keys(st.fragments), |Keys(st.fragments)|)
  {}

  lemma IncreasingKeys(fragments: map<string, Fragment>, ids: seq<string>)
    requires Increasing(ids) && Elements(ids) == fragments.Keys
    ensures ids == Keys(fragments)
  {
    OrderedIsIncreasing(fragments.Keys);
    IncreasingUnique(ids, Keys(fragments));
  }

  /** The configuration's sections are those of the fragments, the fragments in increasing order of their ids. */
  lemma RenderedAt(env: Env, st: State, tail: string, ids: seq<string>, k: nat, j: nat)
    requires Increasing(ids) && Elements(ids) == st.fragments.Keys
    requires forall k :: 0 <= k < |ids| ==> ids[k] in st.fragments
    requires k < |ids| && j < |st.fragments[ids[k]]|
    ensures var sections, at := Render(env, st, tail).sections, SectionsBefore(st.fragments, ids, k) + j;
            at < |sections| == SectionsBefore(st.fragments, ids, |ids|) && sections[at] == st.fragments[ids[k]][j]
  {
    RenderedSections(env, st, tail);
    IncreasingKeys(st.fragments, ids);
    JoinedAt(st.fragments, ids, |ids|, k, j);
  }

  // ---- what labels do ----

  /** The label of this scheme, or the empty string. */
  ghost function LabelOf(app: App, i: nat, http: string, https: string, scheme: Scheme): string
    requires i < |app.portDefinitions|
  {
    var labels, name := app.portDefinitions[i].labels, if scheme == Http then http else https;
    if name in labels then labels[name] else ""
  }

  /** A port's vhosts: the label cut at commas. */
  ghost predicate VhostsAre(hosts: Vhosts, key: string, label_: string) {
    && (key in hosts <==> label_ != "")
    && (key in hosts ==> Join(hosts[key], ',') == label_ && forall v :: v in hosts[key] ==> ',' !in v)
  }

  /** After an update both tables hold exactly what the port's `lb-vhost` and `lb-vhost-ssl` labels list. */
  lemma UpdatePublishesLabels(env: Env, st: State, app: App, scheme: Scheme, i: nat)
    requires Exposed(env, app, i)
    ensures VhostsAre(TableIn(UpdateApp(env, st, app), scheme).hosts, PrettifyAppId(app.id, i, app.portDefinitions[i].port),
                      LabelOf(app, i, "lb-vhost", "lb-vhost-ssl", scheme))
  {
    OwnKeyPublished(env, app, scheme, TableIn(st, scheme), |app.portDefinitions|, i);
  }

  /** The port has vhosts, and asks to be the default. */
  ghost predicate AsksForDefault(app: App, i: nat, scheme: Scheme)
    requires i < |app.portDefinitions|
  {
    && LabelOf(app, i, "lb-vhost", "lb-vhost-ssl", scheme) != ""
    && LabelOf(app, i, "lb-vhost-default", "lb-vhost-default-ssl", scheme) == "1"
  }

  lemma ClaimsIff(app: App, i: nat, scheme: Scheme)
    requires i < |app.portDefinitions|
    ensures HaproxyDefault.Claims(app, scheme, i) <==> AsksForDefault(app, i, scheme)
  {}

  lemma {:induction false} LastClaimed(env: Env, app: App, scheme: Scheme, n: nat, i: nat)
    requires i < n <= |app.portDefinitions| && Exposed(env, app, i) && AsksForDefault(app, i, scheme)
    requires forall j :: i < j < n && Exposed(env, app, j) ==> !AsksForDefault(app, j, scheme)
    ensures HaproxyDefault.ClaimedDefault(env, app, scheme, n) == Some(Key(app, i))
  {
    ClaimsIff(app, n - 1, scheme);
    if i < n - 1 { LastClaimed(env, app, scheme, n - 1, i); }
  }

  /** After an update the last port with vhosts whose default label is `1` is the default, whatever it was. */
  lemma UpdateSetsDefault(env: Env, st: State, app: App, scheme: Scheme, i: nat)
    requires Exposed(env, app, i) && AsksForDefault(app, i, scheme)
    requires forall j :: i < j < |app.portDefinitions| && Exposed(env, app, j) ==> !AsksForDefault(app, j, scheme)
    ensures TableIn(UpdateApp(env, st, app), scheme).default_ == PrettifyAppId(app.id, i, app.portDefinitions[i].port)
  {
    HaproxyDefault.DefaultAfterPorts(env, app, scheme, TableIn(st, scheme), |app.portDefinitions|);
    LastClaimed(env, app, scheme, |app.portDefinitions|, i);
  }
}
