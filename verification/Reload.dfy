/**
 The reload tick: write the configuration next to the old one, check it, rotate, rename,
 and start or reload HAProxy if it is gone or the file changed. The process and its
 executable are the environment: each `exec` succeeds or fails.
 */
module Reload {
  import opened Text
  import opened FileCompare
  import opened Gateway
  import opened HaproxyState
  import opened HaproxyManager

  datatype PidFile = Missing | Garbage | Pid(pid: nat)

  /** The three files beside the pid file, and for every living process the configuration it runs. */
  datatype World = World(cfg: Option<Bytes>, backup: Option<Bytes>, tmp: Option<Bytes>, pidFile: PidFile, procs: map<nat, Bytes>)

  /**
   The environment's answers during one tick: `tail` is None on a read error; a failed
   write leaves `torn` as the temp file; a failed stat makes a present file look absent.
   */
  datatype Choices = Choices(
    tail: Option<string>,
    writeOk: bool, torn: Option<Bytes>, checkOk: bool, statOk: bool, rotateOk: bool, renameOk: bool,
    startOk: bool, reloadOk: bool, newPid: nat, read1: Reader, read2: Reader)

  datatype Action = Nothing | Start | Reload | BadPid

  // ---- the steps ----

  /** Every step of writeConfig goes well. */
  predicate WritesWell(c: Choices) { c.writeOk && c.checkOk && c.statOk && c.rotateOk && c.renameOk }

  /** writeConfig once the text is assembled: temp file, check, rotate, rename. False is an error. */
  function WriteConfig(w: World, text: Bytes, c: Choices): (World, bool) {
    if !c.writeOk then (w.(tmp := c.torn), false)
    else
      var written := w.(tmp := Some(text));
      if !c.checkOk then (written, false)
      else if w.cfg.Some? && c.statOk && !c.rotateOk then (written, false)
      else
        var rotated := if w.cfg.Some? && c.statOk then written.(backup := w.cfg, cfg := None) else written;
        if !c.renameOk then (rotated, false) else (rotated.(cfg := rotated.tmp, tmp := None), true)
  }

  function Launch(w: World, replaced: set<nat>, newPid: nat): World {
    w.(procs := (w.procs - replaced)[newPid := w.cfg.GetOr("")], pidFile := Pid(newPid))
  }

  predicate Alive(w: World) { w.pidFile.Pid? && w.pidFile.pid in w.procs }

  ghost function ReloadConfig(w: World, c: Choices): (World, Action) {
    match w.pidFile
    case Missing => (if c.startOk then Launch(w, {}, c.newPid) else w, Start)
    case Garbage => (w, BadPid)
    case Pid(pid) =>
      if pid !in w.procs then (if c.startOk then Launch(w, {}, c.newPid) else w, Start)
      else if !Identical(w.cfg, w.backup, c.read1, c.read2) then (if c.reloadOk then Launch(w, {pid}, c.newPid) else w, Reload)
      else (w, Nothing)
  }

  /** One tick with an assembled text; an error from writeConfig panics before anything is reloaded. */
  ghost function TickWorld(w: World, text: Bytes, c: Choices): (World, Action) {
    var (written, ok) := WriteConfig(w, text, c);
    if ok then ReloadConfig(written, c) else (written, Nothing)
  }

  /** The configuration that the next comparison is made with. */
  function Previous(w: World): Option<Bytes> { if w.cfg.Some? then w.cfg else w.backup }

  /**
   The files after an attempt to install a text, `present` saying that the stat found the
   old config: a text that was not written or checked touches neither config nor backup;
   the old config is missing only if it was rotated and the rename failed.
   */
  ghost predicate InstallsOrNot(before: World, after: World, text: Bytes, c: Choices, present: bool, ok: bool) {
    && (ok ==> after.cfg == Some(text) && after.tmp == None)
    && (!ok ==> after.tmp == (if c.writeOk then Some(text) else c.torn))
    && (!ok && !(c.writeOk && c.checkOk) ==> after.cfg == before.cfg && after.backup == before.backup)
    && (!ok && !(present && c.rotateOk) ==> after.cfg == before.cfg && after.backup == before.backup)
    && (!ok && c.writeOk && c.checkOk && present && c.rotateOk ==> after.cfg == None && after.backup == before.cfg)
    && (ok ==> after.backup == if present then before.cfg else before.backup)
    && after.procs == before.procs && after.pidFile == before.pidFile
  }

  // ---- the tick as code ----

  class Reloader {
    const mgr: HaproxyMgr
    const print_: Config -> Bytes
    var cfg: Option<Bytes>
    var backup: Option<Bytes>
    var tmp: Option<Bytes>
    var pidFile: PidFile
    var procs: map<nat, Bytes>

    ghost function View(): World reads this { World(cfg, backup, tmp, pidFile, procs) }

    constructor (mgr: HaproxyMgr, print_: Config -> Bytes, w: World)
      ensures this.mgr == mgr && this.print_ == print_ && View() == w
    {
      this.mgr, this.print_ := mgr, print_;
      cfg, backup, tmp, pidFile, procs := w.cfg, w.backup, w.tmp, w.pidFile, w.procs;
    }

    method WriteText(text: Bytes, c: Choices) returns (ok: bool)
      modifies `cfg, `backup, `tmp
      ensures (View(), ok) == WriteConfig(old(View()), text, c)
      ensures WritesWell(c) ==> ok && cfg == Some(text) && tmp == None && backup == Previous(old(View()))
      ensures var present := old(cfg).Some? && c.statOk;
              && (ok <==> c.writeOk && c.checkOk && (present ==> c.rotateOk) && c.renameOk)
              && InstallsOrNot(old(View()), View(), text, c, present, ok)
    {
      if !c.writeOk {
        tmp := c.torn;
        return false;
      }
      tmp := Some(text);
      if !c.checkOk { return false; }
      if cfg.Some? && c.statOk {
        if !c.rotateOk { return false; }
        backup := cfg;
        cfg := None;
      }
      if !c.renameOk { return false; }
      cfg := tmp;
      tmp := None;
      ok := true;
    }

    method StartProcess(replaced: set<nat>, newPid: nat)
      modifies `pidFile, `procs
      ensures View() == Launch(old(View()), replaced, newPid)
    {
      procs := (procs - replaced)[newPid := cfg.GetOr("")];
      pidFile := Pid(newPid);
    }

    method ReloadIfNeeded(c: Choices) returns (action: Action)
      modifies `pidFile, `procs
      ensures (View(), action) == ReloadConfig(old(View()), c)
    {
      match pidFile {
        case Missing =>
          action := Start;
          if c.startOk { StartProcess({}, c.newPid); }
        case Garbage =>
          action := BadPid;
        case Pid(pid) =>
          if pid !in procs {
            action := Start;
            if c.startOk { StartProcess({}, c.newPid); }
          } else {
            var same := FileIsIdentical(cfg, backup, c.read1, c.read2);
            if same {
              action := Nothing;
            } else {
              action := Reload;
              if c.reloadOk { StartProcess({pid}, c.newPid); }
            }
          }
      }
    }

    /** The body of the ticker loop in Setup. */
    method Tick(c: Choices) returns (panicked: bool, action: Action)
      modifies this
      ensures panicked <==> c.tail.None? || !c.writeOk || !c.checkOk || (old(cfg).Some? && c.statOk && !c.rotateOk) || !c.renameOk
      ensures c.tail.None? ==> View() == old(View()) && action == Nothing
      ensures c.tail.Some? ==> (View(), action) == TickWorld(old(View()), print_(Render(mgr.env, mgr.View(), c.tail.value)), c)
    {
      panicked, action := true, Nothing;
      if c.tail.None? { return; }
      var config := mgr.AssembleConfig(c.tail.value);
      var ok := WriteText(print_(config), c);
      if !ok { return; }
      panicked := false;
      action := ReloadIfNeeded(c);
    }
  }

  // ---- one tick ----

  /** At most one process, the one of the pid file, and it runs what the config file holds. */
  ghost predicate Healthy(w: World) {
    && w.pidFile != Garbage
    && forall pid :: pid in w.procs ==> w.pidFile == Pid(pid) && w.cfg == Some(w.procs[pid])
  }

  ghost predicate Succeeds(w: World, c: Choices) {
    c.tail.Some? && WritesWell(c) && c.startOk && c.reloadOk && c.newPid !in w.procs
  }

  /** The reads of the comparison cannot mistake different files for equal ones. */
  ghost predicate Reliable(w: World, text: Bytes, c: Choices) {
    Previous(w).Some? ==> Comparable(text, Previous(w).value, c.read1, c.read2)
  }

  ghost predicate Runs(w: World, text: Bytes) {
    Alive(w) && w.procs == map[w.pidFile.pid := text] && w.cfg == Some(text)
  }

  lemma ComparesWithPrevious(w: World, text: Bytes, c: Choices)
    requires WritesWell(c)
    ensures var (written, ok) := WriteConfig(w, text, c);
            ok && written == World(Some(text), Previous(w), None, w.pidFile, w.procs)
  {}

  /**
   Which action a tick takes once its text is installed, and what that leaves: a start
   without pid file or process, a reload of a living process exactly if the comparison with
   the previous config sees a change; a command that fails changes nothing.
   */
  lemma TickActs(w: World, text: Bytes, c: Choices)
    requires WritesWell(c)
    ensures var (after, action) := TickWorld(w, text, c);
            var living := w.pidFile.Pid? && w.pidFile.pid in w.procs;
            var changed := !Identical(Some(text), if w.cfg.Some? then w.cfg else w.backup, c.read1, c.read2);
            var done := (action == Start && c.startOk) || (action == Reload && c.reloadOk);
            && (action == BadPid <==> w.pidFile == Garbage)
            && (action == Start <==> w.pidFile == Missing || (w.pidFile.Pid? && !living))
            && (action == Reload <==> living && changed)
            && (done ==>
                  && after.pidFile == Pid(c.newPid)
                  && after.procs == (if action == Reload then w.procs - {w.pidFile.pid} else w.procs)[c.newPid := text])
            && (!done ==> after.pidFile == w.pidFile && after.procs == w.procs)
  {
    ComparesWithPrevious(w, text, c);
    assert w.procs - {} == w.procs;
  }

  lemma TickConverges(w: World, text: Bytes, c: Choices)
    requires Healthy(w) && Succeeds(w, c) && Reliable(w, text, c)
    ensures Runs(TickWorld(w, text, c).0, text) && Healthy(TickWorld(w, text, c).0)
  {
    ComparesWithPrevious(w, text, c);
    if Alive(w) {
      assert forall p :: p in w.procs ==> p == w.pidFile.pid;
      if Identical(Some(text), Previous(w), c.read1, c.read2) {
        IdenticalSound(text, Previous(w).value, c.read1, c.read2);
      }
    } else {
      assert w.procs == map[];
    }
  }

  /** Two readings of one text in the same pieces. */
  ghost predicate ReadAlike(text: Bytes, c: Choices) { Cuts(|text|, c.read1, 0) == Cuts(|text|, c.read2, 0) }

  /** A tick over an unchanged configuration, with the process alive, does nothing. */
  lemma TickIsQuiet(w: World, text: Bytes, c: Choices)
    requires Alive(w) && w.cfg == Some(text) && WritesWell(c) && ReadAlike(text, c)
    ensures var (after, action) := TickWorld(w, text, c);
            action == Nothing && after == w.(backup := Some(text), tmp := None)
  {
    ComparesWithPrevious(w, text, c);
    SameCutsIdenticalIff(text, text, c.read1, c.read2);
  }

  /**
   When one tick whose every operation succeeds converges, from any world at all: the pid
   file parses, no process runs that it does not name, and if the comparison sees no
   change then the living process runs the text already. A reload that should have
   happened before is not retried.
   */
  lemma TickConvergesIff(w: World, text: Bytes, c: Choices)
    requires Succeeds(w, c)
    ensures Runs(TickWorld(w, text, c).0, text) <==>
              && w.pidFile != Garbage
              && if Alive(w)
                 then w.procs.Keys == {w.pidFile.pid}
                      && (Identical(Some(text), Previous(w), c.read1, c.read2) ==> w.procs[w.pidFile.pid] == text)
                 else w.procs == map[]
  {
    ComparesWithPrevious(w, text, c);
    var (after, _) := TickWorld(w, text, c);
    if Alive(w) {
      var pid := w.pidFile.pid;
      if Identical(Some(text), Previous(w), c.read1, c.read2) {
        assert w.procs.Keys == {pid} ==> w.procs == map[pid := w.procs[pid]];
      } else {
        LaunchedAlone(w.procs, {pid}, c.newPid, text);
      }
    } else if w.pidFile != Garbage {
      LaunchedAlone(w.procs, {}, c.newPid, text);
    }
  }

  /** A new process is the only one exactly when all others are replaced. */
  lemma LaunchedAlone(procs: map<nat, Bytes>, replaced: set<nat>, newPid: nat, text: Bytes)
    requires newPid !in procs
    ensures (procs - replaced)[newPid := text] == map[newPid := text] <==> procs.Keys <= replaced
  {
    var after := (procs - replaced)[newPid := text];
    if p :| p in procs && p !in replaced { assert p in after && p != newPid; }
    if procs.Keys <= replaced { assert procs - replaced == map[]; }
  }

  ghost function Ticks(w: World, text: Bytes, cs: seq<Choices>): World
    decreases |cs|
  {
    if cs == [] then w else Ticks(TickWorld(w, text, cs[0]).0, text, cs[1..])
  }

  lemma {:induction false} QuietTicks(w: World, text: Bytes, cs: seq<Choices>)
    requires Alive(w) && w.cfg == Some(text) && forall c :: c in cs ==> WritesWell(c) && ReadAlike(text, c)
    ensures Ticks(w, text, cs).procs == w.procs
    decreases |cs|
  {
    if cs != [] {
      TickIsQuiet(w, text, cs[0]);
      QuietTicks(TickWorld(w, text, cs[0]).0, text, cs[1..]);
    }
  }

  /** After one failed reload the old configuration keeps running, however many successful ticks follow. */
  lemma FailedReloadSticks(w: World, text: Bytes, failed: Choices, cs: seq<Choices>)
    requires Healthy(w) && Alive(w) && w.cfg != Some(text)
    requires WritesWell(failed) && !failed.reloadOk && Comparable(text, w.cfg.value, failed.read1, failed.read2)
    requires forall c :: c in cs ==> WritesWell(c) && ReadAlike(text, c)
    ensures Ticks(TickWorld(w, text, failed).0, text, cs).procs == w.procs && w.procs[w.pidFile.pid] != text
  {
    ComparesWithPrevious(w, text, failed);
    if Identical(Some(text), w.cfg, failed.read1, failed.read2) {
      IdenticalSound(text, w.cfg.value, failed.read1, failed.read2);
    }
    QuietTicks(WriteConfig(w, text, failed).0, text, cs);
  }

  // ---- runs ----

  datatype System = System(mgr: State, world: World)

  /** A death leaves or takes the pid file. */
  datatype SystemEvent = Handler(event: Event) | Tick(choices: Choices) | Death(pidFileStays: bool)

  /** The setting of a run: the manager's environment and the printer of configurations. */
  datatype Setting = Setting(env: Env, print_: Config -> Bytes)

  ghost function TextOf(x: Setting, mgr: State, tail: string): Bytes { x.print_(Render(x.env, mgr, tail)) }

  ghost function Die(w: World, pidFileStays: bool): World {
    w.(procs := map[], pidFile := if pidFileStays then w.pidFile else Missing)
  }

  ghost function SystemStep(x: Setting, s: System, e: SystemEvent): System {
    match e
    case Handler(event) => s.(mgr := Step(x.env, s.mgr, event))
    case Tick(c) => if c.tail.None? then s else s.(world := TickWorld(s.world, TextOf(x, s.mgr, c.tail.value), c).0)
    case Death(stays) => s.(world := Die(s.world, stays))
  }

  /** The system after the first `n` events. */
  ghost function At(x: Setting, s: System, events: seq<SystemEvent>, n: nat): System
    requires n <= |events|
  {
    if n == 0 then s else SystemStep(x, At(x, s, events, n - 1), events[n - 1])
  }

  /** If this is a tick: its operations succeed, and its comparison is not misled. */
  ghost predicate GoesWell(x: Setting, s: System, e: SystemEvent) {
    e.Tick? ==> Succeeds(s.world, e.choices) && Reliable(s.world, TextOf(x, s.mgr, e.choices.tail.value), e.choices)
  }

  /** So go the first `n` events. */
  ghost predicate AllSucceed(x: Setting, s: System, events: seq<SystemEvent>, n: nat)
    requires n <= |events|
  {
    n == 0 || (AllSucceed(x, s, events, n - 1) && GoesWell(x, At(x, s, events, n - 1), events[n - 1]))
  }

  /** Whatever every good step keeps holds along a good run. */
  lemma {:induction false} Kept(x: Setting, s: System, events: seq<SystemEvent>, n: nat, holds: System -> bool)
    requires n <= |events| && holds(s) && AllSucceed(x, s, events, n)
    requires forall t, e :: holds(t) && GoesWell(x, t, e) ==> holds(SystemStep(x, t, e))
    ensures holds(At(x, s, events, n))
  {
    if n > 0 {
      Kept(x, s, events, n - 1, holds);
      assert GoesWell(x, At(x, s, events, n - 1), events[n - 1]);
    }
  }

  lemma StepConverges(x: Setting, s: System, e: SystemEvent)
    requires Healthy(s.world) && GoesWell(x, s, e)
    ensures Healthy(SystemStep(x, s, e).world)
    ensures e.Tick? ==> Runs(SystemStep(x, s, e).world, TextOf(x, s.mgr, e.choices.tail.value))
  {
    if e.Tick? { TickConverges(s.world, TextOf(x, s.mgr, e.choices.tail.value), e.choices); }
  }

  lemma StaysHealthy(x: Setting, s: System, events: seq<SystemEvent>, n: nat)
    requires n <= |events| && Healthy(s.world) && AllSucceed(x, s, events, n)
    ensures Healthy(At(x, s, events, n).world)
  {
    ghost var holds := (t: System) => Healthy(t.world);
    forall t, e | holds(t) && GoesWell(x, t, e) ensures holds(SystemStep(x, t, e)) { StepConverges(x, t, e); }
    Kept(x, s, events, n, holds);
  }

  /**
   Convergence over every run of ticks, handler calls and process deaths: after each tick
   the process is alive and runs exactly the configuration rendered from the current
   manager state.
   */
  lemma {:induction false} RunConverges(x: Setting, s: System, events: seq<SystemEvent>, n: nat)
    requires 0 < n <= |events| && Healthy(s.world) && AllSucceed(x, s, events, n) && events[n - 1].Tick?
    ensures var after := At(x, s, events, n);
            Runs(after.world, TextOf(x, after.mgr, events[n - 1].choices.tail.value))
  {
    StaysHealthy(x, s, events, n - 1);
    StepConverges(x, At(x, s, events, n - 1), events[n - 1]);
  }

  // ---- whatever else is running ----

  /** The process of the pid file, if it is alive, runs what the config file holds. */
  ghost predicate Serving(w: World) {
    w.pidFile != Garbage && (Alive(w) ==> w.cfg == Some(w.procs[w.pidFile.pid]))
  }

  /** The process of the pid file is alive and runs this text. */
  predicate Serves(w: World, text: Bytes) { Alive(w) && w.procs[w.pidFile.pid] == text && w.cfg == Some(text) }

  lemma TickServes(w: World, text: Bytes, c: Choices)
    requires Serving(w) && Succeeds(w, c) && Reliable(w, text, c)
    ensures Serves(TickWorld(w, text, c).0, text) && Serving(TickWorld(w, text, c).0)
  {
    ComparesWithPrevious(w, text, c);
    if Alive(w) && Identical(Some(text), Previous(w), c.read1, c.read2) {
      IdenticalSound(text, Previous(w).value, c.read1, c.read2);
    }
  }

  lemma StepServes(x: Setting, s: System, e: SystemEvent)
    requires Serving(s.world) && GoesWell(x, s, e)
    ensures Serving(SystemStep(x, s, e).world)
    ensures e.Tick? ==> Serves(SystemStep(x, s, e).world, TextOf(x, s.mgr, e.choices.tail.value))
  {
    if e.Tick? { TickServes(s.world, TextOf(x, s.mgr, e.choices.tail.value), e.choices); }
  }

  lemma StaysServing(x: Setting, s: System, events: seq<SystemEvent>, n: nat)
    requires n <= |events| && Serving(s.world) && AllSucceed(x, s, events, n)
    ensures Serving(At(x, s, events, n).world)
  {
    ghost var holds := (t: System) => Serving(t.world);
    forall t, e | holds(t) && GoesWell(x, t, e) ensures holds(SystemStep(x, t, e)) { StepServes(x, t, e); }
    Kept(x, s, events, n, holds);
  }

  /** The same from any processes at all: after each tick the one that the pid file names runs the current configuration. */
  lemma {:induction false} RunServes(x: Setting, s: System, events: seq<SystemEvent>, n: nat)
    requires 0 < n <= |events| && Serving(s.world) && AllSucceed(x, s, events, n) && events[n - 1].Tick?
    ensures var after := At(x, s, events, n);
            Serves(after.world, TextOf(x, after.mgr, events[n - 1].choices.tail.value))
  {
    StaysServing(x, s, events, n - 1);
    StepServes(x, At(x, s, events, n - 1), events[n - 1]);
  }

  // ---- quiescence ----

  lemma {:induction false} HandlersKeepWorld(x: Setting, s: System, events: seq<SystemEvent>, m: nat, n: nat)
    requires m <= n <= |events| && forall k :: m <= k < n ==> events[k].Handler?
    ensures At(x, s, events, n).world == At(x, s, events, m).world
  {
    if m < n { HandlersKeepWorld(x, s, events, m, n - 1); }
  }

  /**
   Quiescence: after a tick, handler calls that leave the rendered configuration as it was
   make the next tick neither start nor reload anything.
   */
  lemma QuietWhenUnchanged(x: Setting, s: System, events: seq<SystemEvent>, m: nat, n: nat)
    requires 0 < m <= n < |events| && Healthy(s.world) && AllSucceed(x, s, events, m)
    requires events[m - 1].Tick? && events[n].Tick? && forall k :: m <= k < n ==> events[k].Handler?
    requires var c := events[n].choices;
             c.tail.Some? && c.tail == events[m - 1].choices.tail && WritesWell(c)
             && ReadAlike(TextOf(x, At(x, s, events, n).mgr, c.tail.value), c)
    requires var tail := events[n].choices.tail.value;
             Render(x.env, At(x, s, events, n).mgr, tail) == Render(x.env, At(x, s, events, m).mgr, tail)
    ensures var before, c := At(x, s, events, n), events[n].choices;
            var (after, action) := TickWorld(before.world, TextOf(x, before.mgr, c.tail.value), c);
            action == Nothing && after.procs == before.world.procs && after.pidFile == before.world.pidFile &&
              after.cfg == before.world.cfg
  {
    RunConverges(x, s, events, m);
    HandlersKeepWorld(x, s, events, m, n);
    var before, c := At(x, s, events, n), events[n].choices;
    TickIsQuiet(before.world, TextOf(x, before.mgr, c.tail.value), c);
  }

  // ---- a changed tail ----

  /** A good tick with another text than the one that is served reloads, and serves it. */
  lemma ChangedTextReloads(w: World, served: Bytes, text: Bytes, c: Choices)
    requires Serves(w, served) && served != text && Succeeds(w, c) && Reliable(w, text, c)
    ensures TickWorld(w, text, c).1 == Reload && Serves(TickWorld(w, text, c).0, text)
  {
    ComparesWithPrevious(w, text, c);
    if Identical(Some(text), Previous(w), c.read1, c.read2) { IdenticalSound(text, served, c.read1, c.read2); }
    TickServes(w, text, c);
  }

  /** Configurations with the same gateways and sections are equal exactly when their tails are. */
  lemma TailShows(env: Env, st: State, t1: string, t2: string)
    ensures Render(env, st, t1) == Render(env, st, t2) <==> t1 == t2
    ensures Render(env, st, t1).tail == t1
  {}

  /**
   Changing the tail file alone reaches HAProxy: after a good tick, handler calls that leave
   the manager's state as it was, and a good tick that reads another tail, this tick
   reloads, and the process of the pid file runs the text with the new tail.
   */
  lemma ChangedTailIsServed(x: Setting, s: System, events: seq<SystemEvent>, m: nat, n: nat)
    requires forall a, b :: x.print_(a) == x.print_(b) ==> a == b
    requires 0 < m <= n < |events| && Serving(s.world) && AllSucceed(x, s, events, m)
    requires events[m - 1].Tick? && events[n].Tick? && forall k :: m <= k < n ==> events[k].Handler?
    requires At(x, s, events, n).mgr == At(x, s, events, m).mgr
    requires GoesWell(x, At(x, s, events, n), events[n])
    requires events[n].choices.tail != events[m - 1].choices.tail
    ensures var before, c := At(x, s, events, n), events[n].choices;
            var text := x.print_(Render(x.env, before.mgr, c.tail.value));
            && TickWorld(before.world, text, c).1 == Reload
            && Serves(At(x, s, events, n + 1).world, text)
            && Render(x.env, before.mgr, c.tail.value).tail == c.tail.value
  {
    RunServes(x, s, events, m);
    HandlersKeepWorld(x, s, events, m, n);
    var before, c := At(x, s, events, n), events[n].choices;
    TailOfGoodTick(x, s, events, m);
    TailShows(x.env, before.mgr, events[m - 1].choices.tail.value, c.tail.value);
    ChangedTextReloads(before.world, TextOf(x, before.mgr, events[m - 1].choices.tail.value),
                       TextOf(x, before.mgr, c.tail.value), c);
  }

  lemma TailOfGoodTick(x: Setting, s: System, events: seq<SystemEvent>, m: nat)
    requires 0 < m <= |events| && AllSucceed(x, s, events, m) && events[m - 1].Tick?
    ensures events[m - 1].choices.tail.Some?
  {}
}
