/**
 sse.go, the connection state machine: Run, RunForever, dispatchEvent and Close. What the
 callbacks do is the environment's choice, as far as it matters here: a callback may
 call Close.
 */
module SseClient {
  import opened Text
  import opened Sse

  datatype ReadyState = CONNECTING | OPEN | CLOSED

  /** A connection attempt: the request fails, the status is not 200, or a body is read to its end. */
  datatype Connection = Failed | BadStatus | Body(stream: string)

  /** The client's observable history; an event is handled by its type's handler or by the message handler. */
  datatype Action = RunStarted | Opened | Errored | Handled(dispatch: Dispatch, byType: bool) | CloseCalled

  // ---- what a history says about closing ----

  /**
   Was Close called; how many runs started, in all and after that; how many handlers ran
   after that; what reached a handler; how often it was said that a connection is open, or an error.
   */
  datatype Summary = Summary(closed: bool, runs: nat, lateRuns: nat, lateEvents: nat, handled: seq<Dispatch>,
                             announced: nat, errors: nat)

  ghost function Observe(s: Summary, a: Action): Summary {
    match a
    case CloseCalled => s.(closed := true)
    case RunStarted => s.(runs := s.runs + 1, lateRuns := s.lateRuns + if s.closed then 1 else 0)
    case Handled(d, _) => s.(lateEvents := s.lateEvents + (if s.closed then 1 else 0), handled := s.handled + [d])
    case Opened => s.(announced := s.announced + 1)
    case Errored => s.(errors := s.errors + 1)
  }

  ghost function Summarize(log: seq<Action>): Summary {
    if log == [] then Summary(false, 0, 0, 0, [], 0, 0) else Observe(Summarize(log[..|log| - 1]), log[|log| - 1])
  }

  lemma SummarizeSnoc(log: seq<Action>, a: Action)
    ensures Summarize(log + [a]) == Observe(Summarize(log), a)
  {
    assert (log + [a])[..|log|] == log;
  }

  /** What a summary without late events says of the history itself. */
  lemma {:induction false} NoLateEvents(log: seq<Action>)
    ensures Summarize(log).closed <==> CloseCalled in log
    ensures Summarize(log).lateEvents == 0 <==> forall i, j :: 0 <= i < j < |log| && log[i] == CloseCalled ==> !log[j].Handled?
  {
    if log != [] {
      var n := |log| - 1;
      NoLateEvents(log[..n]);
      assert log == log[..n] + [log[n]];
      if Summarize(log[..n]).closed && log[n].Handled? {
        var i :| 0 <= i < n && log[..n][i] == CloseCalled;
        assert log[i] == CloseCalled && log[n].Handled?;
      }
    }
  }

  /** The dispatches that have a handler. */
  ghost function Served(ds: seq<Dispatch>, handlers: set<string>, onMessage: bool): seq<Dispatch> {
    if ds == [] then []
    else Served(ds[..|ds| - 1], handlers, onMessage) + if ds[|ds| - 1].event in handlers || onMessage then [ds[|ds| - 1]] else []
  }

  /** What was handled in addition: all that could be, or its beginning if the source was closed meanwhile. */
  ghost predicate HandledSoFar(closed: bool, before: seq<Dispatch>, after: seq<Dispatch>, served: seq<Dispatch>) {
    if closed then before <= after <= before + served else after == before + served
  }

  lemma ServedAppend(ds: seq<Dispatch>, sent: seq<Dispatch>, handlers: set<string>, onMessage: bool)
    requires |sent| <= 1
    ensures Served(ds + sent, handlers, onMessage) == Served(ds, handlers, onMessage) + Served(sent, handlers, onMessage)
  {
    if sent == [] {
      assert ds + sent == ds;
    } else {
      assert (ds + sent)[..|ds|] == ds && sent[..0] == [];
    }
  }

  lemma PrefixOfMore(x: seq<Dispatch>, y: seq<Dispatch>, more: seq<Dispatch>)
    requires x <= y
    ensures x <= y + more
  {
    assert (y + more)[..|x|] == y[..|x|];
  }

  /** One more line's dispatch. */
  lemma HandledStep(wasClosed: bool, closed: bool, before: seq<Dispatch>, mid: seq<Dispatch>, after: seq<Dispatch>,
      served: seq<Dispatch>, more: seq<Dispatch>)
    requires (wasClosed ==> closed) && HandledSoFar(wasClosed, before, mid, served)
    requires after == mid + if !wasClosed then more else []
    ensures HandledSoFar(closed, before, after, served + more)
  {
    assert before + (served + more) == (before + served) + more;
    if wasClosed {
      assert after == mid;
      PrefixOfMore(mid, before + served, more);
    }
  }

  /** After `sent`, parsing the rest from `p` completes the parse `all`. */
  ghost predicate Completes(all: Parsed, sent: seq<Dispatch>, p: Parser, rest: string) {
    all == Parse(p, rest).(dispatched := sent + Parse(p, rest).dispatched)
  }

  lemma ReadStep(all: Parsed, sent: seq<Dispatch>, p: Parser, rest: string)
    requires Completes(all, sent, p, rest) && LF in rest
    ensures var n := IndexOf(rest, LF) + 1; var line := Trim(rest[..n]);
            if Crashes(line) then all == Parsed(p, sent, true)
            else Completes(all, sent + OnLine(p, line).1, OnLine(p, line).0, rest[n..])
  {
    var n := IndexOf(rest, LF) + 1;
    var line := Trim(rest[..n]);
    FoldCons(p, line, Lines(rest[n..]));
    assert sent + [] == sent;
    if !Crashes(line) {
      var (next, new_) := OnLine(p, line);
      assert sent + (new_ + Parse(next, rest[n..]).dispatched) == sent + new_ + Parse(next, rest[n..]).dispatched;
    }
  }

  /** Reads and interprets one line of a parse that is to end as `all`. */
  method ReadLine(p: Parser, rest: string, ghost all: Parsed, ghost before: seq<Dispatch>)
    returns (crashed: bool, next: Parser, sent: seq<Dispatch>, left: string)
    requires LF in rest && Completes(all, before, p, rest)
    ensures |left| < |rest| && |sent| <= 1
    ensures if crashed then all == Parsed(p, before, true) && next == p else Completes(all, before + sent, next, left)
  {
    var n := IndexOf(rest, LF) + 1;
    var line := Trim(rest[..n]);
    ReadStep(all, before, p, rest);
    crashed, next, sent, left := Crashes(line), p, [], rest[n..];
    if !crashed {
      AtMostOneDispatch(p, line);
      var r := OnLine(p, line);
      next, sent := r.0, r.1;
    }
  }

  class EventSource {
    var readyState: ReadyState
    var lastEventId: string
    var reconnectMs: int
    const handlers: set<string>
    const onMessage: bool
    const onOpen: bool
    const onError: bool
    /** Which callbacks, counted from the first, call Close. */
    const closes: nat -> bool
    var calls: nat
    ghost var log: seq<Action>
    /** The summary of the log. */
    ghost var seen: Summary

    ghost predicate Valid() reads this {
      seen == Summarize(log) && seen.lateEvents == 0 && (readyState == CLOSED <==> seen.closed)
    }

    constructor (reconnectMs: int, handlers: set<string>, onMessage: bool, onOpen: bool, onError: bool, closes: nat -> bool)
      ensures Valid() && log == [] && readyState == CONNECTING && seen.lateRuns == 0
      ensures this.handlers == handlers && this.onMessage == onMessage && this.closes == closes
    {
      readyState, lastEventId, this.reconnectMs, calls, log, seen := CONNECTING, "", reconnectMs, 0, [], Summarize([]);
      this.handlers, this.onMessage, this.onOpen, this.onError, this.closes := handlers, onMessage, onOpen, onError, closes;
    }

    ghost method Record(a: Action)
      requires seen == Summarize(log)
      modifies `log, `seen
      ensures seen == Summarize(log) && seen == Observe(old(seen), a) && log == old(log) + [a]
    {
      SummarizeSnoc(log, a);
      log, seen := log + [a], Observe(seen, a);
    }

    method Close()
      requires Valid()
      modifies `readyState, `log, `seen
      ensures Valid() && readyState == CLOSED && seen == old(seen).(closed := true) && log == old(log) + [CloseCalled]
    {
      readyState := CLOSED;
      Record(CloseCalled);
    }

    /** Runs a callback, which may close. */
    method Call(a: Action)
      requires Valid() && a != CloseCalled && a != RunStarted && (a.Handled? ==> readyState != CLOSED)
      modifies `readyState, `log, `seen, `calls
      ensures Valid() && (readyState == old(readyState) || readyState == CLOSED)
      ensures seen == Observe(old(seen), a).(closed := seen.closed)
      ensures old(log) + [a] <= log
    {
      Record(a);
      calls := calls + 1;
      if closes(calls) { Close(); }
    }

    method DispatchEvent(d: Dispatch)
      requires Valid()
      modifies `readyState, `log, `seen, `calls
      ensures Valid() && (old(readyState) == CLOSED ==> readyState == CLOSED)
      ensures seen == old(seen).(closed := seen.closed, handled := seen.handled)
      ensures seen.handled == old(seen).handled + if old(readyState) != CLOSED then Served([d], handlers, onMessage) else []
      ensures old(log) <= log
      ensures old(readyState) != CLOSED && (d.event in handlers || onMessage) ==>
                old(log) + [Handled(d, d.event in handlers)] <= log
      ensures old(readyState) == CLOSED || !(d.event in handlers || onMessage) ==> log == old(log)
      ensures readyState == OPEN || readyState == CLOSED
    {
      assert Served([d], handlers, onMessage) == if d.event in handlers || onMessage then [d] else [];
      if readyState == CLOSED { return; }
      if readyState != OPEN { readyState := OPEN; }
      if d.event in handlers {
        Call(Handled(d, true));
      } else if onMessage {
        Call(Handled(d, false));
      }
    }

    /** The dispatch of one line, if it completes an event. */
    method DispatchAll(sent: seq<Dispatch>)
      requires Valid() && |sent| <= 1
      modifies `readyState, `log, `seen, `calls
      ensures Valid() && (old(readyState) == CLOSED ==> readyState == CLOSED)
      ensures seen == old(seen).(closed := seen.closed, handled := seen.handled)
      ensures seen.handled == old(seen).handled + if old(readyState) != CLOSED then Served(sent, handlers, onMessage) else []
      ensures old(log) <= log
    {
      if |sent| > 0 {
        assert sent == [sent[0]];
        DispatchEvent(sent[0]);
      }
    }

    /** The line loop over one body; true if the program crashed in it. */
    method ReadLoop(stream: string) returns (crashed: bool, ghost dispatched: seq<Dispatch>)
      requires Valid()
      modifies this
      ensures Valid() && (old(readyState) == CLOSED ==> readyState == CLOSED) && old(log) <= log
      ensures seen == old(seen).(closed := seen.closed, handled := seen.handled)
      ensures var all := Parse(Parser("", "", old(lastEventId), old(reconnectMs)), stream);
              && crashed == all.crashed && dispatched == all.dispatched
              && lastEventId == all.parser.lastEventId && reconnectMs == all.parser.reconnectMs
      ensures HandledSoFar(readyState == CLOSED, old(seen).handled, seen.handled, Served(dispatched, handlers, onMessage))
    {
      var p := Parser("", "", lastEventId, reconnectMs);
      ghost var all := Parse(p, stream);
      var rest := stream;
      dispatched := [];
      while LF in rest
        invariant Valid() && (old(readyState) == CLOSED ==> readyState == CLOSED) && old(log) <= log
        invariant seen == old(seen).(closed := seen.closed, handled := seen.handled)
        invariant p.lastEventId == lastEventId && p.reconnectMs == reconnectMs
        invariant Completes(all, dispatched, p, rest)
        invariant HandledSoFar(readyState == CLOSED, old(seen).handled, seen.handled, Served(dispatched, handlers, onMessage))
        decreases |rest|
      {
        var sent: seq<Dispatch>;
        crashed, p, sent, rest := ReadLine(p, rest, all, dispatched);
        if crashed { return; }
        lastEventId, reconnectMs := p.lastEventId, p.reconnectMs;
        ghost var wasClosed, mid := readyState == CLOSED, seen.handled;
        DispatchAll(sent);
        HandledStep(wasClosed, readyState == CLOSED, old(seen).handled, mid, seen.handled,
                    Served(dispatched, handlers, onMessage), Served(sent, handlers, onMessage));
        ServedAppend(dispatched, sent, handlers, onMessage);
        dispatched := dispatched + sent;
      }
      crashed := false;
    }

    /** The beginning of a run; a connection is announced once and first. */
    method StartRun(connected: bool)
      requires Valid()
      modifies `readyState, `log, `seen, `calls
      ensures Valid() && (old(readyState) == CLOSED ==> readyState == CLOSED) && old(log) + [RunStarted] <= log
      ensures connected && onOpen ==> old(log) + [RunStarted, Opened] <= log
      ensures seen == old(seen).(closed := seen.closed, runs := old(seen).runs + 1,
                                 lateRuns := old(seen).lateRuns + (if old(readyState) == CLOSED then 1 else 0),
                                 announced := old(seen).announced + if connected && onOpen then 1 else 0)
    {
      Record(RunStarted);
      if connected && onOpen {
        assert old(log) + [RunStarted, Opened] == log + [Opened];
        Call(Opened);
      }
    }

    method Run(conn: Connection) returns (crashed: bool, ghost dispatched: seq<Dispatch>)
      requires Valid()
      modifies this
      ensures Valid() && (old(readyState) == CLOSED ==> readyState == CLOSED) && old(log) + [RunStarted] <= log
      ensures seen.runs == old(seen).runs + 1
      ensures seen.lateRuns == old(seen).lateRuns + if old(readyState) == CLOSED then 1 else 0
      ensures conn.Body? ==>
                var all := Parse(Parser("", "", old(lastEventId), old(reconnectMs)), conn.stream);
                crashed == all.crashed && dispatched == all.dispatched
      ensures !conn.Body? ==> !crashed && dispatched == []
      ensures HandledSoFar(readyState == CLOSED, old(seen).handled, seen.handled, Served(dispatched, handlers, onMessage))
      // a connection is announced, once and first; whatever ends a run but a crash is reported
      ensures conn.Body? && onOpen ==> old(log) + [RunStarted, Opened] <= log
      ensures seen.announced == old(seen).announced + if conn.Body? && onOpen then 1 else 0
      ensures seen.errors == old(seen).errors + if onError && !crashed then 1 else 0
    {
      StartRun(conn.Body?);
      crashed, dispatched := false, [];
      if conn.Body? {
        crashed, dispatched := ReadLoop(conn.stream);
        if crashed { return; }
      }
      if onError { Call(Errored); }
    }

    /** RunForever over the connections that the network offers; it ends early only if closed or crashed. */
    method RunForever(conns: seq<Connection>) returns (crashed: bool, used: nat)
      requires Valid() && |conns| > 0
      modifies this
      ensures Valid() && old(log) + [RunStarted] <= log
      ensures seen.runs == old(seen).runs + used && seen.lateRuns <= old(seen).lateRuns + 1
      ensures old(readyState) == CLOSED ==> readyState == CLOSED && used == 1
      ensures used == |conns| || readyState == CLOSED || crashed
      // one error per run and one per reconnection
      ensures seen.errors == old(seen).errors + if onError then 2 * used - 1 - (if crashed then 1 else 0) else 0
    {
      ghost var dispatched;
      crashed, dispatched := Run(conns[0]);
      used := 1;
      while readyState != CLOSED && used < |conns| && !crashed
        invariant Valid() && 1 <= used <= |conns| && old(log) + [RunStarted] <= log
        invariant seen.runs == old(seen).runs + used
        invariant seen.lateRuns <= old(seen).lateRuns + if readyState == CLOSED then 1 else 0
        invariant old(readyState) == CLOSED ==> readyState == CLOSED && used == 1
        invariant seen.errors == old(seen).errors + if onError then 2 * used - 1 - (if crashed then 1 else 0) else 0
      {
        readyState := CONNECTING;
        if onError { Call(Errored); }
        crashed, dispatched := Run(conns[used]);
        used := used + 1;
      }
    }
  }
}
