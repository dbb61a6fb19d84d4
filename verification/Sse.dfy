/**
 sse.go, the parser: the line loop of Run as a fold over lines, and its inverse, an
 event printer. Sections 9.2.5 and 9.2.6 of the WHATWG HTML Standard describe the format;
 unlike there, data lines are joined by CR, a missing space after the colon is not
 tolerated, and an event with a type but no data is dispatched.
 */
module Sse {
  import opened Text

  const CR: char := '\r'
  const LF: char := '\n'

  datatype Dispatch = Dispatch(event: string, data: string)

  /** The loop's local variables and the two fields it sets; `reconnectMs` is the delay in milliseconds. */
  datatype Parser = Parser(eventType: string, dataBuffer: string, lastEventId: string, reconnectMs: int)

  // ---- lines ----

  /** The part of the stream up to and with the first LF. */
  function IndexOf(s: string, c: char): (i: nat)
    requires c in s
    ensures i < |s| && s[i] == c && c !in s[..i]
  {
    if s[0] == c then 0 else 1 + IndexOf(s[1..], c)
  }

  function TrimLeft(s: string): string {
    if s != "" && (s[0] == LF || s[0] == CR) then TrimLeft(s[1..]) else s
  }

  function TrimRight(s: string): string {
    if s != "" && (s[|s| - 1] == LF || s[|s| - 1] == CR) then TrimRight(s[..|s| - 1]) else s
  }

  /** strings.Trim(line, "\n\r"). */
  function Trim(s: string): string { TrimRight(TrimLeft(s)) }

  predicate Breaks(s: string) { forall c :: c in s ==> c == LF || c == CR }

  lemma {:induction false} TrimLeftIs(s: string)
    ensures exists pre :: Breaks(pre) && s == pre + TrimLeft(s)
    ensures TrimLeft(s) != "" ==> TrimLeft(s)[0] != LF && TrimLeft(s)[0] != CR
  {
    if s != "" && (s[0] == LF || s[0] == CR) {
      TrimLeftIs(s[1..]);
      var pre :| Breaks(pre) && s[1..] == pre + TrimLeft(s[1..]);
      assert Breaks([s[0]] + pre) && s == [s[0]] + pre + TrimLeft(s);
    } else {
      assert Breaks("") && s == "" + s;
    }
  }

  lemma {:induction false} TrimRightIs(s: string)
    ensures TrimRight(s) <= s && Breaks(s[|TrimRight(s)|..])
    ensures TrimRight(s) != "" ==> TrimRight(s)[|TrimRight(s)| - 1] != LF && TrimRight(s)[|TrimRight(s)| - 1] != CR
    decreases |s|
  {
    var n := |s| - 1;
    if s != "" && (s[n] == LF || s[n] == CR) {
      TrimRightIs(s[..n]);
      assert s[|TrimRight(s)|..] == s[..n][|TrimRight(s)|..] + [s[n]];
    }
  }

  /** Trimming takes line breaks off both ends, and all of them. */
  lemma TrimIs(s: string) returns (pre: string, post: string)
    ensures Breaks(pre) && Breaks(post) && s == pre + Trim(s) + post
    ensures var t := Trim(s); t != "" ==> t[0] != LF && t[0] != CR && t[|t| - 1] != LF && t[|t| - 1] != CR
  {
    TrimLeftIs(s);
    pre :| Breaks(pre) && s == pre + TrimLeft(s);
    TrimRightIs(TrimLeft(s));
    post := TrimLeft(s)[|Trim(s)|..];
    assert TrimLeft(s) == Trim(s) + post;
  }

  /** The complete lines of a stream, trimmed; what follows the last LF is lost. */
  function Lines(s: string): seq<string> {
    if LF !in s then [] else [Trim(s[..IndexOf(s, LF) + 1])] + Lines(s[IndexOf(s, LF) + 1..])
  }

  // ---- one line ----

  /** Where the first ": " begins. */
  function Separator(line: string): (r: Option<nat>)
    ensures r.Some? ==> r.value + 1 < |line| && line[r.value] == ':' && line[r.value + 1] == ' '
  {
    if |line| < 2 then None
    else if line[0] == ':' && line[1] == ' ' then Some(0)
    else
      match Separator(line[1..])
      case None => None
      case Some(i) => Some(i + 1)
  }

  /** The first ": ", if there is one. */
  lemma {:induction false} SeparatorIs(line: string)
    ensures forall k :: 0 <= k < |line| - 1 && line[k] == ':' && line[k + 1] == ' ' ==>
              Separator(line).Some? && Separator(line).value <= k
  {
    if |line| >= 2 && !(line[0] == ':' && line[1] == ' ') {
      SeparatorIs(line[1..]);
      forall k | 0 <= k < |line| - 1 && line[k] == ':' && line[k + 1] == ' '
        ensures Separator(line).Some? && Separator(line).value <= k
      {
        assert k > 0 && line[1..][k - 1] == ':' && line[1..][k] == ' ';
      }
    }
  }

  /** A line that has a colon but no ": " makes the program index past the end of a slice. */
  predicate Crashes(line: string) {
    line != "" && line[0] != ':' && ':' in line && Separator(line).None?
  }

  function SetField(p: Parser, name: string, value: string): Parser {
    if name == "event" then p.(eventType := value)
    else if name == "data" then p.(dataBuffer := p.dataBuffer + value + [CR])
    else if name == "id" then p.(lastEventId := value)
    else if name == "retry" && Atoi(value).Some? then p.(reconnectMs := Atoi(value).value)
    else p
  }

  function OnLine(p: Parser, line: string): (Parser, seq<Dispatch>)
    requires !Crashes(line)
  {
    if line == "" then
      if p.eventType != "" || p.dataBuffer != "" then
        (p.(eventType := "", dataBuffer := ""), [Dispatch(p.eventType, p.dataBuffer)])
      else (p, [])
    else if line[0] == ':' then (p, [])
    else if ':' in line then (SetField(p, line[..Separator(line).value], line[Separator(line).value + 2..]), [])
    else (SetField(p, line, ""), [])
  }

  lemma AtMostOneDispatch(p: Parser, line: string)
    requires !Crashes(line)
    ensures OnLine(p, line).1 == [] || OnLine(p, line).1 == [Dispatch(p.eventType, p.dataBuffer)]
  {}

  // ---- all lines ----

  datatype Parsed = Parsed(parser: Parser, dispatched: seq<Dispatch>, crashed: bool)

  function Fold(p: Parser, lines: seq<string>): Parsed
    decreases |lines|
  {
    if lines == [] then Parsed(p, [], false)
    else if Crashes(lines[0]) then Parsed(p, [], true)
    else
      var (next, sent) := OnLine(p, lines[0]);
      var rest := Fold(next, lines[1..]);
      rest.(dispatched := sent + rest.dispatched)
  }

  function Parse(p: Parser, stream: string): Parsed { Fold(p, Lines(stream)) }

  /** Not a comment, with a colon, and with no space after any colon. */
  predicate ColonWithoutSpace(line: string) {
    && line != "" && line[0] != ':' && ':' in line
    && forall k :: 0 <= k < |line| - 1 && line[k] == ':' ==> line[k + 1] != ' '
  }

  lemma CrashesWhen(line: string)
    ensures Crashes(line) <==> ColonWithoutSpace(line)
  {
    SeparatorIs(line);
  }

  /** The loop crashes exactly when some complete line is such. */
  lemma {:induction false} CrashesIff(p: Parser, lines: seq<string>)
    ensures Fold(p, lines).crashed <==> exists line :: line in lines && ColonWithoutSpace(line)
    decreases |lines|
  {
    if lines != [] {
      CrashesWhen(lines[0]);
      if !Crashes(lines[0]) { CrashesIff(OnLine(p, lines[0]).0, lines[1..]); }
    }
  }

  // ---- the printer ----

  /** A retry is a delay in milliseconds. */
  datatype Event = Event(typ: string, id: Option<string>, retry: Option<int>, data: seq<string>)

  predicate Clean(s: string) { CR !in s && LF !in s }

  function DataLines(data: seq<string>): seq<string> {
    if data == [] then [] else ["data: " + data[0]] + DataLines(data[1..])
  }

  /** A field that may be left out. */
  function FieldLines(name: string, value: Option<string>): seq<string> {
    if value.Some? then [name + ": " + value.value] else []
  }

  function HeadLines(e: Event): seq<string> {
    FieldLines("event", if e.typ != "" then Some(e.typ) else None)
    + FieldLines("id", e.id)
    + FieldLines("retry", if e.retry.Some? then Some(Numeral(e.retry.value)) else None)
  }

  function EventLines(e: Event): seq<string> { HeadLines(e) + DataLines(e.data) + [""] }

  function AllLines(events: seq<Event>): seq<string> {
    if events == [] then [] else EventLines(events[0]) + AllLines(events[1..])
  }

  /** A line on the wire: a comment (without its colon) or anything else, ended by LF or CRLF. */
  datatype WireLine = Comment(text: string, crlf: bool) | Field(text: string, crlf: bool)

  function TextOf(l: WireLine): string { if l.Comment? then ":" + l.text else l.text }

  function Wire(lines: seq<WireLine>): string {
    if lines == [] then "" else TextOf(lines[0]) + (if lines[0].crlf then [CR, LF] else [LF]) + Wire(lines[1..])
  }

  function FieldTexts(lines: seq<WireLine>): seq<string> {
    if lines == [] then []
    else (if lines[0].Field? then [lines[0].text] else []) + FieldTexts(lines[1..])
  }

  // ---- round trip ----

  lemma {:induction false} TrimClean(s: string, tail: string)
    requires Clean(s) && forall c :: c in tail ==> c == CR || c == LF
    ensures Trim(s + tail) == s
  {
    if s == "" {
      assert s + tail == tail;
      TrimLeftAll(tail);
    } else {
      assert (s + tail)[0] == s[0] && s[0] in s;
      TrimRightTail(s, tail);
    }
  }

  lemma {:induction false} TrimLeftAll(tail: string)
    requires forall c :: c in tail ==> c == CR || c == LF
    ensures TrimLeft(tail) == ""
  {
    if tail != "" {
      assert tail[0] in tail && forall c :: c in tail[1..] ==> c in tail;
      TrimLeftAll(tail[1..]);
    }
  }

  lemma {:induction false} TrimRightTail(s: string, tail: string)
    requires Clean(s) && forall c :: c in tail ==> c == CR || c == LF
    ensures TrimRight(s + tail) == s
    decreases |tail|
  {
    if tail == "" {
      assert s + tail == s;
      if s != "" { assert s[|s| - 1] in s; }
    } else {
      var n := |tail| - 1;
      assert tail[n] in tail && forall c :: c in tail[..n] ==> c in tail;
      assert (s + tail)[..|s| + n] == s + tail[..n];
      TrimRightTail(s, tail[..n]);
    }
  }

  lemma FirstLine(text: string, ending: string, rest: string)
    requires Clean(text) && (ending == [LF] || ending == [CR, LF])
    ensures Lines(text + ending + rest) == [text] + Lines(rest)
  {
    var s := text + ending + rest;
    var i := |text + ending| - 1;
    assert s[i] == LF;
    forall k | 0 <= k < i ensures s[k] != LF {
      if k < |text| { assert s[k] == text[k] && text[k] in text; }
    }
    var j := IndexOf(s, LF);
    assert forall k :: 0 <= k < j ==> s[..j][k] == s[k] && s[k] != LF;
    assert s[..i + 1] == text + ending && s[i + 1..] == rest;
    TrimClean(text, ending);
  }

  lemma FoldCons(p: Parser, line: string, rest: seq<string>)
    ensures Fold(p, [line] + rest)
         == if Crashes(line) then Parsed(p, [], true)
            else Fold(OnLine(p, line).0, rest).(dispatched := OnLine(p, line).1 + Fold(OnLine(p, line).0, rest).dispatched)
  {
    assert ([line] + rest)[0] == line && ([line] + rest)[1..] == rest;
  }

  /** Comments vanish, both line endings are the same, and a line that is not ended is lost. */
  lemma {:induction false} WireFolds(p: Parser, lines: seq<WireLine>, cut: string)
    requires (forall l :: l in lines ==> Clean(l.text)) && LF !in cut
    ensures Parse(p, Wire(lines) + cut) == Fold(p, FieldTexts(lines))
    decreases |lines|
  {
    if lines == [] {
      assert "" + cut == cut;
    } else {
      var l, rest := lines[0], Wire(lines[1..]) + cut;
      assert l in lines && Clean(TextOf(l));
      var ending := if l.crlf then [CR, LF] else [LF];
      assert Wire(lines) + cut == TextOf(l) + ending + rest;
      FirstLine(TextOf(l), ending, rest);
      FoldCons(p, TextOf(l), Lines(rest));
      assert forall x :: x in lines[1..] ==> x in lines;
      if l.Comment? {
        assert TextOf(l)[0] == ':' && !Crashes(TextOf(l)) && OnLine(p, TextOf(l)) == (p, []);
        WireFolds(p, lines[1..], cut);
        assert FieldTexts(lines) == FieldTexts(lines[1..]);
      } else {
        FoldCons(p, l.text, FieldTexts(lines[1..]));
        if !Crashes(l.text) { WireFolds(OnLine(p, l.text).0, lines[1..], cut); }
      }
    }
  }

  lemma {:induction false} FoldAppend(p: Parser, a: seq<string>, b: seq<string>)
    requires !Fold(p, a).crashed
    ensures var first := Fold(p, a); var second := Fold(first.parser, b);
            Fold(p, a + b) == Parsed(second.parser, first.dispatched + second.dispatched, second.crashed)
    decreases |a|
  {
    if a == [] {
      assert a + b == b;
    } else {
      assert (a + b)[0] == a[0] && (a + b)[1..] == a[1..] + b;
      FoldAppend(OnLine(p, a[0]).0, a[1..], b);
    }
  }

  /** The text of a data buffer. */
  function DataText(data: seq<string>): string {
    if data == [] then "" else data[0] + [CR] + DataText(data[1..])
  }

  lemma FieldLine(p: Parser, name: string, value: string)
    requires name != "" && name[0] != ':' && ':' !in name
    ensures var line := name + ": " + value;
            !Crashes(line) && line != "" && OnLine(p, line) == (SetField(p, name, value), [])
  {
    var line := name + ": " + value;
    SeparatorAfterName(name, value);
    assert line[0] == name[0] && line[|name|] == ':';
    assert line[..|name|] == name && line[|name| + 2..] == value;
  }

  lemma {:induction false} SeparatorAfterName(name: string, value: string)
    requires ':' !in name
    ensures Separator(name + ": " + value) == Some(|name|)
  {
    if name == "" {
      assert name + ": " + value == ": " + value;
    } else {
      assert (name + ": " + value)[1..] == name[1..] + ": " + value;
      assert (name + ": " + value)[0] == name[0] && name[0] in name;
      SeparatorAfterName(name[1..], value);
    }
  }

  lemma SilentLine(p: Parser, line: string, next: Parser, rest: seq<string>)
    requires !Crashes(line) && OnLine(p, line) == (next, [])
    ensures Fold(p, [line] + rest) == Fold(next, rest)
  {
    FoldCons(p, line, rest);
  }

  lemma DataLine(p: Parser, d: string, rest: seq<string>)
    ensures Fold(p, ["data: " + d] + rest) == Fold(p.(dataBuffer := p.dataBuffer + (d + [CR])), rest)
  {
    FieldLine(p, "data", d);
    assert "data" + ": " + d == "data: " + d;
    assert p.dataBuffer + (d + [CR]) == p.dataBuffer + d + [CR];
    SilentLine(p, "data: " + d, p.(dataBuffer := p.dataBuffer + (d + [CR])), rest);
  }

  lemma AppendData(a: string, d: string, rest: string)
    ensures a + (d + [CR]) + rest == a + (d + [CR] + rest)
  {}

  lemma {:induction false} DataLinesFold(p: Parser, data: seq<string>)
    ensures Fold(p, DataLines(data)) == Parsed(p.(dataBuffer := p.dataBuffer + DataText(data)), [], false)
    decreases |data|
  {
    if data == [] {
      assert p.dataBuffer + "" == p.dataBuffer;
    } else {
      var next := p.(dataBuffer := p.dataBuffer + (data[0] + [CR]));
      DataLine(p, data[0], DataLines(data[1..]));
      DataLinesFold(next, data[1..]);
      AppendData(p.dataBuffer, data[0], DataText(data[1..]));
    }
  }

  predicate Idle(p: Parser) { p.eventType == "" && p.dataBuffer == "" }

  lemma FieldFold(p: Parser, name: string, value: Option<string>)
    requires name != "" && name[0] != ':' && ':' !in name
    ensures Fold(p, FieldLines(name, value)) == Parsed(if value.Some? then SetField(p, name, value.value) else p, [], false)
  {
    if value.Some? {
      var line := name + ": " + value.value;
      FieldLine(p, name, value.value);
      assert [line][1..] == [] && [line][0] == line;
    }
  }

  lemma ThreeFields(p: Parser, q: Parser, r: Parser, s: Parser, a: seq<string>, b: seq<string>, c: seq<string>)
    requires Fold(p, a) == Parsed(q, [], false) && Fold(q, b) == Parsed(r, [], false) && Fold(r, c) == Parsed(s, [], false)
    ensures Fold(p, a + b + c) == Parsed(s, [], false)
  {
    FoldAppend(p, a, b);
    FoldAppend(p, a + b, c);
  }

  /** A delay that does not fit into a word is ignored. */
  predicate Fits(v: int) { -0x8000_0000_0000_0000 <= v < 0x8000_0000_0000_0000 }

  /** What stays of an event besides its dispatch. */
  function Remembered(p: Parser, e: Event): Parser {
    p.(lastEventId := if e.id.Some? then e.id.value else p.lastEventId,
       reconnectMs := if e.retry.Some? && Fits(e.retry.value) then e.retry.value else p.reconnectMs)
  }

  function RememberedAll(p: Parser, events: seq<Event>): Parser
    decreases |events|
  {
    if events == [] then p else RememberedAll(Remembered(p, events[0]), events[1..])
  }

  /** An event without type and data is not dispatched. */
  function DispatchOf(e: Event): seq<Dispatch> {
    if e.typ != "" || e.data != [] then [Dispatch(e.typ, DataText(e.data))] else []
  }

  function Dispatches(events: seq<Event>): seq<Dispatch> {
    if events == [] then [] else DispatchOf(events[0]) + Dispatches(events[1..])
  }

  /** The lines before the data set type, id and delay. */
  lemma HeadFold(p: Parser, e: Event)
    requires Idle(p)
    ensures Fold(p, HeadLines(e)) == Parsed(Remembered(p, e).(eventType := e.typ), [], false)
  {
    var typ := if e.typ != "" then Some(e.typ) else None;
    var retry := if e.retry.Some? then Some(Numeral(e.retry.value)) else None;
    var typed := p.(eventType := e.typ);
    var named := if e.id.Some? then typed.(lastEventId := e.id.value) else typed;
    FieldFold(p, "event", typ);
    FieldFold(typed, "id", e.id);
    FieldFold(named, "retry", retry);
    if e.retry.Some? { AtoiOfNumeral(e.retry.value); }
    ThreeFields(p, typed, named, Remembered(p, e).(eventType := e.typ),
                FieldLines("event", typ), FieldLines("id", e.id), FieldLines("retry", retry));
  }

  /** A blank line dispatches what there is. */
  lemma BlankFold(p: Parser)
    ensures Fold(p, [""]) == Parsed(
      p.(eventType := "", dataBuffer := ""),
      if p.eventType != "" || p.dataBuffer != "" then [Dispatch(p.eventType, p.dataBuffer)] else [],
      false)
  {
    assert [""][1..] == [];
  }

  /** One printed event is dispatched once, and leaves behind its id and its delay. */
  lemma EventFold(p: Parser, e: Event)
    requires Idle(p)
    ensures Fold(p, EventLines(e)) == Parsed(Remembered(p, e), DispatchOf(e), false)
  {
    var head := HeadLines(e);
    HeadFold(p, e);
    var typed := Remembered(p, e).(eventType := e.typ);
    DataLinesFold(typed, e.data);
    assert typed.dataBuffer + DataText(e.data) == DataText(e.data);
    FoldAppend(p, head, DataLines(e.data));
    FoldAppend(p, head + DataLines(e.data), [""]);
    assert e.data != [] ==> DataText(e.data) != "";
    BlankFold(typed.(dataBuffer := DataText(e.data)));
  }

  lemma {:induction false} EventsFold(p: Parser, events: seq<Event>)
    requires Idle(p)
    ensures Fold(p, AllLines(events)) == Parsed(RememberedAll(p, events), Dispatches(events), false)
    decreases |events|
  {
    if events != [] {
      EventFold(p, events[0]);
      EventsFold(Remembered(p, events[0]), events[1..]);
      FoldAppend(p, EventLines(events[0]), AllLines(events[1..]));
    }
  }

  /**
   Round trip: whatever comments are strewn in, however lines end and wherever the stream is
   cut off in the next line, reading back printed events dispatches exactly these events in
   order, remembers the last id and the last delay, and the parser is idle again.
   */
  lemma RoundTrip(p: Parser, events: seq<Event>, lines: seq<WireLine>, cut: string)
    requires Idle(p) && FieldTexts(lines) == AllLines(events) && (forall l :: l in lines ==> Clean(l.text)) && LF !in cut
    ensures Parse(p, Wire(lines) + cut) == Parsed(RememberedAll(p, events), Dispatches(events), false)
    ensures Idle(RememberedAll(p, events))
  {
    WireFolds(p, lines, cut);
    EventsFold(p, events);
    StaysIdle(p, events);
  }

  lemma {:induction false} StaysIdle(p: Parser, events: seq<Event>)
    requires Idle(p)
    ensures Idle(RememberedAll(p, events))
    decreases |events|
  {
    if events != [] { StaysIdle(Remembered(p, events[0]), events[1..]); }
  }

  /** What is remembered of the id: the last one printed, or else what it was. */
  lemma {:induction false} LastIdStays(p: Parser, events: seq<Event>, k: nat)
    requires k <= |events| && forall j :: k <= j < |events| ==> events[j].id.None?
    ensures k == 0 ==> RememberedAll(p, events).lastEventId == p.lastEventId
    ensures k > 0 && events[k - 1].id.Some? ==> RememberedAll(p, events).lastEventId == events[k - 1].id.value
    decreases |events|
  {
    if events != [] { LastIdStays(Remembered(p, events[0]), events[1..], if k == 0 then 0 else k - 1); }
  }

  /** Likewise of the delay, where one that does not fit into 64 bits does not count. */
  lemma {:induction false} LastDelayStays(p: Parser, events: seq<Event>, k: nat)
    requires k <= |events| && forall j :: k <= j < |events| ==> events[j].retry.None? || !Fits(events[j].retry.value)
    ensures k == 0 ==> RememberedAll(p, events).reconnectMs == p.reconnectMs
    ensures k > 0 && events[k - 1].retry.Some? && Fits(events[k - 1].retry.value) ==>
              RememberedAll(p, events).reconnectMs == events[k - 1].retry.value
    decreases |events|
  {
    if events != [] { LastDelayStays(Remembered(p, events[0]), events[1..], if k == 0 then 0 else k - 1); }
  }

  /** A field name alone stands for the field with an empty value. */
  lemma BareField(p: Parser, name: string)
    requires name != "" && ':' !in name
    ensures !Crashes(name) && !Crashes(name + ": ") && OnLine(p, name) == OnLine(p, name + ": ")
  {
    assert name[0] in name && name + ": " + "" == name + ": ";
    FieldLine(p, name, "");
  }

  /** Other fields are ignored, and so is a delay that is no number. */
  lemma OtherFieldIgnored(p: Parser, name: string, value: string)
    requires name != "" && ':' !in name && name !in ["event", "data", "id"] && (name == "retry" ==> Atoi(value).None?)
    ensures var line := name + ": " + value; !Crashes(line) && OnLine(p, line) == (p, [])
    ensures !Crashes(name) && OnLine(p, name) == (p, [])
  {
    assert name[0] in name;
    FieldLine(p, name, value);
  }

  /** The data lines of a dispatched event are found again by splitting at CR. */
  lemma {:induction false} DataRecoverable(data: seq<string>)
    requires forall d :: d in data ==> Clean(d)
    ensures Split(DataText(data), CR) == data + [""]
    decreases |data|
  {
    if data != [] {
      assert data[0] in data && forall d :: d in data[1..] ==> d in data;
      DataRecoverable(data[1..]);
      SplitFirst(data[0], DataText(data[1..]), CR);
      assert data == [data[0]] + data[1..];
    }
  }
}
