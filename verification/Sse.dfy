/** Server-sent events: the parser (`src/stx/http/HTTPSSEParser.cc`) and what
    `sendEvent` writes (`src/stx/http/HTTPSSEStream.cc`). */
module Sse {
  import opened Text

  datatype Event = Event(data: string, name: Option<string>)

  predicate Newline(c: char) { c == '\n' || c == '\r' }

  // ---------------------------------------------------------------- one event

  const DATA := "data: "
  const NAME := "event: "

  /** A line of an event; of several data lines the last one counts. */
  function TakeLine(ev: Event, line: string): Event {
    if DATA <= line then ev.(data := line[|DATA|..])
    else if NAME <= line then ev.(name := Some(line[|NAME|..]))
    else ev
  }

  /** The event after the lines in `t`, the first of which began with `line`.  An
      unterminated line is dropped. */
  function Lines(t: string, line: string, ev: Event): Event {
    if t == "" then ev
    else if Newline(t[0]) then Lines(t[1..], "", TakeLine(ev, line))
    else Lines(t[1..], line + [t[0]], ev)
  }

  const NOTHING := Event("", None)

  /** `parseEvent`: the callback runs if there is data. */
  function Events(chunk: string): seq<Event> {
    var ev := Lines(chunk, "", NOTHING);
    if ev.data == "" then [] else [ev]
  }

  /** Bytes of the line end at the front of `t`. */
  function LineEnd(t: string): nat { if |t| > 1 && t[0] == '\r' && t[1] == '\n' then 2 else 1 }

  lemma LinesStep(t: string, line: string, ev: Event)
    requires t != ""
    ensures TakeLine(ev, "") == ev
    ensures Lines(t, line, ev) == if Newline(t[0]) then Lines(t[LineEnd(t)..], "", TakeLine(ev, line))
                                  else Lines(t[1..], line + [t[0]], ev)
  {
    if LineEnd(t) == 2 {
      assert t[1..][1..] == t[2..];
      assert TakeLine(TakeLine(ev, line), "") == TakeLine(ev, line);
    }
  }

  method ParseEvent(data: string) returns (evs: seq<Event>)
    ensures evs == Events(data)
  {
    var event := NOTHING;
    var begin, cur := 0, 0;
    while cur < |data|
      invariant 0 <= begin <= cur <= |data|
      invariant Lines(data, "", NOTHING) == Lines(data[cur..], data[begin..cur], event)
    {
      ghost var rest := data[cur..];
      LinesStep(rest, data[begin..cur], event);
      if Newline(data[cur]) {
        if cur > begin {
          var line := data[begin..cur];
          event := TakeLine(event, line);
        }
        if cur + 1 < |data| && data[cur] == '\r' && data[cur + 1] == '\n' { cur := cur + 1; }
        begin := cur + 1;
        assert rest[LineEnd(rest)..] == data[begin..] && data[begin..begin] == "";
      } else {
        assert rest[1..] == data[cur + 1..];
        assert data[begin..cur] + [data[cur]] == data[begin..cur + 1];
      }
      cur := cur + 1;
    }
    evs := if event.data != "" then [event] else [];
  }

  // -------------------------------------------------------------------- one call

  /** How many bytes of `t` it takes to see two line ends in a row, when `state` were seen
      just before it. */
  function CutLength(t: string, state: nat): (n: Option<nat>)
    ensures n.Some? ==> n.value <= |t| && (state < 2 ==> n.value > 0)
  {
    if state >= 2 then Some(0)
    else if t == "" then None
    else
      var w := LineEnd(t);
      match CutLength(t[w..], if Newline(t[0]) then state + 1 else 0)
      case None => None
      case Some(n) => Some(w + n)
  }

  /** All complete events at the front of the buffer, and the bytes kept. */
  function Scan(t: string): (seq<Event>, string) {
    match CutLength(t, 0)
    case None => ([], t)
    case Some(n) =>
      var (evs, left) := Scan(t[n..]);
      (Events(t[..n]) + evs, left)
  }

  class HTTPSSEParser {
    var buf: string
    /** What the callback was given so far. */
    var events: seq<Event>

    constructor ()
      ensures buf == "" && events == []
    {
      buf, events := "", [];
    }

    method Parse(data: string)
      modifies this
      ensures var (evs, left) := Scan(old(buf) + data);
        buf == left && events == old(events) + evs
    {
      buf := buf + data;
      ghost var t, was, got: seq<Event> := buf, events, [];
      BeforeNone(Scan(t));
      assert t[0..] == t;
      var begin, end := 0, |buf|;
      while begin < end
        invariant 0 <= begin <= end == |buf| && buf == t && events == was + got
        invariant Scan(t) == Before(got, Scan(t[begin..]))
        decreases end - begin
      {
        var state, cur := FindEnd(buf, begin);
        if state != 2 { break; }
        BeforeOne(got, t, begin, cur, Scan(t));
        var evs := ParseEvent(buf[begin..cur]);
        Assoc(was, got, evs);
        got := got + evs;
        events := events + evs;
        begin := cur;
      }
      assert got + [] == got;
      buf := buf[begin..];
    }
  }

  /** The inner loop. */
  method FindEnd(buf: string, begin: nat) returns (state: nat, cur: nat)
    requires begin <= |buf|
    ensures begin <= cur <= |buf| && (state == 2 ==> begin < cur)
    ensures CutLength(buf[begin..], 0) == if state == 2 then Some(cur - begin) else None
  {
    state, cur := 0, begin;
    ghost var whole := CutLength(buf[begin..], 0);
    while state < 2 && cur < |buf|
      invariant begin <= cur <= |buf| && state <= 2 && (state == 2 ==> begin < cur)
      invariant whole == Further(cur - begin, CutLength(buf[cur..], state))
      decreases |buf| - cur
    {
      CutStep(buf, cur, begin, state, whole);
      state, cur := ScanByte(buf, cur, state);
    }
  }

  method ScanByte(buf: string, cur: nat, state: nat) returns (state': nat, cur': nat)
    requires cur < |buf|
    ensures state' == (if Newline(buf[cur]) then state + 1 else 0) && cur' == cur + Width(buf, cur) <= |buf|
  {
    cur' := cur;
    if buf[cur] == '\n' {
      state' := state + 1;
    } else if buf[cur] == '\r' {
      state' := state + 1;
      if cur + 1 < |buf| && buf[cur + 1] == '\n' { cur' := cur' + 1; }
    } else {
      state' := 0;
    }
    cur' := cur' + 1;
  }

  function Width(buf: string, cur: nat): nat
    requires cur < |buf|
  {
    if buf[cur] == '\r' && cur + 1 < |buf| && buf[cur + 1] == '\n' then 2 else 1
  }

  lemma CutStep(buf: string, cur: nat, begin: nat, state: nat, whole: Option<nat>)
    requires begin <= cur < |buf| && state < 2
    requires whole == Further(cur - begin, CutLength(buf[cur..], state))
    ensures var next := cur + Width(buf, cur);
      whole == Further(next - begin, CutLength(buf[next..], if Newline(buf[cur]) then state + 1 else 0))
  {
    var t := buf[cur..];
    var w := LineEnd(t);
    assert w == Width(buf, cur) && t[w..] == buf[cur + w..];
  }

  function Further(k: nat, n: Option<nat>): Option<nat> {
    match n
    case None => None
    case Some(n) => Some(k + n)
  }

  function Before(got: seq<Event>, r: (seq<Event>, string)): (seq<Event>, string) { (got + r.0, r.1) }

  lemma BeforeNone(r: (seq<Event>, string))
    ensures Before([], r) == r
  {
    assert [] + r.0 == r.0;
  }

  lemma BeforeOne(got: seq<Event>, t: string, begin: nat, cur: nat, r: (seq<Event>, string))
    requires begin < cur <= |t| && CutLength(t[begin..], 0) == Some(cur - begin)
    requires r == Before(got, Scan(t[begin..]))
    ensures r == Before(got + Events(t[begin..cur]), Scan(t[cur..]))
  {
    var rest := t[begin..];
    assert rest[..cur - begin] == t[begin..cur] && rest[cur - begin..] == t[cur..];
    Assoc(got, Events(t[begin..cur]), Scan(t[cur..]).0);
  }

  // ------------------------------------------------------------- byte by byte

  datatype Phase = Inside | AfterLF | AfterCR

  /** The text since the first byte of an event that is no line end, and what the last
      byte was. */
  datatype Auto = Auto(text: string, phase: Phase)

  const BLANK := Auto("", Inside)

  function PhaseOf(c: char): Phase { if c == '\n' then AfterLF else if c == '\r' then AfterCR else Inside }

  function Step(a: Auto, c: char): (seq<Event>, Auto) {
    if a.text == "" then ([], if Newline(c) then BLANK else Auto([c], Inside))
    else if Newline(c) && a.phase != Inside && !(a.phase == AfterCR && c == '\n') then
      (Events(a.text + [c]), BLANK)
    else ([], Auto(a.text + [c], PhaseOf(c)))
  }

  function Steps(a: Auto, t: string): (seq<Event>, Auto)
    decreases t
  {
    if t == "" then ([], a) else
      var (evs, a1) := Step(a, t[0]);
      var (more, a2) := Steps(a1, t[1..]);
      (evs + more, a2)
  }

  lemma {:induction false} StepsConcat(a: Auto, s: string, t: string)
    ensures var (evs, b) := Steps(a, s);
      var (more, c) := Steps(b, t);
      Steps(a, s + t) == (evs + more, c)
    decreases s
  {
    if s == "" {
      assert s + t == t && [] + Steps(a, t).0 == Steps(a, t).0;
    } else {
      assert (s + t)[1..] == s[1..] + t;
      var (first, a1) := Step(a, s[0]);
      StepsConcat(a1, s[1..], t);
      var (evs, b) := Steps(a1, s[1..]);
      Assoc(first, evs, Steps(b, t).0);
    }
  }

  /** `t` without the line ends in front. */
  function Stripped(t: string): (r: string)
    ensures |r| <= |t|
  {
    if t != "" && Newline(t[0]) then Stripped(t[1..]) else t
  }

  // --------------------------------------------------------------- they agree

  lemma {:induction false} LinesLeading(p: string, x: string)
    ensures Lines(p + x, "", NOTHING) == Lines(Stripped(p) + x, "", NOTHING)
  {
    if p != "" && Newline(p[0]) {
      assert (p + x)[1..] == p[1..] + x;
      LinesLeading(p[1..], x);
    }
  }

  lemma {:induction false} LinesMore(t: string, line: string, ev: Event)
    requires t != "" && Newline(t[|t| - 1])
    ensures Lines(t + "\n", line, ev) == Lines(t, line, ev)
  {
    assert (t + "\n")[1..] == t[1..] + "\n";
    if |t| == 1 {
      assert t[1..] + "\n" == "\n" && "\n"[1..] == "";
    } else if Newline(t[0]) {
      LinesMore(t[1..], "", TakeLine(ev, line));
    } else {
      LinesMore(t[1..], line + [t[0]], ev);
    }
  }

  lemma {:induction false} StrippedAppend(p: string, c: char)
    ensures Stripped(p + [c]) ==
      if Stripped(p) != "" then Stripped(p) + [c] else if Newline(c) then "" else [c]
  {
    if p == "" {
      assert p + [c] == [c];
    } else {
      assert (p + [c])[1..] == p[1..] + [c];
      if Newline(p[0]) { StrippedAppend(p[1..], c); }
    }
  }

  /** The automaton after `p`, when the scan has `state` line ends just before `u`. */
  ghost predicate Abreast(a: Auto, p: string, state: nat, u: string) {
    a.text == Stripped(p) && (a.text == "" ==> a == BLANK) && state < 2 &&
    (a.text != "" ==> (state == 0 <==> a.phase == Inside) && (a.phase == AfterCR && u != "" ==> u[0] != '\n'))
  }

  /** One line end or other byte: the scan's step is one or two of the automaton's. */
  lemma OneByte(a: Auto, p: string, state: nat, u: string)
    requires Abreast(a, p, state, u) && u != ""
    ensures var w := LineEnd(u);
      var state' := if Newline(u[0]) then state + 1 else 0;
      var (evs, b) := Steps(a, u[..w]);
      if state' < 2 then evs == [] && Abreast(b, p + u[..w], state', u[w..])
      else evs == Events(p + u[..w]) && b == BLANK
  {
    var w := LineEnd(u);
    StrippedAppend(p, u[0]);
    LinesLeading(p, [u[0]]);
    if w == 1 {
      assert u[..1] == [u[0]];
      StepsOne(a, u[0]);
    } else {
      assert u[..2] == [u[0]] + [u[1]];
      StepsOne(a, u[0]);
      StepsOne(Step(a, u[0]).1, u[1]);
      StepsConcat(a, [u[0]], [u[1]]);
      assert p + u[..2] == p + [u[0]] + "\n";
      LinesMore(p + [u[0]], "", NOTHING);
      StrippedAppend(p + [u[0]], u[1]);
    }
    if Stripped(p) == "" && Newline(u[0]) { OnlyNewlines(p, u[0]); }
  }

  lemma StepsOne(a: Auto, c: char)
    ensures Steps(a, [c]) == Step(a, c)
  {
    assert [c][1..] == "";
    assert Step(a, c).0 + [] == Step(a, c).0;
  }

  lemma {:induction false} OnlyNewlines(p: string, c: char)
    requires Stripped(p) == "" && Newline(c)
    ensures Events(p + [c]) == []
  {
    LinesLeading(p, [c]);
    assert "" + [c] == [c] && [c][1..] == "";
  }

  lemma StepsSilent(a: Auto, s: string, t: string)
    requires Steps(a, s).0 == []
    ensures Steps(a, s + t) == Steps(Steps(a, s).1, t)
  {
    StepsConcat(a, s, t);
    assert [] + Steps(Steps(a, s).1, t).0 == Steps(Steps(a, s).1, t).0;
  }

  /** Up to its first cut, a buffer gives the automaton the bytes of one event. */
  lemma {:induction false} CutAgrees(a: Auto, p: string, state: nat, u: string)
    requires Abreast(a, p, state, u)
    ensures match CutLength(u, state)
      case None => Steps(a, u).0 == [] && Steps(a, u).1.text == Stripped(p + u)
      case Some(n) => Steps(a, u[..n]) == (Events(p + u[..n]), BLANK)
    decreases |u|
  {
    if u == "" {
      assert p + u == p;
    } else {
      var w, state' := LineEnd(u), if Newline(u[0]) then state + 1 else 0;
      var first, rest := u[..w], u[w..];
      OneByte(a, p, state, u);
      if state' < 2 {
        CutAgrees(Steps(a, first).1, p + first, state', rest);
        Parts(p, u, w);
        assert u == first + rest;
        StepsSilent(a, first, rest);
        assert Steps(a, u) == Steps(Steps(a, first).1, rest);
        assert CutLength(u, state) == Further(w, CutLength(rest, state'));
        if CutLength(rest, state').Some? { StepsSilent(a, first, rest[..CutLength(rest, state').value]); }
      } else {
        assert CutLength(rest, state') == Some(0) && CutLength(u, state) == Some(w);
      }
    }
  }

  lemma Parts(p: string, u: string, w: nat)
    requires w <= |u|
    ensures u == u[..w] + u[w..] && p + u == p + u[..w] + u[w..]
    ensures forall n :: 0 <= n <= |u| - w ==>
      u[..w + n] == u[..w] + u[w..][..n] && p + u[..w + n] == p + u[..w] + u[w..][..n]
  {
  }

  /** A whole scan against the automaton: the same events, and the kept bytes lead the
      automaton, without an event, to where it is. */
  lemma {:induction false} ScanAgrees(t: string)
    ensures var (evs, left) := Scan(t);
      Steps(BLANK, t) == (evs, Steps(BLANK, left).1) && Steps(BLANK, left).0 == []
      && Steps(BLANK, left).1.text == Stripped(left)
    decreases |t|
  {
    CutAgrees(BLANK, "", 0, t);
    match CutLength(t, 0) {
      case None => assert "" + t == t;
      case Some(n) =>
        assert "" + t[..n] == t[..n] && t == t[..n] + t[n..];
        StepsConcat(BLANK, t[..n], t[n..]);
        ScanAgrees(t[n..]);
    }
  }

  // ---------------------------------------------------------------- every split

  /** A fresh parser after all the calls: the events, and the bytes kept. */
  function Fed(chunks: seq<string>): (seq<Event>, string) {
    if chunks == [] then ([], "") else
      var (evs, buf) := Fed(chunks[..|chunks| - 1]);
      var (more, left) := Scan(buf + chunks[|chunks| - 1]);
      (evs + more, left)
  }

  lemma {:induction false} FlattenLast(chunks: seq<string>)
    requires chunks != []
    ensures Flatten(chunks) == Flatten(chunks[..|chunks| - 1]) + chunks[|chunks| - 1]
  {
    if |chunks| > 1 {
      FlattenLast(chunks[1..]);
      var n := |chunks| - 1;
      assert chunks[1..][..n - 1] == chunks[..n][1..] && chunks[..n][0] == chunks[0];
      assert chunks[0] + (Flatten(chunks[1..n]) + chunks[n]) == chunks[0] + Flatten(chunks[1..n]) + chunks[n];
    }
  }

  /** Any calls see what the automaton sees of all their bytes. */
  lemma {:induction false} FedAgrees(chunks: seq<string>)
    ensures var (evs, buf) := Fed(chunks);
      Steps(BLANK, Flatten(chunks)) == (evs, Steps(BLANK, buf).1) && Steps(BLANK, buf).0 == []
      && Steps(BLANK, buf).1.text == Stripped(buf)
  {
    if chunks != [] {
      var less, last := chunks[..|chunks| - 1], chunks[|chunks| - 1];
      var (evs, buf) := Fed(less);
      FedAgrees(less);
      FlattenLast(chunks);
      ScanAgrees(buf + last);
      StepsSilent(BLANK, buf, last);
      StepsConcat(BLANK, Flatten(less), last);
    }
  }

  /** However the bytes are split over calls, the events are the same; what is kept
      differs at most in line ends at its front. */
  lemma SplitsDoNotMatter(chunks: seq<string>, chunks': seq<string>)
    requires Flatten(chunks) == Flatten(chunks')
    ensures Fed(chunks).0 == Fed(chunks').0 && Stripped(Fed(chunks).1) == Stripped(Fed(chunks').1)
  {
    FedAgrees(chunks);
    FedAgrees(chunks');
  }

  // ------------------------------------------------------------------ round trip

  /** What `sendEvent` writes. */
  function Sent(ev: Event): string {
    (if ev.name.Some? then NAME + ev.name.value + "\n" else "") + (DATA + ev.data + "\n\n")
  }

  method SendEvent(data: string, eventType: Option<string>) returns (buf: string)
    ensures buf == Sent(Event(data, eventType))
  {
    buf := "";
    if eventType != None {
      buf := buf + NAME;
      buf := buf + eventType.value;
      buf := buf + "\n";
    }
    ghost var head := buf;
    buf := buf + DATA;
    buf := buf + data;
    buf := buf + "\n\n";
    assert buf == head + (DATA + data + "\n\n");
  }

  function SentAll(evs: seq<Event>): string { if evs == [] then "" else Sent(evs[0]) + SentAll(evs[1..]) }

  predicate OneLine(s: string) { forall i :: 0 <= i < |s| ==> !Newline(s[i]) }

  /** Data on one line and not empty, and a name on one line. */
  predicate Clean(ev: Event) { ev.data != "" && OneLine(ev.data) && (ev.name.Some? ==> OneLine(ev.name.value)) }

  /** A line and its end, in the automaton. */
  lemma {:induction false} StepsLine(a: Auto, line: string)
    requires OneLine(line) && line != ""
    ensures Steps(a, line) == ([], Auto(a.text + line, Inside))
    decreases |line|
  {
    var c := line[0];
    assert a.text == "" ==> a.text + [c] == [c];
    if |line| == 1 {
      assert line == [c];
      StepsOne(a, c);
    } else {
      StepsLine(Step(a, c).1, line[1..]);
      assert a.text + [c] + line[1..] == a.text + line;
    }
  }

  lemma {:induction false} LinesLine(line: string, rest: string, begun: string, ev: Event)
    requires OneLine(line)
    ensures Lines(line + "\n" + rest, begun, ev) == Lines(rest, "", TakeLine(ev, begun + line))
    decreases |line|
  {
    var t := line + "\n" + rest;
    if line == "" {
      assert t[1..] == rest && begun + line == begun;
    } else {
      assert t[1..] == line[1..] + "\n" + rest && begun + [line[0]] + line[1..] == begun + line;
      LinesLine(line[1..], rest, begun + [line[0]], ev);
    }
  }

  lemma LineAndEnd(a: Auto, line: string)
    requires OneLine(line) && line != ""
    ensures Steps(a, line + "\n") == ([], Auto(a.text + line + "\n", AfterLF))
  {
    StepsLine(a, line);
    var b := Steps(a, line).1;
    StepsOne(b, '\n');
    StepsSilent(a, line, "\n");
  }

  lemma LastLine(a: Auto, line: string)
    requires OneLine(line) && line != ""
    ensures Steps(a, line + "\n\n") == (Events(a.text + line + "\n\n"), BLANK)
  {
    LineAndEnd(a, line);
    var b := Auto(a.text + line + "\n", AfterLF);
    StepsOne(b, '\n');
    StepsSilent(a, line + "\n", "\n");
    assert line + "\n" + "\n" == line + "\n\n";
    assert a.text + line + "\n" + "\n" == a.text + line + "\n\n";
  }

  lemma FirstLine(line: string, rest: string)
    requires OneLine(line) && line != ""
    ensures Steps(BLANK, line + "\n" + rest) == Steps(Auto(line + "\n", AfterLF), rest)
  {
    LineAndEnd(BLANK, line);
    assert "" + line == line;
    StepsSilent(BLANK, line + "\n", rest);
  }

  lemma TakeData(data: string, ev: Event)
    ensures TakeLine(ev, DATA + data) == ev.(data := data)
  {
    assert (DATA + data)[|DATA|..] == data;
  }

  lemma TakeName(name: string, ev: Event)
    ensures TakeLine(ev, NAME + name) == ev.(name := Some(name))
  {
    var line := NAME + name;
    assert line[0] == 'e' && line[|NAME|..] == name;
  }

  lemma LinesLast(line: string, ev: Event)
    requires OneLine(line)
    ensures Lines(line + "\n\n", "", ev) == TakeLine(ev, line)
  {
    var end := "\n";
    LinesLine(line, end, "", ev);
    assert line + "\n" + end == line + "\n\n" && "" + line == line && end[1..] == "";
    assert TakeLine(TakeLine(ev, line), "") == TakeLine(ev, line);
  }

  lemma UnnamedBack(data: string, line: string)
    requires OneLine(data) && data != "" && line == DATA + data
    ensures Steps(BLANK, line + "\n\n") == ([Event(data, None)], BLANK)
  {
    LastLine(BLANK, line);
    LinesLast(line, NOTHING);
    TakeData(data, NOTHING);
    assert "" + line == line;
  }

  lemma NamedBack(data: string, name: string, line: string, first: string)
    requires OneLine(data) && data != "" && line == DATA + data
    requires OneLine(name) && first == NAME + name
    ensures Steps(BLANK, first + "\n" + (line + "\n\n")) == ([Event(data, Some(name))], BLANK)
  {
    FirstLine(first, line + "\n\n");
    LastLine(Auto(first + "\n", AfterLF), line);
    assert first + "\n" + line + "\n\n" == first + "\n" + (line + "\n\n");
    LinesLine(first, line + "\n\n", "", NOTHING);
    assert "" + first == first;
    TakeName(name, NOTHING);
    LinesLast(line, TakeLine(NOTHING, first));
    TakeData(data, TakeLine(NOTHING, first));
  }

  lemma {:induction false} SentBack(evs: seq<Event>)
    requires forall i :: 0 <= i < |evs| ==> Clean(evs[i])
    ensures Steps(BLANK, SentAll(evs)) == (evs, BLANK)
  {
    if evs != [] {
      var ev := evs[0];
      if ev.name.Some? {
        NamedBack(ev.data, ev.name.value, DATA + ev.data, NAME + ev.name.value);
      } else {
        UnnamedBack(ev.data, DATA + ev.data);
        assert "" + (DATA + ev.data + "\n\n") == DATA + ev.data + "\n\n";
      }
      SentBack(evs[1..]);
      StepsConcat(BLANK, Sent(ev), SentAll(evs[1..]));
      assert [ev] + evs[1..] == evs;
    }
  }

  // ----------------------------------------------- only clean events come back

  lemma {:induction false} LinesClean(t: string, line: string, ev: Event)
    requires OneLine(line) && OneLine(ev.data) && (ev.name.Some? ==> OneLine(ev.name.value))
    ensures var r := Lines(t, line, ev); OneLine(r.data) && (r.name.Some? ==> OneLine(r.name.value))
  {
    if t != "" {
      if Newline(t[0]) { LinesClean(t[1..], "", TakeLine(ev, line)); } else { LinesClean(t[1..], line + [t[0]], ev); }
    }
  }

  lemma {:induction false} StepsClean(a: Auto, t: string)
    ensures forall i :: 0 <= i < |Steps(a, t).0| ==> Clean(Steps(a, t).0[i])
    decreases t
  {
    if t != "" {
      LinesClean(a.text + [t[0]], "", NOTHING);
      StepsClean(Step(a, t[0]).1, t[1..]);
    }
  }

  /** What is sent comes back, however it is split, exactly when every event has data, and
      data and name are on one line. */
  lemma SendThenParse(evs: seq<Event>, chunks: seq<string>)
    requires Flatten(chunks) == SentAll(evs)
    ensures Fed(chunks).0 == evs <==> forall i :: 0 <= i < |evs| ==> Clean(evs[i])
  {
    FedAgrees(chunks);
    StepsClean(BLANK, SentAll(evs));
    if forall i :: 0 <= i < |evs| ==> Clean(evs[i]) { SentBack(evs); }
  }
}
