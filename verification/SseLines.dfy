/** Events written with any of the three line ends: which lines of an event count, and where
    the event ends. */
module SseLines {
  import opened Text
  import opened Sse

  /** A line and the line end behind it. */
  datatype Line = Line(text: string, end: string)

  predicate Ends(e: string) { e == "\n" || e == "\r" || e == "\r\n" }

  predicate Plain(l: Line) {
    l.text != "" && '\n' !in l.text && '\r' !in l.text && Ends(l.end)
  }

  predicate AllPlain(ls: seq<Line>) { forall i :: 0 <= i < |ls| ==> Plain(ls[i]) }

  function Written(ls: seq<Line>): string {
    if ls == [] then "" else ls[0].text + (ls[0].end + Written(ls[1..]))
  }

  /** What the last line with this prefix has behind it. */
  function LastWith(ls: seq<Line>, prefix: string): Option<string> {
    if ls == [] then None
    else
      var n := |ls| - 1;
      if prefix <= ls[n].text then Some(ls[n].text[|prefix|..]) else LastWith(ls[..n], prefix)
  }

  // ------------------------------------------------------------------ the lines

  lemma {:induction false} LineRead(text: string, rest: string, line: string, ev: Event)
    requires '\n' !in text && '\r' !in text
    ensures Lines(text + rest, line, ev) == Lines(rest, line + text, ev)
    decreases |text|
  {
    if text == "" {
      assert text + rest == rest && line + text == line;
    } else {
      assert (text + rest)[1..] == text[1..] + rest;
      LineRead(text[1..], rest, line + [text[0]], ev);
      assert line + [text[0]] + text[1..] == line + text;
    }
  }

  lemma EndRead(e: string, rest: string, line: string, ev: Event)
    requires Ends(e)
    ensures Lines(e + rest, line, ev) == Lines(rest, "", TakeLine(ev, line))
  {
    var t := e + rest;
    if |e| == 1 {
      assert t[1..] == rest;
    } else {
      assert t[1..] == "\n" + rest;
      assert ("\n" + rest)[1..] == rest;
      assert TakeLine(TakeLine(ev, line), "") == TakeLine(ev, line);
    }
  }

  function Taken(ev: Event, ls: seq<Line>): Event {
    if ls == [] then ev else TakeLine(Taken(ev, ls[..|ls| - 1]), ls[|ls| - 1].text)
  }

  lemma {:induction false} TakenFirst(ev: Event, ls: seq<Line>)
    requires ls != []
    ensures Taken(ev, ls) == Taken(TakeLine(ev, ls[0].text), ls[1..])
    decreases |ls|
  {
    var n := |ls| - 1;
    if n > 0 {
      TakenFirst(ev, ls[..n]);
      assert ls[..n][1..] == ls[1..][..n - 1];
    }
  }

  lemma {:induction false} LinesTaken(ls: seq<Line>, rest: string, ev: Event)
    requires AllPlain(ls)
    ensures Lines(Written(ls) + rest, "", ev) == Lines(rest, "", Taken(ev, ls))
    decreases |ls|
  {
    if ls == [] {
      assert Written(ls) + rest == rest;
    } else {
      var more := Written(ls[1..]) + rest;
      assert Written(ls) + rest == ls[0].text + (ls[0].end + more);
      LineRead(ls[0].text, ls[0].end + more, "", ev);
      assert "" + ls[0].text == ls[0].text;
      EndRead(ls[0].end, more, ls[0].text, ev);
      LinesTaken(ls[1..], rest, TakeLine(ev, ls[0].text));
      TakenFirst(ev, ls);
    }
  }

  lemma OnePrefix(line: string)
    ensures "data: " <= line ==> line != "" && line[0] == 'd'
    ensures "event: " <= line ==> line != "" && line[0] == 'e'
  {
    assert "data: "[0] == 'd' && "event: "[0] == 'e';
  }

  lemma {:induction false} TakenIs(ls: seq<Line>)
    ensures var d := LastWith(ls, "data: ");
      Taken(NOTHING, ls) == Event(if d.Some? then d.value else "", LastWith(ls, "event: "))
  {
    if ls != [] {
      TakenIs(ls[..|ls| - 1]);
      OnePrefix(ls[|ls| - 1].text);
    }
  }

  /** Whatever its line ends, an event has the data of its last data line and the name of its
      last name line; without data it is none. */
  lemma EventOfLines(ls: seq<Line>, blank: string)
    requires AllPlain(ls) && (blank == "" || Ends(blank))
    ensures var d := LastWith(ls, "data: ");
      Events(Written(ls) + blank) ==
        if d.None? || d.value == "" then [] else [Event(d.value, LastWith(ls, "event: "))]
  {
    LinesTaken(ls, blank, NOTHING);
    TakenIs(ls);
    if blank != "" {
      EndRead(blank, "", "", Taken(NOTHING, ls));
      assert blank + "" == blank;
    }
  }

  // ------------------------------------------------------------------- the cut

  /** Two line ends that are not one. */
  predicate Apart(e: string, rest: string) { !(e == "\r" && rest != "" && rest[0] == '\n') }

  lemma {:induction false} CutPlain(text: string, rest: string, state: nat)
    requires text != "" && '\n' !in text && '\r' !in text && state < 2
    ensures CutLength(text + rest, state) == Further(|text|, CutLength(rest, 0))
    decreases |text|
  {
    var t := text + rest;
    assert t[0] == text[0] && t[1..] == text[1..] + rest;
    if |text| == 1 {
      assert text[1..] + rest == rest;
    } else {
      CutPlain(text[1..], rest, 0);
    }
  }

  lemma CutEnd(e: string, rest: string, state: nat)
    requires Ends(e) && Apart(e, rest) && state < 2
    ensures CutLength(e + rest, state) == Further(|e|, CutLength(rest, state + 1))
  {
    var t := e + rest;
    assert LineEnd(t) == |e| && t[|e|..] == rest;
  }

  /** One line and its end. */
  lemma CutLine(l: Line, more: string, state: nat)
    requires Plain(l) && Apart(l.end, more) && state < 2
    ensures CutLength(l.text + (l.end + more), state) == Further(|l.text| + |l.end|, CutLength(more, 1))
  {
    CutPlain(l.text, l.end + more, state);
    CutEnd(l.end, more, 0);
    FurtherTwice(|l.text|, |l.end|, CutLength(more, 1));
  }

  lemma FurtherTwice(a: nat, b: nat, n: Option<nat>)
    ensures Further(a, Further(b, n)) == Further(a + b, n)
  {
  }

  lemma FirstLine(ls: seq<Line>, tail: string)
    requires ls != []
    ensures Written(ls) + tail == ls[0].text + (ls[0].end + (Written(ls[1..]) + tail))
    ensures |Written(ls)| == |ls[0].text| + |ls[0].end| + |Written(ls[1..])|
  {
    Assoc(ls[0].text, ls[0].end + Written(ls[1..]), tail);
    Assoc(ls[0].end, Written(ls[1..]), tail);
  }

  lemma {:induction false} CutLines(ls: seq<Line>, tail: string, state: nat)
    requires AllPlain(ls) && ls != [] && state < 2 && Apart(ls[|ls| - 1].end, tail)
    ensures CutLength(Written(ls) + tail, state) == Further(|Written(ls)|, CutLength(tail, 1))
    decreases |ls|
  {
    var rest := ls[1..];
    FirstLine(ls, tail);
    LineBehind(ls, tail);
    CutLine(ls[0], Written(rest) + tail, state);
    if rest == [] {
      assert Written(rest) + tail == tail;
    } else {
      CutLines(rest, tail, 1);
      FurtherTwice(|ls[0].text| + |ls[0].end|, |Written(rest)|, CutLength(tail, 1));
    }
  }

  lemma LineBehind(ls: seq<Line>, tail: string)
    requires AllPlain(ls) && ls != [] && Apart(ls[|ls| - 1].end, tail)
    ensures Apart(ls[0].end, Written(ls[1..]) + tail)
    ensures ls[1..] != [] ==> Apart(ls[1..][|ls| - 2].end, tail)
  {
    if |ls| == 1 {
      assert Written(ls[1..]) + tail == tail;
    } else {
      assert (Written(ls[1..]) + tail)[0] == ls[1].text[0];
    }
  }

  /** A blank line of any kind ends the event, and what is behind it is parsed by itself. */
  lemma EventCut(ls: seq<Line>, blank: string, rest: string)
    requires AllPlain(ls) && ls != [] && Ends(blank)
    requires Apart(ls[|ls| - 1].end, blank) && Apart(blank, rest)
    ensures var d := LastWith(ls, "data: ");
      var evs := if d.None? || d.value == "" then [] else [Event(d.value, LastWith(ls, "event: "))];
      Scan(Written(ls) + (blank + rest)) == (evs + Scan(rest).0, Scan(rest).1)
  {
    ApartFront(ls[|ls| - 1].end, blank, rest);
    CutLines(ls, blank + rest, 0);
    CutEnd(blank, rest, 1);
    EventOfLines(ls, blank);
    ScanCut(Written(ls), blank, rest, |Written(ls)| + |blank|);
  }

  lemma ApartFront(e: string, blank: string, rest: string)
    requires blank != "" && Apart(e, blank)
    ensures Apart(e, blank + rest)
  {
  }

  lemma ScanCut(text: string, blank: string, rest: string, n: nat)
    requires blank != "" && n == |text| + |blank| && CutLength(text + (blank + rest), 0) == Some(n)
    ensures Scan(text + (blank + rest)) == (Events(text + blank) + Scan(rest).0, Scan(rest).1)
  {
    Assoc(text, blank, rest);
    FrontAndRest(text + blank, rest);
  }

  lemma FrontAndRest(a: string, b: string)
    ensures (a + b)[..|a|] == a && (a + b)[|a|..] == b
  {
  }

  // ------------------------------------------------------------------- sending

  /** A sent event is a name line, if it has a name, a data line and a blank line, each of them
      ended by a line feed. */
  lemma SentLines(ev: Event)
    ensures Sent(ev) == Written((if ev.name.Some? then [Line("event: " + ev.name.value, "\n")] else [])
                                + [Line("data: " + ev.data, "\n")]) + "\n"
  {
    var data := Line("data: " + ev.data, "\n");
    assert [data][1..] == [] && Written([data]) == "data: " + ev.data + "\n";
    if ev.name.Some? {
      var name := Line("event: " + ev.name.value, "\n");
      assert ([name] + [data])[1..] == [data];
    } else {
      assert [] + [data] == [data];
    }
  }
}
