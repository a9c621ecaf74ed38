/** `HTTPGenerator::generate` for requests and `HTTPRequest::parse`: what is
    written is read back, in one piece or in any pieces. */
module HttpRequest {
  import opened Text
  import opened Format
  import opened HttpParser
  import opened HttpSplits

  type HeaderPair = (string, string)

  datatype Request = Request(verb: Method, uri: string, version: string,
                             headers: seq<HeaderPair>, body: string)

  // ------------------------------------------------------------------ generating

  const LINE_FORMAT := "$0 $1 $2\r\n"
  const HEADER_FORMAT := "$0: $1\r\n"
  const LENGTH_FORMAT := "Content-Length: $0\r\n"

  /** `hasHeader`: names are stored in lower case. */
  predicate HasHeader(hs: seq<HeaderPair>, key: string) {
    exists i :: 0 <= i < |hs| && hs[i].0 == LowerAll(key)
  }

  function HeaderText(hs: seq<HeaderPair>): string {
    if hs == [] then "" else Formatted(HEADER_FORMAT, [hs[0].0, hs[0].1]) + HeaderText(hs[1..])
  }

  function NeedsLength(req: Request): bool {
    req.body != "" && !HasHeader(req.headers, "Content-Length")
  }

  function Generated(req: Request): string {
    Formatted(LINE_FORMAT, [MethodName(req.verb), req.uri, req.version])
    + HeaderText(req.headers)
    + (if NeedsLength(req) then Formatted(LENGTH_FORMAT, [Dec(|req.body|)]) else "")
    + "\r\n" + req.body
  }

  lemma {:induction false} HeaderTextSnoc(hs: seq<HeaderPair>, h: HeaderPair)
    ensures HeaderText(hs + [h]) == HeaderText(hs) + Formatted(HEADER_FORMAT, [h.0, h.1])
  {
    if hs == [] {
      assert hs + [h] == [h] && [h][1..] == [];
    } else {
      assert (hs + [h])[1..] == hs[1..] + [h];
      HeaderTextSnoc(hs[1..], h);
    }
  }

  /** `hasHeader`. */
  method FindHeader(hs: seq<HeaderPair>, key: string) returns (has: bool)
    ensures has == HasHeader(hs, key)
  {
    var keyLow := LowerAll(key);
    for i := 0 to |hs|
      invariant forall j :: 0 <= j < i ==> hs[j].0 != keyLow
    {
      if hs[i].0 == keyLow { return true; }
    }
    return false;
  }

  method WriteHeaders(hs: seq<HeaderPair>) returns (os: string)
    ensures os == HeaderText(hs)
  {
    os := "";
    for i := 0 to |hs|
      invariant os == HeaderText(hs[..i])
    {
      var text := FormatString(HEADER_FORMAT, [hs[i].0, hs[i].1]);
      HeaderTextSnoc(hs[..i], hs[i]);
      assert hs[..i + 1] == hs[..i] + [hs[i]];
      os := os + text;
    }
    assert hs[..|hs|] == hs;
  }

  /** `generate`, writing line after line. */
  method Generate(req: Request) returns (os: string)
    ensures os == Generated(req)
  {
    os := FormatString(LINE_FORMAT, [MethodName(req.verb), req.uri, req.version]);
    var text := WriteHeaders(req.headers);
    os := os + text;
    var has := FindHeader(req.headers, "Content-Length");
    text := "";
    if |req.body| > 0 && !has {
      text := FormatString(LENGTH_FORMAT, [Dec(|req.body|)]);
    }
    os := os + text + "\r\n";
    text := if |req.body| > 0 then req.body else "";
    os := os + text;
  }

  // --------------------------------------------------------------------- parsing

  /** The callbacks that `HTTPRequest::parse` installs. */
  function Apply(req: Request, e: Event): Request {
    match e
    case OnMethod(m) => req.(verb := m)
    case OnUri(u) => req.(uri := u)
    case OnVersion(v) => req.(version := v)
    case OnHeader(k, v) => req.(headers := req.headers + [(LowerAll(k), v)])
    case _ => req
  }

  function Assemble(events: seq<Event>): Request {
    if events == [] then Request(GET, "", "", [], "")
    else Apply(Assemble(events[..|events| - 1]), events[|events| - 1])
  }

  const REQUEST := Config(RequestMode, true)

  /** The request seen when the input ended in outcome `o`; `None` is an exception. */
  function Finish(o: Outcome): Option<Request> {
    match Eof(o)
    case Failed(_, _) => None
    case Running(s) => if s.phase == Done then Some(Assemble(s.events).(body := s.body)) else None
  }

  function ParseRequest(str: string): Option<Request> {
    Finish(Call(REQUEST, Fresh(REQUEST), str))
  }

  // -------------------------------------------------------------- one token back

  /** A whole token `pre + tok`, of which `pre` is buffered: what one call does
      with it. */
  lemma {:induction false} TokenStep(cfg: Config, s: State, tok: string, rest: string, d: string)
    requires InToken(s.phase) && Delim(s.phase) !in tok && d == tok + [Delim(s.phase)] + rest
    ensures Call(cfg, s, d) ==
      match Accept(cfg, s, s.buf + tok) { case None => Failed(s.events, s.body) case Some(s') => Call(cfg, s', rest) }
  {
    CallStretch(cfg, s, tok, [Delim(s.phase)] + rest);
    assert d == tok + ([Delim(s.phase)] + rest);
    var s1 := s.(buf := s.buf + tok);
    assert ([Delim(s.phase)] + rest)[1..] == rest;
    AcceptIgnoresBuffer(cfg, s, s1, s.buf + tok);
  }

  /** A completed token replaces the buffer, whatever it held. */
  lemma AcceptIgnoresBuffer(cfg: Config, s: State, s1: State, tok: string)
    requires InToken(s.phase) && s1 == s.(buf := s1.buf)
    ensures Accept(cfg, s, tok) == Accept(cfg, s1, tok)
  {
  }

  /** When a whole token is clean. */
  lemma {:induction false} TokenClean(cfg: Config, s: State, tok: string, rest: string, d: string, s': State)
    requires InToken(s.phase) && Delim(s.phase) !in tok && d == tok + [Delim(s.phase)] + rest
    requires Accept(cfg, s, s.buf + tok) == Some(s')
    ensures Clean(cfg, s, d) <==> |s.buf + tok| <= Limit(s.phase) && Clean(cfg, s', rest)
    decreases |tok|
  {
    if tok == "" {
      assert d[1..] == rest && s.buf + tok == s.buf;
    } else {
      var s1 := s.(buf := s.buf + [tok[0]]);
      assert d[1..] == tok[1..] + [Delim(s.phase)] + rest;
      assert s1.buf + tok[1..] == s.buf + tok;
      AcceptIgnoresBuffer(cfg, s, s1, s.buf + tok);
      TokenClean(cfg, s1, tok[1..], rest, d[1..], s');
    }
  }

  /** Both, from an empty buffer. */
  lemma WholeToken(cfg: Config, s: State, tok: string, rest: string, d: string, s': State)
    requires InToken(s.phase) && s.buf == "" && Delim(s.phase) !in tok
    requires d == tok + [Delim(s.phase)] + rest
    requires Accept(cfg, s, tok) == Some(s')
    ensures Call(cfg, s, d) == Call(cfg, s', rest)
    ensures Clean(cfg, s, d) <==> |tok| <= Limit(s.phase) && Clean(cfg, s', rest)
  {
    assert "" + tok == tok;
    TokenStep(cfg, s, tok, rest, d);
    TokenClean(cfg, s, tok, rest, d, s');
  }

  lemma StripCR(t: string)
    requires t == "" || t[|t| - 1] != '\r'
    ensures StripTrailing(t + "\r", '\r') == t
  {
    assert (t + "\r")[..|t|] == t;
  }

  // ------------------------------------------------------------------ the headers

  predicate HeaderOk(k: string, v: string) {
    && ':' !in k && '\n' !in k && '\n' !in v
    && (v != "" ==> v[0] != ' ' && v[|v| - 1] != '\r')
  }

  function Line(h: HeaderPair): string { h.0 + ": " + h.1 + "\r\n" }

  function Lines(hs: seq<HeaderPair>): string {
    if hs == [] then "" else Line(hs[0]) + Lines(hs[1..])
  }

  /** The body length announced by the headers read so far: the last one counts. */
  function Declared(e: nat, hs: seq<HeaderPair>): Option<nat>
    decreases |hs|
  {
    if hs == [] then Some(e)
    else if LowerAll(hs[0].0) == "content-length" then
      (match Stoul(hs[0].1)
       case None => None
       case Some(n) => Declared(n, hs[1..]))
    else Declared(e, hs[1..])
  }

  function HeaderEvents(hs: seq<HeaderPair>): seq<Event> {
    seq(|hs|, i requires 0 <= i < |hs| => OnHeader(hs[i].0, hs[i].1))
  }

  predicate HeadersFit(hs: seq<HeaderPair>) {
    forall i :: 0 <= i < |hs| ==> |Line(hs[i])| <= MAX_HEADER_SIZE + 1
  }

  lemma HeaderLineCut(k: string, v: string, line: string)
    requires HeaderOk(k, v) && line == k + ": " + v
    ensures line != "" && Find(line, ':') == |k| < |line|
    ensures line[..|k|] == k && SkipSpaces(line[|k| + 1..]) == v
  {
    assert line == k + [':'] + (" " + v);
    FindSplit(k, ':', " " + v);
    assert line[|k| + 1..] == " " + v;
    assert (" " + v)[1..] == v && SkipSpaces(v) == v;
  }

  lemma HeaderAccepted(s: State, h: HeaderPair, tok: string)
    requires s.phase == Header && HeaderOk(h.0, h.1) && tok == h.0 + ": " + h.1 + "\r"
    ensures Accept(REQUEST, s, tok) == ProcessHeader(REQUEST, s, h.0, h.1)
  {
    var line := h.0 + ": " + h.1;
    StripCR(line);
    HeaderLineCut(h.0, h.1, line);
  }

  /** The state after the header lines `hs`. */
  function AfterHeaders(s: State, hs: seq<HeaderPair>): State
    requires Declared(s.expected, hs).Some?
  {
    s.(events := s.events + HeaderEvents(hs), expected := Declared(s.expected, hs).value)
  }

  lemma AfterFirst(s: State, hs: seq<HeaderPair>)
    requires hs != [] && s.phase == Header && s.buf == "" && Declared(s.expected, hs).Some?
    ensures var r := ProcessHeader(REQUEST, s, hs[0].0, hs[0].1);
      && r.Some? && r.value.phase == Header && r.value.buf == ""
      && Declared(r.value.expected, hs[1..]).Some?
      && AfterHeaders(r.value, hs[1..]) == AfterHeaders(s, hs)
  {
    var first := OnHeader(hs[0].0, hs[0].1);
    Assoc(s.events, [first], HeaderEvents(hs[1..]));
  }

  lemma {:induction false} HeadersBack(s: State, hs: seq<HeaderPair>, rest: string, d: string)
    requires s.phase == Header && s.buf == "" && d == Lines(hs) + rest
    requires forall i :: 0 <= i < |hs| ==> HeaderOk(hs[i].0, hs[i].1)
    requires Declared(s.expected, hs).Some?
    ensures Call(REQUEST, s, d) == Call(REQUEST, AfterHeaders(s, hs), rest)
    ensures Clean(REQUEST, s, d) <==> HeadersFit(hs) && Clean(REQUEST, AfterHeaders(s, hs), rest)
    decreases |hs|
  {
    if hs == [] {
      assert d == rest && s.events + HeaderEvents(hs) == s.events;
    } else {
      var h := hs[0];
      var tok := h.0 + ": " + h.1 + "\r";
      HeaderAccepted(s, h, tok);
      AfterFirst(s, hs);
      var s1 := ProcessHeader(REQUEST, s, h.0, h.1).value;
      var d1 := Lines(hs[1..]) + rest;
      HeaderCut(h, Lines(hs[1..]), rest);
      WholeToken(REQUEST, s, tok, d1, d, s1);
      HeadersBack(s1, hs[1..], rest, d1);
      FitFirst(hs);
    }
  }

  lemma FitFirst(hs: seq<HeaderPair>)
    requires hs != []
    ensures HeadersFit(hs) <==> |Line(hs[0])| <= MAX_HEADER_SIZE + 1 && HeadersFit(hs[1..])
  {
    assert forall i :: 0 < i < |hs| ==> hs[1..][i - 1] == hs[i];
  }

  lemma HeaderCut(h: HeaderPair, more: string, rest: string)
    ensures (Line(h) + more) + rest == (h.0 + ": " + h.1 + "\r") + ['\n'] + (more + rest)
    ensures '\n' !in h.0 && '\n' !in h.1 ==> '\n' !in h.0 + ": " + h.1 + "\r"
  {
  }

  // ------------------------------------------------------------------ round trip

  /** The header list the other side sees. */
  function SentHeaders(req: Request): seq<HeaderPair> {
    req.headers + if NeedsLength(req) then [("Content-Length", Dec(|req.body|))] else []
  }

  function WithLength(req: Request): Request {
    if NeedsLength(req) then req.(headers := req.headers + [("content-length", Dec(|req.body|))])
    else req
  }

  /** The requests the wire format can carry. */
  predicate Sendable(req: Request) {
    && ' ' !in req.uri && NoSlot(req.uri, '2')
    && '\n' !in req.version && (req.version != "" ==> req.version[|req.version| - 1] != '\r')
    && (forall i :: 0 <= i < |req.headers| ==>
          var (k, v) := req.headers[i];
          HeaderOk(k, v) && NoSlot(k, '1') && LowerAll(k) == k)
    && Declared(0, SentHeaders(req)) == Some(|req.body|)
  }

  /** Every token is within the limit of the parser. */
  predicate Fits(req: Request) {
    |req.uri| <= MAX_URI_SIZE && |req.version| < MAX_VERSION_SIZE && HeadersFit(SentHeaders(req))
  }

  lemma {:induction false} HeaderTextIsLines(hs: seq<HeaderPair>)
    requires forall i :: 0 <= i < |hs| ==> NoSlot(hs[i].0, '1')
    ensures HeaderText(hs) == Lines(hs)
  {
    if hs != [] {
      FormatTwo(HEADER_FORMAT, hs[0].0, ": ", hs[0].1, "\r\n");
      HeaderTextIsLines(hs[1..]);
    }
  }

  lemma {:induction false} LinesConcat(a: seq<HeaderPair>, b: seq<HeaderPair>)
    ensures Lines(a + b) == Lines(a) + Lines(b)
  {
    if a == [] {
      assert a + b == b;
    } else {
      assert (a + b)[1..] == a[1..] + b;
      LinesConcat(a[1..], b);
    }
  }

  function Head(req: Request): string {
    MethodName(req.verb) + " " + (req.uri + " " + (req.version + "\r" + "\n" + (Lines(SentHeaders(req)) + "\r\n")))
  }

  /** The parser's state when the head of a generated request has been read. */
  function AfterHead(req: Request): State {
    State(if req.body == "" then Done else Body, "", 0, |req.body|,
          [OnMethod(req.verb)] + [OnUri(req.uri)] + [OnVersion(req.version)]
          + HeaderEvents(SentHeaders(req)) + [OnHeadersComplete], "")
  }

  lemma GeneratedLayout(req: Request)
    requires Sendable(req)
    ensures Generated(req) == Head(req) + req.body
  {
    var m, u, v, hs := MethodName(req.verb), req.uri, req.version, SentHeaders(req);
    LineText(req.verb, u, v);
    HeaderTextIsLines(req.headers);
    var extra := if NeedsLength(req) then Formatted(LENGTH_FORMAT, [Dec(|req.body|)]) else "";
    assert Lines(hs) == Lines(req.headers) + extra by { LengthLine(req); }
    LayoutRegroup(m, u, v, Lines(req.headers), extra, req.body);
  }

  lemma LineText(m: Method, u: string, v: string)
    requires NoSlot(u, '2')
    ensures Formatted(LINE_FORMAT, [MethodName(m), u, v]) == MethodName(m) + " " + u + " " + v + "\r\n"
  {
    FormatThree(LINE_FORMAT, MethodName(m), " ", u, " ", v, "\r\n");
  }

  lemma LengthLine(req: Request)
    ensures Lines(SentHeaders(req)) == Lines(req.headers)
      + if NeedsLength(req) then Formatted(LENGTH_FORMAT, [Dec(|req.body|)]) else ""
  {
    if NeedsLength(req) {
      var n := Dec(|req.body|);
      LengthText(n);
      OneLine(("Content-Length", n));
      LinesConcat(req.headers, [("Content-Length", n)]);
    } else {
      assert SentHeaders(req) == req.headers;
      assert Lines(req.headers) + "" == Lines(req.headers);
    }
  }

  lemma LengthText(n: string)
    ensures Formatted(LENGTH_FORMAT, [n]) == Line(("Content-Length", n))
  {
    FormatOne(LENGTH_FORMAT, "Content-Length: ", n, "\r\n");
  }

  lemma OneLine(h: HeaderPair)
    ensures Lines([h]) == Line(h)
  {
    var hs := [h];
    assert hs[1..] == [];
  }

  lemma LayoutRegroup(m: string, u: string, v: string, ls: string, extra: string, body: string)
    ensures (m + " " + u + " " + v + "\r\n") + ls + extra + "\r\n" + body
         == m + " " + (u + " " + (v + "\r" + "\n" + ((ls + extra) + "\r\n"))) + body
  {
    var x := (ls + extra) + "\r\n";
    assert (m + " " + u + " " + v + "\r\n") + ls + extra + "\r\n" == (m + " " + u + " " + v + "\r\n") + x;
    assert "\r\n" == "\r" + "\n";
    assert (m + " " + u + " " + v + "\r\n") + x == m + " " + u + " " + (v + "\r" + "\n" + x);
    var y := v + "\r" + "\n" + x;
    assert m + " " + u + " " + y == m + " " + (u + " " + y);
  }

  function Lowered(hs: seq<HeaderPair>): seq<HeaderPair> {
    seq(|hs|, i requires 0 <= i < |hs| => (LowerAll(hs[i].0), hs[i].1))
  }

  lemma AssembleSnoc(events: seq<Event>, e: Event)
    ensures Assemble(events + [e]) == Apply(Assemble(events), e)
  {
    assert (events + [e])[..|events|] == events;
  }

  lemma {:induction false} AssembleHeaders(events: seq<Event>, hs: seq<HeaderPair>)
    ensures Assemble(events + HeaderEvents(hs))
         == Assemble(events).(headers := Assemble(events).headers + Lowered(hs))
    decreases |hs|
  {
    if hs == [] {
      assert events + HeaderEvents(hs) == events && Assemble(events).headers + Lowered(hs) == Assemble(events).headers;
    } else {
      var n := |hs| - 1;
      var h := (LowerAll(hs[n].0), hs[n].1);
      AssembleHeaders(events, hs[..n]);
      HeaderListSnoc(events, hs);
      AssembleSnoc(events + HeaderEvents(hs[..n]), OnHeader(hs[n].0, hs[n].1));
      assert Assemble(events).headers + Lowered(hs) == Assemble(events).headers + Lowered(hs[..n]) + [h];
    }
  }

  lemma HeaderListSnoc(events: seq<Event>, hs: seq<HeaderPair>)
    requires hs != []
    ensures var n := |hs| - 1;
      && Lowered(hs) == Lowered(hs[..n]) + [(LowerAll(hs[n].0), hs[n].1)]
      && events + HeaderEvents(hs) == events + HeaderEvents(hs[..n]) + [OnHeader(hs[n].0, hs[n].1)]
  {
  }

  /** The state after the request line. */
  function AfterLine(req: Request): State {
    State(Header, "", 0, 0, [OnMethod(req.verb)] + [OnUri(req.uri)] + [OnVersion(req.version)], "")
  }

  lemma LineBack(req: Request, rest: string, d: string)
    requires Sendable(req)
    requires d == MethodName(req.verb) + " " + (req.uri + " " + (req.version + "\r" + "\n" + rest))
    ensures Call(REQUEST, Fresh(REQUEST), d) == Call(REQUEST, AfterLine(req), rest)
    ensures Clean(REQUEST, Fresh(REQUEST), d)
      <==> |req.uri| <= MAX_URI_SIZE && |req.version| < MAX_VERSION_SIZE && Clean(REQUEST, AfterLine(req), rest)
  {
    var u, v := req.uri, req.version;
    var s1 := Emit(Fresh(REQUEST), ReqUri, OnMethod(req.verb));
    var s2 := Emit(s1, ReqVersion, OnUri(u));
    var r2 := v + "\r" + "\n" + rest;
    var r1 := u + " " + r2;
    MethodBack(req.verb, r1, d);
    WholeToken(REQUEST, s1, u, r2, r1, s2);
    VersionBack(s2, v, rest, r2);
    assert Emit(s2, Header, OnVersion(v)).events == AfterLine(req).events;
  }

  lemma MethodBack(m: Method, rest: string, d: string)
    requires d == MethodName(m) + " " + rest
    ensures var s1 := Emit(Fresh(REQUEST), ReqUri, OnMethod(m));
      && Call(REQUEST, Fresh(REQUEST), d) == Call(REQUEST, s1, rest)
      && (Clean(REQUEST, Fresh(REQUEST), d) <==> Clean(REQUEST, s1, rest))
  {
    WholeToken(REQUEST, Fresh(REQUEST), MethodName(m), rest, d, Emit(Fresh(REQUEST), ReqUri, OnMethod(m)));
  }

  lemma VersionBack(s: State, v: string, rest: string, d: string)
    requires s.phase == ReqVersion && s.buf == "" && d == v + "\r" + "\n" + rest
    requires '\n' !in v && (v != "" ==> v[|v| - 1] != '\r')
    ensures var s' := Emit(s, Header, OnVersion(v));
      && Call(REQUEST, s, d) == Call(REQUEST, s', rest)
      && (Clean(REQUEST, s, d) <==> |v| < MAX_VERSION_SIZE && Clean(REQUEST, s', rest))
  {
    StripCR(v);
    WholeToken(REQUEST, s, v + "\r", rest, d, Emit(s, Header, OnVersion(v)));
  }

  lemma HeadBack(req: Request, rest: string)
    requires Sendable(req)
    ensures Call(REQUEST, Fresh(REQUEST), Head(req) + rest) == Call(REQUEST, AfterHead(req), rest)
    ensures Clean(REQUEST, Fresh(REQUEST), Head(req) + rest)
      <==> Fits(req) && Clean(REQUEST, AfterHead(req), rest)
  {
    var m, u, v, hs := MethodName(req.verb), req.uri, req.version, SentHeaders(req);
    var r4 := "\r" + "\n" + rest;
    var r3 := Lines(hs) + r4;
    assert Head(req) + rest == m + " " + (u + " " + (v + "\r" + "\n" + r3)) by {
      HeadRegroup(m, u, v, Lines(hs), rest);
    }
    LineBack(req, r3, Head(req) + rest);
    LengthHeaderOk(req);
    HeadersBack(AfterLine(req), hs, r4, r3);
    var s4 := AfterHeaders(AfterLine(req), hs);
    LastHeadLine(s4, rest, r4);
    assert s4.events + [OnHeadersComplete] == AfterHead(req).events;
  }

  lemma HeadRegroup(m: string, u: string, v: string, ls: string, rest: string)
    ensures m + " " + (u + " " + (v + "\r" + "\n" + (ls + "\r\n"))) + rest
         == m + " " + (u + " " + ((v + "\r") + "\n" + (ls + ("\r" + "\n" + rest))))
  {
    assert ls + "\r\n" + rest == ls + ("\r" + "\n" + rest);
    assert (v + "\r" + "\n" + (ls + "\r\n")) + rest == (v + "\r") + "\n" + (ls + "\r\n" + rest);
    var x := v + "\r" + "\n" + (ls + "\r\n");
    assert m + " " + (u + " " + x) + rest == m + " " + (u + " " + (x + rest));
  }

  lemma LastHeadLine(s: State, rest: string, d: string)
    requires s.phase == Header && s.buf == "" && d == "\r" + "\n" + rest
    ensures var s' := Emit(s, if s.expected == 0 then Done else Body, OnHeadersComplete);
      && Call(REQUEST, s, d) == Call(REQUEST, s', rest)
      && (Clean(REQUEST, s, d) <==> Clean(REQUEST, s', rest))
  {
    StripCR("");
    assert "" + "\r" == "\r";
    WholeToken(REQUEST, s, "\r", rest, d, Emit(s, if s.expected == 0 then Done else Body, OnHeadersComplete));
  }

  lemma LengthHeaderOk(req: Request)
    ensures HeaderOk("Content-Length", Dec(|req.body|))
  {
    var d := Dec(|req.body|);
    assert IsDigit(d[0]) && IsDigit(d[|d| - 1]);
    assert '\n' !in d by { assert forall i :: 0 <= i < |d| ==> IsDigit(d[i]); }
  }

  lemma EventsToRequest(req: Request)
    requires Sendable(req)
    ensures Assemble(AfterHead(req).events).(body := req.body) == WithLength(req)
  {
    AllEvents(req, SentHeaders(req));
    SeenHeaders(req);
  }

  lemma AllEvents(req: Request, hs: seq<HeaderPair>)
    ensures Assemble(AfterLine(req).events + HeaderEvents(hs) + [OnHeadersComplete])
         == Request(req.verb, req.uri, req.version, Lowered(hs), "")
  {
    var e3 := AfterLine(req).events;
    LineEvents(req);
    AssembleHeaders(e3, hs);
    AssembleSnoc(e3 + HeaderEvents(hs), OnHeadersComplete);
    assert [] + Lowered(hs) == Lowered(hs);
  }

  lemma LineEvents(req: Request)
    ensures Assemble(AfterLine(req).events) == Request(req.verb, req.uri, req.version, [], "")
  {
    var e1 := [OnMethod(req.verb)];
    AssembleSnoc([], OnMethod(req.verb));
    assert [] + e1 == e1;
    AssembleSnoc(e1, OnUri(req.uri));
    AssembleSnoc(e1 + [OnUri(req.uri)], OnVersion(req.version));
  }

  lemma LoweredMore(hs: seq<HeaderPair>, key: string, val: string, low: string)
    requires forall i :: 0 <= i < |hs| ==> LowerAll(hs[i].0) == hs[i].0
    requires low == LowerAll(key)
    ensures Lowered(hs) == hs && Lowered(hs + [(key, val)]) == hs + [(low, val)]
  {
  }

  lemma SeenHeaders(req: Request)
    requires Sendable(req)
    ensures Lowered(SentHeaders(req)) == WithLength(req).headers
  {
    LengthKey();
    LoweredMore(req.headers, "Content-Length", Dec(|req.body|), "content-length");
    assert req.headers + [] == req.headers;
  }

  lemma LengthKey()
    ensures LowerAll("Content-Length") == "content-length"
  {
    var s := LowerAll("Content-Length");
    assert |s| == |"content-length"|;
  }

  /** Parsing a generated request returns it, with the length header that the
      generator adds when the body needs one. */
  lemma RequestRoundTrip(req: Request)
    requires Sendable(req)
    ensures ParseRequest(Generated(req)) == Some(WithLength(req))
  {
    GeneratedLayout(req);
    HeadBack(req, req.body);
    EventsToRequest(req);
    assert "" + req.body == req.body;
  }

  /** A generated request can be cut anywhere exactly when its tokens are within
      the limits, and then every cut returns the request. */
  lemma RequestInPieces(req: Request)
    requires Sendable(req)
    ensures SplitInsensitive(REQUEST, Generated(req)) <==> Fits(req)
    ensures Fits(req) ==> forall chunks :: Flatten(chunks) == Generated(req) ==>
      Finish(Run(REQUEST, Running(Fresh(REQUEST)), chunks)) == Some(WithLength(req))
  {
    GeneratedLayout(req);
    HeadBack(req, req.body);
    SplitsDoNotMatterIff(REQUEST, Generated(req));
    RequestRoundTrip(req);
  }

  /** Bytes after the announced body: with a body, some cut is rejected and some
      cut is not; without one, every cut is rejected alike. */
  lemma TrailingBytes(req: Request, extra: string)
    requires Sendable(req) && extra != ""
    ensures SplitInsensitive(REQUEST, Generated(req) + extra) <==> Fits(req) && req.body == ""
  {
    GeneratedLayout(req);
    Assoc(Head(req), req.body, extra);
    HeadBack(req, req.body + extra);
    SplitsDoNotMatterIff(REQUEST, Head(req) + (req.body + extra));
  }

  /** One byte announced, two sent: a concrete input whose cuts disagree. */
  lemma OverrunExample()
    ensures !SplitInsensitive(REQUEST, Generated(Request(POST, "/", "HTTP/1.1", [], "a")) + "b")
  {
    var req := Request(POST, "/", "HTTP/1.1", [], "a");
    LengthHeaderOk(req);
    StoulDec(1);
    var hs := SentHeaders(req);
    assert hs == [("Content-Length", Dec(1))] && hs[1..] == [];
    assert LowerAll("Content-Length") == "content-length";
    TrailingBytes(req, "b");
  }
}
