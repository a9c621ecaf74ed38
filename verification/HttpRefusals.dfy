/** What the parser of `src/stx/http/httpparser.cc` refuses and what it lets pass: sizes,
    methods, header lines however they are spaced, and inputs that end early or late. */
module HttpRefusals {
  import opened Text
  import opened HttpParser
  import opened HttpSplits
  import opened HttpRequest
  import opened HttpResponse

  // ------------------------------------------------------------------- sizes

  /** The longest token that a call may leave unfinished. */
  function Longest(p: Phase): nat
    requires InToken(p)
  {
    if p.ReqUri? || p.ResStatusCode? then 8192 else if p.Header? then 65535 else 16
  }

  /** A stretch that does not end the token is kept, or refused if the token is too long. */
  lemma Unfinished(cfg: Config, s: State, t: string)
    requires InToken(s.phase) && Delim(s.phase) !in t
    ensures Call(cfg, s, t) == if |s.buf| + |t| > Longest(s.phase) then Failed(s.events, s.body)
                               else Running(s.(buf := s.buf + t))
  {
    assert t + "" == t;
    CallStretch(cfg, s, t, "");
  }

  // ------------------------------------------------------------------ methods

  /** The token of a method. */
  predicate Names(tok: string, m: Method) {
    (tok == "CONNECT" && m.CONNECT?) || (tok == "DELETE" && m.DELETE?) || (tok == "GET" && m.GET?)
    || (tok == "HEAD" && m.HEAD?) || (tok == "OPTIONS" && m.OPTIONS?) || (tok == "POST" && m.POST?)
    || (tok == "PUT" && m.PUT?) || (tok == "TRACE" && m.TRACE?)
  }

  /** A request begins with one of eight words, in upper case, or is refused. */
  lemma MethodTaken(tok: string, rest: string, d: string)
    requires ' ' !in tok && d == tok + " " + rest
    ensures forall m :: Names(tok, m) ==>
      Call(REQUEST, Fresh(REQUEST), d) == Call(REQUEST, State(ReqUri, "", 0, 0, [OnMethod(m)], ""), rest)
    ensures (forall m :: !Names(tok, m)) ==> Call(REQUEST, Fresh(REQUEST), d) == Failed([], "")
  {
    TokenStep(REQUEST, Fresh(REQUEST), tok, rest, d);
    assert "" + tok == tok;
    forall m | Names(tok, m) ensures MethodOf(tok) == Some(m) { }
    if MethodOf(tok).Some? {
      assert Names(tok, MethodOf(tok).value);
      assert [] + [OnMethod(MethodOf(tok).value)] == [OnMethod(MethodOf(tok).value)];
    }
  }

  // --------------------------------------------------------------- header lines

  predicate Only(s: string, c: char) { forall i :: 0 <= i < |s| ==> s[i] == c }

  lemma {:induction false} StripOnly(t: string, crs: string)
    requires Only(crs, '\r') && (t == "" || t[|t| - 1] != '\r')
    ensures StripTrailing(t + crs, '\r') == t
    decreases |crs|
  {
    if crs == "" {
      assert t + crs == t;
    } else {
      var n := |crs| - 1;
      assert (t + crs)[..|t + crs| - 1] == t + crs[..n];
      StripOnly(t, crs[..n]);
    }
  }

  lemma {:induction false} SkipOnly(blanks: string, v: string)
    requires Only(blanks, ' ') && (v == "" || v[0] != ' ')
    ensures SkipSpaces(blanks + v) == v
    decreases |blanks|
  {
    if blanks == "" {
      assert blanks + v == v;
    } else {
      assert (blanks + v)[1..] == blanks[1..] + v;
      SkipOnly(blanks[1..], v);
    }
  }

  /** A name without a colon and a value that begins with no blank and ends with no carriage
      return, on one line. */
  predicate Spelled(k: string, v: string) {
    ':' !in k && '\n' !in k && '\n' !in v && (v != "" ==> v[0] != ' ' && v[|v| - 1] != '\r')
  }

  /** What a header does to the expected size; `None` if it is refused. */
  function Sized(cfg: Config, e: nat, k: string, v: string): Option<nat> {
    if !cfg.expectBody then Some(e)
    else if LowerAll(k) == "content-length" then Stoul(v)
    else if cfg.mode.ResponseMode? && LowerAll(k) == "connection" && LowerAll(v) == "close" then Some(FOREVER)
    else Some(e)
  }

  lemma HeaderParts(k: string, blanks: string, v: string, line: string)
    requires Spelled(k, v) && Only(blanks, ' ') && line == k + ":" + (blanks + v)
    ensures Find(line, ':') == |k| < |line| && line[..|k|] == k && SkipSpaces(line[|k| + 1..]) == v
    ensures line[|line| - 1] != '\r' && '\n' !in line
  {
    FindSplit(k, ':', blanks + v);
    HeaderCutAt(k, blanks + v, line);
    SkipOnly(blanks, v);
    HeaderEnd(k, blanks, v, line);
  }

  lemma HeaderCutAt(k: string, t: string, line: string)
    requires line == k + ":" + t
    ensures |k| < |line| && line[..|k|] == k && line[|k| + 1..] == t
  {
  }

  lemma HeaderEnd(k: string, blanks: string, v: string, line: string)
    requires Spelled(k, v) && Only(blanks, ' ') && line == k + ":" + (blanks + v)
    ensures line[|line| - 1] != '\r' && '\n' !in line
  {
    var t := blanks + v;
    assert line[|line| - 1] == if t == "" then ':' else t[|t| - 1];
    assert t != "" ==> t[|t| - 1] == if v == "" then blanks[|blanks| - 1] else v[|v| - 1];
    assert '\n' !in blanks;
  }

  lemma HeaderProcessed(cfg: Config, s: State, k: string, v: string)
    requires s.phase == Header && s.buf == ""
    ensures ProcessHeader(cfg, s, k, v) ==
      match Sized(cfg, s.expected, k, v)
      case None => None
      case Some(n) => Some(s.(events := s.events + [OnHeader(k, v)], expected := n))
  {
    NamesDiffer();
  }

  /** A header line with any number of blanks after its colon and of carriage returns at its
      end.  A connection header counts in responses only, and neither it nor a content length
      does where no body is expected. */
  lemma HeaderLine(cfg: Config, s: State, k: string, blanks: string, v: string, crs: string, rest: string, d: string)
    requires s.phase == Header && s.buf == ""
    requires Spelled(k, v) && Only(blanks, ' ') && Only(crs, '\r')
    requires d == (k + ":" + (blanks + v)) + crs + "\n" + rest
    ensures Call(cfg, s, d) ==
      match Sized(cfg, s.expected, k, v)
      case None => Failed(s.events, s.body)
      case Some(n) => Call(cfg, s.(events := s.events + [OnHeader(k, v)], expected := n), rest)
  {
    var line := k + ":" + (blanks + v);
    HeaderParts(k, blanks, v, line);
    HeaderAccepted(cfg, s, k, blanks, v, line, crs);
    HeaderProcessed(cfg, s, k, v);
    NoNewline(line, crs);
    TokenStep(cfg, s, line + crs, rest, d);
    assert "" + (line + crs) == line + crs;
  }

  lemma HeaderAccepted(cfg: Config, s: State, k: string, blanks: string, v: string, line: string, crs: string)
    requires s.phase == Header && Only(crs, '\r')
    requires Spelled(k, v) && Only(blanks, ' ') && line == k + ":" + (blanks + v)
    ensures Accept(cfg, s, line + crs) == ProcessHeader(cfg, s, k, v)
  {
    HeaderParts(k, blanks, v, line);
    StripOnly(line, crs);
    LineAccepted(cfg, s, line + crs, line, k, v);
  }

  lemma LineAccepted(cfg: Config, s: State, tok: string, line: string, k: string, v: string)
    requires s.phase == Header && StripTrailing(tok, '\r') == line && Find(line, ':') == |k| < |line|
    requires line[..|k|] == k && SkipSpaces(line[|k| + 1..]) == v
    ensures Accept(cfg, s, tok) == ProcessHeader(cfg, s, k, v)
  {
  }

  lemma NoNewline(line: string, crs: string)
    requires '\n' !in line && Only(crs, '\r')
    ensures '\n' !in line + crs
  {
  }

  /** A line without a colon is refused, a line of nothing but carriage returns ends the head. */
  lemma OtherLine(cfg: Config, s: State, line: string, crs: string, rest: string, d: string)
    requires s.phase == Header && s.buf == "" && d == line + crs + "\n" + rest && Only(crs, '\r')
    requires ':' !in line && '\n' !in line && (line != "" ==> line[|line| - 1] != '\r')
    ensures Call(cfg, s, d) ==
      if line != "" then Failed(s.events, s.body)
      else Call(cfg, s.(phase := if s.expected == 0 then Done else Body, events := s.events + [OnHeadersComplete]),
                rest)
  {
    StripOnly(line, crs);
    NoNewline(line, crs);
    FindUnique(line, ':', |line|);
    TokenStep(cfg, s, line + crs, rest, d);
    assert "" + (line + crs) == line + crs;
  }

  /** A status code that `stoi` does not take is refused. */
  lemma CodeRefused(s: State, tok: string, rest: string, d: string)
    requires s.phase == ResStatusCode && s.buf == "" && ' ' !in tok && d == tok + " " + rest && Stoi(tok) == None
    ensures Call(RESPONSE, s, d) == Failed(s.events, s.body)
  {
    TokenStep(RESPONSE, s, tok, rest, d);
    assert "" + tok == tok;
  }

  // ------------------------------------------------------------- ends of the input

  /** Bytes behind a request without a body are refused. */
  lemma NothingBehind(req: Request, extra: string)
    requires Sendable(req) && req.body == "" && extra != ""
    ensures Call(REQUEST, Fresh(REQUEST), Head(req) + extra) == Failed(AfterHead(req).events, "")
  {
    HeadBack(req, extra);
  }

  /** The end of the input ends a message even within its head, as long as no length was
      announced: a request line alone is a request, and so is nothing at all. */
  lemma LineAlone(req: Request)
    requires Sendable(req)
    ensures ParseRequest(MethodName(req.verb) + " " + (req.uri + " " + (req.version + "\r" + "\n" + "")))
      == Some(Request(req.verb, req.uri, req.version, [], ""))
    ensures ParseRequest("") == Some(Request(GET, "", "", [], ""))
  {
    LineBack(req, "", MethodName(req.verb) + " " + (req.uri + " " + (req.version + "\r" + "\n" + "")));
    LineEvents(req);
  }
}
