/** Responses: what `src/stx/http/httpparser.cc` makes of the plain text of one, and when
    a message that ends early is refused. */
module HttpResponse {
  import opened Text
  import opened HttpParser
  import opened HttpRequest

  const RESPONSE := Config(ResponseMode, true)

  /** The largest `size_t`. */
  const FOREVER: nat := 18446744073709551615

  // ----------------------------------------------------------------- the version

  /** `strncasecmp` with the length of the version: a beginning of "HTTP/1.0" in any case,
      or all of it before a NUL. */
  predicate Http10(v: string) {
    var n := Find(v, '\0');
    if n == |v| then n <= 8 && LowerAll(v) == "http/1.0"[..n] else LowerAll(v[..n]) == "http/1.0"
  }

  lemma {:induction false} PrefixCompared(v: string, lit: string)
    requires '\0' !in lit && '\0' !in LowerAll(lit)
    ensures var n := Find(v, '\0');
      StrNCaseEq(v, lit) <==>
        if n == |v| then n <= |lit| && LowerAll(v) == LowerAll(lit)[..n] else LowerAll(v[..n]) == LowerAll(lit)
    decreases |v|
  {
    var n := Find(v, '\0');
    if v != "" && lit != "" {
      assert LowerAll(lit[1..]) == LowerAll(lit)[1..];
      if v[0] != '\0' {
        PrefixCompared(v[1..], lit[1..]);
        ComparedTails(v, lit, n);
      } else {
        assert LowerAll(lit)[0] == Lower(lit[0]) && v[..n] == "";
      }
    }
  }

  lemma ComparedTails(v: string, lit: string, n: nat)
    requires v != "" && lit != "" && 0 < n <= |v|
    ensures LowerAll(v[..n]) == LowerAll(lit) <==>
      Lower(v[0]) == Lower(lit[0]) && LowerAll(v[1..][..n - 1]) == LowerAll(lit[1..])
    ensures n == |v| <= |lit| ==> (LowerAll(v) == LowerAll(lit)[..n] <==>
      Lower(v[0]) == Lower(lit[0]) && LowerAll(v[1..]) == LowerAll(lit[1..])[..n - 1])
  {
    HeadAndTail(v[..n]);
    HeadAndTail(lit);
    HeadAndTail(v);
    assert v[..n][1..] == v[1..][..n - 1];
    if n == |v| <= |lit| {
      assert LowerAll(lit)[..n] == [Lower(lit[0])] + LowerAll(lit[1..])[..n - 1];
    }
  }

  lemma HeadAndTail(s: string)
    requires s != ""
    ensures LowerAll(s) == [Lower(s[0])] + LowerAll(s[1..])
  {
  }

  lemma Http10Compared(v: string)
    ensures StrNCaseEq(v, "HTTP/1.0") <==> Http10(v)
  {
    var lit := "HTTP/1.0";
    assert LowerAll(lit) == "http/1.0";
    PrefixCompared(v, lit);
    if Find(v, '\0') == |v| { assert v[..|v|] == v; }
  }

  // ----------------------------------------------------------------- the headers

  /** The body size after the headers: of a content length and a connection header that
      says close, the last one counts.  `None` is a length that is no number. */
  function Announced(e: nat, hs: seq<HeaderPair>): Option<nat>
    decreases |hs|
  {
    if hs == [] then Some(e) else
      var name := LowerAll(hs[0].0);
      if name == "content-length" then
        match Stoul(hs[0].1)
        case None => None
        case Some(n) => Announced(n, hs[1..])
      else if name == "connection" && LowerAll(hs[0].1) == "close" then Announced(FOREVER, hs[1..])
      else Announced(e, hs[1..])
  }

  function AfterResponseHeaders(s: State, hs: seq<HeaderPair>): State
    requires Announced(s.expected, hs).Some?
  {
    s.(events := s.events + HeaderEvents(hs), expected := Announced(s.expected, hs).value)
  }

  lemma FirstHeader(s: State, hs: seq<HeaderPair>)
    requires hs != [] && s.phase == Header && s.buf == "" && Announced(s.expected, hs).Some?
    ensures var r := ProcessHeader(RESPONSE, s, hs[0].0, hs[0].1);
      && r.Some? && r.value.phase == Header && r.value.buf == ""
      && Announced(r.value.expected, hs[1..]).Some?
      && AfterResponseHeaders(r.value, hs[1..]) == AfterResponseHeaders(s, hs)
  {
    NamesDiffer();
    Assoc(s.events, [OnHeader(hs[0].0, hs[0].1)], HeaderEvents(hs[1..]));
    assert HeaderEvents(hs) == [OnHeader(hs[0].0, hs[0].1)] + HeaderEvents(hs[1..]);
  }

  lemma NamesDiffer()
    ensures "content-length" != "connection"
  {
    assert |"content-length"| != |"connection"|;
  }

  lemma HeaderTaken(s: State, h: HeaderPair, tok: string)
    requires s.phase == Header && HeaderOk(h.0, h.1) && tok == h.0 + ": " + h.1 + "\r"
    ensures Accept(RESPONSE, s, tok) == ProcessHeader(RESPONSE, s, h.0, h.1)
  {
    var line := h.0 + ": " + h.1;
    StripCR(line);
    HeaderLineCut(h.0, h.1, line);
  }

  lemma {:induction false} ResponseHeaders(s: State, hs: seq<HeaderPair>, rest: string, d: string)
    requires s.phase == Header && s.buf == "" && d == Lines(hs) + rest
    requires forall i :: 0 <= i < |hs| ==> HeaderOk(hs[i].0, hs[i].1)
    requires Announced(s.expected, hs).Some?
    ensures Call(RESPONSE, s, d) == Call(RESPONSE, AfterResponseHeaders(s, hs), rest)
    decreases |hs|
  {
    if hs == [] {
      assert d == rest && s.events + HeaderEvents(hs) == s.events;
    } else {
      var h := hs[0];
      var tok := h.0 + ": " + h.1 + "\r";
      var d1 := Lines(hs[1..]) + rest;
      HeaderTaken(s, h, tok);
      FirstHeader(s, hs);
      HeaderCut(h, Lines(hs[1..]), rest);
      OneToken(s, tok, d1, d);
      ResponseHeaders(ProcessHeader(RESPONSE, s, h.0, h.1).value, hs[1..], rest, d1);
    }
  }

  lemma OneToken(s: State, tok: string, rest: string, d: string)
    requires InToken(s.phase) && s.buf == "" && Delim(s.phase) !in tok && d == tok + [Delim(s.phase)] + rest
    ensures Accept(RESPONSE, s, tok).Some? ==>
      Call(RESPONSE, s, d) == Call(RESPONSE, Accept(RESPONSE, s, tok).value, rest)
  {
    TokenStep(RESPONSE, s, tok, rest, d);
    assert "" + tok == tok;
  }

  // ------------------------------------------------------------- the whole head

  datatype Response = Response(version: string, code: int, name: string, headers: seq<HeaderPair>)

  /** Any version without a blank, any `int`, any name on one line, and headers. */
  predicate Plain(r: Response) {
    ' ' !in r.version && -TWO31 <= r.code < TWO31
    && '\n' !in r.name && (r.name != "" ==> r.name[|r.name| - 1] != '\r')
    && (forall i :: 0 <= i < |r.headers| ==> HeaderOk(r.headers[i].0, r.headers[i].1))
    && Expected(r).Some?
  }

  /** Until the connection closes for HTTP/1.0, nothing otherwise, unless headers say
      something else. */
  function Expected(r: Response): Option<nat> { Announced(if Http10(r.version) then FOREVER else 0, r.headers) }

  function ResponseText(r: Response, rest: string): string {
    r.version + " " + (DecInt(r.code) + " " + (r.name + "\r\n" + (Lines(r.headers) + ("\r\n" + rest))))
  }

  /** The callbacks for the head. */
  function HeadEvents(r: Response): seq<Event> {
    [OnVersion(r.version), OnStatusCode(r.code), OnStatusName(r.name)] + HeaderEvents(r.headers)
    + [OnHeadersComplete]
  }

  function AfterResponseHead(r: Response): State
    requires Expected(r).Some?
  {
    State(if Expected(r).value == 0 then Done else Body, "", 0, Expected(r).value, HeadEvents(r), "")
  }

  lemma VersionTaken(r: Response, rest: string, d: string)
    requires Plain(r) && d == r.version + " " + rest
    ensures Call(RESPONSE, Fresh(RESPONSE), d) == Call(RESPONSE, State(ResStatusCode, "", 0,
      if Http10(r.version) then FOREVER else 0, [OnVersion(r.version)], ""), rest)
  {
    Http10Compared(r.version);
    OneToken(Fresh(RESPONSE), r.version, rest, d);
    assert [] + [OnVersion(r.version)] == [OnVersion(r.version)];
  }

  lemma CodeTaken(s: State, code: int, rest: string, d: string)
    requires s.phase == ResStatusCode && s.buf == "" && -TWO31 <= code < TWO31 && d == DecInt(code) + " " + rest
    ensures Call(RESPONSE, s, d)
      == Call(RESPONSE, s.(phase := ResStatusName, events := s.events + [OnStatusCode(code)]), rest)
  {
    StoiDecInt(code);
    DecIntPlain(code);
    OneToken(s, DecInt(code), rest, d);
  }

  lemma DecIntPlain(n: int)
    ensures ' ' !in DecInt(n)
  {
    var d := Dec(if n < 0 then -n else n);
    assert forall i :: 0 <= i < |d| ==> IsDigit(d[i]);
  }

  lemma NameTaken(s: State, name: string, rest: string, d: string)
    requires s.phase == ResStatusName && s.buf == "" && d == name + "\r\n" + rest
    requires '\n' !in name && (name != "" ==> name[|name| - 1] != '\r')
    ensures Call(RESPONSE, s, d)
      == Call(RESPONSE, s.(phase := Header, events := s.events + [OnStatusName(name)]), rest)
  {
    StripCR(name);
    assert d == (name + "\r") + "\n" + rest;
    OneToken(s, name + "\r", rest, d);
  }

  lemma BlankLineTaken(s: State, rest: string, d: string)
    requires s.phase == Header && s.buf == "" && d == "\r\n" + rest
    ensures Call(RESPONSE, s, d) == Call(RESPONSE,
      s.(phase := if s.expected == 0 then Done else Body, events := s.events + [OnHeadersComplete]), rest)
  {
    StripCR("");
    assert "" + "\r" == "\r" && d == "\r" + "\n" + rest;
    OneToken(s, "\r", rest, d);
  }

  /** The plain text of a response takes a fresh parser to its body, with exactly its
      version, code, name and headers as callbacks, and the body size they announce. */
  lemma ResponseHeadBack(r: Response, rest: string)
    requires Plain(r)
    ensures Call(RESPONSE, Fresh(RESPONSE), ResponseText(r, rest)) == Call(RESPONSE, AfterResponseHead(r), rest)
  {
    var e := if Http10(r.version) then FOREVER else 0;
    var d4 := "\r\n" + rest;
    var d3 := Lines(r.headers) + d4;
    var d2 := r.name + "\r\n" + d3;
    var s1 := State(ResStatusCode, "", 0, e, [OnVersion(r.version)], "");
    var s2 := s1.(phase := ResStatusName, events := s1.events + [OnStatusCode(r.code)]);
    var s3 := s2.(phase := Header, events := s2.events + [OnStatusName(r.name)]);
    VersionTaken(r, DecInt(r.code) + " " + d2, ResponseText(r, rest));
    CodeTaken(s1, r.code, d2, DecInt(r.code) + " " + d2);
    NameTaken(s2, r.name, d3, d2);
    ResponseHeaders(s3, r.headers, d4, d3);
    BlankLineTaken(AfterResponseHeaders(s3, r.headers), rest, d4);
    assert s3.events == [OnVersion(r.version), OnStatusCode(r.code), OnStatusName(r.name)];
  }

  /** `HTTPResponse::parse` of the whole text: refused exactly when the body is shorter than
      announced; otherwise done, with the text behind the head as body. */
  lemma ResponseParsed(r: Response, body: string)
    requires Plain(r)
    ensures var o := Eof(Call(RESPONSE, Fresh(RESPONSE), ResponseText(r, body)));
      if Expected(r).value != FOREVER && |body| < Expected(r).value then o == Failed(HeadEvents(r), body)
      else o.Running? && o.state.phase == Done && o.state.events == HeadEvents(r) && o.state.body == body
  {
    ResponseHeadBack(r, body);
    assert "" + body == body;
  }

  /** Neither HTTP/1.0 nor a header that speaks of the body: there is none. */
  lemma {:induction false} NothingAnnounced(e: nat, hs: seq<HeaderPair>)
    requires forall i :: 0 <= i < |hs| ==>
      LowerAll(hs[i].0) != "content-length" && !(LowerAll(hs[i].0) == "connection" && LowerAll(hs[i].1) == "close")
    ensures Announced(e, hs) == Some(e)
    decreases |hs|
  {
    if hs != [] { NothingAnnounced(e, hs[1..]); }
  }

  /** The last header that speaks of the body decides. */
  lemma {:induction false} LastAnnounced(e: nat, hs: seq<HeaderPair>, h: HeaderPair)
    requires Announced(e, hs).Some?
    ensures LowerAll(h.0) == "content-length" ==> Announced(e, hs + [h]) == Stoul(h.1)
    ensures LowerAll(h.0) == "connection" && LowerAll(h.1) == "close" ==> Announced(e, hs + [h]) == Some(FOREVER)
    decreases |hs|
  {
    if hs == [] {
      assert hs + [h] == [h];
      NamesDiffer();
    } else {
      assert (hs + [h])[1..] == hs[1..] + [h];
      var name := LowerAll(hs[0].0);
      if name == "content-length" {
        LastAnnounced(Stoul(hs[0].1).value, hs[1..], h);
      } else if name == "connection" && LowerAll(hs[0].1) == "close" {
        LastAnnounced(FOREVER, hs[1..], h);
      } else {
        LastAnnounced(e, hs[1..], h);
      }
    }
  }

  // ------------------------------------------------------------- an early end

  /** A generated request that ends before its body does is refused, with the callbacks of
      its head made, unless the announced size is the one that stands for no size. */
  lemma RequestCutShort(req: Request, k: nat)
    requires Sendable(req) && k < |req.body|
    ensures var o := Eof(Call(REQUEST, Fresh(REQUEST), Head(req) + req.body[..k]));
      if |req.body| != FOREVER then o == Failed(AfterHead(req).events, req.body[..k])
      else o.Running? && o.state.phase == Done && o.state.body == req.body[..k]
  {
    HeadBack(req, req.body[..k]);
    assert "" + req.body[..k] == req.body[..k];
  }
}
