/** The incremental HTTP/1.x message parser of `src/stx/http/httpparser.cc`.

    `Call` says what one `parse(data)` does, byte by byte; the class `HTTPParser`
    works in place and token by token, and is proved to compute it.  Callbacks are
    modelled by the log of their calls; body callbacks are concatenated. */
module HttpParser {
  import opened Text

  datatype Mode = RequestMode | ResponseMode

  datatype Phase =
    | ReqMethod | ReqUri | ReqVersion
    | ResVersion | ResStatusCode | ResStatusName
    | Header | Body | Done

  datatype Method = CONNECT | DELETE | GET | HEAD | OPTIONS | POST | PUT | TRACE

  datatype Event =
    | OnMethod(verb: Method)
    | OnUri(uri: string)
    | OnVersion(version: string)
    | OnStatusCode(code: int)
    | OnStatusName(name: string)
    | OnHeader(key: string, val: string)
    | OnHeadersComplete

  /** `mode_` and `expect_body_`: fixed while a message is parsed. */
  datatype Config = Config(mode: Mode, expectBody: bool)

  /** `read` and `expected` are `body_bytes_read_` and `body_bytes_expected_`. */
  datatype State = State(phase: Phase, buf: string, read: nat, expected: nat,
                         events: seq<Event>, body: string)

  /** What the caller of `parse` sees: a parser that can go on, or an exception
      after the callbacks made so far. */
  datatype Outcome = Running(state: State) | Failed(events: seq<Event>, body: string)

  const MAX_METHOD_SIZE := 16
  const MAX_URI_SIZE := 8192
  const MAX_VERSION_SIZE := 16
  const MAX_HEADER_SIZE := 65535

  /** `size_t(-1)`: the body ends with the connection. */
  const UNTIL_CLOSE: nat := TWO64 - 1

  predicate InToken(p: Phase) { p != Body && p != Done }

  /** The byte that ends the token of a phase. */
  function Delim(p: Phase): char {
    match p
    case ReqMethod | ReqUri | ResVersion | ResStatusCode => ' '
    case _ => '\n'
  }

  function Limit(p: Phase): nat {
    match p
    case ReqMethod => MAX_METHOD_SIZE
    case ReqUri | ResStatusCode => MAX_URI_SIZE
    case Header => MAX_HEADER_SIZE
    case _ => MAX_VERSION_SIZE
  }

  function Fresh(cfg: Config): State {
    State(if cfg.mode == RequestMode then ReqMethod else ResVersion, "", 0, 0, [], "")
  }

  // ----------------------------------------------------------- finishing a token

  function MethodName(m: Method): string {
    match m
    case CONNECT => "CONNECT"
    case DELETE => "DELETE"
    case GET => "GET"
    case HEAD => "HEAD"
    case OPTIONS => "OPTIONS"
    case POST => "POST"
    case PUT => "PUT"
    case TRACE => "TRACE"
  }

  function MethodOf(tok: string): (r: Option<Method>)
    ensures r.Some? ==> MethodName(r.value) == tok
    ensures r.None? ==> forall m :: MethodName(m) != tok
  {
    if tok == "CONNECT" then Some(CONNECT)
    else if tok == "DELETE" then Some(DELETE)
    else if tok == "GET" then Some(GET)
    else if tok == "HEAD" then Some(HEAD)
    else if tok == "OPTIONS" then Some(OPTIONS)
    else if tok == "POST" then Some(POST)
    else if tok == "PUT" then Some(PUT)
    else if tok == "TRACE" then Some(TRACE)
    else None
  }

  /** `strncasecmp(s, lit, s.size()) == 0`: a proper prefix of `lit` matches too,
      and a NUL in `s` at the end of `lit` stops the comparison. */
  predicate StrNCaseEq(s: string, lit: string) {
    s == "" ||
    if lit == "" then s[0] == '\0'
    else Lower(s[0]) == Lower(lit[0]) && (s[0] == '\0' || StrNCaseEq(s[1..], lit[1..]))
  }

  function Emit(s: State, p: Phase, e: Event): State {
    s.(phase := p, buf := "", events := s.events + [e])
  }

  function ProcessHeader(cfg: Config, s: State, key: string, val: string): (r: Option<State>)
    ensures r.Some? ==>
      exists n: nat :: r.value == Emit(s, Header, OnHeader(key, val)).(expected := n)
  {
    var lengthHeader := cfg.expectBody && LowerAll(key) == "content-length";
    if lengthHeader && Stoul(val).None? then None else
      var e1 := if lengthHeader then Stoul(val).value else s.expected;
      var e2 := if cfg.mode == ResponseMode && cfg.expectBody
                   && LowerAll(key) == "connection" && LowerAll(val) == "close"
                then UNTIL_CLOSE else e1;
      Some(Emit(s, Header, OnHeader(key, val)).(expected := e2))
  }

  /** The raw token `tok` of the current phase is complete; `None` is a parse error. */
  function Accept(cfg: Config, s: State, tok: string): (r: Option<State>)
    requires InToken(s.phase)
    ensures r.Some? ==>
      && |r.value.events| == |s.events| + 1 && s.events <= r.value.events
      && r.value.buf == "" && r.value.read == s.read && r.value.body == s.body
      && r.value.phase != ReqMethod && r.value.phase != ResVersion
      && (r.value.phase == Body ==> r.value.expected > 0)
  {
    match s.phase
    case ReqMethod =>
      (match MethodOf(tok)
       case Some(m) => Some(Emit(s, ReqUri, OnMethod(m)))
       case None => None)
    case ReqUri => Some(Emit(s, ReqVersion, OnUri(tok)))
    case ReqVersion => Some(Emit(s, Header, OnVersion(StripTrailing(tok, '\r'))))
    case ResVersion =>
      var s' := if StrNCaseEq(tok, "HTTP/1.0") then s.(expected := UNTIL_CLOSE) else s;
      Some(Emit(s', ResStatusCode, OnVersion(tok)))
    case ResStatusCode =>
      (match Stoi(tok)
       case Some(n) => Some(Emit(s, ResStatusName, OnStatusCode(n)))
       case None => None)
    case ResStatusName => Some(Emit(s, Header, OnStatusName(StripTrailing(tok, '\r'))))
    case Header =>
      var line := StripTrailing(tok, '\r');
      if line == "" then
        Some(Emit(s, if s.expected == 0 then Done else Body, OnHeadersComplete))
      else
        var colon := Find(line, ':');
        if colon == |line| then None
        else ProcessHeader(cfg, s, line[..colon], SkipSpaces(line[colon + 1..]))
  }

  // ------------------------------------------------------------------- one call

  /** `readBody` with everything that is left of the input. */
  function BodyStep(cfg: Config, s: State, data: string): Outcome
    requires !InToken(s.phase)
  {
    if s.phase == Done && cfg.mode == RequestMode then Failed(s.events, s.body)
    else
      var read := s.read + |data|;
      Running(s.(phase := if read == s.expected then Done else s.phase,
                 read := read, body := s.body + data))
  }

  function CheckLimit(s: State): Outcome {
    if InToken(s.phase) && |s.buf| > Limit(s.phase) then Failed(s.events, s.body)
    else Running(s)
  }

  /** One byte inside a token; no limit is looked at here. */
  function ByteStep(cfg: Config, s: State, c: char): Option<State>
    requires InToken(s.phase)
  {
    if c == Delim(s.phase) then Accept(cfg, s, s.buf) else Some(s.(buf := s.buf + [c]))
  }

  /** One call of `parse`: tokens byte by byte, then the rest as one body chunk;
      the size limit is only compared with a token the call leaves unfinished. */
  function Call(cfg: Config, s: State, data: string): Outcome
    decreases |data|
  {
    if data == "" then CheckLimit(s)
    else if !InToken(s.phase) then BodyStep(cfg, s, data)
    else match ByteStep(cfg, s, data[0])
      case None => Failed(s.events, s.body)
      case Some(s') => Call(cfg, s', data[1..])
  }

  /** A stretch without the delimiter only fills the buffer. */
  lemma {:induction false} CallStretch(cfg: Config, s: State, run: string, rest: string)
    requires InToken(s.phase) && Delim(s.phase) !in run
    ensures Call(cfg, s, run + rest) == Call(cfg, s.(buf := s.buf + run), rest)
    decreases |run|
  {
    if run == "" {
      assert run + rest == rest && s.buf + run == s.buf;
    } else {
      var s' := s.(buf := s.buf + [run[0]]);
      assert (run + rest)[1..] == run[1..] + rest;
      assert s'.buf + run[1..] == s.buf + run;
      CallStretch(cfg, s', run[1..], rest);
    }
  }

  function Eof(o: Outcome): Outcome {
    match o
    case Failed(_, _) => o
    case Running(s) =>
      if s.phase == Done then o
      else if s.expected != UNTIL_CLOSE && s.read < s.expected then Failed(s.events, s.body)
      else Running(s.(phase := Done))
  }

  // ------------------------------------------------------------ the parser object

  /** `BufferUtil::stripTrailingBytes`. */
  method StripTrailingBytes(buf: string, byte: char) returns (r: string)
    ensures r == StripTrailing(buf, byte)
  {
    var cur := |buf|;
    while cur > 0 && buf[cur - 1] == byte
      invariant 0 <= cur <= |buf|
      invariant StripTrailing(buf[..cur], byte) == StripTrailing(buf, byte)
    {
      assert buf[..cur][..cur - 1] == buf[..cur - 1];
      cur := cur - 1;
    }
    r := buf[..cur];
  }

  /** Cuts a header line at its first colon and skips the blanks after it. */
  method SplitHeader(line: string) returns (r: Option<(string, string)>)
    ensures r == if Find(line, ':') == |line| then None
                 else Some((line[..Find(line, ':')], SkipSpaces(line[Find(line, ':') + 1..])))
  {
    var n := 0;
    while n < |line| && line[n] != ':'
      invariant n <= |line| && ':' !in line[..n]
    {
      n := n + 1;
    }
    FindUnique(line, ':', n);
    if n == |line| { return None; }
    var hval := n + 1;
    while hval < |line| && line[hval] == ' '
      invariant n < hval <= |line|
      invariant SkipSpaces(line[hval..]) == SkipSpaces(line[n + 1..])
    {
      assert line[hval..][1..] == line[hval + 1..];
      hval := hval + 1;
    }
    return Some((line[..n], line[hval..]));
  }

  class HTTPParser {
    const mode: Mode
    var phase: Phase
    var buf: string
    var bodyBytesRead: nat
    var bodyBytesExpected: nat
    var expectBody: bool
    var events: seq<Event>  // the callbacks made so far, in order
    var body: string        // everything passed to the body callback

    ghost predicate Valid() reads this {
      InToken(phase) ==> |buf| <= Limit(phase)
    }

    ghost function Cfg(): Config reads this { Config(mode, expectBody) }

    ghost function View(): State reads this {
      State(phase, buf, bodyBytesRead, bodyBytesExpected, events, body)
    }

    ghost function Seen(ok: bool): Outcome reads this {
      if ok then Running(View()) else Failed(events, body)
    }

    constructor (mode: Mode)
      ensures Valid() && Cfg() == Config(mode, true) && View() == Fresh(Cfg())
    {
      this.mode := mode;
      phase := if mode == RequestMode then ReqMethod else ResVersion;
      buf, bodyBytesRead, bodyBytesExpected, expectBody := "", 0, 0, true;
      events, body := [], "";
    }

    /** `reset`, for the next message on the connection. */
    method Reset()
      modifies this
      ensures Valid() && Cfg() == Config(mode, true)
      ensures View() == Fresh(Cfg()).(events := old(events), body := old(body))
    {
      phase := if mode == RequestMode then ReqMethod else ResVersion;
      buf, bodyBytesRead, bodyBytesExpected, expectBody := "", 0, 0, true;
    }

    method IgnoreBody()
      modifies `expectBody
      ensures !expectBody
    {
      expectBody := false;
    }

    /** `readUntil`: moves bytes before the next `search` into the buffer. */
    method ReadUntil(data: string, begin: nat, search: char) returns (cur: nat, found: bool)
      requires begin <= |data|
      modifies `buf
      ensures begin <= cur <= |data| && search !in data[begin..cur]
      ensures buf == old(buf) + data[begin..cur]
      ensures found <==> cur < |data|
      ensures found ==> data[cur] == search
    {
      cur := begin;
      while cur < |data| && data[cur] != search
        invariant begin <= cur <= |data| && search !in data[begin..cur]
      {
        cur := cur + 1;
      }
      buf := buf + data[begin..cur];
      found := cur != |data|;
    }

    method ProcessHeaderLine(key: string, val: string) returns (ok: bool)
      requires phase == Header
      modifies this
      ensures Cfg() == old(Cfg())
      ensures ok == ProcessHeader(old(Cfg()), old(View()), key, val).Some?
      ensures ok ==> View() == ProcessHeader(old(Cfg()), old(View()), key, val).value
      ensures !ok ==> events == old(events) && body == old(body)
    {
      if expectBody && LowerAll(key) == "content-length" {
        match Stoul(val) {
          case None => return false;
          case Some(n) => bodyBytesExpected := n;
        }
      }
      if mode == ResponseMode && expectBody && LowerAll(key) == "connection" && LowerAll(val) == "close" {
        bodyBytesExpected := UNTIL_CLOSE;
      }
      events := events + [OnHeader(key, val)];
      buf := "";
      ok := true;
    }

    /** What the seven `parse*` methods do once their token is complete. */
    method FinishToken() returns (ok: bool)
      requires InToken(phase)
      modifies this
      ensures Cfg() == old(Cfg())
      ensures ok == Accept(old(Cfg()), old(View()), old(buf)).Some?
      ensures ok ==> View() == Accept(old(Cfg()), old(View()), old(buf)).value
      ensures !ok ==> events == old(events) && body == old(body)
    {
      var tok := buf;
      ok := true;
      match phase {
        case ReqMethod => {
          phase := ReqUri;
          match MethodOf(tok) {
            case None => return false;
            case Some(m) => events := events + [OnMethod(m)];
          }
        }
        case ReqUri =>
          events, phase := events + [OnUri(tok)], ReqVersion;
        case ReqVersion =>
          var v := StripTrailingBytes(tok, '\r');
          events, phase := events + [OnVersion(v)], Header;
        case ResVersion =>
          if StrNCaseEq(tok, "HTTP/1.0") { bodyBytesExpected := UNTIL_CLOSE; }
          events, phase := events + [OnVersion(tok)], ResStatusCode;
        case ResStatusCode => {
          match Stoi(tok) {
            case None => return false;
            case Some(n) => events, phase := events + [OnStatusCode(n)], ResStatusName;
          }
        }
        case ResStatusName =>
          var v := StripTrailingBytes(tok, '\r');
          events, phase := events + [OnStatusName(v)], Header;
        case Header =>
          var line := StripTrailingBytes(tok, '\r');
          if line != "" {
            var kv := SplitHeader(line);
            match kv {
              case None => return false;
              case Some((key, val)) => ok := ProcessHeaderLine(key, val);
            }
          } else {
            phase := if bodyBytesExpected == 0 then Done else Body;
            events := events + [OnHeadersComplete];
          }
      }
      buf := "";
    }

    /** One token, or the part of it that the input holds. */
    method ParseToken(data: string, begin: nat) returns (next: nat, ok: bool)
      requires InToken(phase) && begin < |data|
      modifies this
      ensures begin < next <= |data| && Cfg() == old(Cfg())
      ensures ok ==> Valid()
      ensures ok ==> Call(Cfg(), View(), data[next..]) == Call(old(Cfg()), old(View()), data[begin..])
      ensures !ok ==> Call(old(Cfg()), old(View()), data[begin..]) == Failed(events, body)
    {
      var delim := Delim(phase);
      var cur, found := ReadUntil(data, begin, delim);
      assert data[begin..] == data[begin..cur] + data[cur..];
      CallStretch(Cfg(), old(View()), data[begin..cur], data[cur..]);
      if found {
        assert data[cur..][1..] == data[cur + 1..];
        next := cur + 1;
        ok := FinishToken();
      } else {
        assert data[cur..] == "";
        next := cur;
        ok := |buf| <= Limit(phase);
      }
    }

    method ReadBody(data: string, begin: nat) returns (next: nat)
      requires begin < |data| && !InToken(phase)
      modifies this
      ensures next == |data| && Cfg() == old(Cfg()) && Valid()
      ensures View() == old(View()).(
        phase := if old(bodyBytesRead) + |data[begin..]| == old(bodyBytesExpected) then Done else old(phase),
        read := old(bodyBytesRead) + |data[begin..]|, body := old(body) + data[begin..])
    {
      bodyBytesRead := bodyBytesRead + |data[begin..]|;
      if bodyBytesRead == bodyBytesExpected { phase := Done; }
      body := body + data[begin..];
      next := |data|;
    }

    /** `parse`; `ok` is false where the source raises. */
    method Parse(data: string) returns (ok: bool)
      requires Valid()
      modifies this
      ensures ok ==> Valid() && Cfg() == old(Cfg())
      ensures Seen(ok) == Call(old(Cfg()), old(View()), data)
    {
      var begin := 0;
      ok := true;
      assert data[0..] == data;
      while begin < |data|
        invariant begin <= |data| && Valid() && Cfg() == old(Cfg())
        invariant Call(Cfg(), View(), data[begin..]) == Call(old(Cfg()), old(View()), data)
      {
        if InToken(phase) {
          begin, ok := ParseToken(data, begin);
          if !ok { return; }
        } else if phase == Done && mode == RequestMode {
          return false;
        } else {
          begin := ReadBody(data, begin);
        }
      }
      assert data[begin..] == "";
    }

    /** `eof`. */
    method ParseEof() returns (ok: bool)
      modifies `phase
      ensures Seen(ok) == Eof(Running(old(View())))
    {
      ok := true;
      if phase != Done {
        if bodyBytesExpected != UNTIL_CLOSE && bodyBytesRead < bodyBytesExpected {
          ok := false;
        } else {
          phase := Done;
        }
      }
    }
  }
}
