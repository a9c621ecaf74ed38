/** The tokenizer of `src/stx/json/jsoninputstream.cc`: one byte of lookahead in
    `cur_`, zero at the end of the input. */
module JsonLexer {
  import opened Text
  import opened JsonTypes
  import opened JsonPrinter

  // ------------------------------------------------------------- what it computes

  /** A lexer position is the text `[cur_] + rest`; past the end it is "\0". */
  function Advance(s: string): (r: string)
    requires s != ""
    ensures r != ""
  {
    if |s| > 1 then s[1..] else "\0"
  }

  /** Shrinks with every step except the one past the end. */
  function Left(s: string): nat { if s == "\0" then 0 else |s| }

  datatype Lexed = Token(tok: Tok, rest: string) | End | Error

  /** The byte that a two-byte escape stands for. */
  function Unescape(c: char): Option<char> {
    if c == '\"' then Some('\"')
    else if c == '\\' then Some('\\')
    else if c == '/' then Some('/')
    else if c == 'b' then Some(BACKSPACE)
    else if c == 'f' then Some(FORM_FEED)
    else if c == 'n' then Some('\n')
    else if c == 'r' then Some('\r')
    else if c == 't' then Some('\t')
    else None
  }

  function Skip4(s: string): (r: string)
    requires s != ""
    ensures r != "" && Left(r) <= Left(s)
  {
    Advance(Advance(Advance(Advance(s))))
  }

  /** The inside of a string literal, from the byte after the opening quote;
      escaped code points are skipped, not decoded. */
  function StringBody(s: string, acc: string): (r: Option<(string, string)>)
    requires s != ""
    ensures r.Some? ==> r.value.1 != "" && Left(r.value.1) <= Left(s)
    decreases Left(s)
  {
    if s[0] == '\0' then None
    else if s[0] == '\"' then Some((acc, Advance(s)))
    else if s[0] == '\\' then
      var t := Advance(s);
      if t[0] == 'u' then StringBody(Advance(Skip4(t)), acc)
      else match Unescape(t[0])
        case None => None
        case Some(c) => StringBody(Advance(t), acc + [c])
    else StringBody(Advance(s), acc + [s[0]])
  }

  /** What an escape sequence comes to. */
  lemma EscapeCases(s: string, acc: string)
    requires s != "" && s[0] == '\\'
    ensures var t := Advance(s);
      Left(Advance(t)) < Left(s) && Left(Advance(Skip4(t))) < Left(s) &&
      StringBody(s, acc) ==
        if t[0] == 'u' then StringBody(Advance(Skip4(t)), acc)
        else if Unescape(t[0]).None? then None
        else StringBody(Advance(t), acc + [Unescape(t[0]).value])
  {
  }

  predicate NumberChar(c: char) { IsDigit(c) || c in "-+.eE" }

  /** Blanks inside a number are skipped. */
  function NumberBody(s: string, acc: string): (r: (string, string))
    requires s != ""
    ensures r.1 != "" && Left(r.1) <= Left(s)
    decreases Left(s)
  {
    if NumberChar(s[0]) then NumberBody(Advance(s), acc + [s[0]])
    else if s[0] == ' ' then NumberBody(Advance(s), acc)
    else (acc, s)
  }

  function Expect(s: string, word: string, k: Kind): Lexed
    requires s != "" && word != ""
  {
    if word <= s then Token(Tok(k, ""), Advance(s[|word| - 1..])) else Error
  }

  function Lex(s: string): (r: Lexed)
    requires s != ""
    ensures r.Token? ==> r.rest != "" && Left(r.rest) < Left(s)
    decreases Left(s)
  {
    var c := s[0];
    if c == '{' then Token(Tok(ObjectBegin, ""), Advance(s))
    else if c == '}' then Token(Tok(ObjectEnd, ""), Advance(s))
    else if c == '[' then Token(Tok(ArrayBegin, ""), Advance(s))
    else if c == ']' then Token(Tok(ArrayEnd, ""), Advance(s))
    else if c in ":, \n\r" then Lex(Advance(s))
    else if c == '-' || IsDigit(c) then
      var (d, rest) := NumberBody(Advance(s), [c]);
      Token(Tok(NumberTok, d), rest)
    else if c == '\"' then
      (match StringBody(Advance(s), "")
       case None => Error
       case Some((d, rest)) => Token(Tok(StringTok, d), rest))
    else if c == 't' then Expect(s, "true", TrueTok)
    else if c == 'f' then Expect(s, "false", FalseTok)
    else if c == 'n' then Expect(s, "null", NullTok)
    else if c == '\0' then End
    else Error
  }

  /** All tokens up to the end of the input. */
  function LexAll(s: string): Option<seq<Tok>>
    requires s != ""
    decreases Left(s)
  {
    match Lex(s)
    case Error => None
    case End => Some([])
    case Token(t, rest) => Then([t], LexAll(rest))
  }

  function Then(ts: seq<Tok>, more: Option<seq<Tok>>): Option<seq<Tok>> {
    if more.None? then None else Some(ts + more.value)
  }

  lemma ThenThen(a: seq<Tok>, b: seq<Tok>, more: Option<seq<Tok>>)
    ensures Then(a, Then(b, more)) == Then(a + b, more)
  {
    if more.Some? { assert a + (b + more.value) == (a + b) + more.value; }
  }

  // ---------------------------------------------------------------- the stream object

  class JSONInputStream {
    const input: string
    var pos: nat
    var cur: char

    ghost predicate Valid() reads this { pos <= |input| }

    ghost function Rest(): string
      requires Valid()
      reads this
    {
      [cur] + input[pos..]
    }

    constructor (input: string)
      ensures Valid() && Rest() == " " + input
    {
      this.input := input;
      pos, cur := 0, ' ';
    }

    method AdvanceCursor()
      requires Valid()
      modifies this
      ensures Valid() && Rest() == Advance(old(Rest()))
    {
      if pos < |input| {
        cur := input[pos];
        pos := pos + 1;
      } else {
        cur := '\0';
      }
    }

    /** An escape sequence, and on to the byte after it. */
    method ReadEscape(dst: string) returns (r: Option<string>)
      requires Valid() && cur == '\\'
      modifies this
      ensures Valid() && Left(Rest()) < Left(old(Rest()))
      ensures r.None? ==> StringBody(old(Rest()), dst) == None
      ensures r.Some? ==> StringBody(Rest(), r.value) == StringBody(old(Rest()), dst)
    {
      ghost var s := Rest();
      EscapeCases(s, dst);
      AdvanceCursor();
      r := Some(dst);
      if cur == 'u' {
        SkipFour();
      } else {
        match Unescape(cur) {
          case None => return None;
          case Some(c) => r := Some(dst + [c]);
        }
      }
      AdvanceCursor();
    }

    method SkipFour()
      requires Valid()
      modifies this
      ensures Valid() && Rest() == Skip4(old(Rest()))
    {
      AdvanceCursor();
      AdvanceCursor();
      AdvanceCursor();
      AdvanceCursor();
    }

    method ReadString() returns (r: Option<string>)
      requires Valid()
      modifies this
      ensures Valid()
      ensures match StringBody(Advance(old(Rest())), "") {
        case None => r == None
        case Some((d, rest)) => r == Some(d) && Rest() == rest }
    {
      var dst := "";
      AdvanceCursor();
      ghost var want := StringBody(Rest(), "");
      while cur != '\"'
        invariant Valid() && StringBody(Rest(), dst) == want
        decreases Left(Rest())
      {
        if cur == '\0' { return None; }
        if cur == '\\' {
          var next := ReadEscape(dst);
          if next == None { return None; }
          dst := next.value;
        } else {
          dst := dst + [cur];
          AdvanceCursor();
        }
      }
      AdvanceCursor();
      return Some(dst);
    }

    method ReadNumber() returns (dst: string)
      requires Valid()
      modifies this
      ensures Valid() && (dst, Rest()) == NumberBody(old(Rest()), "")
    {
      dst := "";
      while NumberChar(cur) || cur == ' '
        invariant Valid() && NumberBody(Rest(), dst) == NumberBody(old(Rest()), "")
        decreases Left(Rest())
      {
        if cur != ' ' { dst := dst + [cur]; }
        AdvanceCursor();
      }
    }

    method ExpectString(word: string) returns (ok: bool)
      requires Valid() && word != "" && '\0' !in word
      modifies this
      ensures Valid() && ok == (word <= old(Rest()))
      ensures ok ==> Rest() == Advance(old(Rest())[|word| - 1..])
    {
      var str := [cur];
      ghost var start := pos;
      while |str| < |word| && pos < |input|
        invariant start <= pos <= |input| && |str| <= |word| && |str| == 1 + pos - start
        invariant cur == old(cur) && str == [cur] + input[start..pos]
        decreases |input| - pos
      {
        str := str + [input[pos]];
        pos := pos + 1;
      }
      ok := str == word;
      assert old(Rest())[..|str|] == str;
      assert old(Rest())[|str| - 1..] == [str[|str| - 1]] + input[pos..];
      AdvanceCursor();
    }

    method ReadWord(word: string, k: Kind) returns (r: Option<Option<Tok>>)
      requires Valid() && word != "" && '\0' !in word
      modifies this
      ensures Valid()
      ensures match Expect(old(Rest()), word, k) {
        case Error => r == None
        case End => false
        case Token(t, rest) => r == Some(Some(t)) && Rest() == rest }
    {
      var ok := ExpectString(word);
      if !ok { return None; }
      return Some(Some(Tok(k, "")));
    }

    /** `readNextToken`: `None` is an exception, `Some(None)` the end. */
    method ReadNextToken() returns (r: Option<Option<Tok>>)
      requires Valid()
      modifies this
      ensures Valid()
      ensures match Lex(old(Rest())) {
        case Error => r == None
        case End => r == Some(None)
        case Token(t, rest) => r == Some(Some(t)) && Rest() == rest }
    {
      while cur in ":, \n\r"
        invariant Valid() && Lex(Rest()) == Lex(old(Rest()))
        decreases Left(Rest())
      {
        AdvanceCursor();
      }
      if cur == '{' { AdvanceCursor(); return Some(Some(Tok(ObjectBegin, ""))); }
      if cur == '}' { AdvanceCursor(); return Some(Some(Tok(ObjectEnd, ""))); }
      if cur == '[' { AdvanceCursor(); return Some(Some(Tok(ArrayBegin, ""))); }
      if cur == ']' { AdvanceCursor(); return Some(Some(Tok(ArrayEnd, ""))); }
      if cur == '-' || IsDigit(cur) {
        assert "" + [cur] == [cur];
        assert NumberBody(Rest(), "") == NumberBody(Advance(Rest()), "" + [cur]);
        var d := ReadNumber();
        return Some(Some(Tok(NumberTok, d)));
      }
      if cur == '\"' {
        var d := ReadString();
        if d == None { return None; }
        return Some(Some(Tok(StringTok, d.value)));
      }
      if cur == 't' { r := ReadWord("true", TrueTok); return; }
      if cur == 'f' { r := ReadWord("false", FalseTok); return; }
      if cur == 'n' { r := ReadWord("null", NullTok); return; }
      if cur == '\0' { return Some(None); }
      return None;
    }
  }

  // ------------------------------------------------- reading back what was printed

  /** What is left of a string after printing and reading: the escapes `\u00XX`
      are skipped, so other control bytes are lost. */
  predicate Kept(c: char) { c >= ' ' || c in [BACKSPACE, '\t', '\n', FORM_FEED, '\r'] }

  function Strip(s: string): string {
    if s == "" then "" else (if Kept(s[0]) then [s[0]] else "") + Strip(s[1..])
  }

  lemma {:induction false} StripIdentity(s: string)
    ensures Strip(s) == s <==> forall i :: 0 <= i < |s| ==> Kept(s[i])
    ensures |Strip(s)| <= |s|
  {
    if s != "" {
      StripIdentity(s[1..]);
      assert forall i :: 1 <= i < |s| ==> s[i] == s[1..][i - 1];
      if Kept(s[0]) {
        assert Strip(s)[1..] == Strip(s[1..]);
        assert s == [s[0]] + s[1..];
      }
    }
  }

  /** Where the lexer stands when exactly `rest` is unread. */
  function At(rest: string): (r: string)
    ensures r != ""
  {
    if rest == "" then "\0" else rest
  }

  lemma AdvanceThrough(c: char, rest: string)
    ensures Advance([c] + rest) == At(rest)
  {
  }

  lemma BodyShort(c: char, e: char, rest: string, acc: string)
    requires rest != "" && Unescape(e) == Some(c) && e != 'u'
    ensures StringBody(['\\', e] + rest, acc) == StringBody(rest, acc + [c])
  {
    assert ['\\', e] + rest == ['\\'] + ([e] + rest);
    AdvanceThrough('\\', [e] + rest);
    AdvanceThrough(e, rest);
  }

  lemma SkipBack(a: char, b: char, c: char, d: char, rest: string)
    requires rest != ""
    ensures Advance(Skip4(['u', a, b, c, d] + rest)) == rest
  {
    var t4 := [d] + rest;
    var t3 := [c] + t4;
    var t2 := [b] + t3;
    var t1 := [a] + t2;
    assert ['u', a, b, c, d] + rest == ['u'] + t1;
    AdvanceThrough('u', t1);
    AdvanceThrough(a, t2);
    AdvanceThrough(b, t3);
    AdvanceThrough(c, t4);
    AdvanceThrough(d, rest);
  }

  lemma BodyLong(a: char, b: char, rest: string, acc: string)
    requires rest != ""
    ensures StringBody(['\\', 'u', '0', '0', a, b] + rest, acc) == StringBody(rest, acc)
  {
    var t := ['u', '0', '0', a, b] + rest;
    assert ['\\', 'u', '0', '0', a, b] + rest == ['\\'] + t;
    AdvanceThrough('\\', t);
    SkipBack('0', '0', a, b, rest);
  }

  /** One printed character read back. */
  lemma BodyChar(c: char, rest: string, acc: string)
    requires rest != ""
    ensures StringBody(EscapeChar(c) + rest, acc) == StringBody(rest, acc + if Kept(c) then [c] else "")
  {
    var e := EscapeChar(c);
    if |e| == 1 {
      AdvanceThrough(c, rest);
    } else if |e| == 2 {
      BodyShort(c, e[1], rest, acc);
      assert e == ['\\', e[1]];
    } else {
      assert e == ['\\', 'u', '0', '0', e[4], e[5]];
      BodyLong(e[4], e[5], rest, acc);
      assert acc + "" == acc;
    }
  }

  lemma {:induction false} BodyBack(s: string, rest: string, acc: string)
    ensures StringBody(Escape(s) + "\"" + rest, acc) == Some((acc + Strip(s), At(rest)))
    decreases |s|
  {
    if s == "" {
      assert Escape(s) + "\"" + rest == ['\"'] + rest;
      AdvanceThrough('\"', rest);
      assert acc + "" == acc;
    } else {
      var more := Escape(s[1..]) + "\"" + rest;
      EscapeCut(EscapeChar(s[0]), Escape(s[1..]), rest);
      BodyChar(s[0], more, acc);
      var kept := if Kept(s[0]) then [s[0]] else "";
      BodyBack(s[1..], rest, acc + kept);
      Assoc(acc, kept, Strip(s[1..]));
    }
  }

  lemma EscapeCut(e: string, more: string, rest: string)
    ensures (e + more) + "\"" + rest == e + (more + "\"" + rest)
  {
  }

  lemma LexStep(s: string, t: Tok, rest: string)
    requires s != "" && Lex(s) == Token(t, rest)
    ensures LexAll(s) == Then([t], LexAll(rest))
  {
  }

  /** Commas, colons and blanks between tokens are skipped. */
  lemma SkipBack1(c: char, rest: string)
    requires c in ":, \n\r"
    ensures LexAll([c] + rest) == LexAll(At(rest))
  {
    AdvanceThrough(c, rest);
    assert Lex([c] + rest) == Lex(At(rest));
  }

  lemma LexString(s: string, d: string, rest: string)
    requires s != "" && s[0] == '\"' && StringBody(Advance(s), "") == Some((d, rest))
    ensures Lex(s) == Token(Tok(StringTok, d), rest)
  {
  }

  lemma QuoteCut(e: string, rest: string)
    ensures "\"" + e + "\"" + rest == ['\"'] + (e + "\"" + rest)
  {
  }

  lemma QuoteLex(s: string, rest: string)
    ensures Lex(Quote(s) + rest) == Token(Tok(StringTok, Strip(s)), At(rest))
  {
    var e := Escape(s);
    QuoteCut(e, rest);
    AdvanceThrough('\"', e + "\"" + rest);
    BodyBack(s, rest, "");
    EmptyFirst(Strip(s));
    LexString(Quote(s) + rest, Strip(s), At(rest));
  }

  lemma EmptyFirst(s: string)
    ensures "" + s == s
  {
  }

  lemma BracketLex(c: char, rest: string)
    requires c in "{}[]"
    ensures Lex([c] + rest) == Token(Tok(if c == '{' then ObjectBegin else if c == '}' then ObjectEnd
                                         else if c == '[' then ArrayBegin else ArrayEnd, ""), At(rest))
  {
    AdvanceThrough(c, rest);
  }

  lemma WordLex(word: string, k: Kind, rest: string)
    requires (word, k) in [("true", TrueTok), ("false", FalseTok), ("null", NullTok)]
    ensures Lex(word + rest) == Token(Tok(k, ""), At(rest))
  {
    var s := word + rest;
    assert s[|word| - 1..] == [word[|word| - 1]] + rest;
    AdvanceThrough(word[|word| - 1], rest);
  }

  /** A number as `std::to_string` prints it. */
  predicate NumberText(d: string) {
    d != "" && (d[0] == '-' || IsDigit(d[0])) && forall i :: 0 <= i < |d| ==> NumberChar(d[i])
  }

  lemma {:induction false} NumberBack(d: string, rest: string, acc: string)
    requires forall i :: 0 <= i < |d| ==> NumberChar(d[i])
    requires rest == "" || rest[0] in ",}]"
    ensures NumberBody(At(d + rest), acc) == (acc + d, At(rest))
    decreases |d|
  {
    if d == "" {
      assert d + rest == rest && acc + d == acc;
    } else {
      assert d + rest == [d[0]] + (d[1..] + rest);
      AdvanceThrough(d[0], d[1..] + rest);
      NumberBack(d[1..], rest, acc + [d[0]]);
      assert (acc + [d[0]]) + d[1..] == acc + d;
    }
  }

  lemma LexNumber(s: string, d: string, rest: string)
    requires s != "" && (s[0] == '-' || IsDigit(s[0])) && NumberBody(Advance(s), [s[0]]) == (d, rest)
    ensures Lex(s) == Token(Tok(NumberTok, d), rest)
  {
  }

  lemma NumberLex(d: string, rest: string)
    requires NumberText(d) && (rest == "" || rest[0] in ",}]")
    ensures Lex(d + rest) == Token(Tok(NumberTok, d), At(rest))
  {
    HeadTail(d, rest);
    AdvanceThrough(d[0], d[1..] + rest);
    NumberBack(d[1..], rest, [d[0]]);
    LexNumber(d + rest, d, At(rest));
  }

  lemma HeadTail(d: string, rest: string)
    requires d != ""
    ensures d + rest == [d[0]] + (d[1..] + rest) && [d[0]] + d[1..] == d && (d + rest)[0] == d[0]
  {
  }
}
