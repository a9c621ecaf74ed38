/** What a JSON text says.  Section 7 of RFC 8259 is a reader of string literals with tables
    of its own, and sections 3 to 5 are a relation between texts and values; the printer's
    texts and the tokenizer's strings are measured against them. */
module JsonMeaning {
  import opened Text
  import opened JsonTypes
  import opened JsonPrinter
  import opened JsonLexer
  import opened JsonGrammar

  // ---------------------------------------------------------------- string literals

  /** A character of a string literal, or `\u` and its four digits. */
  datatype Piece = Plain(c: char) | Point(digits: string)

  /** The two-character escapes of section 7, and what they stand for. */
  const SHORT := "\"\\/bfnrt"
  const MEANT: seq<int> := [0x22, 0x5c, 0x2f, 0x08, 0x0c, 0x0a, 0x0d, 0x09]

  const LOWER_HEX := "0123456789abcdef"
  const UPPER_HEX := "0123456789ABCDEF"

  predicate FourHex(d: string) {
    |d| == 4 && forall i :: 0 <= i < 4 ==> d[i] in LOWER_HEX || d[i] in UPPER_HEX
  }

  /** The text between the quotes in pieces; `None` where section 7 does not allow it. */
  function Pieces(t: string): Option<seq<Piece>>
    decreases |t|
  {
    if t == "" then Some([])
    else if t[0] == '\\' then
      if |t| >= 6 && t[1] == 'u' && FourHex(t[2..6]) then Before(Point(t[2..6]), Pieces(t[6..]))
      else if |t| >= 2 && t[1] in SHORT then Before(Plain(MEANT[Find(SHORT, t[1])] as char), Pieces(t[2..]))
      else None
    else if t[0] == '\"' || t[0] as int < 0x20 then None
    else Before(Plain(t[0]), Pieces(t[1..]))
  }

  function Before(p: Piece, ps: Option<seq<Piece>>): Option<seq<Piece>> {
    if ps.None? then None else Some([p] + ps.value)
  }

  function Nibble(c: char): nat {
    var i := Find(LOWER_HEX, c);
    if i < 16 then i else Find(UPPER_HEX, c)
  }

  /** Four hex digits, the highest first. */
  function CodePoint(d: string): nat
    requires |d| == 4
  {
    0x1000 * Nibble(d[0]) + 0x100 * Nibble(d[1]) + 0x10 * Nibble(d[2]) + Nibble(d[3])
  }

  /** UTF-8 (section 3 of RFC 3629) of a code point of the basic plane; the halves of a
      surrogate pair are taken one by one. */
  function Utf8(n: nat): (r: string)
    requires n < 0x20000
    ensures r != ""
  {
    if n < 0x80 then [n as char]
    else if n < 0x800 then [(0xc0 + n / 0x40) as char, (0x80 + n % 0x40) as char]
    else [(0xe0 + n / 0x1000) as char, (0x80 + n / 0x40 % 0x40) as char, (0x80 + n % 0x40) as char]
  }

  function Said(p: Piece): string {
    match p
    case Plain(c) => [c]
    case Point(d) => if |d| == 4 then Utf8(CodePoint(d)) else ""
  }

  /** The bytes that the pieces stand for. */
  function Meaning(ps: seq<Piece>): string {
    if ps == [] then "" else Said(ps[0]) + Meaning(ps[1..])
  }

  /** The same without the code points. */
  function Dropped(ps: seq<Piece>): string {
    if ps == [] then "" else (if ps[0].Plain? then [ps[0].c] else "") + Dropped(ps[1..])
  }

  /** The string that a literal's inside stands for. */
  function StringValue(t: string): Option<string> {
    var ps := Pieces(t);
    if ps.None? then None else Some(Meaning(ps.value))
  }

  // -------------------------------------------------------------- the printer's literals

  /** The sixteen digits are where their values say. */
  lemma NibbleOf(n: nat)
    requires n < 16
    ensures LOWER_HEX[n] == HexDigit(n, 'a') && Nibble(LOWER_HEX[n]) == n
  {
    LowerHexAt(n);
    forall i | 0 <= i < n ensures LOWER_HEX[i] != LOWER_HEX[n] { LowerHexAt(i); }
    FindUnique(LOWER_HEX, LOWER_HEX[n], n);
  }

  lemma LowerHexAt(n: nat)
    requires n < 16
    ensures LOWER_HEX[n] as int == if n < 10 then 0x30 + n else 0x61 + n - 10
  {
  }

  lemma HexPair(n: nat)
    requires n < 0x20
    ensures var d := ['0', '0', HexDigit(n / 16, 'a'), HexDigit(n % 16, 'a')];
      FourHex(d) && CodePoint(d) == n
  {
    NibbleOf(0);
    NibbleOf(n / 16);
    NibbleOf(n % 16);
  }

  /** A control byte in hex. */
  lemma ControlPoint(c: char, d: string)
    requires c as int < 0x20 && |d| == 4 && d[0] == d[1] == '0'
    requires d[2] == HexDigit(c as int / 16, 'a') && d[3] == HexDigit(c as int % 16, 'a')
    ensures FourHex(d) && Utf8(CodePoint(d)) == [c]
  {
    HexPair(c as int);
    SamePoint(d, ['0', '0', HexDigit(c as int / 16, 'a'), HexDigit(c as int % 16, 'a')], c);
  }

  lemma SamePoint(d: string, d': string, c: char)
    requires |d| == |d'| == 4 && d[0] == d'[0] && d[1] == d'[1] && d[2] == d'[2] && d[3] == d'[3]
    requires c as int < 0x20 && FourHex(d') && CodePoint(d') == c as int
    ensures FourHex(d) && Utf8(CodePoint(d)) == [c]
  {
    assert d == d';
  }

  lemma FourChars(e: string)
    requires |e| == 6 && e[..4] == "\\u00"
    ensures e[0] == '\\' && e[1] == 'u' && e[2] == e[3] == '0'
  {
    assert e[0] == e[..4][0] && e[1] == e[..4][1] && e[2] == e[..4][2] && e[3] == e[..4][3];
  }

  lemma LongPiece(c: char, e: string, t: string)
    requires c as int < 0x20 && |e| == 6 && e[..4] == "\\u00"
    requires e[4] == HexDigit(c as int / 16, 'a') && e[5] == HexDigit(c as int % 16, 'a')
    ensures Pieces(e + t) == Before(Point(e[2..]), Pieces(t)) && |e[2..]| == 4 && Utf8(CodePoint(e[2..])) == [c]
  {
    var s := e + t;
    FourChars(e);
    ControlPoint(c, e[2..]);
    assert s[2..6] == e[2..] && s[6..] == t;
  }

  lemma ShortPiece(i: nat, t: string)
    requires i < 8
    ensures Pieces(['\\', SHORT[i]] + t) == Before(Plain(MEANT[i] as char), Pieces(t))
  {
    var s := ['\\', SHORT[i]] + t;
    ShortDistinct(i);
    FindUnique(SHORT, SHORT[i], i);
    assert s[2..] == t;
  }

  lemma ShortDistinct(i: nat)
    requires i < 8
    ensures SHORT[i] !in SHORT[..i] && SHORT[i] != 'u'
  {
  }

  /** Which piece an escaped byte is, and that it stands for the byte. */
  lemma EscapedPiece(c: char, t: string) returns (p: Piece)
    ensures Pieces(EscapeChar(c) + t) == Before(p, Pieces(t))
    ensures Said(p) == [c]
    ensures p.Plain? <==> Kept(c)
  {
    var e := EscapeChar(c);
    if |e| == 6 {
      LongPiece(c, e, t);
      p := Point(e[2..]);
    } else if |e| == 2 {
      p := Plain(c);
      assert e == ['\\', e[1]];
      ShortOf(c, t);
    } else {
      p := Plain(c);
      assert (e + t)[1..] == t;
    }
  }

  /** Which of the two-character escapes the printer uses. */
  function ShortIndex(c: char): Option<nat> {
    if c as int == 0x22 then Some(0) else if c as int == 0x5c then Some(1)
    else if c as int == 0x08 then Some(3) else if c as int == 0x0c then Some(4)
    else if c as int == 0x0a then Some(5) else if c as int == 0x0d then Some(6)
    else if c as int == 0x09 then Some(7) else None
  }

  lemma ShortOf(c: char, t: string)
    requires |EscapeChar(c)| == 2
    ensures Pieces(EscapeChar(c) + t) == Before(Plain(c), Pieces(t))
  {
    ShortIs(c);
    ShortPiece(ShortIndex(c).value, t);
  }

  lemma ShortIs(c: char)
    requires |EscapeChar(c)| == 2
    ensures match ShortIndex(c) {
      case None => false
      case Some(i) => i < 8 && EscapeChar(c) == ['\\', SHORT[i]] && MEANT[i] as char == c }
  {
  }

  /** An escaped string stands for the string. */
  lemma {:induction false} EscapeMeans(s: string)
    ensures StringValue(Escape(s)) == Some(s)
  {
    if s != "" {
      EscapeMeans(s[1..]);
      var p := EscapedPiece(s[0], Escape(s[1..]));
      assert [s[0]] + s[1..] == s;
    }
  }

  // -------------------------------------------------------------- the tokenizer's literals

  lemma UnescapeShort(i: nat)
    requires i < 8
    ensures Unescape(SHORT[i]) == Some(MEANT[i] as char) && SHORT[i] != 'u'
  {
  }

  lemma PointCut(d: string, rest: string)
    requires |d| == 4
    ensures "\\u" + d + rest == ['\\'] + (['u', d[0], d[1], d[2], d[3]] + rest)
  {
  }

  lemma BodyPoint(d: string, rest: string, acc: string)
    requires FourHex(d) && rest != ""
    ensures StringBody("\\u" + d + rest, acc) == StringBody(rest, acc)
  {
    var t := ['u', d[0], d[1], d[2], d[3]] + rest;
    PointCut(d, rest);
    AdvanceThrough('\\', t);
    SkipBack(d[0], d[1], d[2], d[3], rest);
  }

  /** One piece of a literal read by the tokenizer. */
  lemma BodyPiece(p: Piece, t: string, rest: string, acc: string) returns (more: string)
    requires t != "" && Pieces(t).Some? && Pieces(t).value[0] == p && rest != ""
    ensures |more| < |t| && Pieces(t) == Before(p, Pieces(more))
    ensures StringBody(t + rest, acc) == StringBody(more + rest, acc + if p.Plain? then [p.c] else "")
  {
    if t[0] == '\\' && t[1] == 'u' {
      more := t[6..];
      assert t + rest == "\\u" + t[2..6] + (more + rest);
      BodyPoint(t[2..6], more + rest, acc);
      assert acc + "" == acc;
    } else if t[0] == '\\' {
      more := t[2..];
      UnescapeShort(Find(SHORT, t[1]));
      assert t + rest == ['\\', t[1]] + (more + rest);
      BodyShort(MEANT[Find(SHORT, t[1])] as char, t[1], more + rest, acc);
    } else {
      more := t[1..];
      assert t + rest == [t[0]] + (more + rest);
      AdvanceThrough(t[0], more + rest);
    }
  }

  /** The tokenizer on the inside of any literal that section 7 allows. */
  lemma {:induction false} BodyMeans(t: string, rest: string, acc: string)
    requires Pieces(t).Some?
    ensures StringBody(t + ("\"" + rest), acc) == Some((acc + Dropped(Pieces(t).value), At(rest)))
    decreases |t|
  {
    if t == "" {
      assert t + ("\"" + rest) == ['\"'] + rest;
      AdvanceThrough('\"', rest);
      assert acc + "" == acc;
    } else {
      var p := Pieces(t).value[0];
      var more := BodyPiece(p, t, "\"" + rest, acc);
      var kept := if p.Plain? then [p.c] else "";
      BodyMeans(more, rest, acc + kept);
      assert Pieces(t).value[1..] == Pieces(more).value;
      Assoc(acc, kept, Dropped(Pieces(more).value));
    }
  }

  /** Whatever follows a literal, it is one token, with the literal's string but for `\u`. */
  lemma LiteralLex(t: string, rest: string)
    requires Pieces(t).Some?
    ensures Lex("\"" + (t + ("\"" + rest))) == Token(Tok(StringTok, Dropped(Pieces(t).value)), At(rest))
  {
    var body := t + ("\"" + rest);
    assert "\"" + body == ['\"'] + body;
    AdvanceThrough('\"', body);
    BodyMeans(t, rest, "");
    EmptyFirst(Dropped(Pieces(t).value));
    LexString("\"" + body, Dropped(Pieces(t).value), At(rest));
  }

  predicate NoPoint(ps: seq<Piece>) { forall i :: 0 <= i < |ps| ==> ps[i].Plain? }

  lemma {:induction false} DroppedIff(ps: seq<Piece>)
    requires forall i :: 0 <= i < |ps| && ps[i].Point? ==> |ps[i].digits| == 4
    ensures |Dropped(ps)| <= |Meaning(ps)|
    ensures Dropped(ps) == Meaning(ps) <==> NoPoint(ps)
  {
    if ps != [] {
      var more := ps[1..];
      DroppedIff(more);
      assert NoPoint(ps) <==> ps[0].Plain? && NoPoint(more);
      if ps[0].Plain? {
        assert Dropped(ps)[1..] == Dropped(more) && Meaning(ps)[1..] == Meaning(more);
      } else {
        assert |Meaning(ps)| > |Dropped(ps)|;
      }
    }
  }

  lemma {:induction false} PointsHaveFour(t: string)
    requires Pieces(t).Some?
    ensures var ps := Pieces(t).value; forall i :: 0 <= i < |ps| && ps[i].Point? ==> |ps[i].digits| == 4
    decreases |t|
  {
    if t != "" {
      var more := BodyPiece(Pieces(t).value[0], t, "\"", "");
      PointsHaveFour(more);
    }
  }

  /** The tokenizer reads a literal as the standard does iff the literal holds no `\u`. */
  lemma LiteralReadIff(t: string, rest: string)
    requires StringValue(t).Some?
    ensures Lex("\"" + (t + ("\"" + rest))) == Token(Tok(StringTok, StringValue(t).value), At(rest))
      <==> NoPoint(Pieces(t).value)
  {
    LiteralLex(t, rest);
    PointsHaveFour(t);
    DroppedIff(Pieces(t).value);
  }

  // ------------------------------------------------- the tokenizer between the literals

  const NUMBER := "0123456789+-.eE"

  /** A number with blanks in it. */
  predicate BlankedNumber(d: string) { forall i :: 0 <= i < |d| ==> d[i] in NUMBER || d[i] == ' ' }

  function Unblanked(d: string): string {
    if d == "" then "" else (if d[0] == ' ' then "" else [d[0]]) + Unblanked(d[1..])
  }

  lemma NumberCharIs(c: char)
    ensures NumberChar(c) <==> c in NUMBER
  {
    if IsDigit(c) { TenDigits(c as int - 0x30); assert c == NUMBER[c as int - 0x30]; }
  }

  lemma {:induction false} NumberRun(d: string, rest: string, acc: string)
    requires BlankedNumber(d) && (rest == "" || (rest[0] !in NUMBER && rest[0] != ' '))
    ensures NumberBody(At(d + rest), acc) == (acc + Unblanked(d), At(rest))
    decreases |d|
  {
    if d == "" {
      assert d + rest == rest && acc + "" == acc;
      NumberCharIs(At(rest)[0]);
    } else {
      var more := d[1..] + rest;
      assert d + rest == [d[0]] + more;
      NumberCharIs(d[0]);
      NumberCharIs(' ');
      AdvanceThrough(d[0], more);
      var kept := if d[0] == ' ' then "" else [d[0]];
      NumberRun(d[1..], rest, acc + kept);
      assert acc + "" == acc;
      Assoc(acc, kept, Unblanked(d[1..]));
    }
  }

  /** A number is the longest run of number characters and blanks, and loses its blanks. */
  lemma NumberMeans(d: string, rest: string)
    requires d != "" && d[0] in "-0123456789" && BlankedNumber(d)
    requires rest == "" || (rest[0] !in NUMBER && rest[0] != ' ')
    ensures Lex(d + rest) == Token(Tok(NumberTok, Unblanked(d)), At(rest))
  {
    var more := d[1..] + rest;
    HeadTail(d, rest);
    NumberStart(d[0]);
    AdvanceThrough(d[0], more);
    NumberRun(d[1..], rest, [d[0]]);
    LexNumber(d + rest, Unblanked(d), At(rest));
  }

  lemma NumberStart(c: char)
    requires c in "-0123456789"
    ensures c != ' ' && (c == '-' || IsDigit(c))
  {
  }

  /** Nothing else starts a token: five bytes are skipped, and a tab is not one of them. */
  lemma OtherStart(c: char, rest: string)
    requires c !in "{}[]\"-0123456789tfn,: \n\r"
    ensures Lex([c] + rest) == if c as int == 0 then End else Error
  {
  }

  lemma {:induction false} Skipped(sep: string, rest: string)
    requires rest != "" && forall i :: 0 <= i < |sep| ==> sep[i] in ",: \n\r"
    ensures LexAll(sep + rest) == LexAll(rest)
  {
    if sep == "" {
      assert sep + rest == rest;
    } else {
      var more := sep[1..] + rest;
      assert sep + rest == [sep[0]] + more;
      SkipBack1(sep[0], more);
      Skipped(sep[1..], rest);
    }
  }

  /** What starts like `true`, `false` or `null` is that word or an error. */
  lemma WordsOnly(s: string, k: Kind)
    requires s != "" && k in [TrueTok, FalseTok, NullTok]
    requires s[0] == (if k.TrueTok? then 't' else if k.FalseTok? then 'f' else 'n')
    ensures (if k.TrueTok? then "true" else if k.FalseTok? then "false" else "null") <= s
      <==> Lex(s).Token? && Lex(s).tok == Tok(k, "")
    ensures Lex(s).Token? || Lex(s).Error?
  {
  }

  // ------------------------------------------------------------------ values and texts

  ghost predicate DenotesString(text: string, s: string) {
    exists t :: text == "\"" + t + "\"" && StringValue(t) == Some(s)
  }

  /** What a text says, by sections 3, 4, 5 and 7; numbers are the integers of section 6. */
  ghost predicate Denotes(text: string, v: Value)
    decreases v
  {
    match v
    case Obj(ms) => exists b :: text == "{" + b + "}" && DenotesMembers(b, ms)
    case Arr(vs) => exists b :: text == "[" + b + "]" && DenotesItems(b, vs)
    case Str(s) => DenotesString(text, s)
    case Num(d) => text == d && IsInteger(d)
    case Bool(b) => text == if b then "true" else "false"
    case Null => text == "null"
  }

  ghost predicate DenotesMembers(b: string, ms: seq<Member>)
    decreases ms
  {
    if ms == [] then b == ""
    else exists k, c, v, rest ::
      b == Glued(k, c, v, rest) && DenotesString(k, ms[0].key) && IsColon(c) && Denotes(v, ms[0].value)
      && (if |ms| == 1 then rest == "" else rest != "" && rest[0] == ',' && DenotesMembers(rest[1..], ms[1..]))
  }

  ghost predicate DenotesItems(b: string, vs: seq<Value>)
    decreases vs
  {
    if vs == [] then b == ""
    else exists v, rest ::
      b == Glued("", "", v, rest) && Denotes(v, vs[0])
      && (if |vs| == 1 then rest == "" else rest != "" && rest[0] == ',' && DenotesItems(rest[1..], vs[1..]))
  }

  /** The value with its numbers as strings. */
  function Quoted(v: Value): Value {
    match v
    case Obj(ms) => Obj(QuotedMembers(ms))
    case Arr(vs) => Arr(QuotedItems(vs))
    case Num(d) => Str(d)
    case _ => v
  }

  function QuotedMembers(ms: seq<Member>): (r: seq<Member>)
    ensures |r| == |ms| && forall i :: 0 <= i < |ms| ==> r[i] == Member(ms[i].key, Quoted(ms[i].value))
  {
    if ms == [] then [] else [Member(ms[0].key, Quoted(ms[0].value))] + QuotedMembers(ms[1..])
  }

  function QuotedItems(vs: seq<Value>): (r: seq<Value>)
    ensures |r| == |vs| && forall i :: 0 <= i < |vs| ==> r[i] == Quoted(vs[i])
  {
    if vs == [] then [] else [Quoted(vs[0])] + QuotedItems(vs[1..])
  }

  /** What a printed value says: numbers printed in quotes are strings. */
  function SaidValue(st: Style, v: Value): Value { if st.bareNumbers then v else Quoted(v) }

  function SaidItems(st: Style, vs: seq<Value>): seq<Value> { if st.bareNumbers then vs else QuotedItems(vs) }

  function SaidMembers(st: Style, ms: seq<Member>): seq<Member> { if st.bareNumbers then ms else QuotedMembers(ms) }

  lemma QuoteMeans(s: string)
    ensures DenotesString(Quote(s), s)
  {
    EscapeMeans(s);
  }

  lemma OneItem(v: string, rest: string, b: string, vs: seq<Value>)
    requires vs != [] && Denotes(v, vs[0]) && b == v + rest
    requires if |vs| == 1 then rest == "" else rest != "" && rest[0] == ',' && DenotesItems(rest[1..], vs[1..])
    ensures DenotesItems(b, vs)
  {
    assert b == Glued("", "", v, rest);
  }

  lemma OneMember(k: string, c: string, v: string, rest: string, b: string, ms: seq<Member>)
    requires ms != [] && DenotesString(k, ms[0].key) && IsColon(c) && Denotes(v, ms[0].value) && b == k + c + v + rest
    requires if |ms| == 1 then rest == "" else rest != "" && rest[0] == ',' && DenotesMembers(rest[1..], ms[1..])
    ensures DenotesMembers(b, ms)
  {
    assert b == Glued(k, c, v, rest);
  }

  /** A printed value says the value, whatever its strings, keys and depth. */
  lemma {:induction false} RenderMeans(st: Style, v: Value)
    requires IsColon(st.colon) && Integers(st, v)
    ensures Denotes(Render(st, v), SaidValue(st, v))
    decreases v
  {
    match v
    case Obj(ms) => MembersMean(st, ms);
    case Arr(vs) => ItemsMean(st, vs);
    case Str(s) => QuoteMeans(s);
    case Num(d) => QuoteMeans(d);
    case _ =>
  }

  lemma {:induction false} ItemsMean(st: Style, vs: seq<Value>)
    requires IsColon(st.colon) && forall i :: 0 <= i < |vs| ==> Integers(st, vs[i])
    ensures DenotesItems(RenderItems(st, vs), SaidItems(st, vs))
    decreases vs
  {
    if vs != [] {
      RenderMeans(st, vs[0]);
      ItemsMean(st, vs[1..]);
      var rest := (if |vs| > 1 then "," else "") + RenderItems(st, vs[1..]);
      ItemsTail(st, vs, rest);
      Assoc(Render(st, vs[0]), if |vs| > 1 then "," else "", RenderItems(st, vs[1..]));
      OneItem(Render(st, vs[0]), rest, RenderItems(st, vs), SaidItems(st, vs));
    }
  }

  lemma ItemsTail(st: Style, vs: seq<Value>, rest: string)
    requires vs != [] && rest == (if |vs| > 1 then "," else "") + RenderItems(st, vs[1..])
    ensures |SaidItems(st, vs)| == |vs| && SaidItems(st, vs)[0] == SaidValue(st, vs[0])
    ensures SaidItems(st, vs)[1..] == SaidItems(st, vs[1..])
    ensures if |vs| == 1 then rest == "" else rest != "" && rest[0] == ',' && rest[1..] == RenderItems(st, vs[1..])
  {
  }

  lemma {:induction false} MembersMean(st: Style, ms: seq<Member>)
    requires IsColon(st.colon) && forall i :: 0 <= i < |ms| ==> Integers(st, ms[i].value)
    ensures DenotesMembers(RenderMembers(st, ms), SaidMembers(st, ms))
    decreases ms
  {
    if ms != [] {
      QuoteMeans(ms[0].key);
      RenderMeans(st, ms[0].value);
      MembersMean(st, ms[1..]);
      var rest := (if |ms| > 1 then "," else "") + RenderMembers(st, ms[1..]);
      MembersTail(st, ms, rest);
      var head := Quote(ms[0].key) + st.colon + Render(st, ms[0].value);
      Assoc(head, if |ms| > 1 then "," else "", RenderMembers(st, ms[1..]));
      OneMember(Quote(ms[0].key), st.colon, Render(st, ms[0].value), rest, RenderMembers(st, ms), SaidMembers(st, ms));
    }
  }

  lemma MembersTail(st: Style, ms: seq<Member>, rest: string)
    requires ms != [] && rest == (if |ms| > 1 then "," else "") + RenderMembers(st, ms[1..])
    ensures |SaidMembers(st, ms)| == |ms|
    ensures SaidMembers(st, ms)[0] == Member(ms[0].key, SaidValue(st, ms[0].value))
    ensures SaidMembers(st, ms)[1..] == SaidMembers(st, ms[1..])
    ensures if |ms| == 1 then rest == "" else rest != "" && rest[0] == ',' && rest[1..] == RenderMembers(st, ms[1..])
  {
  }

  /** What the stack machine prints, numbers in quotes, says the value with its numbers as
      strings. */
  lemma StreamMeans(v: Value)
    ensures Denotes(EmplaceAll(Machine(Empty, ""), Toks(v)).out, Quoted(v))
  {
    var m := Machine(Empty, "");
    PrintsValue(m, v);
    assert EmplaceAll(m, Toks(v)).out == Render(STREAM, v);
    assert STREAM.colon[0] == ':';
    AllQuoted(v);
    RenderMeans(STREAM, v);
  }
}
