/** The grammar of RFC 8259 (sections 2, 4, 5 and 7) as predicates on texts, and the
    printer's output in it.  Numbers are the integers of section 6. */
module JsonGrammar {
  import opened Text
  import opened JsonTypes
  import opened JsonPrinter

  /** The characters of a string: unescaped, a two-character escape, or `\u` and four hex
      digits. */
  predicate StringChars(t: string)
    decreases |t|
  {
    if t == "" then true
    else if t[0] == '\\' then
      |t| > 1 &&
      if t[1] == 'u' then
        |t| >= 6 && IsHexDigit(t[2]) && IsHexDigit(t[3]) && IsHexDigit(t[4]) && IsHexDigit(t[5]) && StringChars(t[6..])
      else t[1] in "\"\\/bfnrt" && StringChars(t[2..])
    else t[0] != '\"' && t[0] >= ' ' && StringChars(t[1..])
  }

  ghost predicate IsString(s: string) { exists t :: s == "\"" + t + "\"" && StringChars(t) }

  /** An optional minus sign, and digits without a leading zero. */
  predicate IsInteger(s: string) {
    var d := if s != "" && s[0] == '-' then s[1..] else s;
    d != "" && AllDigits(d) && (d[0] == '0' ==> |d| == 1)
  }

  /** A colon with white space around it. */
  ghost predicate IsColon(c: string) {
    exists i :: 0 <= i < |c| && c[i] == ':' && forall j :: 0 <= j < |c| && j != i ==> c[j] in " \t\n\r"
  }

  ghost predicate IsValue(s: string)
    decreases |s|, 0
  {
    s == "true" || s == "false" || s == "null" || IsString(s) || IsInteger(s)
    || (exists b :: s == "{" + b + "}" && (b == "" || IsMembers(b)))
    || (exists b :: s == "[" + b + "]" && (b == "" || IsItems(b)))
  }

  ghost predicate IsMembers(b: string)
    decreases |b|, 1
  {
    exists k, c, v, rest :: b == Glued(k, c, v, rest) && IsString(k) && IsColon(c) && IsValue(v)
      && (rest == "" || (rest[0] == ',' && IsMembers(rest[1..])))
  }

  ghost predicate IsItems(b: string)
    decreases |b|, 1
  {
    exists v, rest :: b == Glued("", "", v, rest) && IsValue(v)
      && (rest == "" || (rest[0] == ',' && IsItems(rest[1..])))
  }

  function Glued(a: string, b: string, c: string, d: string): (r: string)
    ensures |r| == |a| + |b| + |c| + |d|
  {
    a + b + c + d
  }

  // ------------------------------------------------------------- the printer's texts

  lemma EscapeCharValid(c: char, t: string)
    requires StringChars(t)
    ensures StringChars(EscapeChar(c) + t)
  {
    var e := EscapeChar(c);
    var s := e + t;
    if |e| == 1 {
      assert s[1..] == t;
    } else if |e| == 2 {
      assert s[2..] == t;
    } else {
      assert s[6..] == t;
      assert IsHexDigit(HexDigit(c as int / 16, 'a')) && IsHexDigit(HexDigit(c as int % 16, 'a'));
    }
  }

  lemma {:induction false} EscapeValid(s: string)
    ensures StringChars(Escape(s))
  {
    if s != "" {
      EscapeValid(s[1..]);
      EscapeCharValid(s[0], Escape(s[1..]));
    }
  }

  lemma QuoteValid(s: string)
    ensures IsString(Quote(s))
  {
    EscapeValid(s);
  }

  /** Bare numbers are integers. */
  predicate Integers(st: Style, v: Value) {
    match v
    case Obj(ms) => forall i :: 0 <= i < |ms| ==> Integers(st, ms[i].value)
    case Arr(vs) => forall i :: 0 <= i < |vs| ==> Integers(st, vs[i])
    case Num(d) => st.bareNumbers ==> IsInteger(d)
    case _ => true
  }

  /** Whatever the value, its strings and its depth, the printed text is JSON. */
  lemma {:induction false} RenderValid(st: Style, v: Value)
    requires IsColon(st.colon) && Integers(st, v)
    ensures IsValue(Render(st, v))
    decreases v
  {
    match v
    case Obj(ms) =>
      MembersValid(st, ms);
      Braces(RenderMembers(st, ms));
    case Arr(vs) =>
      ItemsValid(st, vs);
      Brackets(RenderItems(st, vs));
    case Str(s) => QuoteValid(s);
    case Num(s) => QuoteValid(s);
    case _ =>
  }

  lemma Braces(b: string)
    requires b == "" || IsMembers(b)
    ensures IsValue("{" + b + "}")
  {
  }

  lemma Brackets(b: string)
    requires b == "" || IsItems(b)
    ensures IsValue("[" + b + "]")
  {
  }

  lemma OneItem(v: string, rest: string, b: string)
    requires IsValue(v) && b == v + rest && (rest == "" || (rest[0] == ',' && IsItems(rest[1..])))
    ensures IsItems(b)
  {
    assert b == Glued("", "", v, rest);
  }

  lemma OneMember(k: string, c: string, v: string, rest: string, b: string)
    requires IsString(k) && IsColon(c) && IsValue(v) && b == k + c + v + rest
    requires rest == "" || (rest[0] == ',' && IsMembers(rest[1..]))
    ensures IsMembers(b)
  {
    assert b == Glued(k, c, v, rest);
  }

  lemma {:induction false} ItemsValid(st: Style, vs: seq<Value>)
    requires IsColon(st.colon) && forall i :: 0 <= i < |vs| ==> Integers(st, vs[i])
    ensures vs == [] || IsItems(RenderItems(st, vs))
    decreases vs
  {
    if vs != [] {
      RenderValid(st, vs[0]);
      ItemsValid(st, vs[1..]);
      var more := RenderItems(st, vs[1..]);
      var rest := (if |vs| > 1 then "," else "") + more;
      assert |vs| > 1 ==> rest[1..] == more;
      assert RenderItems(st, vs) == Render(st, vs[0]) + rest;
      OneItem(Render(st, vs[0]), rest, RenderItems(st, vs));
    }
  }

  lemma {:induction false} MembersValid(st: Style, ms: seq<Member>)
    requires IsColon(st.colon) && forall i :: 0 <= i < |ms| ==> Integers(st, ms[i].value)
    ensures ms == [] || IsMembers(RenderMembers(st, ms))
    decreases ms
  {
    if ms != [] {
      RenderValid(st, ms[0].value);
      QuoteValid(ms[0].key);
      MembersValid(st, ms[1..]);
      var more := RenderMembers(st, ms[1..]);
      var rest := (if |ms| > 1 then "," else "") + more;
      var k, v := Quote(ms[0].key), Render(st, ms[0].value);
      assert |ms| > 1 ==> rest[1..] == more;
      Assoc(k + st.colon + v, if |ms| > 1 then "," else "", more);
      OneMember(k, st.colon, v, rest, RenderMembers(st, ms));
    }
  }

  /** The stack machine's output for one value is a JSON text. */
  lemma StreamValid(v: Value)
    ensures IsValue(EmplaceAll(Machine(Empty, ""), Toks(v)).out)
  {
    var m := Machine(Empty, "");
    PrintsValue(m, v);
    assert EmplaceAll(m, Toks(v)).out == Render(STREAM, v);
    AllQuoted(v);
    assert STREAM.colon[0] == ':';
    RenderValid(STREAM, v);
  }

  lemma {:induction false} AllQuoted(v: Value)
    ensures Integers(STREAM, v)
    decreases v
  {
    match v
    case Obj(ms) =>
      forall i | 0 <= i < |ms| ensures Integers(STREAM, ms[i].value) {
        AllQuoted(ms[i].value);
      }
    case Arr(vs) =>
      forall i | 0 <= i < |vs| ensures Integers(STREAM, vs[i]) {
        AllQuoted(vs[i]);
      }
    case _ =>
  }
}
