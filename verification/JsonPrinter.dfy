/** The JSON output stream of `src/stx/json/jsonoutputstream.cc`: a printer fed
    token by token, which decides commas and colons from a stack of counters. */
module JsonPrinter {
  import opened Text
  import opened JsonTypes

  // ---------------------------------------------------------------------- escaping

  const BACKSPACE: char := '\U{08}'
  const FORM_FEED: char := '\U{0c}'

  /** One byte inside a string literal. */
  function EscapeChar(c: char): string {
    if c == BACKSPACE then "\\b"
    else if c == '\t' then "\\t"
    else if c == '\n' then "\\n"
    else if c == FORM_FEED then "\\f"
    else if c == '\r' then "\\r"
    else if c < ' ' then "\\u00" + [HexDigit(c as int / 16, 'a'), HexDigit(c as int % 16, 'a')]
    else if c == '\"' then "\\\""
    else if c == '\\' then "\\\\"
    else [c]
  }

  function Escape(s: string): string {
    if s == "" then "" else EscapeChar(s[0]) + Escape(s[1..])
  }

  method EscapeString(s: string) returns (r: string)
    ensures r == Escape(s)
  {
    r := "";
    assert s[0..] == s;
    for i := 0 to |s|
      invariant r + Escape(s[i..]) == Escape(s)
    {
      assert s[i..][1..] == s[i + 1..];
      assert r + (EscapeChar(s[i]) + Escape(s[i + 1..])) == r + EscapeChar(s[i]) + Escape(s[i + 1..]);
      r := r + EscapeChar(s[i]);
    }
  }

  function Quote(s: string): string { "\"" + Escape(s) + "\"" }

  // ------------------------------------------------------- the grammar's own printer

  /** How a text is laid out: what follows a key, and whether numbers are bare. */
  datatype Style = Style(colon: string, bareNumbers: bool)

  /** The stack machine prints numbers through `addString`, that is quoted. */
  const STREAM := Style(":", false)

  /** Sections 4 and 5 of RFC 8259, read as a printer. */
  function Render(st: Style, v: Value): string {
    match v
    case Obj(ms) => "{" + RenderMembers(st, ms) + "}"
    case Arr(vs) => "[" + RenderItems(st, vs) + "]"
    case Str(s) => Quote(s)
    case Num(s) => if st.bareNumbers then s else Quote(s)
    case Bool(b) => if b then "true" else "false"
    case Null => "null"
  }

  function RenderMembers(st: Style, ms: seq<Member>): string {
    if ms == [] then ""
    else
      Quote(ms[0].key) + st.colon + Render(st, ms[0].value)
      + (if |ms| > 1 then "," else "") + RenderMembers(st, ms[1..])
  }

  function RenderItems(st: Style, vs: seq<Value>): string {
    if vs == [] then ""
    else Render(st, vs[0]) + (if |vs| > 1 then "," else "") + RenderItems(st, vs[1..])
  }

  // --------------------------------------------------------------- the stack machine

  /** An entry of `stack_`: the container and the tokens printed in it so far. */
  datatype Frame = Frame(isObject: bool, count: nat)

  datatype Stack = Empty | Push(top: Frame, rest: Stack)

  datatype Machine = Machine(stack: Stack, out: string)

  function Pop(m: Machine): Machine {
    if m.stack.Empty? then m else m.(stack := m.stack.rest)
  }

  /** `n` more tokens in the innermost container. */
  function Count(m: Machine, n: nat): Machine {
    if m.stack.Empty? then m
    else m.(stack := Push(m.stack.top.(count := m.stack.top.count + n), m.stack.rest))
  }

  function Separator(m: Machine): string {
    if m.stack.Empty? || m.stack.top.count == 0 then ""
    else if m.stack.top.isObject && m.stack.top.count % 2 == 1 then ":"
    else ","
  }

  function Print(m: Machine, s: string): Machine { m.(out := m.out + s) }

  function Emplace(m: Machine, t: Tok): Machine {
    var sep := Print(m, Separator(m));
    match t.kind
    case ArrayEnd => Count(Pop(Print(m, "]")), 1)
    case ObjectEnd => Count(Pop(Print(m, "}")), 1)
    case ArrayBegin => Print(sep, "[").(stack := Push(Frame(false, 0), m.stack))
    case ObjectBegin => Print(sep, "{").(stack := Push(Frame(true, 0), m.stack))
    case StringTok => Count(Print(sep, Quote(t.data)), 1)
    case NumberTok => Count(Print(sep, Quote(t.data)), 1)
    case TrueTok => Count(Print(sep, "true"), 1)
    case FalseTok => Count(Print(sep, "false"), 1)
    case NullTok => Count(Print(sep, "null"), 1)
  }

  function EmplaceAll(m: Machine, ts: seq<Tok>): Machine
    decreases |ts|
  {
    if ts == [] then m else EmplaceAll(Emplace(m, ts[0]), ts[1..])
  }

  class JSONOutputStream {
    var stack: Stack
    var output: string

    constructor ()
      ensures View() == Machine(Empty, "")
    {
      stack, output := Empty, "";
    }

    ghost function View(): Machine reads this { Machine(stack, output) }

    method Write(s: string)
      modifies `output
      ensures output == old(output) + s
    {
      output := output + s;
    }

    method AddString(s: string)
      modifies `output
      ensures output == old(output) + Quote(s)
    {
      var e := EscapeString(s);
      output := output + ("\"" + e + "\"");
    }

    /** `addObjectEntry`: a key, a colon and a blank. */
    method AddObjectEntry(key: string)
      modifies `output
      ensures output == old(output) + (Quote(key) + ": ")
    {
      var e := EscapeString(key);
      output := output + (("\"" + e + "\"") + ": ");
    }

    method CountToken()
      modifies `stack
      ensures View() == Count(old(View()), 1)
    {
      if stack != Empty {
        stack := stack.(top := stack.top.(count := stack.top.count + 1));
      }
    }

    method PopFrame()
      modifies `stack
      ensures View() == Count(Pop(old(View())), 1)
    {
      if stack != Empty { stack := stack.rest; }
      CountToken();
    }

    method AddSeparator()
      modifies `output
      ensures View() == Print(old(View()), Separator(old(View())))
    {
      var sep := "";
      if stack != Empty && stack.top.count > 0 {
        if stack.top.isObject {
          sep := if stack.top.count % 2 == 0 then "," else ":";
        } else {
          sep := ",";
        }
      }
      Write(sep);
    }

    method EmplaceBack(t: Tok)
      modifies this
      ensures View() == Emplace(old(View()), t)
    {
      if t.kind == ArrayEnd {
        Write("]");
        PopFrame();
        return;
      }
      if t.kind == ObjectEnd {
        Write("}");
        PopFrame();
        return;
      }
      AddSeparator();
      match t.kind {
        case ArrayBegin =>
          Write("[");
          stack := Push(Frame(false, 0), stack);
        case ObjectBegin =>
          Write("{");
          stack := Push(Frame(true, 0), stack);
        case StringTok =>
          AddString(t.data);
          CountToken();
        case NumberTok =>
          AddString(t.data);
          CountToken();
        case TrueTok =>
          Write("true");
          CountToken();
        case FalseTok =>
          Write("false");
          CountToken();
        case NullTok =>
          Write("null");
          CountToken();
      }
    }

    /** `write`: all tokens of an object, in order. */
    method WriteTokens(ts: seq<Tok>)
      modifies this
      ensures View() == EmplaceAll(old(View()), ts)
    {
      assert ts[0..] == ts;
      for i := 0 to |ts|
        invariant EmplaceAll(View(), ts[i..]) == EmplaceAll(old(View()), ts)
      {
        assert ts[i..][1..] == ts[i + 1..];
        EmplaceBack(ts[i]);
      }
    }

    /** Writing a value with an empty stack prints its text and nothing else. */
    method WriteValue(v: Value)
      requires stack == Empty
      modifies this
      ensures stack == Empty && output == old(output) + Render(STREAM, v)
    {
      PrintsValue(View(), v);
      WriteTokens(Toks(v));
      assert "" + Render(STREAM, v) == Render(STREAM, v);
    }
  }

  // -------------------------------------------------- the machine prints the grammar

  lemma {:induction false} EmplaceAllConcat(m: Machine, a: seq<Tok>, b: seq<Tok>)
    ensures EmplaceAll(m, a + b) == EmplaceAll(EmplaceAll(m, a), b)
    decreases |a|
  {
    if a == [] {
      assert a + b == b;
    } else {
      assert (a + b)[1..] == a[1..] + b;
      EmplaceAllConcat(Emplace(m, a[0]), a[1..], b);
    }
  }

  lemma EmplaceOne(m: Machine, t: Tok)
    ensures EmplaceAll(m, [t]) == Emplace(m, t)
  {
    assert [t][1..] == [];
  }

  /** The comma in front of the rest of a container. */
  function Lead(m: Machine, more: bool): string
    requires m.stack.Push?
  {
    if more && m.stack.top.count > 0 then "," else ""
  }

  /** In any context, the tokens of a value print its separator and its text, and
      count as one. */
  lemma {:induction false} PrintsValue(m: Machine, v: Value)
    ensures EmplaceAll(m, Toks(v)) == Count(Print(m, Separator(m) + Render(STREAM, v)), 1)
    decreases v
  {
    match v
    case Obj(ms) =>
      PrintsMembers(Emplace(m, OpenTok(true)), ms);
      Bracketed(m, true, MemberToks(ms), RenderMembers(STREAM, ms), 2 * |ms|);
    case Arr(vs) =>
      PrintsItems(Emplace(m, OpenTok(false)), vs);
      Bracketed(m, false, ItemToks(vs), RenderItems(STREAM, vs), |vs|);
    case _ => PrintsLeaf(m, v);
  }

  lemma PrintsLeaf(m: Machine, v: Value)
    requires !v.Obj? && !v.Arr?
    ensures EmplaceAll(m, Toks(v)) == Count(Print(m, Separator(m) + Render(STREAM, v)), 1)
  {
    var t := Toks(v)[0];
    assert Toks(v) == [t];
    EmplaceOne(m, t);
    Assoc(m.out, Separator(m), Render(STREAM, v));
  }

  function OpenText(isObject: bool): string { if isObject then "{" else "[" }
  function CloseText(isObject: bool): string { if isObject then "}" else "]" }
  function OpenTok(isObject: bool): Tok { Tok(if isObject then ObjectBegin else ArrayBegin, "") }
  function CloseTok(isObject: bool): Tok { Tok(if isObject then ObjectEnd else ArrayEnd, "") }

  /** Brackets around tokens that print `text`: leaving the container pops its
      frame, whatever was counted in it. */
  lemma Bracketed(m: Machine, isObject: bool, inner: seq<Tok>, text: string, n: nat)
    requires var m1 := Emplace(m, OpenTok(isObject)); EmplaceAll(m1, inner) == Count(Print(m1, "" + text), n)
    ensures EmplaceAll(m, [OpenTok(isObject)] + inner + [CloseTok(isObject)])
         == Count(Print(m, Separator(m) + (OpenText(isObject) + text + CloseText(isObject))), 1)
  {
    var open, close := OpenTok(isObject), CloseTok(isObject);
    EmplaceAllConcat(m, [open] + inner, [close]);
    EmplaceAllConcat(m, [open], inner);
    EmplaceOne(m, open);
    EmplaceOne(EmplaceAll(Emplace(m, open), inner), close);
    assert "" + text == text;
    BracketText(m.out, Separator(m), OpenText(isObject), text, CloseText(isObject));
  }

  lemma BracketText(out: string, sep: string, open: string, inner: string, close: string)
    ensures out + sep + open + inner + close == out + (sep + (open + inner + close))
  {
  }

  lemma {:induction false} PrintsItems(m: Machine, vs: seq<Value>)
    requires m.stack.Push? && !m.stack.top.isObject
    ensures EmplaceAll(m, ItemToks(vs)) == Count(Print(m, Lead(m, vs != []) + RenderItems(STREAM, vs)), |vs|)
    decreases vs
  {
    if vs == [] {
      assert m.out + ("" + "") == m.out;
    } else {
      PrintsValue(m, vs[0]);
      var m1 := Count(Print(m, Lead(m, true) + Render(STREAM, vs[0])), 1);
      PrintsItems(m1, vs[1..]);
      ItemStep(m, Toks(vs[0]), Lead(m, true), Render(STREAM, vs[0]), m1,
               ItemToks(vs[1..]), Lead(m1, vs[1..] != []), RenderItems(STREAM, vs[1..]), |vs| - 1);
    }
  }

  lemma ItemStep(m: Machine, a: seq<Tok>, sep: string, v: string, m1: Machine,
                 b: seq<Tok>, comma: string, rest: string, n: nat)
    requires m1 == Count(Print(m, sep + v), 1) && EmplaceAll(m, a) == m1
    requires EmplaceAll(m1, b) == Count(Print(m1, comma + rest), n)
    ensures EmplaceAll(m, a + b) == Count(Print(m, sep + (v + comma + rest)), n + 1)
  {
    EmplaceAllConcat(m, a, b);
    ItemText(m.out, sep, v, comma, rest);
    CountTwice(m, sep + v, comma + rest, sep + (v + comma + rest), 1, n);
  }

  lemma CountTwice(m: Machine, a: string, b: string, c: string, i: nat, j: nat)
    requires m.out + a + b == m.out + c
    ensures Count(Print(Count(Print(m, a), i), b), j) == Count(Print(m, c), j + i)
  {
  }

  lemma ItemText(out: string, sep: string, v: string, comma: string, rest: string)
    ensures out + (sep + v) + (comma + rest) == out + (sep + (v + comma + rest))
  {
  }

  lemma {:induction false} PrintsMembers(m: Machine, ms: seq<Member>)
    requires m.stack.Push? && m.stack.top.isObject && m.stack.top.count % 2 == 0
    ensures EmplaceAll(m, MemberToks(ms)) == Count(Print(m, Lead(m, ms != []) + RenderMembers(STREAM, ms)), 2 * |ms|)
    decreases ms
  {
    if ms == [] {
      assert m.out + ("" + "") == m.out;
      assert 2 * |ms| == 0;
    } else {
      PrintsMember(m, ms[0]);
      MemberStates(m, Lead(m, true), Quote(ms[0].key), ":" + Render(STREAM, ms[0].value));
      PrintsMembers(AfterValue(m, ms[0]), ms[1..]);
      MembersTogether(m, ms, MemberToks(ms), RenderMembers(STREAM, ms));
    }
  }

  /** After the first key, and after its value. */
  function AfterKey(m: Machine, member: Member): Machine
    requires m.stack.Push?
  {
    Count(Print(Print(m, Lead(m, true)), Quote(member.key)), 1)
  }

  function AfterValue(m: Machine, member: Member): Machine
    requires m.stack.Push?
  {
    Count(Print(AfterKey(m, member), ":" + Render(STREAM, member.value)), 1)
  }

  lemma {:induction false} PrintsMember(m: Machine, member: Member)
    requires m.stack.Push? && m.stack.top.isObject && m.stack.top.count % 2 == 0
    ensures EmplaceAll(AfterKey(m, member), Toks(member.value)) == AfterValue(m, member)
    decreases member
  {
    MemberStates(m, Lead(m, true), Quote(member.key), ":" + Render(STREAM, member.value));
    PrintsValue(AfterKey(m, member), member.value);
  }

  lemma MembersTogether(m: Machine, ms: seq<Member>, toks: seq<Tok>, text: string)
    requires m.stack.Push? && m.stack.top.isObject && m.stack.top.count % 2 == 0 && ms != []
    requires toks == MemberToks(ms) && text == RenderMembers(STREAM, ms)
    requires EmplaceAll(AfterKey(m, ms[0]), Toks(ms[0].value)) == AfterValue(m, ms[0])
    requires var m2 := AfterValue(m, ms[0]);
      m2.stack.Push? && EmplaceAll(m2, MemberToks(ms[1..]))
      == Count(Print(m2, Lead(m2, ms[1..] != []) + RenderMembers(STREAM, ms[1..])), 2 * |ms[1..]|)
    ensures EmplaceAll(m, toks) == Count(Print(m, Lead(m, true) + text), 2 * |ms|)
  {
    var n, comma := 2 * |ms[1..]|, if |ms| > 1 then "," else "";
    MemberStates(m, Lead(m, true), Quote(ms[0].key), ":" + Render(STREAM, ms[0].value));
    assert Lead(AfterValue(m, ms[0]), ms[1..] != []) == comma;
    MembersUnfold(ms, comma);
    MemberStep(m, ms[0], MemberToks(ms[1..]), comma, RenderMembers(STREAM, ms[1..]), n, toks, text);
    assert n + 2 == 2 * |ms|;
  }

  lemma MembersUnfold(ms: seq<Member>, comma: string)
    requires ms != [] && comma == if |ms| > 1 then "," else ""
    ensures MemberToks(ms) == [Tok(StringTok, ms[0].key)] + Toks(ms[0].value) + MemberToks(ms[1..])
    ensures RenderMembers(STREAM, ms) == Quote(ms[0].key) + ":" + Render(STREAM, ms[0].value)
                                         + comma + RenderMembers(STREAM, ms[1..])
  {
  }

  /** A colon is due after a key, and the count is even again after its value. */
  lemma MemberStates(m: Machine, sep: string, key: string, v: string)
    requires m.stack.Push? && m.stack.top.isObject && m.stack.top.count % 2 == 0
    ensures var m1 := Count(Print(Print(m, sep), key), 1);
      var m2 := Count(Print(m1, v), 1);
      Separator(m1) == ":" && m2.stack.Push? && m2.stack.top.isObject && m2.stack.top.count % 2 == 0
      && Lead(m2, true) == "," && Lead(m2, false) == ""
  {
  }

  lemma MemberStep(m: Machine, member: Member, b: seq<Tok>, comma: string, rest: string, n: nat,
                   toks: seq<Tok>, text: string)
    requires m.stack.Push? && m.stack.top.isObject && m.stack.top.count % 2 == 0
    requires toks == [Tok(StringTok, member.key)] + Toks(member.value) + b
    requires text == Quote(member.key) + ":" + Render(STREAM, member.value) + comma + rest
    requires EmplaceAll(AfterKey(m, member), Toks(member.value)) == AfterValue(m, member)
    requires EmplaceAll(AfterValue(m, member), b) == Count(Print(AfterValue(m, member), comma + rest), n)
    ensures EmplaceAll(m, toks) == Count(Print(m, Lead(m, true) + text), n + 2)
  {
    var k, v := Quote(member.key), Render(STREAM, member.value);
    KeyPrinted(m, member);
    MemberTokens(m, Tok(StringTok, member.key), Toks(member.value), AfterKey(m, member), b);
    MemberText(m.out, Lead(m, true), k, v, comma, rest);
    CountThrice(m, Lead(m, true), k, ":" + v, comma + rest, Lead(m, true) + text, n);
  }

  lemma KeyPrinted(m: Machine, member: Member)
    requires m.stack.Push? && m.stack.top.isObject && m.stack.top.count % 2 == 0
    ensures Emplace(m, Tok(StringTok, member.key)) == AfterKey(m, member)
  {
  }

  lemma MemberTokens(m: Machine, key: Tok, a: seq<Tok>, m1: Machine, b: seq<Tok>)
    requires Emplace(m, key) == m1
    ensures EmplaceAll(m, [key] + a + b) == EmplaceAll(EmplaceAll(m1, a), b)
  {
    EmplaceAllConcat(m, [key] + a, b);
    EmplaceAllConcat(m, [key], a);
    EmplaceOne(m, key);
  }

  lemma CountThrice(m: Machine, a: string, b: string, c: string, d: string, text: string, n: nat)
    requires m.out + a + b + c + d == m.out + text
    ensures Count(Print(Count(Print(Count(Print(Print(m, a), b), 1), c), 1), d), n) == Count(Print(m, text), n + 2)
  {
  }

  lemma MemberText(out: string, sep: string, k: string, v: string, comma: string, rest: string)
    ensures out + sep + k + (":" + v) + (comma + rest) == out + (sep + (k + ":" + v + comma + rest))
  {
  }
}
