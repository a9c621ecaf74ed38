/** Printing a JSON value and tokenizing the text. */
module JsonRoundTrip {
  import opened Text
  import opened JsonTypes
  import opened JsonPrinter
  import opened JsonLexer

  /** The value that comes back: control bytes without a short escape are gone, and
      numbers that were printed quoted are strings. */
  function ReadBack(st: Style, v: Value): Value {
    match v
    case Obj(ms) => Obj(ReadBackMembers(st, ms))
    case Arr(vs) => Arr(ReadBackItems(st, vs))
    case Str(s) => Str(Strip(s))
    case Num(d) => if st.bareNumbers then v else Str(Strip(d))
    case _ => v
  }

  function ReadBackMembers(st: Style, ms: seq<Member>): (r: seq<Member>)
    ensures |r| == |ms|
    ensures forall i :: 0 <= i < |ms| ==> r[i] == Member(Strip(ms[i].key), ReadBack(st, ms[i].value))
  {
    if ms == [] then []
    else [Member(Strip(ms[0].key), ReadBack(st, ms[0].value))] + ReadBackMembers(st, ms[1..])
  }

  function ReadBackItems(st: Style, vs: seq<Value>): (r: seq<Value>)
    ensures |r| == |vs|
    ensures forall i :: 0 <= i < |vs| ==> r[i] == ReadBack(st, vs[i])
  {
    if vs == [] then [] else [ReadBack(st, vs[0])] + ReadBackItems(st, vs[1..])
  }

  /** Bare numbers must look like numbers. */
  predicate Printable(st: Style, v: Value) {
    match v
    case Obj(ms) => forall i :: 0 <= i < |ms| ==> Printable(st, ms[i].value)
    case Arr(vs) => forall i :: 0 <= i < |vs| ==> Printable(st, vs[i])
    case Num(d) => st.bareNumbers ==> NumberText(d)
    case _ => true
  }

  predicate ColonText(s: string) { forall i :: 0 <= i < |s| ==> s[i] in ": " }

  /** What may follow a value in a text. */
  predicate Follows(rest: string) { rest == "" || rest[0] in ",}]" }

  lemma {:induction false} SkipColon(colon: string, rest: string)
    requires ColonText(colon) && rest != ""
    ensures LexAll(colon + rest) == LexAll(rest)
  {
    if colon == "" {
      assert colon + rest == rest;
    } else {
      var more := colon[1..] + rest;
      assert colon + rest == [colon[0]] + more;
      SkipBack1(colon[0], more);
      SkipColon(colon[1..], rest);
    }
  }

  /** Tokenizing a printed value gives the tokens of the value read back, then
      the tokens of the rest. */
  lemma {:induction false} ValueBack(st: Style, v: Value, rest: string)
    requires Printable(st, v) && ColonText(st.colon) && Follows(rest)
    ensures LexAll(Render(st, v) + rest) == Then(Toks(ReadBack(st, v)), LexAll(At(rest)))
    decreases v
  {
    match v
    case Obj(ms) =>
      MembersBack(st, ms, "}" + rest);
      BracketsBack(true, RenderMembers(st, ms), MemberToks(ReadBackMembers(st, ms)), rest);
    case Arr(vs) =>
      ItemsBack(st, vs, "]" + rest);
      BracketsBack(false, RenderItems(st, vs), ItemToks(ReadBackItems(st, vs)), rest);
    case _ => LeafBack(st, v, rest);
  }

  lemma LeafBack(st: Style, v: Value, rest: string)
    requires Printable(st, v) && Follows(rest) && !v.Obj? && !v.Arr?
    ensures LexAll(Render(st, v) + rest) == Then(Toks(ReadBack(st, v)), LexAll(At(rest)))
  {
    match v {
      case Str(s) => QuoteLex(s, rest);
      case Num(d) => if st.bareNumbers { NumberLex(d, rest); } else { QuoteLex(d, rest); }
      case Bool(b) => WordLex(if b then "true" else "false", if b then TrueTok else FalseTok, rest);
      case Null => WordLex("null", NullTok, rest);
    }
    var t := Toks(ReadBack(st, v))[0];
    assert Toks(ReadBack(st, v)) == [t];
    LexStep(Render(st, v) + rest, t, At(rest));
  }

  lemma BracketsBack(isObject: bool, text: string, inner: seq<Tok>, rest: string)
    requires LexAll(text + (CloseText(isObject) + rest)) == Then(inner, LexAll(CloseText(isObject) + rest))
    ensures LexAll(OpenText(isObject) + text + CloseText(isObject) + rest)
         == Then([OpenTok(isObject)] + inner + [CloseTok(isObject)], LexAll(At(rest)))
  {
    var open, close := OpenText(isObject), CloseText(isObject);
    var tail := text + (close + rest);
    assert open + text + close + rest == [open[0]] + tail;
    BracketLex(open[0], tail);
    LexStep([open[0]] + tail, OpenTok(isObject), tail);
    BracketLex(close[0], rest);
    assert close + rest == [close[0]] + rest;
    LexStep(close + rest, CloseTok(isObject), At(rest));
    ThenThen(inner, [CloseTok(isObject)], LexAll(At(rest)));
    ThenThen([OpenTok(isObject)], inner + [CloseTok(isObject)], LexAll(At(rest)));
    assert [OpenTok(isObject)] + (inner + [CloseTok(isObject)]) == [OpenTok(isObject)] + inner + [CloseTok(isObject)];
  }

  function Comma(more: bool): string { if more then "," else "" }

  lemma SkipComma(more: bool, rest: string)
    requires rest != ""
    ensures LexAll(Comma(more) + rest) == LexAll(rest)
  {
    if more { SkipBack1(',', rest); assert Comma(more) + rest == [','] + rest; }
    else { assert Comma(more) + rest == rest; }
  }

  lemma {:induction false} ItemsBack(st: Style, vs: seq<Value>, rest: string)
    requires ColonText(st.colon) && rest != "" && rest[0] == ']'
    requires forall i :: 0 <= i < |vs| ==> Printable(st, vs[i])
    ensures LexAll(RenderItems(st, vs) + rest) == Then(ItemToks(ReadBackItems(st, vs)), LexAll(rest))
    decreases vs
  {
    if vs == [] {
      assert RenderItems(st, vs) + rest == rest;
      assert LexAll(rest).Some? ==> [] + LexAll(rest).value == LexAll(rest).value;
    } else {
      var more := RenderItems(st, vs[1..]) + rest;
      var after := Comma(|vs| > 1) + more;
      ItemCut(Render(st, vs[0]), Comma(|vs| > 1), RenderItems(st, vs[1..]), rest);
      if |vs| == 1 { assert vs[1..] == []; assert after == rest; }
      ValueBack(st, vs[0], after);
      SkipComma(|vs| > 1, more);
      ItemsBack(st, vs[1..], rest);
      ThenThen(Toks(ReadBack(st, vs[0])), ItemToks(ReadBackItems(st, vs[1..])), LexAll(rest));
      assert ReadBackItems(st, vs)[1..] == ReadBackItems(st, vs[1..]);
    }
  }

  lemma ItemCut(v: string, comma: string, more: string, rest: string)
    ensures (v + comma + more) + rest == v + (comma + (more + rest))
  {
  }

  lemma {:induction false} MembersBack(st: Style, ms: seq<Member>, rest: string)
    requires ColonText(st.colon) && rest != "" && rest[0] == '}'
    requires forall i :: 0 <= i < |ms| ==> Printable(st, ms[i].value)
    ensures LexAll(RenderMembers(st, ms) + rest) == Then(MemberToks(ReadBackMembers(st, ms)), LexAll(rest))
    decreases ms
  {
    if ms == [] {
      assert RenderMembers(st, ms) + rest == rest;
      assert LexAll(rest).Some? ==> [] + LexAll(rest).value == LexAll(rest).value;
    } else {
      var v := Render(st, ms[0].value);
      var more := RenderMembers(st, ms[1..]) + rest;
      var after := Comma(|ms| > 1) + more;
      MemberCut(Quote(ms[0].key), st.colon, v, Comma(|ms| > 1), RenderMembers(st, ms[1..]), rest);
      if |ms| == 1 { assert ms[1..] == []; assert after == rest; }
      KeyBack(ms[0].key, st.colon, v + after);
      ValueBack(st, ms[0].value, after);
      SkipComma(|ms| > 1, more);
      MembersBack(st, ms[1..], rest);
      MemberJoin(Tok(StringTok, Strip(ms[0].key)), Toks(ReadBack(st, ms[0].value)),
                 MemberToks(ReadBackMembers(st, ms[1..])), LexAll(rest));
      assert ReadBackMembers(st, ms)[1..] == ReadBackMembers(st, ms[1..]);
    }
  }

  lemma KeyBack(key: string, colon: string, rest: string)
    requires ColonText(colon) && rest != ""
    ensures LexAll(Quote(key) + (colon + rest)) == Then([Tok(StringTok, Strip(key))], LexAll(rest))
  {
    QuoteLex(key, colon + rest);
    LexStep(Quote(key) + (colon + rest), Tok(StringTok, Strip(key)), colon + rest);
    SkipColon(colon, rest);
  }

  lemma MemberCut(k: string, colon: string, v: string, comma: string, more: string, rest: string)
    ensures (k + colon + v + comma + more) + rest == k + (colon + (v + (comma + (more + rest))))
  {
  }

  lemma MemberJoin(k: Tok, v: seq<Tok>, more: seq<Tok>, rest: Option<seq<Tok>>)
    ensures Then([k], Then(v, Then(more, rest))) == Then([k] + v + more, rest)
  {
    ThenThen(v, more, rest);
    ThenThen([k], v + more, rest);
    assert [k] + (v + more) == [k] + v + more;
  }

  // ------------------------------------------------------------------ whole texts

  /** Tokenizing a whole printed text: the stream starts on a blank. */
  lemma TextBack(st: Style, v: Value)
    requires Printable(st, v) && ColonText(st.colon)
    ensures LexAll(" " + Render(st, v)) == Some(Toks(ReadBack(st, v)))
  {
    var text := Render(st, v);
    SkipBack1(' ', text);
    assert text != "" by { RenderNonempty(st, v); }
    ValueBack(st, v, "");
    assert text + "" == text;
    ThenEnd(Toks(ReadBack(st, v)));
  }

  lemma ThenEnd(ts: seq<Tok>)
    ensures Then(ts, LexAll("\0")) == Some(ts)
  {
    assert Lex("\0") == End;
    assert ts + [] == ts;
  }

  lemma RenderNonempty(st: Style, v: Value)
    requires Printable(st, v)
    ensures Render(st, v) != ""
  {
  }

  // ------------------------------------------------------------ when it is the identity

  predicate AllKept(s: string) { forall i :: 0 <= i < |s| ==> Kept(s[i]) }

  /** Every string survives, and no number is printed quoted. */
  predicate Survives(st: Style, v: Value) {
    match v
    case Obj(ms) => forall i :: 0 <= i < |ms| ==> AllKept(ms[i].key) && Survives(st, ms[i].value)
    case Arr(vs) => forall i :: 0 <= i < |vs| ==> Survives(st, vs[i])
    case Str(s) => AllKept(s)
    case Num(_) => st.bareNumbers
    case _ => true
  }

  /** Reading back is the identity exactly on the values that survive. */
  lemma {:induction false} ReadBackIdentity(st: Style, v: Value)
    ensures ReadBack(st, v) == v <==> Survives(st, v)
    decreases v
  {
    match v
    case Obj(ms) =>
      forall i | 0 <= i < |ms|
        ensures ReadBack(st, ms[i].value) == ms[i].value <==> Survives(st, ms[i].value)
        ensures Strip(ms[i].key) == ms[i].key <==> AllKept(ms[i].key)
      {
        ReadBackIdentity(st, ms[i].value);
        StripIdentity(ms[i].key);
      }
      var r := ReadBackMembers(st, ms);
      assert (r == ms) == (forall i :: 0 <= i < |ms| ==> r[i] == ms[i]);
      assert forall i :: 0 <= i < |ms| ==> ((r[i] == ms[i]) <==> (r[i].key == ms[i].key && r[i].value == ms[i].value));
    case Arr(vs) =>
      forall i | 0 <= i < |vs|
        ensures ReadBack(st, vs[i]) == vs[i] <==> Survives(st, vs[i])
      {
        ReadBackIdentity(st, vs[i]);
      }
      var r := ReadBackItems(st, vs);
      assert (r == vs) == (forall i :: 0 <= i < |vs| ==> r[i] == vs[i]);
    case Str(s) => StripIdentity(s);
    case _ =>
  }
}
