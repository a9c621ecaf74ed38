/** JSON values, the token vector with skip sizes (`src/stx/json/jsontypes.h`),
    and the vector that stands for a value. */
module JsonTypes {

  datatype Kind =
    | ObjectBegin | ObjectEnd | ArrayBegin | ArrayEnd
    | StringTok | NumberTok | TrueTok | FalseTok | NullTok

  /** A token as the tokenizer hands it out. */
  datatype Tok = Tok(kind: Kind, data: string)

  /** `JSONToken`: `size` counts the tokens up to and including the matching closer. */
  datatype JSONToken = JSONToken(kind: Kind, data: string, size: nat)

  datatype Value =
    | Obj(members: seq<Member>)
    | Arr(items: seq<Value>)
    | Str(text: string)
    | Num(digits: string)
    | Bool(b: bool)
    | Null

  datatype Member = Member(key: string, value: Value)

  function Leaf(k: Kind, data: string): JSONToken { JSONToken(k, data, 1) }

  /** The vector that stands for `v`. */
  function Flat(v: Value): (r: seq<JSONToken>)
    ensures r != [] && r[0].size == |r|
  {
    match v
    case Obj(ms) =>
      var inner := FlatMembers(ms);
      [JSONToken(ObjectBegin, "", |inner| + 2)] + inner + [Leaf(ObjectEnd, "")]
    case Arr(vs) =>
      var inner := FlatItems(vs);
      [JSONToken(ArrayBegin, "", |inner| + 2)] + inner + [Leaf(ArrayEnd, "")]
    case Str(s) => [Leaf(StringTok, s)]
    case Num(s) => [Leaf(NumberTok, s)]
    case Bool(b) => [Leaf(if b then TrueTok else FalseTok, "")]
    case Null => [Leaf(NullTok, "")]
  }

  function FlatMembers(ms: seq<Member>): seq<JSONToken> {
    if ms == [] then []
    else [Leaf(StringTok, ms[0].key)] + Flat(ms[0].value) + FlatMembers(ms[1..])
  }

  function FlatItems(vs: seq<Value>): seq<JSONToken> {
    if vs == [] then [] else Flat(vs[0]) + FlatItems(vs[1..])
  }

  /** The same tokens without sizes. */
  function Bare(ts: seq<JSONToken>): (r: seq<Tok>)
    ensures |r| == |ts|
    ensures forall i :: 0 <= i < |ts| ==> r[i] == Tok(ts[i].kind, ts[i].data)
  {
    seq(|ts|, i requires 0 <= i < |ts| => Tok(ts[i].kind, ts[i].data))
  }

  /** The token list of a value, as the tokenizer or a program produces it. */
  function Toks(v: Value): seq<Tok> {
    match v
    case Obj(ms) => [Tok(ObjectBegin, "")] + MemberToks(ms) + [Tok(ObjectEnd, "")]
    case Arr(vs) => [Tok(ArrayBegin, "")] + ItemToks(vs) + [Tok(ArrayEnd, "")]
    case Str(s) => [Tok(StringTok, s)]
    case Num(s) => [Tok(NumberTok, s)]
    case Bool(b) => [Tok(if b then TrueTok else FalseTok, "")]
    case Null => [Tok(NullTok, "")]
  }

  function MemberToks(ms: seq<Member>): seq<Tok> {
    if ms == [] then []
    else [Tok(StringTok, ms[0].key)] + Toks(ms[0].value) + MemberToks(ms[1..])
  }

  function ItemToks(vs: seq<Value>): seq<Tok> {
    if vs == [] then [] else Toks(vs[0]) + ItemToks(vs[1..])
  }

  lemma BareConcat(a: seq<JSONToken>, b: seq<JSONToken>)
    ensures Bare(a + b) == Bare(a) + Bare(b)
  {
  }

  lemma {:induction false} BareFlat(v: Value)
    ensures Bare(Flat(v)) == Toks(v)
    decreases v
  {
    match v
    case Obj(ms) => BareFlatMembers(ms);
    case Arr(vs) => BareFlatItems(vs);
    case _ =>
  }

  lemma {:induction false} BareFlatMembers(ms: seq<Member>)
    ensures Bare(FlatMembers(ms)) == MemberToks(ms)
    decreases ms
  {
    if ms != [] {
      BareFlat(ms[0].value);
      BareFlatMembers(ms[1..]);
      BareConcat([Leaf(StringTok, ms[0].key)] + Flat(ms[0].value), FlatMembers(ms[1..]));
      BareConcat([Leaf(StringTok, ms[0].key)], Flat(ms[0].value));
    }
  }

  lemma {:induction false} BareFlatItems(vs: seq<Value>)
    ensures Bare(FlatItems(vs)) == ItemToks(vs)
    decreases vs
  {
    if vs != [] {
      BareFlat(vs[0]);
      BareFlatItems(vs[1..]);
      BareConcat(Flat(vs[0]), FlatItems(vs[1..]));
    }
  }
}
