/** What `toJSON` writes is JSON (`src/stx/protobuf/MessageSchema.cc`). */
module SchemaText {
  import opened Text
  import opened JsonTypes
  import opened JsonPrinter
  import opened JsonGrammar
  import opened JsonMeaning
  import opened SchemaTypes
  import opened SchemaJson

  lemma {:induction false} NoLeadingZero(n: nat)
    ensures Dec(n)[0] == '0' ==> n == 0
  {
    if n >= 10 { NoLeadingZero(n / 10); }
  }

  lemma DecIsInteger(n: int)
    ensures IsInteger(DecInt(n))
  {
    var d := Dec(if n < 0 then -n else n);
    NoLeadingZero(if n < 0 then -n else n);
    assert IsDigit(d[0]);
    if n < 0 { assert ("-" + d)[1..] == d; }
  }

  lemma {:induction false} SchemaIntegers(s: Schema)
    ensures Integers(SCHEMA, SchemaTree(s))
    decreases s, 0
  {
    forall i | 0 <= i < |s.fields| ensures Integers(SCHEMA, FieldTree(s.fields[i])) {
      FieldIntegers(s.fields[i]);
    }
    var ms := SchemaTree(s).members;
    assert Integers(SCHEMA, ms[1].value);
    forall i | 0 <= i < |ms| ensures Integers(SCHEMA, ms[i].value) {}
  }

  lemma NumberOk(n: int)
    ensures Integers(SCHEMA, Num(DecInt(n)))
  {
    DecIsInteger(n);
  }

  lemma PlainIntegers(f: Field, id: Value, size: Value)
    requires id == Num(DecInt(f.id)) && size == Num(DecInt(Signed(f.typeSize)))
    requires Integers(SCHEMA, id) && Integers(SCHEMA, size)
    ensures forall i :: 0 <= i < |PlainMembers(f)| ==> Integers(SCHEMA, PlainMembers(f)[i].value)
  {
    var ms := PlainMembers(f);
    assert ms[0].value == id && ms[3].value == size;
    assert ms[1].value.Str? && ms[2].value.Str? && ms[4].value.Bool? && ms[5].value.Bool? && ms[6].value.Str?;
  }

  lemma {:induction false} FieldIntegers(f: Field)
    ensures Integers(SCHEMA, FieldTree(f))
    decreases f, 1
  {
    NumberOk(f.id);
    NumberOk(Signed(f.typeSize));
    PlainIntegers(f, Num(DecInt(f.id)), Num(DecInt(Signed(f.typeSize))));
    if f.typ.OBJECT? { SchemaIntegers(f.typ.sub); }
    AllIntegers(FieldTree(f).members, PlainMembers(f));
  }

  lemma AllIntegers(ms: seq<Member>, plain: seq<Member>)
    requires plain <= ms && forall i :: 0 <= i < |plain| ==> Integers(SCHEMA, plain[i].value)
    requires forall i :: |plain| <= i < |ms| ==> Integers(SCHEMA, ms[i].value)
    ensures Integers(SCHEMA, Obj(ms))
  {
  }

  /** What `toJSON` writes is a JSON text, whatever the names hold. */
  lemma SchemaTextValid(s: Schema)
    ensures IsValue(Render(SCHEMA, SchemaTree(s)))
  {
    SchemaIntegers(s);
    assert SCHEMA.colon[0] == ':';
    RenderValid(SCHEMA, SchemaTree(s));
  }

  /** It says the schema's tree: the seven keys of each field, with the names unescaped. */
  lemma SchemaTextMeans(s: Schema)
    ensures Denotes(Render(SCHEMA, SchemaTree(s)), SchemaTree(s))
  {
    SchemaIntegers(s);
    assert SCHEMA.colon[0] == ':';
    RenderMeans(SCHEMA, SchemaTree(s));
  }
}
