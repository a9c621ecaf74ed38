/** Schemas that others wrote: what `fromJSON` makes of a column by its keys, wherever they
    are, and of columns that leave keys out. */
module SchemaColumns {
  import opened Text
  import opened JsonTypes
  import opened JsonLookup
  import opened SchemaTypes
  import opened SchemaJson

  /** The type names in lower case. */
  function TypeOfWord(w: string): Option<TypeTag> {
    if w == "object" then Some(ObjectTag) else if w == "boolean" then Some(Plain(BOOLEAN))
    else if w == "uint32" then Some(Plain(UINT32)) else if w == "uint64" then Some(Plain(UINT64))
    else if w == "string" then Some(Plain(STRING)) else if w == "double" then Some(Plain(DOUBLE))
    else if w == "datetime" then Some(Plain(DATETIME)) else None
  }

  lemma SameCase(s: string, upper: string, lower: string)
    requires UpperAll(lower) == upper && LowerAll(upper) == lower
    ensures UpperAll(s) == upper <==> LowerAll(s) == lower
  {
    if UpperAll(s) == upper { CaseBack(s); } else if LowerAll(s) == lower { CaseBack(s); }
  }

  lemma CaseBack(s: string)
    ensures LowerAll(UpperAll(s)) == LowerAll(s) && UpperAll(LowerAll(s)) == UpperAll(s)
  {
  }

  lemma SomeWords(s: string)
    ensures UpperAll(s) == "OBJECT" <==> LowerAll(s) == "object"
    ensures UpperAll(s) == "BOOLEAN" <==> LowerAll(s) == "boolean"
    ensures UpperAll(s) == "STRING" <==> LowerAll(s) == "string"
  {
    SameCase(s, "OBJECT", "object");
    SameCase(s, "BOOLEAN", "boolean");
    SameCase(s, "STRING", "string");
  }

  lemma OtherWords(s: string)
    ensures UpperAll(s) == "UINT32" <==> LowerAll(s) == "uint32"
    ensures UpperAll(s) == "UINT64" <==> LowerAll(s) == "uint64"
    ensures UpperAll(s) == "DOUBLE" <==> LowerAll(s) == "double"
    ensures UpperAll(s) == "DATETIME" <==> LowerAll(s) == "datetime"
  {
    SameCase(s, "UINT32", "uint32");
    SameCase(s, "UINT64", "uint64");
    SameCase(s, "DOUBLE", "double");
    SameCase(s, "DATETIME", "datetime");
  }

  /** A type is named in any case. */
  lemma AnyCase(s: string)
    ensures TypeFromName(s) == TypeOfWord(LowerAll(s))
  {
    SomeWords(s);
    OtherWords(s);
  }

  /** The value under a key, if any. */
  ghost predicate Has(v: Value, key: string, x: Option<Value>) { v.Obj? && Get(v, key) == Ok(x) }

  /** A number in quotes or without. */
  predicate NumberValue(x: Value, n: nat) { x == Num(Dec(n)) || x == Str(Dec(n)) }

  lemma NumberGiven(v: Value, key: string, x: Value, n: nat)
    requires Has(v, key, Some(x)) && NumberValue(x, n)
    ensures GetUInt64(v, key) == if n < 18446744073709551616 then Ok(Some(n)) else Err
  {
    PlainNumber(Dec(n), n);
  }

  lemma PlainNumber(d: string, n: nat)
    requires d == Dec(n)
    ensures Stoul(d) == if n < 18446744073709551616 then Some(n) else None
  {
    ScanDec(n);
  }

  /** What the getters make of each kind of value: text is text, numbers may be in quotes and
      then have to be numbers, and anything else counts as absent. */
  lemma Getters(v: Value, key: string, x: Option<Value>)
    requires Has(v, key, x)
    ensures GetString(v, key) == Ok(if x.Some? && x.value.Str? then Some(x.value.text) else None)
    ensures x.None? || !(x.value.Str? || x.value.Num?) ==> GetUInt64(v, key) == Ok(None)
    ensures forall t :: x == Some(Str(t)) || x == Some(Num(t)) ==>
      GetUInt64(v, key) == if Stoul(t).None? then Err else Ok(Stoul(t))
  {
  }

  /** A value that is no object has no keys to look for. */
  lemma NoObject(v: Value, key: string)
    requires !v.Obj?
    ensures GetString(v, key) == Err && GetUInt64(v, key) == Err && GetBool(v, key) == Err
    ensures FieldFrom(v) == Err && FromTree(v) == Err
  {
  }

  /** A truth value, or one of four words; every other value counts as absent. */
  lemma FlagGiven(v: Value, key: string, x: Option<Value>)
    requires Has(v, key, x)
    ensures GetBool(v, key).Ok?
    ensures GetBool(v, key).value == Some(true) <==> x in [Some(Bool(true)), Some(Str("true")), Some(Str("TRUE"))]
    ensures GetBool(v, key).value == Some(false) <==> x in [Some(Bool(false)), Some(Str("false")), Some(Str("FALSE"))]
  {
  }

  predicate IsTrue(x: Option<Value>) { x in [Some(Bool(true)), Some(Str("true")), Some(Str("TRUE"))] }

  lemma FlagIs(v: Value, key: string, x: Option<Value>)
    requires Has(v, key, x)
    ensures GetBool(v, key).Ok? && OrElse(GetBool(v, key).value, false) == IsTrue(x)
  {
    FlagGiven(v, key, x);
  }

  /** A column is read by its keys, wherever they are among the others.  The id loses what is
      above 32 bits; a size is zero when it is absent or the field is an object; a flag is
      false when it is absent, and so is the hint always. */
  lemma ColumnRead(v: Value, idValue: Value, id: nat, name: string, word: string, sizeValue: Option<Value>, size: nat,
                   optional: Option<Value>, repeated: Option<Value>)
    requires Has(v, "id", Some(idValue)) && NumberValue(idValue, id) && id < 18446744073709551616
    requires Has(v, "name", Some(Str(name))) && Has(v, "type", Some(Str(word)))
    requires Has(v, "type_size", sizeValue) && size < 18446744073709551616
    requires if sizeValue.None? then size == 0 else NumberValue(sizeValue.value, size)
    requires Has(v, "optional", optional) && Has(v, "repeated", repeated)
    ensures FieldFrom(v) ==
      match TypeOfWord(LowerAll(word))
      case None => Err
      case Some(Plain(t)) => Ok(Field(id % 4294967296, name, t, size, IsTrue(repeated), IsTrue(optional), NONE))
      case Some(ObjectTag) =>
        var sub := SubSchema(v);
        if sub.Err? then Err
        else Ok(Field(id % 4294967296, name, OBJECT(sub.value), 0, IsTrue(repeated), IsTrue(optional), NONE))
  {
    NumberGiven(v, "id", idValue, id);
    if sizeValue.Some? { NumberGiven(v, "type_size", sizeValue.value, size); }
    FlagIs(v, "optional", optional);
    FlagIs(v, "repeated", repeated);
    AnyCase(word);
  }

  /** The sub-schema of an object is under the key `schema`, and has to be there. */
  lemma SubSchemaRead(v: Value, x: Option<Value>)
    requires Has(v, "schema", x)
    ensures SubSchema(v) == if x.None? then Err else FromTree(x.value)
  {
  }

  /** Without an id, a name or a type that are a number or a string, a column is refused. */
  lemma ColumnRefused(v: Value, x: Option<Value>)
    requires (Has(v, "id", x) && (x.None? || !(x.value.Num? || x.value.Str?)))
      || (Has(v, "name", x) && (x.None? || !x.value.Str?)) || (Has(v, "type", x) && (x.None? || !x.value.Str?))
    ensures FieldFrom(v) == Err
  {
  }

  /** A schema may lack its name, but not its columns; columns are read in order. */
  lemma SchemaRead(v: Value, name: Option<Value>, columns: Option<Value>)
    requires Has(v, "name", name) && Has(v, "columns", columns)
    ensures FromTree(v) ==
      if columns.None? || !columns.value.Arr? || FieldsFrom(columns.value.items).Err? then Err
      else Ok(Schema(if name.Some? && name.value.Str? then name.value.text else "",
                     FieldsFrom(columns.value.items).value))
  {
  }

  lemma {:induction false} ColumnsInOrder(vs: seq<Value>)
    requires FieldsFrom(vs).Ok?
    ensures |FieldsFrom(vs).value| == |vs|
    ensures forall i :: 0 <= i < |vs| ==> FieldFrom(vs[i]) == Ok(FieldsFrom(vs).value[i])
  {
    if vs != [] {
      ColumnsInOrder(vs[1..]);
      var fs, more := FieldsFrom(vs).value, FieldsFrom(vs[1..]).value;
      forall i | 0 <= i < |vs| ensures FieldFrom(vs[i]) == Ok(fs[i]) {
        if i > 0 { assert vs[i] == vs[1..][i - 1] && fs[i] == more[i - 1]; }
      }
    }
  }

  /** One refused column refuses the schema. */
  lemma {:induction false} RefusedColumn(vs: seq<Value>)
    requires FieldsFrom(vs).Err?
    ensures exists i :: 0 <= i < |vs| && FieldFrom(vs[i]) == Err
  {
    if FieldFrom(vs[0]).Ok? {
      RefusedColumn(vs[1..]);
      var i :| 0 <= i < |vs| - 1 && FieldFrom(vs[1..][i]) == Err;
      assert FieldFrom(vs[i + 1]) == Err;
    }
  }

  /** Every column is written with the hint that says none. */
  lemma HintWritten(f: Field)
    ensures GetString(FieldTree(f), "encoding_hint") == Ok(Some("NONE"))
  {
    GetIs(FieldTree(f), "encoding_hint", 6);
  }
}
