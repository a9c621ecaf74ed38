/** `MessageSchema::toJSON` and `fromJSON`: a schema written as JSON text, parsed
    into a token vector, and read back with lookups on it. */
module SchemaJson {
  import opened Text
  import opened JsonTypes
  import opened JsonPrinter
  import opened JsonLexer
  import opened JsonRoundTrip
  import opened JsonIndex
  import opened JsonLookup
  import opened SchemaTypes

  /** `addObjectEntry` writes a blank after the colon; `addInteger` writes digits. */
  const SCHEMA := Style(": ", true)

  // ------------------------------------------------------------------ as a JSON value

  /** `addInteger` takes an `int64_t`: large sizes come out negative. */
  function Signed(n: nat): int { if n < TWO64 / 2 then n else n - TWO64 }

  function SchemaTree(s: Schema): Value {
    Obj([Member("name", Str(s.name)), Member("columns", Arr(FieldTrees(s.fields)))])
  }

  function FieldTrees(fs: seq<Field>): (r: seq<Value>)
    ensures |r| == |fs|
    ensures forall i :: 0 <= i < |fs| ==> r[i] == FieldTree(fs[i])
  {
    if fs == [] then [] else [FieldTree(fs[0])] + FieldTrees(fs[1..])
  }

  function PlainMembers(f: Field): seq<Member> {
    [Member("id", Num(Dec(f.id))),
     Member("name", Str(f.name)),
     Member("type", Str(TypeName(f.typ))),
     Member("type_size", Num(DecInt(Signed(f.typeSize)))),
     Member("optional", Bool(f.optional)),
     Member("repeated", Bool(f.repeated)),
     Member("encoding_hint", Str("NONE"))]
  }

  function FieldTree(f: Field): Value {
    Obj(PlainMembers(f) + match f.typ { case OBJECT(sub) => [Member("schema", SchemaTree(sub))] case _ => [] })
  }

  // ----------------------------------------------------------------------- writing

  lemma {:induction false} MembersSnoc(st: Style, ms: seq<Member>, m: Member)
    ensures RenderMembers(st, ms + [m]) ==
      RenderMembers(st, ms) + (if ms == [] then "" else ",") + (Quote(m.key) + st.colon + Render(st, m.value))
  {
    var last := Quote(m.key) + st.colon + Render(st, m.value);
    if ms == [] {
      assert ms + [m] == [m] && [m][1..] == [];
      assert last + "" + "" == "" + "" + last;
    } else {
      assert (ms + [m])[1..] == ms[1..] + [m];
      MembersSnoc(st, ms[1..], m);
      var first := Quote(ms[0].key) + st.colon + Render(st, ms[0].value);
      if |ms| == 1 {
        assert ms[1..] == [];
        assert first + "," + ("" + "" + last) == first + "" + "" + "," + last;
      } else {
        SnocText(first, RenderMembers(st, ms[1..]), last);
      }
    }
  }

  lemma SnocText(first: string, rest: string, last: string)
    ensures first + "," + (rest + "," + last) == first + "," + rest + "," + last
  {
  }

  lemma {:induction false} ItemsSnoc(st: Style, vs: seq<Value>, v: Value)
    ensures RenderItems(st, vs + [v]) ==
      RenderItems(st, vs) + (if vs == [] then "" else ",") + Render(st, v)
  {
    var last := Render(st, v);
    if vs == [] {
      assert vs + [v] == [v] && [v][1..] == [];
      assert last + "" + "" == "" + "" + last;
    } else {
      assert (vs + [v])[1..] == vs[1..] + [v];
      ItemsSnoc(st, vs[1..], v);
      var first := Render(st, vs[0]);
      if |vs| == 1 {
        assert vs[1..] == [];
        assert first + "," + ("" + "" + last) == first + "" + "" + "," + last;
      } else {
        SnocText(first, RenderItems(st, vs[1..]), last);
      }
    }
  }

  /** The comma and the key of the next member. */
  method PutKey(json: JSONOutputStream, first: bool, key: string)
    modifies json`output
    ensures json.output == old(json.output) + (if first then "" else ",") + (Quote(key) + ": ")
  {
    json.Write(if first then "" else ",");
    json.AddObjectEntry(key);
  }

  /** One more member, of a plain value, after `ms`. */
  method PutMember(json: JSONOutputStream, ghost start: string, ghost ms: seq<Member>, first: bool, m: Member)
    requires json.output == start + RenderMembers(SCHEMA, ms) && first == (ms == [])
    requires !m.value.Obj? && !m.value.Arr?
    modifies json`output
    ensures json.output == start + RenderMembers(SCHEMA, ms + [m])
  {
    PutKey(json, first, m.key);
    match m.value {
      case Str(s) => json.AddString(s);
      case Num(d) => json.Write(d);
      case Bool(b) => json.Write(if b then "true" else "false");
      case Null => json.Write("null");
    }
    MembersSnoc(SCHEMA, ms, m);
    PutText(start, RenderMembers(SCHEMA, ms), if first then "" else ",", Quote(m.key), Render(SCHEMA, m.value));
  }

  lemma PutText(start: string, ms: string, comma: string, key: string, v: string)
    ensures start + ms + comma + (key + ": ") + v == start + (ms + comma + (key + ": " + v))
  {
  }

  /** The members of a field that are plain values. */
  method PutMembers(json: JSONOutputStream, ms: seq<Member>)
    requires forall i :: 0 <= i < |ms| ==> !ms[i].value.Obj? && !ms[i].value.Arr?
    modifies json`output
    ensures json.output == old(json.output) + RenderMembers(SCHEMA, ms)
  {
    ghost var start := json.output;
    assert start + "" == start && ms[..0] == [];
    for i := 0 to |ms|
      invariant json.output == start + RenderMembers(SCHEMA, ms[..i])
    {
      assert ms[..i] + [ms[i]] == ms[..i + 1];
      PutMember(json, start, ms[..i], i == 0, ms[i]);
    }
    assert ms[..|ms|] == ms;
  }

  method FieldToJSON(json: JSONOutputStream, f: Field)
    modifies json`output
    ensures json.output == old(json.output) + Render(SCHEMA, FieldTree(f))
    decreases f
  {
    ghost var start := json.output + "{";
    json.Write("{");
    var ms := PlainMembers(f);
    PutMembers(json, ms);
    ghost var all := ms;
    if f.typ.OBJECT? {
      PutKey(json, false, "schema");
      ToJSON(json, f.typ.sub);
      ghost var m := Member("schema", SchemaTree(f.typ.sub));
      all := ms + [m];
      LastMember(start, ms, m);
    } else {
      assert ms + [] == ms;
    }
    json.Write("}");
    BracesText(old(json.output), RenderMembers(SCHEMA, all), "{", "}");
  }

  lemma LastMember(start: string, ms: seq<Member>, m: Member)
    requires ms != []
    ensures start + RenderMembers(SCHEMA, ms) + "," + (Quote(m.key) + ": ") + Render(SCHEMA, m.value)
         == start + RenderMembers(SCHEMA, ms + [m])
  {
    MembersSnoc(SCHEMA, ms, m);
    PutText(start, RenderMembers(SCHEMA, ms), ",", Quote(m.key), Render(SCHEMA, m.value));
  }

  lemma BracesText(out: string, inner: string, open: string, close: string)
    ensures out + open + inner + close == out + (open + inner + close)
  {
  }

  /** The fields, separated by commas. */
  method FieldsToJSON(json: JSONOutputStream, fs: seq<Field>)
    modifies json`output
    ensures json.output == old(json.output) + RenderItems(SCHEMA, FieldTrees(fs))
    decreases fs
  {
    ghost var start := json.output;
    ghost var trees := FieldTrees(fs);
    assert start + "" == start && trees[..0] == [];
    for i := 0 to |fs|
      invariant json.output == start + RenderItems(SCHEMA, trees[..i])
    {
      json.Write(if i > 0 then "," else "");
      FieldToJSON(json, fs[i]);
      NextItem(start, trees, i);
    }
    assert trees[..|trees|] == trees;
  }

  lemma NextItem(start: string, vs: seq<Value>, i: nat)
    requires i < |vs|
    ensures start + RenderItems(SCHEMA, vs[..i]) + (if i > 0 then "," else "") + Render(SCHEMA, vs[i])
         == start + RenderItems(SCHEMA, vs[..i + 1])
  {
    ItemsSnoc(SCHEMA, vs[..i], vs[i]);
    assert vs[..i] + [vs[i]] == vs[..i + 1];
    ItemOut(start, RenderItems(SCHEMA, vs[..i]), if i > 0 then "," else "", Render(SCHEMA, vs[i]));
  }

  lemma ItemOut(out: string, items: string, comma: string, v: string)
    ensures out + items + comma + v == out + (items + comma + v)
  {
  }

  /** `toJSON`. */
  method ToJSON(json: JSONOutputStream, s: Schema)
    modifies json`output
    ensures json.output == old(json.output) + Render(SCHEMA, SchemaTree(s))
    decreases s
  {
    ghost var start := json.output + "{";
    var name := [Member("name", Str(s.name))];
    json.Write("{");
    PutMembers(json, name);
    PutKey(json, false, "columns");
    ghost var mid := json.output;
    json.Write("[");
    FieldsToJSON(json, s.fields);
    json.Write("]");
    ghost var m := Member("columns", Arr(FieldTrees(s.fields)));
    BracesText(mid, RenderItems(SCHEMA, FieldTrees(s.fields)), "[", "]");
    LastMember(start, name, m);
    json.Write("}");
    assert SchemaTree(s) == Obj(name + [m]);
    BracesText(old(json.output), RenderMembers(SCHEMA, name + [m]), "{", "}");
  }

  // -------------------------------------------------------------------- reading back

  /** What `fromJSON` makes of a JSON value, all error paths included. */
  function FromTree(v: Value): Result<Schema>
    decreases v, 1
  {
    match (GetString(v, "name"), Get(v, "columns"))
    case (Ok(name), Ok(Some(cols))) =>
      if !cols.Arr? then Err
      else (match FieldsFrom(cols.items)
            case Err => Err
            case Ok(fs) => Ok(Schema(if name.Some? then name.value else "", fs)))
    case _ => Err
  }

  function FieldsFrom(vs: seq<Value>): Result<seq<Field>>
    decreases vs, 0
  {
    if vs == [] then Ok([])
    else match (FieldFrom(vs[0]), FieldsFrom(vs[1..]))
      case (Ok(f), Ok(fs)) => Ok([f] + fs)
      case _ => Err
  }

  function OrElse<T>(o: Option<T>, d: T): T { if o.Some? then o.value else d }

  function FieldFrom(v: Value): Result<Field>
    decreases v, 2
  {
    FieldOf(GetUInt64(v, "id"), GetString(v, "name"), GetString(v, "type"), GetUInt64(v, "type_size"),
            GetBool(v, "optional"), GetBool(v, "repeated"), SubSchema(v))
  }

  /** A field from what the getters give; the sub-schema counts for an object only. */
  function FieldOf(id: Result<Option<nat>>, name: Result<Option<string>>, typ: Result<Option<string>>,
                   size: Result<Option<nat>>, optional: Result<Option<bool>>, repeated: Result<Option<bool>>,
                   sub: Result<Schema>): Result<Field>
  {
    if id.Err? || id.value.None? || name.Err? || name.value.None? || typ.Err? || typ.value.None? then Err
    else if size.Err? || optional.Err? || repeated.Err? then Err
    else
      var id32, r, o := id.value.value % TWO32, OrElse(repeated.value, false), OrElse(optional.value, false);
      match TypeFromName(typ.value.value)
      case None => Err
      case Some(Plain(t)) => Ok(Field(id32, name.value.value, t, OrElse(size.value, 0), r, o, NONE))
      case Some(ObjectTag) =>
        if sub.Err? then Err else Ok(Field(id32, name.value.value, OBJECT(sub.value), 0, r, o, NONE))
  }

  function SubSchema(v: Value): Result<Schema>
    decreases v, 0
  {
    if !v.Obj? then Err
    else match FirstKey(v.members, "schema")
      case None => Err
      case Some(i) => FromTree(v.members[i].value)
  }

  function Append(fs: seq<Field>, more: Result<seq<Field>>): Result<seq<Field>> {
    if more.Err? then Err else Ok(fs + more.value)
  }

  lemma AppendOne(fs: seq<Field>, vs: seq<Value>)
    requires vs != []
    ensures Append(fs, FieldsFrom(vs)) ==
      match FieldFrom(vs[0]) { case Err => Err case Ok(f) => Append(fs + [f], FieldsFrom(vs[1..])) }
  {
    var f, more := FieldFrom(vs[0]), FieldsFrom(vs[1..]);
    if f.Ok? && more.Ok? { Assoc(fs, [f.value], more.value); }
  }

  method FieldFromJSON(ts: seq<JSONToken>, col: nat, end: nat, ghost v: Value) returns (r: Result<Field>)
    requires col < end && Holds(ts, col, end, v)
    ensures r == FieldFrom(v)
    decreases v, 1
  {
    var id := ObjectGetUInt64(ts, col, end, "id", v);
    var name := ObjectGetString(ts, col, end, "name", v);
    var typ := ObjectGetString(ts, col, end, "type", v);
    var size := ObjectGetUInt64(ts, col, end, "type_size", v);
    var optional := ObjectGetBool(ts, col, end, "optional", v);
    var repeated := ObjectGetBool(ts, col, end, "repeated", v);
    if id.Err? || id.value == None || name.Err? || name.value == None || typ.Err? || typ.value == None { return Err; }
    if size.Err? || optional.Err? || repeated.Err? { return Err; }
    match TypeFromName(typ.value.value) {
      case None => return Err;
      case Some(Plain(t)) =>
        return Ok(Field(id.value.value % TWO32, name.value.value, t, OrElse(size.value, 0),
                        OrElse(repeated.value, false), OrElse(optional.value, false), NONE));
      case Some(ObjectTag) =>
        var sub := SubFromJSON(ts, col, end, v);
        if sub.Err? { return Err; }
        return Ok(Field(id.value.value % TWO32, name.value.value, OBJECT(sub.value), 0,
                        OrElse(repeated.value, false), OrElse(optional.value, false), NONE));
    }
  }

  method SubFromJSON(ts: seq<JSONToken>, col: nat, end: nat, ghost v: Value) returns (r: Result<Schema>)
    requires col < end && Holds(ts, col, end, v)
    ensures r == SubSchema(v)
    decreases v, 0
  {
    var child := ObjectLookup(ts, col, end, "schema", v);
    if child.Err? || child.value == end { return Err; }
    r := FromJSON(ts, child.value, end, v.members[FirstKey(v.members, "schema").value].value);
  }

  method ColumnsFromJSON(ts: seq<JSONToken>, cols: nat, end: nat, ghost v: Value) returns (r: Result<seq<Field>>)
    requires cols < end && Holds(ts, cols, end, v)
    ensures r == if v.Arr? then FieldsFrom(v.items) else Err
    decreases v, 0
  {
    var ncols := ArrayLength(ts, cols, end, v);
    if ncols.Err? { return Err; }
    var fields: seq<Field> := [];
    assert v.items[0..] == v.items;
    assert Append([], FieldsFrom(v.items)) == FieldsFrom(v.items) by {
      if FieldsFrom(v.items).Ok? { assert [] + FieldsFrom(v.items).value == FieldsFrom(v.items).value; }
    }
    for i := 0 to ncols.value
      invariant Append(fields, FieldsFrom(v.items[i..])) == FieldsFrom(v.items)
    {
      assert v.items[i..][1..] == v.items[i + 1..];
      AppendOne(fields, v.items[i..]);
      var col := ArrayLookup(ts, cols, end, i, v);
      var f := FieldFromJSON(ts, col.value, end, v.items[i]);
      if f.Err? { return Err; }
      fields := fields + [f.value];
    }
    assert v.items[ncols.value..] == [] && fields + [] == fields;
    return Ok(fields);
  }

  /** `fromJSON` on the token vector does what `FromTree` does on the value. */
  method FromJSON(ts: seq<JSONToken>, begin: nat, end: nat, ghost v: Value) returns (r: Result<Schema>)
    requires begin < end && Holds(ts, begin, end, v)
    ensures r == FromTree(v)
    decreases v, 1
  {
    var name := ObjectGetString(ts, begin, end, "name", v);
    if name.Err? { return Err; }
    var cols := ObjectLookup(ts, begin, end, "columns", v);
    if cols.Err? || cols.value == end { return Err; }
    ghost var i := FirstKey(v.members, "columns").value;
    var fields := ColumnsFromJSON(ts, cols.value, end, v.members[i].value);
    if fields.Err? { return Err; }
    return Ok(Schema(OrElse(name.value, ""), fields.value));
  }

  // ---------------------------------------------------------------------- round trip

  /** What the text keeps of the names. */
  function StripNames(s: Schema): Schema { Schema(Strip(s.name), StripFields(s.fields)) }

  function StripFields(fs: seq<Field>): (r: seq<Field>)
    ensures |r| == |fs| && forall i :: 0 <= i < |fs| ==> r[i] == StripField(fs[i])
  {
    if fs == [] then [] else [StripField(fs[0])] + StripFields(fs[1..])
  }

  function StripField(f: Field): Field {
    f.(name := Strip(f.name), typ := if f.typ.OBJECT? then OBJECT(StripNames(f.typ.sub)) else f.typ)
  }

  /** What the format drops: encoding hints, and the size of object fields. */
  function Erase(s: Schema): Schema { Schema(s.name, EraseFields(s.fields)) }

  function EraseFields(fs: seq<Field>): (r: seq<Field>)
    ensures |r| == |fs| && forall i :: 0 <= i < |fs| ==> r[i] == EraseField(fs[i])
  {
    if fs == [] then [] else [EraseField(fs[0])] + EraseFields(fs[1..])
  }

  function EraseField(f: Field): Field {
    match f.typ
    case OBJECT(sub) => f.(typ := OBJECT(Erase(sub)), typeSize := 0, encoding := NONE)
    case _ => f.(encoding := NONE)
  }

  lemma FirstKeyIs(ms: seq<Member>, key: string, i: nat)
    requires i < |ms| && ms[i].key == key && forall j :: 0 <= j < i ==> ms[j].key != key
    ensures FirstKey(ms, key) == Some(i)
  {
  }

  lemma GetIs(v: Value, key: string, i: nat)
    requires v.Obj? && i < |v.members| && v.members[i].key == key
    requires forall j :: 0 <= j < i ==> v.members[j].key != key
    ensures Get(v, key) == Ok(Some(v.members[i].value))
  {
    FirstKeyIs(v.members, key, i);
  }

  // Every member of a field is found under its name.

  lemma GetsId(f: Field)
    requires f.id < TWO32
    ensures GetUInt64(FieldTree(f), "id") == Ok(Some(f.id))
  {
    GetIs(FieldTree(f), "id", 0);
    StoulDec(f.id);
  }

  lemma GetsName(f: Field)
    ensures GetString(FieldTree(f), "name") == Ok(Some(f.name))
  {
    GetIs(FieldTree(f), "name", 1);
  }

  lemma GetsType(f: Field)
    ensures GetString(FieldTree(f), "type") == Ok(Some(TypeName(f.typ)))
  {
    GetIs(FieldTree(f), "type", 2);
  }

  lemma GetsSize(f: Field)
    requires f.typeSize < TWO64
    ensures GetUInt64(FieldTree(f), "type_size") == Ok(Some(f.typeSize))
  {
    GetIs(FieldTree(f), "type_size", 3);
    StoulSigned(f.typeSize);
  }

  lemma GetsOptional(f: Field)
    ensures GetBool(FieldTree(f), "optional") == Ok(Some(f.optional))
  {
    GetIs(FieldTree(f), "optional", 4);
  }

  lemma GetsRepeated(f: Field)
    ensures GetBool(FieldTree(f), "repeated") == Ok(Some(f.repeated))
  {
    GetIs(FieldTree(f), "repeated", 5);
  }

  lemma GetsSchema(f: Field)
    requires f.typ.OBJECT?
    ensures SubSchema(FieldTree(f)) == FromTree(SchemaTree(f.typ.sub))
  {
    FirstKeyIs(FieldTree(f).members, "schema", 7);
  }

  lemma {:induction false} FieldBack(f: Field)
    requires FieldInRange(f)
    ensures FieldFrom(FieldTree(f)) == Ok(EraseField(f))
    decreases f, 1
  {
    GetsId(f);
    GetsName(f);
    GetsType(f);
    GetsSize(f);
    GetsOptional(f);
    GetsRepeated(f);
    if f.typ.OBJECT? {
      GetsSchema(f);
      SchemaBack(f.typ.sub);
    }
    TypeNameBack(f.typ);
    FieldOfParts(f, TypeName(f.typ), SubSchema(FieldTree(f)));
  }

  lemma FieldOfParts(f: Field, typ: string, sub: Result<Schema>)
    requires f.id < TWO32 && TypeFromName(typ) == Some(if f.typ.OBJECT? then ObjectTag else Plain(f.typ))
    requires f.typ.OBJECT? ==> sub == Ok(Erase(f.typ.sub))
    ensures FieldOf(Ok(Some(f.id)), Ok(Some(f.name)), Ok(Some(typ)), Ok(Some(f.typeSize)), Ok(Some(f.optional)),
                    Ok(Some(f.repeated)), sub) == Ok(EraseField(f))
  {
  }

  lemma {:induction false} FieldsBack(fs: seq<Field>)
    requires forall i :: 0 <= i < |fs| ==> FieldInRange(fs[i])
    ensures FieldsFrom(FieldTrees(fs)) == Ok(EraseFields(fs))
    decreases fs, 0
  {
    if fs != [] {
      FieldBack(fs[0]);
      FieldsBack(fs[1..]);
      assert FieldTrees(fs)[1..] == FieldTrees(fs[1..]);
    }
  }

  /** Reading the JSON value of a schema returns the schema, up to what the format
      does not hold. */
  lemma {:induction false} SchemaBack(s: Schema)
    requires InRange(s)
    ensures FromTree(SchemaTree(s)) == Ok(Erase(s))
    decreases s, 0
  {
    var ms := SchemaTree(s).members;
    FirstKeyIs(ms, "name", 0);
    FirstKeyIs(ms, "columns", 1);
    FieldsBack(s.fields);
  }

  // The text in between.

  lemma PlainText(s: string)
    requires AllKept(s)
    ensures Strip(s) == s
  {
    StripIdentity(s);
  }

  /** One member with its value read back, under a key that survives. */
  ghost predicate ReadsAs(m: Member, n: Member) {
    n.key == m.key && AllKept(m.key) && n.value == ReadBack(SCHEMA, m.value)
  }

  lemma NumRead(key: string, d: string)
    requires AllKept(key)
    ensures ReadsAs(Member(key, Num(d)), Member(key, Num(d)))
  {
  }

  lemma BoolRead(key: string, b: bool)
    requires AllKept(key)
    ensures ReadsAs(Member(key, Bool(b)), Member(key, Bool(b)))
  {
  }

  lemma StrRead(key: string, s: string)
    requires AllKept(key)
    ensures ReadsAs(Member(key, Str(s)), Member(key, Str(Strip(s))))
  {
  }

  lemma NumberMembers(f: Field)
    ensures var ms := PlainMembers(f); ReadsAs(ms[0], ms[0]) && ReadsAs(ms[3], ms[3])
  {
    NumRead("id", Dec(f.id));
    NumRead("type_size", DecInt(Signed(f.typeSize)));
  }

  lemma BoolMembers(f: Field)
    ensures var ms := PlainMembers(f); ReadsAs(ms[4], ms[4]) && ReadsAs(ms[5], ms[5])
  {
    BoolRead("optional", f.optional);
    BoolRead("repeated", f.repeated);
  }

  lemma NameMember(f: Field)
    ensures ReadsAs(PlainMembers(f)[1], PlainMembers(StripField(f))[1])
  {
    StrRead("name", f.name);
  }

  lemma TypeMember(f: Field)
    ensures ReadsAs(PlainMembers(f)[2], PlainMembers(f)[2])
  {
    StrRead("type", TypeName(f.typ));
    TypeText(f.typ);
  }

  lemma HintMember(f: Field)
    ensures ReadsAs(PlainMembers(f)[6], PlainMembers(f)[6])
  {
    StrRead("encoding_hint", "NONE");
    WordRead("NONE");
  }

  /** Stripping touches the name only. */
  lemma StripPlain(f: Field)
    ensures var ms, ns := PlainMembers(f), PlainMembers(StripField(f));
      ns[0] == ms[0] && ns[2] == ms[2] && ns[3] == ms[3] && ns[4] == ms[4] && ns[5] == ms[5] && ns[6] == ms[6]
  {
  }

  lemma PlainReadBack(f: Field)
    ensures ReadBackMembers(SCHEMA, PlainMembers(f)) == PlainMembers(StripField(f))
  {
    var ms, ns := PlainMembers(f), PlainMembers(StripField(f));
    NumberMembers(f);
    BoolMembers(f);
    NameMember(f);
    TypeMember(f);
    HintMember(f);
    StripPlain(f);
    SevenRead(ms, ns);
  }

  /** Members whose keys survive, with their values read back. */
  lemma MembersReadBack(ms: seq<Member>, ns: seq<Member>)
    requires |ms| == |ns| && forall i :: 0 <= i < |ms| ==> ReadsAs(ms[i], ns[i])
    ensures ReadBackMembers(SCHEMA, ms) == ns
  {
    var r := ReadBackMembers(SCHEMA, ms);
    forall i | 0 <= i < |ms| ensures r[i] == ns[i] {
      assert ReadsAs(ms[i], ns[i]);
      PlainText(ms[i].key);
    }
  }

  lemma SevenRead(ms: seq<Member>, ns: seq<Member>)
    requires |ms| == |ns| == 7 && ReadsAs(ms[0], ns[0]) && ReadsAs(ms[1], ns[1]) && ReadsAs(ms[2], ns[2])
    requires ReadsAs(ms[3], ns[3]) && ReadsAs(ms[4], ns[4]) && ReadsAs(ms[5], ns[5]) && ReadsAs(ms[6], ns[6])
    ensures ReadBackMembers(SCHEMA, ms) == ns
  {
    forall i | 0 <= i < 7 ensures ReadsAs(ms[i], ns[i]) {}
    MembersReadBack(ms, ns);
  }

  lemma TypeText(t: FieldType)
    ensures ReadBack(SCHEMA, Str(TypeName(t))) == Str(TypeName(t))
  {
    assert AllKept(TypeName(t));
    WordRead(TypeName(t));
  }

  lemma WordRead(s: string)
    requires AllKept(s)
    ensures ReadBack(SCHEMA, Str(s)) == Str(s)
  {
    PlainText(s);
  }

  lemma {:induction false} FieldReadBack(f: Field)
    ensures ReadBack(SCHEMA, FieldTree(f)) == FieldTree(StripField(f))
    decreases f, 1
  {
    PlainReadBack(f);
    var ms := FieldTree(f).members;
    if f.typ.OBJECT? {
      SchemaReadBack(f.typ.sub);
      SchemaKey();
      WithSchema(PlainMembers(f), SchemaTree(f.typ.sub));
    } else {
      assert ms == PlainMembers(f) && FieldTree(StripField(f)).members == PlainMembers(StripField(f));
    }
  }

  lemma SchemaKey()
    ensures AllKept("schema")
  {
  }

  lemma WithSchema(ms: seq<Member>, v: Value)
    requires AllKept("schema")
    ensures ReadBackMembers(SCHEMA, ms + [Member("schema", v)])
      == ReadBackMembers(SCHEMA, ms) + [Member("schema", ReadBack(SCHEMA, v))]
  {
    PlainText("schema");
  }

  lemma {:induction false} FieldsReadBack(fs: seq<Field>)
    ensures ReadBackItems(SCHEMA, FieldTrees(fs)) == FieldTrees(StripFields(fs))
    decreases fs, 0
  {
    forall i | 0 <= i < |fs| ensures ReadBack(SCHEMA, FieldTree(fs[i])) == FieldTree(StripField(fs[i])) {
      FieldReadBack(fs[i]);
    }
  }

  lemma {:induction false} SchemaReadBack(s: Schema)
    ensures ReadBack(SCHEMA, SchemaTree(s)) == SchemaTree(StripNames(s))
    decreases s, 0
  {
    FieldsReadBack(s.fields);
    TwoWords();
    PairReadBack("name", Str(s.name), "columns", Arr(FieldTrees(s.fields)));
  }

  lemma TwoWords()
    ensures AllKept("name") && AllKept("columns")
  {
  }

  lemma PairReadBack(k1: string, v1: Value, k2: string, v2: Value)
    requires AllKept(k1) && AllKept(k2)
    ensures ReadBackMembers(SCHEMA, [Member(k1, v1), Member(k2, v2)])
         == [Member(k1, ReadBack(SCHEMA, v1)), Member(k2, ReadBack(SCHEMA, v2))]
  {
    MembersReadBack([Member(k1, v1), Member(k2, v2)],
                    [Member(k1, ReadBack(SCHEMA, v1)), Member(k2, ReadBack(SCHEMA, v2))]);
  }

  /** The numbers in the text are numbers. */
  lemma {:induction false} SchemaPrintable(s: Schema)
    ensures Printable(SCHEMA, SchemaTree(s))
    decreases s, 0
  {
    forall i | 0 <= i < |s.fields| ensures Printable(SCHEMA, FieldTree(s.fields[i])) {
      FieldPrintable(s.fields[i]);
    }
    var ms := SchemaTree(s).members;
    assert Printable(SCHEMA, ms[1].value);
    forall i | 0 <= i < |ms| ensures Printable(SCHEMA, ms[i].value) {}
  }

  lemma {:induction false} FieldPrintable(f: Field)
    ensures Printable(SCHEMA, FieldTree(f))
    decreases f, 1
  {
    if f.typ.OBJECT? { SchemaPrintable(f.typ.sub); }
    DecIsNumber(f.id);
    DecIsNumber(Signed(f.typeSize));
    var ms := FieldTree(f).members;
    forall i | 0 <= i < |ms| ensures Printable(SCHEMA, ms[i].value) {}
  }

  lemma DecIsNumber(n: int)
    ensures NumberText(DecInt(n))
  {
    var d := Dec(if n < 0 then -n else n);
    assert forall i :: 0 <= i < |d| ==> IsDigit(d[i]);
    if n < 0 {
      forall i | 0 <= i < |"-" + d| ensures NumberChar(("-" + d)[i]) {
        if i > 0 { assert ("-" + d)[i] == d[i - 1]; }
      }
    }
  }

  lemma {:induction false} StripInRange(s: Schema)
    requires InRange(s)
    ensures InRange(StripNames(s))
    decreases s
  {
    forall i | 0 <= i < |s.fields| ensures FieldInRange(StripField(s.fields[i])) {
      var f := s.fields[i];
      assert FieldInRange(f);
      if f.typ.OBJECT? { StripInRange(f.typ.sub); }
    }
  }

  /** Nothing in the schema is outside the format. */
  predicate Lossless(s: Schema) {
    AllKept(s.name) && forall i :: 0 <= i < |s.fields| ==> LosslessField(s.fields[i])
  }

  predicate LosslessField(f: Field) {
    AllKept(f.name) && f.encoding == NONE && (f.typ.OBJECT? ==> f.typeSize == 0 && Lossless(f.typ.sub))
  }

  lemma {:induction false} LosslessIff(s: Schema)
    ensures Erase(StripNames(s)) == s <==> Lossless(s)
    decreases s
  {
    StripIdentity(s.name);
    var r := Erase(StripNames(s)).fields;
    forall i | 0 <= i < |s.fields| ensures r[i] == s.fields[i] <==> LosslessField(s.fields[i]) {
      var f := s.fields[i];
      assert r[i] == EraseField(StripField(f));
      StripIdentity(f.name);
      if f.typ.OBJECT? { LosslessIff(f.typ.sub); }
    }
    assert (r == s.fields) == forall i :: 0 <= i < |s.fields| ==> r[i] == s.fields[i];
  }

  /** A schema written by `toJSON`, parsed by `parseJSON` and read by `fromJSON`:
      everything comes back except encoding hints, sizes of object fields, and
      control bytes in names that have no short escape. */
  method SchemaThroughText(s: Schema) returns (r: Result<Schema>)
    requires InRange(s) && |Toks(SchemaTree(StripNames(s)))| < TWO32
    ensures r == Ok(Erase(StripNames(s)))
    ensures r == Ok(s) <==> Lossless(s)
  {
    LosslessIff(s);
    var os := new JSONOutputStream();
    ToJSON(os, s);
    ghost var v := SchemaTree(s);
    assert os.output == Render(SCHEMA, v);
    SchemaPrintable(s);
    SchemaReadBack(s);
    var obj := ParseText(SCHEMA, os.output, v);
    ghost var w := SchemaTree(StripNames(s));
    HoldsWhole(w);
    r := FromJSON(obj.value, 0, |obj.value|, w);
    StripInRange(s);
    SchemaBack(StripNames(s));
  }

  lemma HoldsWhole(v: Value)
    ensures Holds(Flat(v), 0, |Flat(v)|, v)
  {
    forall i: nat | i < |Flat(v)| ensures Same(Flat(v), 0, Flat(v), i) {}
  }
}
