/** The binary form of a schema and its three field indexes
    (`src/stx/protobuf/MessageSchema.cc`). */
module SchemaCodec {
  import opened Text
  import opened Wire
  import opened SchemaTypes
  import opened Messages

  // ---------------------------------------------------------------- the format

  function TypeByte(t: FieldType): (b: nat)
    ensures b < 7
  {
    match t
    case OBJECT(_) => 0
    case BOOLEAN => 1
    case UINT32 => 2
    case STRING => 3
    case UINT64 => 4
    case DOUBLE => 5
    case DATETIME => 6
  }

  function TypeOfByte(b: nat): Option<TypeTag> {
    if b == 0 then Some(ObjectTag) else if b == 1 then Some(Plain(BOOLEAN)) else if b == 2 then Some(Plain(UINT32))
    else if b == 3 then Some(Plain(STRING)) else if b == 4 then Some(Plain(UINT64))
    else if b == 5 then Some(Plain(DOUBLE)) else if b == 6 then Some(Plain(DATETIME)) else None
  }

  function Tag(t: FieldType): TypeTag { if t.OBJECT? then ObjectTag else Plain(t) }

  function HintByte(e: EncodingHint): (b: nat)
    ensures b < 3
  {
    match e
    case NONE => 0
    case BITPACK => 1
    case LEB128 => 2
  }

  function HintOfByte(b: nat): Option<EncodingHint> {
    if b == 0 then Some(NONE) else if b == 1 then Some(BITPACK) else if b == 2 then Some(LEB128) else None
  }

  function BoolByte(b: bool): char { if b then 1 as char else 0 as char }

  function Byte(b: nat): string
    requires b < 256
  {
    [b as char]
  }

  /** What is stored of a field, before its sub-schema. */
  datatype Header = Header(id: nat, name: string, tag: TypeTag, typeSize: nat, repeated: bool, optional: bool,
                           encoding: EncodingHint)

  function Attributes(f: Field): string {
    Byte(TypeByte(f.typ)) + (VarUInt(f.typeSize)
      + [BoolByte(f.repeated), BoolByte(f.optional), HintByte(f.encoding) as char])
  }

  function EncodeSchemaField(f: Field): string
    decreases f, 0
  {
    VarUInt(f.id) + (Lenenc(f.name) + (Attributes(f) + if f.typ.OBJECT? then EncodeSchema(f.typ.sub) else ""))
  }

  function EncodeFieldList(fs: seq<Field>): string
    decreases fs
  {
    if fs == [] then "" else EncodeSchemaField(fs[0]) + EncodeFieldList(fs[1..])
  }

  function EncodeSchema(s: Schema): string
    decreases s
  {
    Byte(1) + (Lenenc(s.name) + (VarUInt(|s.fields|) + EncodeFieldList(s.fields)))
  }

  // ------------------------------------------------------------------ reading

  /** Type, size, two flags and the encoding hint. */
  function ReadAttributes(t: string): (r: Result<((TypeTag, nat, bool, bool, EncodingHint), string)>)
    ensures r.Ok? ==> |r.value.1| < |t|
  {
    if t == "" || TypeOfByte(t[0] as nat).None? then Err else
      match ReadVar(t[1..])
      case Err => Err
      case Ok((size, u)) =>
        if |u| < 3 || HintOfByte(u[2] as nat).None? then Err else
          Ok(((TypeOfByte(t[0] as nat).value, size, u[0] as nat > 0, u[1] as nat > 0,
               HintOfByte(u[2] as nat).value), u[3..]))
  }

  function ReadHeader(t: string): (r: Result<(Header, string)>)
    ensures r.Ok? ==> |r.value.1| < |t|
  {
    match ReadVar(t)
    case Err => Err
    case Ok((id, t1)) =>
      match ReadLenenc(t1)
      case Err => Err
      case Ok((name, t2)) =>
        match ReadAttributes(t2)
        case Err => Err
        case Ok(((tag, size, repeated, optional, hint), t3)) =>
          Ok((Header(id % TWO32, name, tag, size, repeated, optional, hint), t3))
  }

  function FieldOf(h: Header, sub: Schema): Field {
    Field(h.id, h.name, if h.tag.ObjectTag? then OBJECT(sub) else h.tag.typ, h.typeSize, h.repeated, h.optional,
          h.encoding)
  }

  function DecodeSchemaField(t: string): (r: Result<(Field, string)>)
    ensures r.Ok? ==> |r.value.1| < |t|
    decreases |t|, 0
  {
    match ReadHeader(t)
    case Err => Err
    case Ok((h, left)) =>
      if h.tag.Plain? then Ok((FieldOf(h, Schema("", [])), left)) else
        match DecodeSchema(left)
        case Err => Err
        case Ok((sub, rest)) => Ok((FieldOf(h, sub), rest))
  }

  function DecodeFieldList(t: string, n: nat): (r: Result<(seq<Field>, string)>)
    ensures r.Ok? ==> |r.value.1| <= |t|
    decreases |t|, 1
  {
    if n == 0 then Ok(([], t)) else
      match DecodeSchemaField(t)
      case Err => Err
      case Ok((f, left)) =>
        match DecodeFieldList(left, n - 1)
        case Err => Err
        case Ok((fs, rest)) => Ok(([f] + fs, rest))
  }

  /** The version byte, the name and the number of fields. */
  function ReadOpening(t: string): (r: Result<(string, nat, string)>)
    ensures r.Ok? ==> |r.value.2| < |t|
  {
    if t == "" then Err else
      match ReadLenenc(t[1..])
      case Err => Err
      case Ok((name, t1)) =>
        match ReadVar(t1)
        case Err => Err
        case Ok((n, t2)) => Ok((name, n, t2))
  }

  function DecodeSchema(t: string): (r: Result<(Schema, string)>)
    ensures r.Ok? ==> |r.value.1| < |t|
    decreases |t|, 2
  {
    match ReadOpening(t)
    case Err => Err
    case Ok((name, n, left)) =>
      match DecodeFieldList(left, n)
      case Err => Err
      case Ok((fs, rest)) => Ok((Schema(name, fs), rest))
  }

  // ------------------------------------------------------------- the round trip

  /** Names and numbers of fields have 64-bit sizes. */
  predicate Sized(s: Schema) {
    |s.name| < TWO64 && |s.fields| < TWO64 && forall i :: 0 <= i < |s.fields| ==> SizedField(s.fields[i])
  }

  predicate SizedField(f: Field) { |f.name| < TWO64 && (f.typ.OBJECT? ==> Sized(f.typ.sub)) }

  lemma BytesBack(f: Field)
    ensures TypeOfByte(TypeByte(f.typ)) == Some(Tag(f.typ)) && HintOfByte(HintByte(f.encoding)) == Some(f.encoding)
  {
  }

  lemma AttributesBack(f: Field, rest: string)
    requires f.typeSize < TWO64
    ensures ReadAttributes(Attributes(f) + rest)
      == Ok(((Tag(f.typ), f.typeSize, f.repeated, f.optional, f.encoding), rest))
  {
    BytesBack(f);
    var bytes := [BoolByte(f.repeated), BoolByte(f.optional), HintByte(f.encoding) as char];
    var t := Attributes(f) + rest;
    assert t[0] == TypeByte(f.typ) as char && t[1..] == VarUInt(f.typeSize) + (bytes + rest);
    VarBack(f.typeSize, bytes + rest);
    assert (bytes + rest)[3..] == rest;
  }

  lemma HeaderBack(f: Field, rest: string)
    requires f.id < TWO32 && f.typeSize < TWO64 && |f.name| < TWO64
    ensures ReadHeader(VarUInt(f.id) + (Lenenc(f.name) + (Attributes(f) + rest)))
      == Ok((Header(f.id, f.name, Tag(f.typ), f.typeSize, f.repeated, f.optional, f.encoding), rest))
  {
    var x := Attributes(f) + rest;
    VarBack(f.id, Lenenc(f.name) + x);
    LenencBack(f.name, x);
    AttributesBack(f, rest);
    HeaderIs(VarUInt(f.id) + (Lenenc(f.name) + x), f, Lenenc(f.name) + x, x, rest);
  }

  lemma HeaderIs(t: string, f: Field, t1: string, t2: string, rest: string)
    requires f.id < TWO32 && ReadVar(t) == Ok((f.id, t1)) && ReadLenenc(t1) == Ok((f.name, t2))
    requires ReadAttributes(t2) == Ok(((Tag(f.typ), f.typeSize, f.repeated, f.optional, f.encoding), rest))
    ensures ReadHeader(t)
      == Ok((Header(f.id, f.name, Tag(f.typ), f.typeSize, f.repeated, f.optional, f.encoding), rest))
  {
  }

  lemma Regroup(a: string, b: string, c: string, d: string, e: string)
    ensures (a + (b + (c + d))) + e == a + (b + (c + (d + e)))
  {
  }

  lemma {:induction false} FieldBack(f: Field, rest: string)
    requires FieldInRange(f) && SizedField(f)
    ensures DecodeSchemaField(EncodeSchemaField(f) + rest) == Ok((f, rest))
    decreases f, 0
  {
    var sub := if f.typ.OBJECT? then EncodeSchema(f.typ.sub) else "";
    Regroup(VarUInt(f.id), Lenenc(f.name), Attributes(f), sub, rest);
    HeaderBack(f, sub + rest);
    if f.typ.OBJECT? {
      SchemaBack(f.typ.sub, rest);
    } else {
      assert sub + rest == rest;
    }
  }

  lemma FieldThenFields(t: string, f: Field, left: string, fs: seq<Field>, rest: string)
    requires DecodeSchemaField(t) == Ok((f, left)) && DecodeFieldList(left, |fs|) == Ok((fs, rest))
    ensures DecodeFieldList(t, |fs| + 1) == Ok(([f] + fs, rest))
  {
  }

  lemma {:induction false} FieldsBack(fs: seq<Field>, rest: string)
    requires forall i :: 0 <= i < |fs| ==> FieldInRange(fs[i]) && SizedField(fs[i])
    ensures DecodeFieldList(EncodeFieldList(fs) + rest, |fs|) == Ok((fs, rest))
    decreases fs
  {
    if fs == [] {
      assert EncodeFieldList(fs) + rest == rest;
    } else {
      var more := EncodeFieldList(fs[1..]);
      assert EncodeFieldList(fs) + rest == EncodeSchemaField(fs[0]) + (more + rest);
      FieldBack(fs[0], more + rest);
      FieldsBack(fs[1..], rest);
      FieldThenFields(EncodeSchemaField(fs[0]) + (more + rest), fs[0], more + rest, fs[1..], rest);
      assert [fs[0]] + fs[1..] == fs;
    }
  }

  lemma OpeningBack(name: string, n: uint64, x: string)
    requires |name| < TWO64
    ensures ReadOpening(Byte(1) + (Lenenc(name) + (VarUInt(n) + x))) == Ok((name, n, x))
  {
    var t := Byte(1) + (Lenenc(name) + (VarUInt(n) + x));
    assert t[1..] == Lenenc(name) + (VarUInt(n) + x);
    LenencBack(name, VarUInt(n) + x);
    VarBack(n, x);
  }

  /** A schema survives its binary form, encoding hints and sizes included. */
  lemma {:induction false} SchemaBack(s: Schema, rest: string)
    requires InRange(s) && Sized(s)
    ensures DecodeSchema(EncodeSchema(s) + rest) == Ok((s, rest))
    decreases s
  {
    Regroup(Byte(1), Lenenc(s.name), VarUInt(|s.fields|), EncodeFieldList(s.fields), rest);
    OpeningBack(s.name, |s.fields|, EncodeFieldList(s.fields) + rest);
    FieldsBack(s.fields, rest);
  }

  // ---------------------------------------------------------------- the indexes

  /** The fields of a `MessageSchema` object: the list and its three hash maps. */
  datatype State = State(fields: seq<Field>, ids: map<string, nat>, types: map<nat, TypeTag>,
                         names: map<nat, string>)

  const EMPTY := State([], map[], map[], map[])

  /** `emplace` keeps what is there. */
  function Emplace<K, V>(m: map<K, V>, k: K, v: V): map<K, V> { if k in m then m else m[k := v] }

  function Added(x: State, f: Field): State {
    State(x.fields + [f], Emplace(x.ids, f.name, f.id), Emplace(x.types, f.id, Tag(f.typ)),
          Emplace(x.names, f.id, f.name))
  }

  /** `removeField`; `Err` is its exception. */
  function Removed(x: State, id: nat): Result<State> {
    var i := IndexOf(x.fields, id);
    if i == |x.fields| then Err else
      Ok(State(x.fields[..i] + x.fields[i + 1..], x.ids - {x.fields[i].name}, x.types - {id}, x.names - {id}))
  }

  function NameIndex(fields: seq<Field>, name: string): (n: nat)
    ensures n <= |fields|
    ensures n < |fields| ==> fields[n].name == name
    ensures forall j :: 0 <= j < n ==> fields[j].name != name
  {
    if fields == [] || fields[0].name == name then 0 else 1 + NameIndex(fields[1..], name)
  }

  ghost predicate IdAgrees(x: State, id: nat) {
    var i := IndexOf(x.fields, id);
    if i < |x.fields| then
      id in x.types && x.types[id] == Tag(x.fields[i].typ) && id in x.names && x.names[id] == x.fields[i].name
    else id !in x.types && id !in x.names
  }

  ghost predicate NameAgrees(x: State, name: string) {
    var i := NameIndex(x.fields, name);
    if i < |x.fields| then name in x.ids && x.ids[name] == x.fields[i].id else name !in x.ids
  }

  /** Each map holds what a search of the list for the first match gives. */
  ghost predicate Agree(x: State) {
    (forall id: nat :: IdAgrees(x, id)) && (forall name: string :: NameAgrees(x, name))
  }

  lemma IndexOfAppend(fs: seq<Field>, f: Field, id: nat)
    ensures IndexOf(fs + [f], id) ==
      if IndexOf(fs, id) < |fs| then IndexOf(fs, id) else if f.id == id then |fs| else |fs| + 1
  {
    var n := IndexOf(fs + [f], id);
    var m := IndexOf(fs, id);
    if m < |fs| { assert (fs + [f])[m].id == id; }
    assert forall j :: 0 <= j < |fs| ==> (fs + [f])[j] == fs[j];
    assert (fs + [f])[|fs|] == f;
  }

  lemma NameIndexAppend(fs: seq<Field>, f: Field, name: string)
    ensures NameIndex(fs + [f], name) ==
      if NameIndex(fs, name) < |fs| then NameIndex(fs, name) else if f.name == name then |fs| else |fs| + 1
  {
    var n := NameIndex(fs + [f], name);
    var m := NameIndex(fs, name);
    if m < |fs| { assert (fs + [f])[m].name == name; }
    assert forall j :: 0 <= j < |fs| ==> (fs + [f])[j] == fs[j];
    assert (fs + [f])[|fs|] == f;
  }

  /** Adding a field, even one whose id or name is there already. */
  lemma AddAgrees(x: State, f: Field)
    requires Agree(x)
    ensures Agree(Added(x, f))
  {
    var x' := Added(x, f);
    forall id: nat ensures IdAgrees(x', id) {
      assert IdAgrees(x, id);
      IndexOfAppend(x.fields, f, id);
    }
    forall name: string ensures NameAgrees(x', name) {
      assert NameAgrees(x, name);
      NameIndexAppend(x.fields, f, name);
    }
  }

  /** No other field has the id or the name of field `i`. */
  predicate Alone(fs: seq<Field>, i: nat)
    requires i < |fs|
  {
    forall j :: 0 <= j < |fs| && j != i ==> fs[j].id != fs[i].id && fs[j].name != fs[i].name
  }

  function Dropped(fs: seq<Field>, i: nat): (r: seq<Field>)
    requires i < |fs|
    ensures |r| == |fs| - 1
    ensures forall j :: 0 <= j < |r| ==> r[j] == fs[if j < i then j else j + 1]
  {
    fs[..i] + fs[i + 1..]
  }

  /** The same field is found after one with another id is gone. */
  lemma FoundById(fs: seq<Field>, i: nat, id: nat)
    requires i < |fs| && fs[i].id != id
    ensures var r, n := Dropped(fs, i), IndexOf(fs, id);
      if n < |fs| then IndexOf(r, id) == (if n < i then n else n - 1) && r[IndexOf(r, id)] == fs[n]
      else IndexOf(r, id) == |r|
  {
    var r, n := Dropped(fs, i), IndexOf(fs, id);
    if n < |fs| {
      var n' := if n < i then n else n - 1;
      assert r[n'] == fs[n];
      assert forall j :: 0 <= j < n' ==> r[j].id != id;
    }
  }

  lemma FoundByName(fs: seq<Field>, i: nat, name: string)
    requires i < |fs| && fs[i].name != name
    ensures var r, n := Dropped(fs, i), NameIndex(fs, name);
      if n < |fs| then NameIndex(r, name) == (if n < i then n else n - 1) && r[NameIndex(r, name)] == fs[n]
      else NameIndex(r, name) == |r|
  {
    var r, n := Dropped(fs, i), NameIndex(fs, name);
    if n < |fs| {
      var n' := if n < i then n else n - 1;
      assert r[n'] == fs[n];
      assert forall j :: 0 <= j < n' ==> r[j].name != name;
    }
  }

  lemma RemoveAgrees(x: State, i: nat)
    requires Agree(x) && i < |x.fields| && i == IndexOf(x.fields, x.fields[i].id) && Alone(x.fields, i)
    ensures Agree(Removed(x, x.fields[i].id).value)
  {
    var x' := Removed(x, x.fields[i].id).value;
    assert x'.fields == Dropped(x.fields, i);
    forall id: nat ensures IdAgrees(x', id) {
      assert IdAgrees(x, id);
      if id != x.fields[i].id { FoundById(x.fields, i, id); }
    }
    forall name: string ensures NameAgrees(x', name) {
      assert NameAgrees(x, name);
      if name != x.fields[i].name { FoundByName(x.fields, i, name); }
    }
  }

  /** Removing a field keeps the agreement exactly when no other field shares its id
      or its name. */
  lemma RemoveAgreesIff(x: State, id: nat)
    requires Agree(x) && HasField(Schema("", x.fields), id)
    ensures Agree(Removed(x, id).value) <==> Alone(x.fields, IndexOf(x.fields, id))
  {
    var i := IndexOf(x.fields, id);
    var x' := Removed(x, id).value;
    assert x'.fields == Dropped(x.fields, i);
    if Alone(x.fields, i) {
      RemoveAgrees(x, i);
    } else {
      var j :| 0 <= j < |x.fields| && j != i && (x.fields[j].id == id || x.fields[j].name == x.fields[i].name);
      assert x'.fields[if j < i then j else j - 1] == x.fields[j];
      assert !IdAgrees(x', id) || !NameAgrees(x', x.fields[i].name);
    }
  }

  // ---------------------------------------------------------------- histories

  datatype Op = Add(f: Field) | Remove(id: nat)

  /** A removal of an absent id changes nothing (and throws). */
  function Apply(x: State, op: Op): State {
    match op
    case Add(f) => Added(x, f)
    case Remove(id) => if Removed(x, id).Ok? then Removed(x, id).value else x
  }

  function Run(ops: seq<Op>): State {
    if ops == [] then EMPTY else Apply(Run(ops[..|ops| - 1]), ops[|ops| - 1])
  }

  predicate Distinct(fs: seq<Field>) {
    forall i, j :: 0 <= i < j < |fs| ==> fs[i].id != fs[j].id && fs[i].name != fs[j].name
  }

  predicate Fresh(fs: seq<Field>, f: Field) {
    forall i :: 0 <= i < |fs| ==> fs[i].id != f.id && fs[i].name != f.name
  }

  /** Every added field is new when it is added. */
  predicate AlwaysFresh(ops: seq<Op>) {
    ops == [] || (AlwaysFresh(ops[..|ops| - 1]) &&
      (ops[|ops| - 1].Add? ==> Fresh(Run(ops[..|ops| - 1]).fields, ops[|ops| - 1].f)))
  }

  lemma RemoveDistinct(x: State, id: nat)
    requires Agree(x) && Distinct(x.fields) && IndexOf(x.fields, id) < |x.fields|
    ensures Agree(Removed(x, id).value) && Distinct(Removed(x, id).value.fields)
  {
    var i := IndexOf(x.fields, id);
    assert Alone(x.fields, i);
    RemoveAgrees(x, i);
    assert Removed(x, id).value.fields == Dropped(x.fields, i);
  }

  /** After any such history the indexes agree with the list. */
  lemma {:induction false} HistoryAgrees(ops: seq<Op>)
    requires AlwaysFresh(ops)
    ensures Agree(Run(ops)) && Distinct(Run(ops).fields)
  {
    if ops != [] {
      var x, op := Run(ops[..|ops| - 1]), ops[|ops| - 1];
      HistoryAgrees(ops[..|ops| - 1]);
      match op {
        case Add(f) => AddAgrees(x, f);
        case Remove(id) =>
          if IndexOf(x.fields, id) < |x.fields| { RemoveDistinct(x, id); }
      }
    }
  }

  /** With no id or name twice, the name and id maps are inverse to each other. */
  lemma InverseMaps(x: State, name: string, id: nat)
    requires Agree(x) && Distinct(x.fields)
    ensures (name in x.ids && x.ids[name] == id) <==> (id in x.names && x.names[id] == name)
  {
    assert IdAgrees(x, id) && NameAgrees(x, name);
  }

  // ------------------------------------------------------------- writing and reading

  lemma EncodeNext(fs: seq<Field>, i: nat, was: string)
    requires i < |fs|
    ensures was + EncodeFieldList(fs[i..]) == was + EncodeSchemaField(fs[i]) + EncodeFieldList(fs[i + 1..])
  {
    assert fs[i..][1..] == fs[i + 1..];
    Assoc(was, EncodeSchemaField(fs[i]), EncodeFieldList(fs[i + 1..]));
  }

  /** The loop over the fields. */
  method WriteFields(fs: seq<Field>, buf: BinaryMessageWriter)
    modifies buf
    ensures buf.data == old(buf.data) + EncodeFieldList(fs)
    decreases fs
  {
    ghost var want := buf.data + EncodeFieldList(fs);
    var i := 0;
    assert fs[0..] == fs;
    while i < |fs|
      invariant 0 <= i <= |fs| && want == buf.data + EncodeFieldList(fs[i..])
    {
      EncodeNext(fs, i, buf.data);
      WriteField(fs[i], buf);
      i := i + 1;
    }
  }

  method WriteField(f: Field, buf: BinaryMessageWriter)
    modifies buf
    ensures buf.data == old(buf.data) + EncodeSchemaField(f)
    decreases f, 0
  {
    ghost var was := buf.data;
    buf.AppendVarUInt(f.id);
    buf.AppendLenencString(f.name);
    WriteAttributes(f, buf);
    if f.typ.OBJECT? { WriteSchema(f.typ.sub, buf); }
    ghost var sub := if f.typ.OBJECT? then EncodeSchema(f.typ.sub) else "";
    InOrder(was, VarUInt(f.id), Lenenc(f.name), Attributes(f), sub);
  }

  lemma InOrder(was: string, a: string, b: string, c: string, d: string)
    ensures was + a + b + c + d == was + (a + (b + (c + d))) && was + a + b + c + "" == was + a + b + c
  {
  }

  method WriteAttributes(f: Field, buf: BinaryMessageWriter)
    modifies buf
    ensures buf.data == old(buf.data) + Attributes(f)
  {
    ghost var was := buf.data;
    buf.AppendUInt8(TypeByte(f.typ));
    buf.AppendVarUInt(f.typeSize);
    buf.AppendUInt8(if f.repeated then 1 else 0);
    buf.AppendUInt8(if f.optional then 1 else 0);
    buf.AppendUInt8(HintByte(f.encoding));
    AttributesInOrder(was, f, Byte(TypeByte(f.typ)), VarUInt(f.typeSize), [BoolByte(f.repeated)],
                      [BoolByte(f.optional)], Byte(HintByte(f.encoding)));
  }

  lemma AttributesInOrder(was: string, f: Field, a: string, b: string, c: string, d: string, e: string)
    requires a == Byte(TypeByte(f.typ)) && b == VarUInt(f.typeSize) && c == [BoolByte(f.repeated)]
    requires d == [BoolByte(f.optional)] && e == Byte(HintByte(f.encoding))
    ensures was + a + b + c + d + e == was + Attributes(f)
  {
    assert c + d + e == [BoolByte(f.repeated), BoolByte(f.optional), HintByte(f.encoding) as char];
    assert was + a + b + c + d + e == was + (a + (b + (c + d + e)));
  }

  method WriteSchema(s: Schema, buf: BinaryMessageWriter)
    modifies buf
    ensures buf.data == old(buf.data) + EncodeSchema(s)
    decreases s
  {
    ghost var was := buf.data;
    buf.AppendUInt8(1);
    buf.AppendLenencString(s.name);
    buf.AppendVarUInt(|s.fields|);
    WriteFields(s.fields, buf);
    InOrder(was, Byte(1), Lenenc(s.name), VarUInt(|s.fields|), EncodeFieldList(s.fields));
  }

  method ReadOpeningFrom(buf: BinaryMessageReader) returns (r: Result<(string, nat)>)
    requires buf.Valid()
    modifies buf
    ensures buf.Valid()
    ensures ReadOpening(old(buf.Left())) ==
      if r.Ok? then Ok((r.value.0, r.value.1, buf.Left())) else Err
  {
    var version := buf.ReadUInt8();
    if version.Err? { return Err; }
    var name := buf.ReadLenencString();
    if name.Err? { return Err; }
    var n := buf.ReadVarUInt();
    r := if n.Err? then Err else Ok((name.value, n.value));
  }

  method ReadAttributesFrom(buf: BinaryMessageReader) returns (r: Result<(TypeTag, nat, bool, bool, EncodingHint)>)
    requires buf.Valid()
    modifies buf
    ensures buf.Valid()
    ensures ReadAttributes(old(buf.Left())) == if r.Ok? then Ok((r.value, buf.Left())) else Err
  {
    var typ := buf.ReadUInt8();
    if typ.Err? || TypeOfByte(typ.value).None? { return Err; }
    var size := buf.ReadVarUInt();
    if size.Err? { return Err; }
    ghost var u := buf.Left();
    var repeated := buf.ReadUInt8();
    if repeated.Err? { return Err; }
    var optional := buf.ReadUInt8();
    if optional.Err? { return Err; }
    var hint := buf.ReadUInt8();
    if hint.Err? || HintOfByte(hint.value).None? { return Err; }
    assert buf.Left() == u[3..];
    r := Ok((TypeOfByte(typ.value).value, size.value, repeated.value > 0, optional.value > 0,
             HintOfByte(hint.value).value));
  }

  method ReadHeaderFrom(buf: BinaryMessageReader) returns (r: Result<Header>)
    requires buf.Valid()
    modifies buf
    ensures buf.Valid()
    ensures ReadHeader(old(buf.Left())) == if r.Ok? then Ok((r.value, buf.Left())) else Err
  {
    var id := buf.ReadVarUInt();
    if id.Err? { return Err; }
    var name := buf.ReadLenencString();
    if name.Err? { return Err; }
    var rest := ReadAttributesFrom(buf);
    if rest.Err? { return Err; }
    var (tag, size, repeated, optional, hint) := rest.value;
    r := Ok(Header(id.value % TWO32, name.value, tag, size, repeated, optional, hint));
  }

  /** One field, its sub-schema read into an object of its own. */
  method DecodeFieldFrom(buf: BinaryMessageReader) returns (r: Result<Field>)
    requires buf.Valid()
    modifies buf
    ensures buf.Valid()
    ensures DecodeSchemaField(old(buf.Left())) == if r.Ok? then Ok((r.value, buf.Left())) else Err
    decreases |buf.Left()|, 0
  {
    var h := ReadHeaderFrom(buf);
    if h.Err? { return Err; }
    if h.value.tag.Plain? { return Ok(FieldOf(h.value, Schema("", []))); }
    var sub := DecodeSub(buf);
    r := if sub.Err? then Err else Ok(FieldOf(h.value, sub.value));
  }

  method DecodeSub(buf: BinaryMessageReader) returns (r: Result<Schema>)
    requires buf.Valid()
    modifies buf
    ensures buf.Valid()
    ensures DecodeSchema(old(buf.Left())) == if r.Ok? then Ok((r.value, buf.Left())) else Err
    decreases |buf.Left()|, 5
  {
    ghost var t := buf.Left();
    var sub := new MessageSchema();
    var ok := sub.Decode(buf);
    if !ok { return Err; }
    ghost var (s, rest) := DecodeSchema(t).value;
    AddedAllAgrees(EMPTY, s.fields);
    assert [] + s.fields == s.fields && sub.fields == sub.Index().fields;
    assert Schema(sub.name, sub.fields) == s;
    r := Ok(Schema(sub.name, sub.fields));
  }

  function Preceded(got: seq<Field>, r: Result<(seq<Field>, string)>): Result<(seq<Field>, string)> {
    match r
    case Err => Err
    case Ok((fs, rest)) => Ok((got + fs, rest))
  }

  lemma PrecededNone(r: Result<(seq<Field>, string)>)
    ensures Preceded([], r) == r
  {
    match r
    case Err =>
    case Ok((fs, rest)) => assert [] + fs == fs;
  }

  lemma PrecededEnd(got: seq<Field>, t: string)
    ensures Preceded(got, DecodeFieldList(t, 0)) == Ok((got, t))
  {
    assert got + [] == got;
  }

  lemma FieldsNext(got: seq<Field>, t: string, n: nat, all: Result<(seq<Field>, string)>)
    requires n > 0 && all == Preceded(got, DecodeFieldList(t, n))
    ensures all == match DecodeSchemaField(t)
      case Err => Err
      case Ok((f, left)) => Preceded(got + [f], DecodeFieldList(left, n - 1))
  {
    match DecodeSchemaField(t) {
      case Err =>
      case Ok((f, left)) =>
        match DecodeFieldList(left, n - 1) {
          case Err =>
          case Ok((fs, rest)) => assert got + ([f] + fs) == got + [f] + fs;
        }
    }
  }

  /** The fields of `fs` added in order. */
  function AddedAll(x: State, fs: seq<Field>): State {
    if fs == [] then x else Added(AddedAll(x, fs[..|fs| - 1]), fs[|fs| - 1])
  }

  lemma AddedOne(x: State, fs: seq<Field>, f: Field)
    ensures AddedAll(x, fs + [f]) == Added(AddedAll(x, fs), f)
  {
    assert (fs + [f])[..|fs|] == fs;
  }

  lemma {:induction false} AddedAllAgrees(x: State, fs: seq<Field>)
    ensures AddedAll(x, fs).fields == x.fields + fs
    ensures Agree(x) ==> Agree(AddedAll(x, fs))
  {
    if fs != [] {
      var less := fs[..|fs| - 1];
      AddedAllAgrees(x, less);
      if Agree(x) { AddAgrees(AddedAll(x, less), fs[|fs| - 1]); }
      assert less + [fs[|fs| - 1]] == fs;
      assert x.fields + fs == x.fields + less + [fs[|fs| - 1]];
    }
  }

  /** Decoding an encoded schema into a new object: its name, its fields in order, and
      maps that agree with them. */
  lemma DecodedIndex(s: Schema, rest: string)
    requires InRange(s) && Sized(s)
    ensures var r := DecodeSchema(EncodeSchema(s) + rest);
      r == Ok((s, rest)) && AddedAll(EMPTY, r.value.0.fields).fields == s.fields
      && Agree(AddedAll(EMPTY, r.value.0.fields))
  {
    SchemaBack(s, rest);
    FreshIndex(s.fields);
  }

  lemma FreshIndex(fs: seq<Field>)
    ensures AddedAll(EMPTY, fs).fields == fs && Agree(AddedAll(EMPTY, fs))
  {
    EmptyAgrees();
    AddedAllAgrees(EMPTY, fs);
    assert [] + fs == fs;
  }

  lemma EmptyAgrees()
    ensures Agree(EMPTY)
  {
  }

  /** Two fields with one name, the first removed: the second is found no longer. */
  lemma SharedName(f: Field, g: Field)
    requires f.id != g.id && f.name == g.name
    ensures var x := Run([Add(f), Add(g), Remove(f.id)]);
      x.fields == [g] && f.name !in x.ids && !Agree(x)
  {
    var one, two, three := [Add(f)], [Add(f), Add(g)], [Add(f), Add(g), Remove(f.id)];
    assert one[..0] == [] && two[..1] == one && three[..2] == two;
    assert Run(one).fields == [] + [f] == [f] && Run(two).fields == [f] + [g] == [f, g];
    var x := Run(three);
    assert IndexOf([f, g], f.id) == 0 && [f, g][..0] + [f, g][1..] == [g];
    assert NameIndex(x.fields, g.name) == 0;
    assert !NameAgrees(x, g.name);
  }

  // ------------------------------------------------------------------ the class

  class MessageSchema {
    var name: string
    var fields: seq<Field>
    var fieldIds: map<string, nat>
    var fieldTypes: map<nat, TypeTag>
    var fieldNames: map<nat, string>

    function Index(): State
      reads this
    {
      State(fields, fieldIds, fieldTypes, fieldNames)
    }

    constructor ()
      ensures Index() == EMPTY && name == "" && Agree(Index())
    {
      name := "";
      fields := [];
      fieldIds := map[];
      fieldTypes := map[];
      fieldNames := map[];
    }

    method AddField(f: Field)
      modifies this
      ensures Index() == Added(old(Index()), f) && name == old(name)
      ensures old(Agree(Index())) ==> Agree(Index())
    {
      ghost var x := Index();
      fieldIds := Emplace(fieldIds, f.name, f.id);
      fieldTypes := Emplace(fieldTypes, f.id, Tag(f.typ));
      fieldNames := Emplace(fieldNames, f.id, f.name);
      fields := fields + [f];
      if Agree(x) { AddAgrees(x, f); }
    }

    method RemoveField(id: nat) returns (ok: bool)
      modifies this
      ensures name == old(name)
      ensures Removed(old(Index()), id) == if ok then Ok(Index()) else Err
      ensures !ok ==> Index() == old(Index())
      ensures old(Agree(Index())) && ok ==>
        (Agree(Index()) <==> Alone(old(fields), IndexOf(old(fields), id)))
    {
      ghost var x := Index();
      var f := 0;
      while f < |fields|
        invariant 0 <= f <= |fields| && Index() == x
        invariant forall j :: 0 <= j < f ==> fields[j].id != id
      {
        if fields[f].id == id {
          assert f == IndexOf(fields, id);
          fieldIds := fieldIds - {fields[f].name};
          fieldTypes := fieldTypes - {fields[f].id};
          fieldNames := fieldNames - {fields[f].id};
          fields := fields[..f] + fields[f + 1..];
          if Agree(x) { RemoveAgreesIff(x, id); }
          return true;
        }
        f := f + 1;
      }
      ok := false;
    }

    /** `fieldType` and `hasField`, on the maps: the lookups of the message codec. */
    method FieldTypeOf(id: nat) returns (r: Result<TypeTag>)
      ensures Agree(Index()) && id != 0 ==>
        r == match TypeAt(Schema(name, fields), id) case None => Err case Some(t) => Ok(Tag(t))
      ensures id == 0 ==> r == Ok(ObjectTag)
    {
      assert Agree(Index()) ==> IdAgrees(Index(), id);
      if id == 0 { return Ok(ObjectTag); }
      r := if id in fieldTypes then Ok(fieldTypes[id]) else Err;
    }

    method FieldNameOf(id: nat) returns (r: Result<string>)
      ensures Agree(Index()) && id != 0 ==>
        r == if HasField(Schema(name, fields), id) then Ok(fields[IndexOf(fields, id)].name) else Err
      ensures id == 0 ==> r == Ok(name)
    {
      assert Agree(Index()) ==> IdAgrees(Index(), id);
      if id == 0 { return Ok(name); }
      r := if id in fieldNames then Ok(fieldNames[id]) else Err;
    }

    method FieldIdOf(path: string) returns (r: Result<nat>)
      ensures Agree(Index()) ==>
        var i := NameIndex(fields, path); r == if i < |fields| then Ok(fields[i].id) else Err
    {
      assert Agree(Index()) ==> NameAgrees(Index(), path);
      r := if path in fieldIds then Ok(fieldIds[path]) else Err;
    }

    /** `encode`. */
    method Encode(buf: BinaryMessageWriter)
      modifies buf
      ensures buf.data == old(buf.data) + EncodeSchema(Schema(name, fields))
    {
      WriteSchema(Schema(name, fields), buf);
    }

    /** `decode`: the fields read are added to those that are there. */
    method Decode(buf: BinaryMessageReader) returns (ok: bool)
      requires buf.Valid()
      modifies this, buf
      ensures buf.Valid()
      ensures ok <==> DecodeSchema(old(buf.Left())).Ok?
      ensures ok ==> var (s, rest) := DecodeSchema(old(buf.Left())).value;
        name == s.name && Index() == AddedAll(old(Index()), s.fields) && buf.Left() == rest
      decreases |buf.Left()|, 4
    {
      var opening := ReadOpeningFrom(buf);
      if opening.Err? { return false; }
      name := opening.value.0;
      ok := DecodeEach(opening.value.1, buf);
    }

    /** The loop over the fields. */
    method DecodeEach(nfields: nat, buf: BinaryMessageReader) returns (ok: bool)
      requires buf.Valid()
      modifies this, buf
      ensures buf.Valid()
      ensures ok <==> DecodeFieldList(old(buf.Left()), nfields).Ok?
      ensures ok ==> var (fs, rest) := DecodeFieldList(old(buf.Left()), nfields).value;
        Index() == AddedAll(old(Index()), fs) && buf.Left() == rest
      ensures name == old(name)
      decreases |buf.Left()|, 3
    {
      ghost var t, was, got: seq<Field> := buf.Left(), Index(), [];
      ghost var all := DecodeFieldList(t, nfields);
      PrecededNone(all);
      var i := 0;
      ghost var n, todo := nfields, all;
      while i < nfields
        invariant 0 <= i <= nfields && i + n == nfields && buf.Valid() && |buf.Left()| <= |t| && name == old(name)
        invariant Index() == AddedAll(was, got)
        invariant all == Preceded(got, todo) && todo == DecodeFieldList(buf.Left(), n)
      {
        ok, got, todo := DecodeTurn(buf, n, was, got, all, todo);
        if !ok { return; }
        i, n := i + 1, n - 1;
      }
      PrecededEnd(got, buf.Left());
      ok := true;
    }

    /** One turn: `got` are the fields read so far, `all` is what the list comes to. */
    method DecodeTurn(buf: BinaryMessageReader, ghost n: nat, ghost was: State, ghost got: seq<Field>,
                      ghost all: Result<(seq<Field>, string)>, ghost todo: Result<(seq<Field>, string)>)
      returns (ok: bool, ghost got': seq<Field>, ghost todo': Result<(seq<Field>, string)>)
      requires buf.Valid() && n > 0 && Index() == AddedAll(was, got)
      requires all == Preceded(got, todo) && todo == DecodeFieldList(buf.Left(), n)
      modifies this, buf
      ensures buf.Valid() && name == old(name) && (ok ==> |buf.Left()| <= old(|buf.Left()|))
      ensures !ok ==> all == Err
      ensures ok ==> Index() == AddedAll(was, got') && all == Preceded(got', todo')
                     && todo' == DecodeFieldList(buf.Left(), n - 1)
      decreases |buf.Left()|, 2
    {
      ghost var f := DecodeSchemaField(buf.Left());
      FieldsNext(got, buf.Left(), n, all);
      ok := DecodeNext(buf);
      got', todo' := got, todo;
      if ok {
        todo' := DecodeFieldList(buf.Left(), n - 1);
        AddedOne(was, got, f.value.0);
        got' := got + [f.value.0];
      }
    }

    method DecodeNext(buf: BinaryMessageReader) returns (ok: bool)
      requires buf.Valid()
      modifies this, buf
      ensures buf.Valid()
      ensures ok <==> DecodeSchemaField(old(buf.Left())).Ok?
      ensures ok ==> var (f, rest) := DecodeSchemaField(old(buf.Left())).value;
        Index() == Added(old(Index()), f) && buf.Left() == rest
      ensures name == old(name) && (ok ==> |buf.Left()| <= old(|buf.Left()|))
      decreases |buf.Left()|, 1
    {
      var f := DecodeFieldFrom(buf);
      if f.Err? { return false; }
      AddField(f.value);
      ok := true;
    }
  }
}
