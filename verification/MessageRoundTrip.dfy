/** What a decoder reads of an encoded message. */
module MessageRoundTrip {
  import opened Text
  import opened Wire
  import opened SchemaTypes
  import opened Messages

  const ID_LIMIT := 0x2000_0000

  /** A key's 32 bits leave 29 for the id. */
  predicate SmallIds(ms: seq<Message>) { forall i :: 0 <= i < |ms| ==> SmallId(ms[i]) }

  predicate SmallId(m: Message) {
    m.id < ID_LIMIT && (m.value.Object? ==> SmallIds(m.value.children))
  }

  /** `s'` is `s` without some of its fields, at every level. */
  predicate Narrower(s': Schema, s: Schema)
    decreases s'
  {
    forall i :: 0 <= i < |s'.fields| ==> NarrowAt(s'.fields[IndexOf(s'.fields, s'.fields[i].id)], s)
  }

  predicate NarrowAt(f': Field, s: Schema)
    decreases f'
  {
    match TypeAt(s, f'.id)
    case None => false
    case Some(t) =>
      if f'.typ.OBJECT? then t.OBJECT? && Narrower(f'.typ.sub, t.sub) else f'.id == 0 || t == f'.typ
  }

  /** The message with each value converted to its field's type. */
  function Converted(m: Message, s: Schema): Message
    decreases m
  {
    match TypeAt(s, m.id)
    case None => m
    case Some(t) =>
      if t.OBJECT? then
        if m.value.Object? then Message(m.id, Object(ConvertedAll(m.value.children, t.sub))) else m
      else
        match Convert(m.value, t)
        case Err => m
        case Ok(v) => Message(m.id, v)
  }

  function ConvertedAll(ms: seq<Message>, s: Schema): (r: seq<Message>)
    ensures |r| == |ms|
    decreases ms
  {
    if ms == [] then [] else [Converted(ms[0], s)] + ConvertedAll(ms[1..], s)
  }

  /** The projection of a message to a schema: the fields the schema has, in order. */
  function Projected(ms: seq<Message>, s: Schema): seq<Message>
    decreases ms
  {
    if ms == [] then [] else ProjectedField(ms[0], s) + Projected(ms[1..], s)
  }

  function ProjectedField(m: Message, s: Schema): seq<Message>
    decreases m
  {
    match TypeAt(s, m.id)
    case None => []
    case Some(t) =>
      if t.OBJECT? && m.value.Object? then [Message(m.id, Object(Projected(m.value.children, t.sub)))] else [m]
  }

  // ------------------------------------------------------------- one field, decoded

  lemma KeyBack(id: uint32, wireType: nat, x: string)
    requires wireType < 8
    ensures ReadVar(Key(id, wireType) + x) == Ok((id * 8 % TWO32 + wireType, x))
    ensures var k := id * 8 % TWO32 + wireType;
      k % 8 == wireType && k / 8 % TWO32 == id % ID_LIMIT
  {
    VarBack(id * 8 % TWO32 + wireType, x);
    KeyParts(id, wireType);
  }

  lemma KeyParts(id: uint32, wireType: nat)
    requires wireType < 8
    ensures var k := id * 8 % TWO32 + wireType;
      k % 8 == wireType && k / 8 == id % ID_LIMIT
  {
    var q, r := id / ID_LIMIT, id % ID_LIMIT;
    assert id * 8 == q * TWO32 + r * 8;
    assert id * 8 % TWO32 == r * 8;
  }

  /** The bytes of a converted value can be skipped or read back. */
  lemma PayloadBack(v: Value, t: FieldType, v': Value, rest: string)
    requires !t.OBJECT? && Convert(v, t) == Ok(v') && |Payload(v')| < TWO64
    ensures Skip(WireType(v'), Payload(v') + rest) == Ok(rest)
    ensures ReadScalar(t, Payload(v') + rest) == Ok((v', rest))
  {
    if v'.Chars? {
      LenencBack(v'.s, rest);
    } else if v'.Double? {
      DoubleBack(v'.word, rest);
    } else {
      VarPayloadBack(v, t, v', rest);
    }
  }

  function Number(v: Value): uint64 {
    match v
    case UInt32(n) => n
    case UInt64(n) => n
    case DateTime(n) => n
    case Boolean(b) => if b then 1 else 0
    case _ => 0
  }

  lemma VarPayloadBack(v: Value, t: FieldType, v': Value, rest: string)
    requires !t.OBJECT? && Convert(v, t) == Ok(v') && !v'.Chars? && !v'.Double?
    ensures ReadVar(Payload(v') + rest) == Ok((Number(v'), rest))
    ensures !t.DOUBLE? && !t.STRING? && FromVar(t, Number(v')) == v'
  {
    NumberBack(v, t, v');
    VarBack(Number(v'), rest);
  }

  lemma NumberBack(v: Value, t: FieldType, v': Value)
    requires !t.OBJECT? && Convert(v, t) == Ok(v') && !v'.Chars? && !v'.Double?
    ensures !v'.Object? && Payload(v') == VarUInt(Number(v'))
    ensures !t.DOUBLE? && !t.STRING? && FromVar(t, Number(v')) == v'
  {
  }

  lemma DoubleBack(w: uint64, rest: string)
    ensures var x := Fixed(w, 8) + rest;
      |x| >= 8 && FixedValue(x[..8]) % TWO64 == w && x[8..] == rest
  {
    var x := Fixed(w, 8) + rest;
    assert x[..8] == Fixed(w, 8);
    WordBack(w);
  }

  /** The bytes after a field's key. */
  function Body(m: Message, s: Schema): Result<(nat, string)> {
    match TypeAt(s, m.id)
    case None => Err
    case Some(t) =>
      if t.OBJECT? then
        if !m.value.Object? then Err else
          match EncodeFields(m.value.children, t.sub)
          case Err => Err
          case Ok(body) => Ok((2, Lenenc(body)))
      else
        match Convert(m.value, t)
        case Err => Err
        case Ok(v) => Ok((WireType(v), Payload(v)))
  }

  /** An encoded field is its key and body, and the body can be skipped whatever it is. */
  lemma BodySkip(m: Message, s: Schema, rest: string)
    requires EncodeField(m, s).Ok? && |EncodeField(m, s).value| < TWO64
    ensures Body(m, s).Ok?
    ensures var (wt, b) := Body(m, s).value;
      wt < 8 && EncodeField(m, s).value == Key(m.id, wt) + b && Skip(wt, b + rest) == Ok(rest)
  {
    var t := TypeAt(s, m.id).value;
    if t.OBJECT? {
      LenencBack(EncodeFields(m.value.children, t.sub).value, rest);
    } else {
      PayloadBack(m.value, t, Convert(m.value, t).value, rest);
    }
  }

  lemma KeyThenBody(m: Message, s: Schema, rest: string)
    requires EncodeField(m, s).Ok? && |EncodeField(m, s).value| < TWO64
    ensures EncodeField(m, s).value != "" && Body(m, s).Ok?
    ensures var (wt, b) := Body(m, s).value;
      var key := ReadVar(EncodeField(m, s).value + rest);
      key.Ok? && key.value.1 == b + rest && key.value.0 % 8 == wt && key.value.0 / 8 % TWO32 == m.id % ID_LIMIT
      && Skip(wt, b + rest) == Ok(rest)
  {
    BodySkip(m, s, rest);
    var (wt, b) := Body(m, s).value;
    KeyBack(m.id, wt, b + rest);
    assert Key(m.id, wt) + b + rest == Key(m.id, wt) + (b + rest);
  }

  /** The decoder's step once the key is read. */
  lemma StepByKey(t: string, s': Schema, key: nat, left: string)
    requires ReadVar(t) == Ok((key, left))
    ensures var fid := key / 8 % TWO32;
      match TypeAt(s', fid)
      case Some(typ) => DecodeStep(t, s') == DecodeField(fid, typ, left)
      case None => DecodeStep(t, s') == match Skip(key % 8, left) {
        case Err => Step([], false, "")
        case Ok(rest) => Step([], true, rest) }
  {
  }

  /** A field whose truncated id the reader's schema does not have is passed over. */
  lemma UnknownSkipped(m: Message, s: Schema, s': Schema, rest: string)
    requires EncodeField(m, s).Ok? && |EncodeField(m, s).value| < TWO64
    requires !HasField(s', m.id % ID_LIMIT)
    ensures DecodeStep(EncodeField(m, s).value + rest, s') == Step([], true, rest)
  {
    KeyThenBody(m, s, rest);
    var t := EncodeField(m, s).value + rest;
    StepByKey(t, s', ReadVar(t).value.0, Body(m, s).value.1 + rest);
  }

  /** The step's way to a field that the reader's schema has. */
  lemma KnownStep(m: Message, s: Schema, s': Schema, rest: string)
    requires EncodeField(m, s).Ok? && |EncodeField(m, s).value| < TWO64
    requires m.id < ID_LIMIT && HasField(s', m.id)
    ensures Body(m, s).Ok?
    ensures DecodeStep(EncodeField(m, s).value + rest, s')
      == DecodeField(m.id, TypeAt(s', m.id).value, Body(m, s).value.1 + rest)
  {
    KeyThenBody(m, s, rest);
    SmallRemainder(m.id);
    KnownByKey(EncodeField(m, s).value + rest, s', ReadVar(EncodeField(m, s).value + rest).value.0,
               Body(m, s).value.1 + rest, m.id);
  }

  lemma SmallRemainder(id: uint32)
    requires id < ID_LIMIT
    ensures id % ID_LIMIT == id
  {
  }

  lemma KnownByKey(t: string, s': Schema, key: nat, left: string, fid: uint32)
    requires ReadVar(t) == Ok((key, left)) && key / 8 % TWO32 == fid && HasField(s', fid)
    ensures DecodeStep(t, s') == DecodeField(fid, TypeAt(s', fid).value, left)
  {
    StepByKey(t, s', key, left);
  }

  lemma NarrowType(s': Schema, s: Schema, id: nat)
    requires Narrower(s', s) && HasField(s', id)
    ensures TypeAt(s, id).Some?
    ensures var t', t := TypeAt(s', id).value, TypeAt(s, id).value;
      t'.OBJECT? == t.OBJECT? && if t.OBJECT? then Narrower(t'.sub, t.sub) else t' == t
  {
    var i := IndexOf(s'.fields, id);
    assert NarrowAt(s'.fields[IndexOf(s'.fields, s'.fields[i].id)], s);
  }

  lemma ObjectAny(id: uint32, body: string, sub: Schema, rest: string)
    requires |body| < TWO64
    ensures DecodeField(id, OBJECT(sub), Lenenc(body) + rest)
      == Step([Message(id, Object(Decode(body, sub).fields))], Decode(body, sub).ok, rest)
  {
    assert Lenenc(body) + rest == VarUInt(|body|) + (body + rest);
    VarBack(|body|, body + rest);
    assert (body + rest)[..|body|] == body && (body + rest)[|body|..] == rest;
  }

  /** A field of the reader's schema comes back, its children by the lemma below. */
  lemma {:induction false} FieldBack(m: Message, s: Schema, s': Schema, rest: string)
    requires EncodeField(m, s).Ok? && |EncodeField(m, s).value| < TWO64
    requires SmallId(m) && Narrower(s', s)
    ensures DecodeStep(EncodeField(m, s).value + rest, s')
      == Step(ProjectedField(Converted(m, s), s'), true, rest)
    decreases m
  {
    if !HasField(s', m.id) {
      UnknownSkipped(m, s, s', rest);
    } else {
      KnownStep(m, s, s', rest);
      NarrowType(s', s, m.id);
      var t := TypeAt(s, m.id).value;
      if t.OBJECT? {
        var sub := TypeAt(s', m.id).value.sub;
        var body := EncodeFields(m.value.children, t.sub).value;
        FieldsBack(m.value.children, t.sub, sub);
        ObjectAny(m.id, body, sub, rest);
      } else {
        PayloadBack(m.value, t, Convert(m.value, t).value, rest);
      }
    }
  }

  /** What is decoded of an encoded message is its projection to the reader's schema. */
  lemma {:induction false} FieldsBack(ms: seq<Message>, s: Schema, s': Schema)
    requires EncodeFields(ms, s).Ok? && |EncodeFields(ms, s).value| < TWO64
    requires SmallIds(ms) && Narrower(s', s)
    ensures Decode(EncodeFields(ms, s).value, s') == Decoded(Projected(ConvertedAll(ms, s), s'), true)
    decreases ms
  {
    if ms != [] {
      var e, more := EncodeField(ms[0], s).value, EncodeFields(ms[1..], s).value;
      FieldBack(ms[0], s, s', more);
      FieldsBack(ms[1..], s, s');
      KeyThenBody(ms[0], s, more);
      assert ConvertedAll(ms, s)[1..] == ConvertedAll(ms[1..], s);
    }
  }

  // ------------------------------------------------------------- the full round trip

  /** Each value has the kind that its field's type stands for, and small ids. */
  predicate Typed(m: Message, s: Schema)
    decreases m
  {
    m.id < ID_LIMIT &&
    match TypeAt(s, m.id)
    case None => false
    case Some(t) =>
      match t
      case OBJECT(sub) => m.value.Object? && TypedAll(m.value.children, sub)
      case BOOLEAN => m.value.Boolean?
      case UINT32 => m.value.UInt32?
      case STRING => m.value.Chars?
      case UINT64 => m.value.UInt64?
      case DOUBLE => m.value.Double?
      case DATETIME => m.value.DateTime?
  }

  predicate TypedAll(ms: seq<Message>, s: Schema)
    decreases ms
  {
    ms == [] || (Typed(ms[0], s) && TypedAll(ms[1..], s))
  }

  /** The first child that is decoded has a small id. */
  lemma {:induction false} FirstIsSmall(ms: seq<Message>, s: Schema, s': Schema)
    requires EncodeFields(ms, s).Ok? && |EncodeFields(ms, s).value| < TWO64
    ensures var d := Decode(EncodeFields(ms, s).value, s');
      d.fields == [] || d.fields[0].id < ID_LIMIT
    decreases ms
  {
    if ms != [] {
      var more := EncodeFields(ms[1..], s).value;
      KeyThenBody(ms[0], s, more);
      if !HasField(s', ms[0].id % ID_LIMIT) {
        UnknownSkipped(ms[0], s, s', more);
        FirstIsSmall(ms[1..], s, s');
      }
    }
  }

  /** The bytes of one field, read with the schema it was encoded with. */
  lemma FieldRead(m: Message, s: Schema, rest: string)
    requires EncodeField(m, s).Ok? && |EncodeField(m, s).value| < TWO64 && m.id < ID_LIMIT
    ensures var t := TypeAt(s, m.id).value;
      DecodeStep(EncodeField(m, s).value + rest, s)
      == if t.OBJECT? then
           var d := Decode(EncodeFields(m.value.children, t.sub).value, t.sub);
           Step([Message(m.id, Object(d.fields))], d.ok, rest)
         else Step([Message(m.id, Convert(m.value, t).value)], true, rest)
  {
    KnownStep(m, s, s, rest);
    var t := TypeAt(s, m.id).value;
    if t.OBJECT? {
      ObjectAny(m.id, EncodeFields(m.value.children, t.sub).value, t.sub, rest);
    } else {
      PayloadBack(m.value, t, Convert(m.value, t).value, rest);
    }
  }

  lemma ObjectSize(m: Message, s: Schema)
    requires EncodeField(m, s).Ok? && m.value.Object? && TypeAt(s, m.id).value.OBJECT?
    ensures |EncodeFields(m.value.children, TypeAt(s, m.id).value.sub).value| < |EncodeField(m, s).value|
  {
  }

  lemma KindKept(v: Value, t: FieldType)
    requires !t.OBJECT? && Convert(v, t).Ok?
    ensures Convert(v, t) == Ok(v) <==>
      match t
      case BOOLEAN => v.Boolean?
      case UINT32 => v.UInt32?
      case STRING => v.Chars?
      case UINT64 => v.UInt64?
      case DOUBLE => v.Double?
      case DATETIME => v.DateTime?
  {
  }

  /** One field of the schema it was encoded with: unchanged exactly when it is typed. */
  lemma {:induction false} FieldUnchanged(m: Message, s: Schema, rest: string)
    requires EncodeField(m, s).Ok? && |EncodeField(m, s).value| < TWO64 && m.id < ID_LIMIT
    ensures DecodeStep(EncodeField(m, s).value + rest, s) == Step([m], true, rest) <==> Typed(m, s)
    decreases m
  {
    FieldRead(m, s, rest);
    var t := TypeAt(s, m.id).value;
    if t.OBJECT? {
      ObjectSize(m, s);
      MessageUnchanged(m.value.children, t.sub);
    } else {
      KindKept(m.value, t);
    }
  }

  /** Decoding with the schema of the encoder gives the message back exactly when every
      value has its field's kind and every id fits its 29 bits. */
  lemma {:induction false} MessageUnchanged(ms: seq<Message>, s: Schema)
    requires EncodeFields(ms, s).Ok? && |EncodeFields(ms, s).value| < TWO64
    ensures Decode(EncodeFields(ms, s).value, s) == Decoded(ms, true) <==> TypedAll(ms, s)
    decreases ms
  {
    if ms != [] {
      if ms[0].id >= ID_LIMIT {
        FirstIsSmall(ms, s, s);
      } else {
        var more := EncodeFields(ms[1..], s).value;
        FieldUnchanged(ms[0], s, more);
        FieldRead(ms[0], s, more);
        MessageUnchanged(ms[1..], s);
        KeyThenBody(ms[0], s, more);
        var d := Decode(EncodeFields(ms, s).value, s);
        if d == Decoded(ms, true) {
          assert d.fields[0] == ms[0] && d.fields[1..] == ms[1..];
        }
      }
    }
  }

  lemma {:induction false} TypedField(m: Message, s: Schema)
    requires Typed(m, s)
    ensures EncodeField(m, s).Ok? && Converted(m, s) == m && SmallId(m)
    decreases m
  {
    var t := TypeAt(s, m.id).value;
    if t.OBJECT? { TypedFields(m.value.children, t.sub); }
  }

  lemma {:induction false} TypedFields(ms: seq<Message>, s: Schema)
    requires TypedAll(ms, s)
    ensures EncodeFields(ms, s).Ok? && ConvertedAll(ms, s) == ms && SmallIds(ms)
    decreases ms
  {
    if ms != [] {
      TypedField(ms[0], s);
      TypedFields(ms[1..], s);
      forall i | 0 <= i < |ms| ensures SmallId(ms[i]) {
        if i > 0 { assert ms[1..][i - 1] == ms[i]; }
      }
    }
  }

  /** A reader with an older schema sees exactly the fields it knows, in order. */
  lemma OlderReader(ms: seq<Message>, s: Schema, s': Schema)
    requires TypedAll(ms, s) && Narrower(s', s)
    ensures EncodeFields(ms, s).Ok?
    ensures |EncodeFields(ms, s).value| < TWO64 ==>
      Decode(EncodeFields(ms, s).value, s') == Decoded(Projected(ms, s'), true)
  {
    TypedFields(ms, s);
    if |EncodeFields(ms, s).value| < TWO64 { FieldsBack(ms, s, s'); }
  }

  // ------------------------------------------------------------- narrower schemas

  lemma {:induction false} NarrowSelf(s: Schema)
    ensures Narrower(s, s)
    decreases s
  {
    forall i | 0 <= i < |s.fields| ensures NarrowAt(s.fields[IndexOf(s.fields, s.fields[i].id)], s) {
      var f := s.fields[IndexOf(s.fields, s.fields[i].id)];
      if f.typ.OBJECT? { NarrowSelf(f.typ.sub); }
    }
  }

  lemma {:induction false} NarrowTwice(a: Schema, b: Schema, c: Schema)
    requires Narrower(a, b) && Narrower(b, c)
    ensures Narrower(a, c)
    decreases a
  {
    forall i | 0 <= i < |a.fields| ensures NarrowAt(a.fields[IndexOf(a.fields, a.fields[i].id)], c) {
      var f := a.fields[IndexOf(a.fields, a.fields[i].id)];
      NarrowType(a, b, f.id);
      NarrowType(b, c, f.id);
      if f.typ.OBJECT? { NarrowTwice(f.typ.sub, TypeAt(b, f.id).value.sub, TypeAt(c, f.id).value.sub); }
    }
  }

  function Without(s: Schema, i: nat): Schema
    requires i < |s.fields|
  {
    Schema(s.name, s.fields[..i] + s.fields[i + 1..])
  }

  /** Removing a field whose id no other field has. */
  lemma NarrowRemove(s: Schema, i: nat)
    requires i < |s.fields|
    requires forall j :: 0 <= j < |s.fields| && j != i ==> s.fields[j].id != s.fields[i].id
    ensures Narrower(Without(s, i), s)
  {
    var s' := Without(s, i);
    forall k | 0 <= k < |s'.fields| ensures NarrowAt(s'.fields[IndexOf(s'.fields, s'.fields[k].id)], s) {
      var n' := IndexOf(s'.fields, s'.fields[k].id);
      var f := s'.fields[n'];
      SameFirst(s, i, n');
      if f.typ.OBJECT? { NarrowSelf(f.typ.sub); }
    }
  }

  lemma SameFirst(s: Schema, i: nat, n': nat)
    requires i < |s.fields| && n' < |Without(s, i).fields|
    requires n' == IndexOf(Without(s, i).fields, Without(s, i).fields[n'].id)
    requires forall j :: 0 <= j < |s.fields| && j != i ==> s.fields[j].id != s.fields[i].id
    ensures var f := Without(s, i).fields[n'];
      HasField(s, f.id) && s.fields[IndexOf(s.fields, f.id)] == f
  {
    var fs := Without(s, i).fields;
    var n := if n' < i then n' else n' + 1;
    assert s.fields[n] == fs[n'];
    assert forall j :: 0 <= j < n && j != i ==> s.fields[j] == fs[if j < i then j else j - 1];
    assert IndexOf(s.fields, fs[n'].id) == n;
  }
}
