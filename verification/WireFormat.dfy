/** The bytes themselves: LEB128 by its digits, the Protocol Buffers encoding by its published
    examples, what each wire type holds, and which number a converted value is. */
module WireFormat {
  import opened Text
  import opened Wire
  import opened SchemaTypes
  import opened Messages
  import opened SchemaCodec

  // -------------------------------------------------------------------- LEB128

  /** Bytes with the top bit, and a last one without it. */
  predicate LebShape(s: string) {
    s != "" && s[|s| - 1] as int < 128 && forall i :: 0 <= i < |s| - 1 ==> 128 <= s[i] as int < 256
  }

  /** Seven bits a byte, the lowest first. */
  function LebNumber(s: string): nat { if s == "" then 0 else s[0] as int % 128 + 128 * LebNumber(s[1..]) }

  predicate Shortest(s: string) { |s| > 1 ==> s[|s| - 1] as int != 0 }

  lemma LebRest(s: string)
    requires LebShape(s) && |s| > 1
    ensures LebShape(s[1..]) && (Shortest(s) ==> Shortest(s[1..]) && LebNumber(s[1..]) > 0)
    decreases |s|
  {
    var u := s[1..];
    assert forall i :: 0 <= i < |u| ==> u[i] == s[i + 1];
    if Shortest(s) && |u| > 1 { LebRest(u); }
  }

  lemma LebJoin(c: char, u: string)
    requires LebShape(u) && Shortest(u) && 128 <= c as int < 256 && LebNumber(u) > 0
    ensures LebShape([c] + u) && Shortest([c] + u) && LebNumber([c] + u) == c as int - 128 + 128 * LebNumber(u)
  {
    var s := [c] + u;
    assert s[1..] == u;
    assert |u| == 1 ==> u[0] as int % 128 + 128 * LebNumber(u[1..]) == u[0] as int;
  }

  /** A number's LEB128 form is the one text of that shape with its value and no needless
      byte. */
  lemma {:induction false} VarUIntIs(n: nat)
    ensures var s := VarUInt(n); LebShape(s) && Shortest(s) && LebNumber(s) == n
    decreases n
  {
    if n >= 128 {
      VarUIntIs(n / 128);
      LebJoin((n % 128 + 128) as char, VarUInt(n / 128));
    } else {
      assert VarUInt(n)[1..] == "";
    }
  }

  lemma {:induction false} VarUIntOnly(s: string)
    requires LebShape(s) && Shortest(s)
    ensures s == VarUInt(LebNumber(s))
    decreases |s|
  {
    if |s| == 1 {
      assert s[1..] == "";
    } else {
      LebRest(s);
      VarUIntOnly(s[1..]);
      assert s == [s[0]] + s[1..];
    }
  }

  lemma {:induction false} ReadLebFrom(s: string, rest: string, i: nat, acc: nat)
    requires LebShape(s) && i + |s| <= 10
    ensures ReadVarFrom(s + rest, i, acc) == Ok((Wrap(acc + Times(LebNumber(s), i)), rest))
    decreases |s|
  {
    var low := Low(s[0]);
    assert (s + rest)[0] == s[0] && (s + rest)[1..] == s[1..] + rest;
    if |s| == 1 {
      assert s[1..] == "" && LebNumber(s) == low;
      assert s[1..] + rest == rest;
    } else {
      LebRest(s);
      ReadLebFrom(s[1..], rest, i + 1, Wrap(acc + Times(low, i)));
      TimesSplit(low, LebNumber(s[1..]), i);
      WrapTwice(acc + Times(low, i), Times(LebNumber(s[1..]), i + 1));
    }
  }

  lemma TimesSplit(low: nat, high: nat, i: nat)
    ensures Times(low + 128 * high, i) == Times(low, i) + Times(high, i + 1)
  {
    var p := Pow128(i);
    assert (low + 128 * high) * p == low * p + high * (128 * p);
  }

  lemma WrapTwice(a: nat, b: nat)
    ensures Wrap(Wrap(a) + b) == Wrap(a + b)
  {
  }

  function Number64(s: string): (r: nat)
    ensures r < 18446744073709551616
  {
    LebNumber(s) % 18446744073709551616
  }

  /** The reader takes any LEB128 text of at most ten bytes, needless ones included, as its
      number modulo 2^64. */
  lemma ReadLeb(s: string, rest: string)
    requires LebShape(s) && |s| <= 10
    ensures ReadVar(s + rest) == Ok((Number64(s), rest))
  {
    ReadLebFrom(s, rest, 0, 0);
    TimesOne(LebNumber(s), 0);
  }

  lemma TimesOne(n: nat, i: nat)
    requires i == 0
    ensures Times(n, i) == n && Wrap(n) == n % 18446744073709551616
  {
  }

  lemma {:induction false} ReadOpenFrom(t: string, i: nat, acc: nat)
    requires forall j :: 0 <= j < |t| && i + j < 10 ==> 128 <= t[j] as int < 256
    ensures ReadVarFrom(t, i, acc) == Err
    decreases |t|
  {
    if t != "" && i < 10 {
      assert t[1..] == t[1..] && forall j :: 0 <= j < |t| - 1 ==> t[1..][j] == t[j + 1];
      ReadOpenFrom(t[1..], i + 1, Wrap(acc + Times(Low(t[0]), i)));
    }
  }

  /** A text without an end among its first ten bytes is an error. */
  lemma ReadOpen(t: string)
    requires forall j :: 0 <= j < |t| && j < 10 ==> 128 <= t[j] as int < 256
    ensures ReadVar(t) == Err
  {
    ReadOpenFrom(t, 0, 0);
  }

  /** A 64-bit word has its lowest byte first. */
  lemma WordBytes(n: nat)
    ensures var w := Fixed(n, 8);
      w[0] as int == n % 256 && w[1] as int == n / 256 % 256 && w[2] as int == n / 65536 % 256
      && w[3] as int == n / 16777216 % 256 && w[4] as int == n / 4294967296 % 256
      && w[5] as int == n / 1099511627776 % 256 && w[6] as int == n / 281474976710656 % 256
      && w[7] as int == n / 72057594037927936 % 256
  {
    FixedAt(n, 8, 0, 1);
    FixedAt(n, 8, 1, 256);
    FixedAt(n, 8, 2, 65536);
    FixedAt(n, 8, 3, 16777216);
    FixedAt(n, 8, 4, 4294967296);
    FixedAt(n, 8, 5, 1099511627776);
    FixedAt(n, 8, 6, 281474976710656);
    FixedAt(n, 8, 7, 72057594037927936);
  }

  lemma {:induction false} FixedAt(n: nat, k: nat, i: nat, p: nat)
    requires i < k && p == Pow256(i) && p > 0
    ensures Fixed(n, k)[i] as int == n / p % 256
    decreases i
  {
    if i > 0 {
      FixedAt(n / 256, k - 1, i - 1, p / 256);
      DivTwice(n, p / 256);
    }
  }

  lemma DivTwice(n: nat, p: nat)
    requires p > 0
    ensures n / 256 / p == n / (256 * p)
  {
    var m := n / 256;
    var q, r := m / p, m % p;
    assert m == p * q + r;
    Scaled(p, q, r, n % 256);
    Quotient(n, 256 * p, q, 256 * r + n % 256);
  }

  lemma Scaled(p: nat, q: nat, r: nat, low: nat)
    requires r < p && low < 256
    ensures 256 * (p * q + r) + low == (256 * p) * q + (256 * r + low) && 256 * r + low < 256 * p
  {
    assert 256 * (p * q) == (256 * p) * q;
  }

  lemma Quotient(n: nat, d: nat, q: nat, r: nat)
    requires r < d && n == d * q + r
    ensures n / d == q
  {
    var q' := n / d;
    assert n == d * q' + n % d;
    if q' > q { Above(d, q, q' - q - 1); } else if q' < q { Above(d, q', q - q' - 1); }
  }

  lemma {:induction false} Above(d: nat, a: nat, k: nat)
    ensures d * (a + 1 + k) >= d * a + d
  {
    if k > 0 {
      Above(d, a, k - 1);
      assert d * (a + 1 + k) == d * (a + k) + d;
    } else {
      assert d * (a + 1) == d * a + d;
    }
  }

  // ------------------------------------------------------------ what a value is

  /** The number that a value stands for, if it is one. */
  function NumberOf(v: Value): Option<nat> {
    match v
    case UInt32(n) => Some(n)
    case UInt64(n) => Some(n)
    case DateTime(n) => Some(n)
    case _ => None
  }

  function KindOf(v: Value): FieldType {
    match v
    case Object(_) => OBJECT(Schema("", []))
    case Boolean(_) => BOOLEAN
    case UInt32(_) => UINT32
    case Chars(_) => STRING
    case UInt64(_) => UINT64
    case Double(_) => DOUBLE
    case DateTime(_) => DATETIME
  }

  /** A number goes out as the same number, modulo 2^32 where the field has 32 bits, and a
      time is no 32-bit number; strings, doubles and booleans go out unchanged, and a 32-bit
      number in a boolean field says whether it is positive. */
  lemma ConvertKeeps(v: Value, t: FieldType)
    requires !t.OBJECT?
    ensures var r := Convert(v, t);
      (r.Ok? ==> KindOf(r.value) == t)
      && match t {
        case STRING => r == if v.Chars? then Ok(v) else Err
        case DOUBLE => r == if v.Double? then Ok(v) else Err
        case BOOLEAN => (r.Ok? <==> v.Boolean? || v.UInt32?)
          && (v.Boolean? ==> r == Ok(v)) && (v.UInt32? ==> r == Ok(Boolean(NumberOf(v).value > 0)))
        case UINT32 => (r.Ok? <==> v.UInt32? || v.UInt64?)
          && (r.Ok? ==> NumberOf(r.value) == Some(NumberOf(v).value % 4294967296))
        case _ => (r.Ok? <==> NumberOf(v).Some?) && (r.Ok? ==> NumberOf(r.value) == NumberOf(v)) }
  {
  }

  /** What the decoder makes of a LEB128 number: only the number one is true. */
  lemma NumberRead(t: FieldType, s: string, rest: string)
    requires LebShape(s) && |s| <= 10 && (t.UINT32? || t.UINT64? || t.DATETIME? || t.BOOLEAN?)
    ensures var r := ReadScalar(t, s + rest);
      r.Ok? && r.value.1 == rest && NumberStands(t, Number64(s), r.value.0)
  {
    ReadLeb(s, rest);
    FromVarStands(t, Number64(s));
  }

  predicate NumberStands(t: FieldType, n: nat, v: Value) {
    KindOf(v) == t
    && if t.BOOLEAN? then v == Boolean(n == 1) else NumberOf(v) == Some(if t.UINT32? then n % 4294967296 else n)
  }

  lemma FromVarStands(t: FieldType, n: nat)
    requires n < 18446744073709551616 && (t.UINT32? || t.UINT64? || t.DATETIME? || t.BOOLEAN?)
    ensures NumberStands(t, n, FromVar(t, n))
  {
  }

  // ------------------------------------------------------- fields that are passed over

  ghost predicate LengthAndBytes(p: string, n: string, b: string) {
    p == n + b && LebShape(n) && |n| <= 10 && Number64(n) == |b|
  }

  /** What a wire type puts behind its key. */
  ghost predicate Holds(wireType: nat, p: string) {
    if wireType == 0 then LebShape(p) && |p| <= 10
    else if wireType == 1 then |p| == 8
    else if wireType == 2 then exists n, b :: LengthAndBytes(p, n, b)
    else if wireType == 5 then |p| == 4
    else false
  }

  lemma SkipHolds(wireType: nat, p: string, rest: string)
    requires Holds(wireType, p)
    ensures Skip(wireType, p + rest) == Ok(rest)
  {
    if wireType == 0 {
      ReadLeb(p, rest);
    } else if wireType == 2 {
      var n, b :| LengthAndBytes(p, n, b);
      SkipLength(n, b, rest);
    } else {
      assert (p + rest)[|p|..] == rest;
    }
  }

  lemma SkipLength(n: string, b: string, rest: string)
    requires LebShape(n) && |n| <= 10 && Number64(n) == |b|
    ensures Skip(2, n + b + rest) == Ok(rest)
  {
    Assoc(n, b, rest);
    ReadLeb(n, b + rest);
    TakeBack(b, rest);
  }

  /** A key of at most ten bytes for this field and wire type; 32 bits of the id are kept. */
  predicate KeyFor(key: string, id: nat, wireType: nat) {
    LebShape(key) && |key| <= 10 && wireType == Number64(key) % 8 && id == Number64(key) / 8 % 4294967296
  }

  lemma UnknownStep(key: string, id: nat, wireType: nat, t: string, s: Schema)
    requires KeyFor(key, id, wireType) && TypeAt(s, id).None?
    ensures DecodeStep(key + t, s) ==
      if Skip(wireType, t).Ok? then Step([], true, Skip(wireType, t).value) else Step([], false, "")
  {
    ReadLeb(key, t);
  }

  /** A field that the schema lacks is passed over if its wire type is 0, 1, 2 or 5 and its
      bytes are there. */
  lemma UnknownPassed(key: string, id: nat, wireType: nat, p: string, rest: string, s: Schema)
    requires KeyFor(key, id, wireType) && TypeAt(s, id).None? && Holds(wireType, p)
    ensures Decode(key + (p + rest), s) == Decode(rest, s)
  {
    UnknownStep(key, id, wireType, p + rest, s);
    SkipHolds(wireType, p, rest);
    var d := Decode(rest, s);
    assert [] + d.fields == d.fields;
  }

  /** With any other wire type it ends the decoding. */
  lemma UnknownRefused(key: string, id: nat, wireType: nat, rest: string, s: Schema)
    requires KeyFor(key, id, wireType) && TypeAt(s, id).None? && wireType in {3, 4, 6, 7}
    ensures Decode(key + rest, s) == Decoded([], false)
  {
    UnknownStep(key, id, wireType, rest, s);
  }

  /** An object whose bytes are not all there leaves a child without children. */
  lemma ObjectCutShort(key: string, id: uint32, wireType: nat, len: string, rest: string, s: Schema)
    requires KeyFor(key, id, wireType) && LebShape(len) && |len| <= 10 && Number64(len) > |rest|
    requires TypeAt(s, id).Some? && TypeAt(s, id).value.OBJECT?
    ensures Decode(key + (len + rest), s) == Decoded([Message(id, Object([]))], false)
  {
    ReadLeb(key, len + rest);
    CutObject(id, TypeAt(s, id).value, len, rest);
  }

  lemma CutObject(id: uint32, t: FieldType, len: string, rest: string)
    requires t.OBJECT? && LebShape(len) && |len| <= 10 && Number64(len) > |rest|
    ensures DecodeField(id, t, len + rest) == Step([Message(id, Object([]))], false, "")
  {
    ReadLeb(len, rest);
  }

  // --------------------------------------------------------------- published examples

  function Scalar(id: nat, t: FieldType): Field { Field(id, "", t, 0, false, false, NONE) }

  function Bytes(bs: seq<int>): (r: string)
    requires forall i :: 0 <= i < |bs| ==> 0 <= bs[i] < 256
    ensures |r| == |bs| && forall i :: 0 <= i < |bs| ==> r[i] as int == bs[i]
  {
    seq(|bs|, i requires 0 <= i < |bs| => bs[i] as char)
  }

  lemma Layout(m: Message, s: Schema, v: Value, key: string, payload: string)
    requires TypeAt(s, m.id).Some? && !TypeAt(s, m.id).value.OBJECT? && Convert(m.value, TypeAt(s, m.id).value) == Ok(v)
    requires Key(m.id, WireType(v)) == key && Payload(v) == payload
    ensures EncodeField(m, s) == Ok(key + payload)
  {
  }

  lemma TypeOfOnly(s: Schema, id: nat, t: FieldType)
    requires s.fields == [Scalar(id, t)] && id > 0
    ensures TypeAt(s, id) == Some(t)
  {
  }

  lemma ByteKey(id: uint32, w: nat)
    requires id < 16 && w < 8
    ensures Key(id, w) == Bytes([8 * id + w])
  {
  }

  /** The documentation of Protocol Buffers encodes the number 150 in field 1 in three bytes. */
  lemma NumberExample(s: Schema, t: FieldType)
    requires s.fields == [Scalar(1, t)] && (t.UINT32? || t.UINT64?)
    ensures EncodeField(Message(1, UInt32(150)), s) == Ok(Bytes([0x08, 0x96, 0x01]))
  {
    assert VarUInt(150) == Bytes([0x96, 0x01]);
    TypeOfOnly(s, 1, t);
    ByteKey(1, 0);
    Layout(Message(1, UInt32(150)), s, if t.UINT32? then UInt32(150) else UInt64(150), Bytes([0x08]),
           Bytes([0x96, 0x01]));
    assert Bytes([0x08]) + Bytes([0x96, 0x01]) == Bytes([0x08, 0x96, 0x01]);
  }

  /** Its string "testing" in field 2. */
  lemma StringExample(s: Schema)
    requires s.fields == [Scalar(2, STRING)]
    ensures EncodeField(Message(2, Chars("testing")), s)
      == Ok(Bytes([0x12, 0x07, 0x74, 0x65, 0x73, 0x74, 0x69, 0x6e, 0x67]))
  {
    var text := Bytes([0x74, 0x65, 0x73, 0x74, 0x69, 0x6e, 0x67]);
    assert "testing" == text;
    assert VarUInt(7) == Bytes([0x07]);
    TypeOfOnly(s, 2, STRING);
    ByteKey(2, 2);
    Layout(Message(2, Chars(text)), s, Chars(text), Bytes([0x12]), Bytes([0x07]) + text);
    assert Bytes([0x12]) + (Bytes([0x07]) + text) == Bytes([0x12, 0x07, 0x74, 0x65, 0x73, 0x74, 0x69, 0x6e, 0x67]);
  }

  /** Its message of field 1 inside field 3. */
  lemma NestedExample(s: Schema, inner: Schema)
    requires inner.fields == [Scalar(1, UINT32)] && s.fields == [Scalar(3, OBJECT(inner))]
    ensures EncodeField(Message(3, Object([Message(1, UInt32(150))])), s) == Ok(Bytes([0x1a, 0x03, 0x08, 0x96, 0x01]))
  {
    var body := Bytes([0x08, 0x96, 0x01]);
    NumberExample(inner, UINT32);
    OneField(Message(1, UInt32(150)), inner, body);
    TypeOfOnly(s, 3, OBJECT(inner));
    ByteKey(3, 2);
    assert VarUInt(3) == Bytes([0x03]);
    assert Bytes([0x1a]) + (Bytes([0x03]) + body) == Bytes([0x1a, 0x03, 0x08, 0x96, 0x01]);
  }

  lemma OneField(m: Message, s: Schema, e: string)
    requires EncodeField(m, s) == Ok(e)
    ensures EncodeFields([m], s) == Ok(e)
  {
    assert [m][1..] == [] && e + "" == e;
  }

  /** A double has wire type 1 and its word. */
  lemma DoubleExample(s: Schema, w: uint64)
    requires s.fields == [Scalar(4, DOUBLE)]
    ensures EncodeField(Message(4, Double(w)), s) == Ok(Bytes([0x21]) + Fixed(w, 8))
  {
    TypeOfOnly(s, 4, DOUBLE);
    ByteKey(4, 1);
    Layout(Message(4, Double(w)), s, Double(w), Bytes([0x21]), Fixed(w, 8));
  }

  /** A boolean is the number one or zero. */
  lemma BooleanExample(s: Schema, b: bool)
    requires s.fields == [Scalar(5, BOOLEAN)]
    ensures EncodeField(Message(5, Boolean(b)), s) == Ok(Bytes([0x28, if b then 1 else 0]))
  {
    var payload := Bytes([if b then 1 else 0]);
    assert VarUInt(if b then 1 else 0) == payload;
    TypeOfOnly(s, 5, BOOLEAN);
    ByteKey(5, 0);
    Layout(Message(5, Boolean(b)), s, Boolean(b), Bytes([0x28]), payload);
    assert Bytes([0x28]) + payload == Bytes([0x28, if b then 1 else 0]);
  }

  // ------------------------------------------------------------------- schemas

  /** The stored number of each type and of each hint. */
  function TypeNumber(t: FieldType): nat {
    if t.BOOLEAN? then 1 else if t.UINT32? then 2 else if t.STRING? then 3 else if t.UINT64? then 4
    else if t.DOUBLE? then 5 else if t.DATETIME? then 6 else 0
  }

  function HintNumber(e: EncodingHint): nat { if e == BITPACK then 1 else if e == LEB128 then 2 else 0 }

  lemma SmallNumber(n: nat)
    requires n < 128
    ensures VarUInt(n) == Bytes([n])
  {
  }

  /** A field with small numbers and a short name, byte by byte. */
  lemma SmallField(f: Field)
    requires f.id < 128 && |f.name| < 128 && f.typeSize < 128
    ensures EncodeSchemaField(f) == Bytes([f.id]) + ((Bytes([|f.name|]) + f.name)
      + (Bytes([TypeNumber(f.typ), f.typeSize, if f.repeated then 1 else 0, if f.optional then 1 else 0,
                HintNumber(f.encoding)])
         + if f.typ.OBJECT? then EncodeSchema(f.typ.sub) else ""))
  {
    SmallNumber(f.id);
    SmallNumber(|f.name|);
    SmallAttributes(f);
  }

  lemma SmallAttributes(f: Field)
    requires f.typeSize < 128
    ensures Attributes(f) == Bytes([TypeNumber(f.typ), f.typeSize, if f.repeated then 1 else 0,
                                    if f.optional then 1 else 0, HintNumber(f.encoding)])
  {
    SmallNumber(f.typeSize);
  }

  /** A schema of fewer than 128 fields starts with version 1, its name and their number. */
  lemma SmallSchema(s: Schema)
    requires |s.name| < 128 && |s.fields| < 128
    ensures EncodeSchema(s) == Bytes([1]) + ((Bytes([|s.name|]) + s.name)
      + (Bytes([|s.fields|]) + EncodeFieldList(s.fields)))
  {
    SmallNumber(|s.name|);
    SmallNumber(|s.fields|);
  }

  /** The reader does not look at the version. */
  lemma AnyVersion(c: char, d: char, t: string)
    ensures DecodeSchema([c] + t) == DecodeSchema([d] + t)
  {
    assert ([c] + t)[1..] == ([d] + t)[1..] == t;
  }
}
