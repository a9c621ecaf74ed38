/** Messages and their wire format: `src/stx/protobuf/MessageObject.cc`,
    `MessageEncoder.cc` and `MessageDecoder.cc`. */
module Messages {
  import opened Text
  import opened Wire
  import opened SchemaTypes

  /** A double is the word of its eight bytes. */
  datatype Value = Object(children: seq<Message>) | Boolean(b: bool) | UInt32(n: uint32) | Chars(s: string)
                 | UInt64(m: uint64) | Double(word: uint64) | DateTime(micros: uint64)

  datatype Message = Message(id: uint32, value: Value)

  // ------------------------------------------------------------ schema lookups

  /** Where the first field with this id is, or the number of fields. */
  function IndexOf(fields: seq<Field>, id: nat): (n: nat)
    ensures n <= |fields|
    ensures n < |fields| ==> fields[n].id == id
    ensures forall j :: 0 <= j < n ==> fields[j].id != id
  {
    if fields == [] || fields[0].id == id then 0 else 1 + IndexOf(fields[1..], id)
  }

  predicate HasField(s: Schema, id: nat) { IndexOf(s.fields, id) < |s.fields| }

  /** `fieldType` and `fieldSchema`: id 0 is always an object, so a field 0 of another
      type has no sub-schema; the model gives it one without fields. */
  function TypeAt(s: Schema, id: nat): Option<FieldType> {
    var i := IndexOf(s.fields, id);
    if i == |s.fields| then None else
      var t := s.fields[i].typ;
      Some(if id == 0 && !t.OBJECT? then OBJECT(Schema("", [])) else t)
  }

  // ------------------------------------------------------------ typed accessors

  /** `asString`, `asUInt32`, `asUInt64`, `asDouble` and `asBool`, as the encoder picks
      them by the field's type: the value that goes to the wire. */
  function Convert(v: Value, t: FieldType): Result<Value>
    requires !t.OBJECT?
  {
    match t
    case STRING => if v.Chars? then Ok(v) else Err
    case UINT32 =>
      if v.UInt64? then Ok(UInt32(v.m % TWO32)) else if v.UInt32? then Ok(v) else Err
    case UINT64 =>
      if v.UInt32? then Ok(UInt64(v.n)) else if v.UInt64? then Ok(v)
      else if v.DateTime? then Ok(UInt64(v.micros)) else Err
    case DATETIME =>
      if v.UInt32? then Ok(DateTime(v.n)) else if v.UInt64? then Ok(DateTime(v.m))
      else if v.DateTime? then Ok(v) else Err
    case DOUBLE => if v.Double? then Ok(v) else Err
    case BOOLEAN => if v.UInt32? then Ok(Boolean(v.n > 0)) else if v.Boolean? then Ok(v) else Err
  }

  // ------------------------------------------------------------------ encoding

  /** `(id << 3) | wire_type`, shifted in 32 bits. */
  function Key(id: uint32, wireType: nat): string { VarUInt(id * 8 % TWO32 + wireType) }

  function WireType(v: Value): nat {
    if v.Chars? || v.Object? then 2 else if v.Double? then 1 else 0
  }

  function Payload(v: Value): string
    requires !v.Object?
  {
    match v
    case Chars(s) => Lenenc(s)
    case UInt32(n) => VarUInt(n)
    case UInt64(n) => VarUInt(n)
    case DateTime(n) => VarUInt(n)
    case Double(w) => Fixed(w, 8)
    case Boolean(b) => VarUInt(if b then 1 else 0)
  }

  function EncodeField(m: Message, s: Schema): Result<string>
    decreases m
  {
    match TypeAt(s, m.id)
    case None => Err
    case Some(t) =>
      if t.OBJECT? then
        if !m.value.Object? then Err else
          match EncodeFields(m.value.children, t.sub)
          case Err => Err
          case Ok(body) => Ok(Key(m.id, 2) + Lenenc(body))
      else
        match Convert(m.value, t)
        case Err => Err
        case Ok(v) => Ok(Key(m.id, WireType(v)) + Payload(v))
  }

  function EncodeFields(ms: seq<Message>, s: Schema): Result<string>
    decreases ms
  {
    if ms == [] then Ok("") else
      match EncodeField(ms[0], s)
      case Err => Err
      case Ok(first) =>
        match EncodeFields(ms[1..], s)
        case Err => Err
        case Ok(more) => Ok(first + more)
  }

  function KeyType(t: FieldType): nat { if t.OBJECT? || t.STRING? then 2 else if t.DOUBLE? then 1 else 0 }

  /** What `encodeObject` has written when it fails: the key of a number, double or boolean
      field goes out before the value's type is looked at. */
  function LeftBehind(m: Message, s: Schema): string {
    match TypeAt(s, m.id)
    case None => ""
    case Some(t) => if t.OBJECT? || t.STRING? then "" else Key(m.id, KeyType(t))
  }

  /** `MessageEncoder::encodeObject`. */
  method EncodeObject(m: Message, s: Schema, data: BinaryMessageWriter) returns (ok: bool)
    modifies data
    ensures ok <==> EncodeField(m, s).Ok?
    ensures data.data == old(data.data) + if ok then EncodeField(m, s).value else LeftBehind(m, s)
    decreases m, 0
  {
    ghost var was := data.data;
    assert was + "" == was;
    var t := TypeAt(s, m.id);
    if t.None? { return false; }
    if !t.value.OBJECT? {
      ok := EncodeScalar(m, t.value, data);
      return;
    }
    if !m.value.Object? { return false; }
    var cld := new BinaryMessageWriter();
    ok := EncodeEach(m.value.children, t.value.sub, cld);
    if ok { WriteLenenc(m.id, cld.data, data); }
  }

  lemma Appended(was: string, a: string, b: string, c: string)
    ensures was + a + b + c == was + (a + (b + c))
  {
  }

  method WriteLenenc(id: uint32, str: string, data: BinaryMessageWriter)
    modifies data
    ensures data.data == old(data.data) + (Key(id, 2) + Lenenc(str))
  {
    ghost var was := data.data;
    data.AppendVarUInt(id * 8 % TWO32 + 2);
    data.AppendVarUInt(|str|);
    data.Append(str);
    Appended(was, Key(id, 2), VarUInt(|str|), str);
  }

  /** The cases of the encoder's switch on the field's type that hold no children. */
  method EncodeScalar(m: Message, t: FieldType, data: BinaryMessageWriter) returns (ok: bool)
    requires !t.OBJECT?
    modifies data
    ensures ok <==> Convert(m.value, t).Ok?
    ensures data.data == old(data.data) +
      if ok then var v := Convert(m.value, t).value; Key(m.id, WireType(v)) + Payload(v)
      else if t.STRING? then "" else Key(m.id, KeyType(t))
  {
    ghost var was := data.data;
    var v := Convert(m.value, t);
    if t.STRING? {
      assert was + "" == was;
      if v.Err? { return false; }
      WriteLenenc(m.id, v.value.s, data);
      return true;
    }
    data.AppendVarUInt(m.id * 8 % TWO32 + KeyType(t));
    if v.Err? { return false; }
    ok := true;
    WriteNumber(v.value, data);
    Assoc(was, Key(m.id, KeyType(t)), Payload(v.value));
  }

  /** A converted value behind its key. */
  method WriteNumber(v: Value, data: BinaryMessageWriter)
    requires !v.Object? && !v.Chars?
    modifies data
    ensures data.data == old(data.data) + Payload(v)
  {
    match v {
      case Double(word) => data.AppendWord(word);
      case UInt32(n) => data.AppendVarUInt(n);
      case UInt64(n) => data.AppendVarUInt(n);
      case DateTime(n) => data.AppendVarUInt(n);
      case Boolean(b) => data.AppendVarUInt(if b then 1 else 0);
    }
  }

  /** The loop over the children. */
  method EncodeEach(ms: seq<Message>, s: Schema, data: BinaryMessageWriter) returns (ok: bool)
    modifies data
    ensures ok <==> EncodeFields(ms, s).Ok?
    ensures ok ==> data.data == old(data.data) + EncodeFields(ms, s).value
    decreases ms
  {
    ghost var was, out := data.data, "";
    var i := 0;
    assert ms[0..] == ms;
    PrefixedNone(EncodeFields(ms, s));
    while i < |ms|
      invariant 0 <= i <= |ms| && data.data == was + out
      invariant EncodeFields(ms, s) == Prefixed(out, EncodeFields(ms[i..], s))
    {
      EncodeNext(ms, i, s, out);
      ok := EncodeObject(ms[i], s, data);
      if !ok { return false; }
      Assoc(was, out, EncodeField(ms[i], s).value);
      out := out + EncodeField(ms[i], s).value;
      i := i + 1;
    }
    ok := true;
  }

  function Prefixed(a: string, r: Result<string>): Result<string> {
    match r
    case Err => Err
    case Ok(b) => Ok(a + b)
  }

  lemma PrefixedNone(r: Result<string>)
    ensures Prefixed("", r) == r
  {
    match r
    case Err =>
    case Ok(b) => assert "" + b == b;
  }

  lemma EncodeNext(ms: seq<Message>, i: nat, s: Schema, out: string)
    requires i < |ms|
    ensures match EncodeField(ms[i], s)
      case Err => EncodeFields(ms[i..], s).Err?
      case Ok(e) => Prefixed(out, EncodeFields(ms[i..], s)) == Prefixed(out + e, EncodeFields(ms[i + 1..], s))
  {
    assert ms[i..][1..] == ms[i + 1..];
    match EncodeFields(ms[i + 1..], s) {
      case Err =>
      case Ok(b) =>
        match EncodeField(ms[i], s) {
          case Err =>
          case Ok(e) => assert out + (e + b) == out + e + b;
        }
    }
  }

  /** `MessageEncoder::encode` into a buffer. */
  method Encode(ms: seq<Message>, s: Schema, buf: string) returns (ok: bool, buf': string)
    ensures ok <==> EncodeFields(ms, s).Ok?
    ensures buf' == if ok then buf + EncodeFields(ms, s).value else buf
  {
    var body := new BinaryMessageWriter();
    ok := EncodeEach(ms, s, body);
    buf' := if ok then buf + body.data else buf;
  }

  // ------------------------------------------------------------------ decoding

  /** What a failed or finished decoding leaves in the message. */
  datatype Decoded = Decoded(fields: seq<Message>, ok: bool)

  /** One turn of the decoder's loop: the children it adds, whether it goes on, and the
      bytes it leaves. */
  datatype Step = Step(added: seq<Message>, ok: bool, rest: string)

  function Skip(wireType: nat, t: string): (r: Result<string>)
    ensures r.Ok? ==> |r.value| <= |t|
  {
    if wireType == 0 then
      match ReadVar(t)
      case Err => Err
      case Ok((_, rest)) => Ok(rest)
    else if wireType == 2 then
      match ReadLenenc(t)
      case Err => Err
      case Ok((_, rest)) => Ok(rest)
    else if wireType == 5 then
      (if |t| < 4 then Err else Ok(t[4..]))
    else if wireType == 1 then
      (if |t| < 8 then Err else Ok(t[8..]))
    else Err
  }

  function ReadScalar(typ: FieldType, t: string): (r: Result<(Value, string)>)
    requires !typ.OBJECT?
    ensures r.Ok? ==> |r.value.1| <= |t|
  {
    if typ.DOUBLE? then
      (if |t| < 8 then Err else Ok((Double(FixedValue(t[..8]) % TWO64), t[8..])))
    else if typ.STRING? then
      match ReadLenenc(t)
      case Err => Err
      case Ok((s, rest)) => Ok((Chars(s), rest))
    else
      match ReadVar(t)
      case Err => Err
      case Ok((n, rest)) => Ok((FromVar(typ, n), rest))
  }

  function FromVar(typ: FieldType, n: nat): Value
    requires typ.UINT32? || typ.UINT64? || typ.DATETIME? || typ.BOOLEAN?
  {
    match typ
    case UINT32 => UInt32(n % TWO32)
    case UINT64 => UInt64(n % TWO64)
    case DATETIME => DateTime(n % TWO64)
    case BOOLEAN => Boolean(n == 1)
  }

  function DecodeField(fid: uint32, typ: FieldType, t: string): (r: Step)
    ensures r.ok ==> |r.rest| <= |t| && |r.added| == 1
    ensures r.added != [] ==> r.added[0].id == fid
    decreases |t|, 0
  {
    if typ.OBJECT? then
      match ReadVar(t)
      case Err => Step([], false, "")
      case Ok((len, left)) =>
        if len > |left| then Step([Message(fid, Object([]))], false, "") else
          var d := Decode(left[..len], typ.sub);
          Step([Message(fid, Object(d.fields))], d.ok, left[len..])
    else
      match ReadScalar(typ, t)
      case Err => Step([], false, "")
      case Ok((v, rest)) => Step([Message(fid, v)], true, rest)
  }

  function DecodeStep(t: string, s: Schema): (r: Step)
    ensures r.ok ==> |r.rest| < |t|
    decreases |t|, 1
  {
    match ReadVar(t)
    case Err => Step([], false, "")
    case Ok((fkey, left)) =>
      var fid := fkey / 8 % TWO32;
      match TypeAt(s, fid)
      case Some(typ) => DecodeField(fid, typ, left)
      case None =>
        match Skip(fkey % 8, left)
        case Err => Step([], false, "")
        case Ok(rest) => Step([], true, rest)
  }

  function Decode(t: string, s: Schema): Decoded
    decreases |t|, 2
  {
    if t == "" then Decoded([], true) else
      var st := DecodeStep(t, s);
      if !st.ok then Decoded(st.added, false) else
        var d := Decode(st.rest, s);
        Decoded(st.added + d.fields, d.ok)
  }

  /** The decoder's way past a field that the schema does not have. */
  method SkipUnknown(wireType: nat, reader: BinaryMessageReader) returns (ok: bool)
    requires reader.Valid()
    modifies reader
    ensures reader.Valid()
    ensures Skip(wireType, old(reader.Left())) == if ok then Ok(reader.Left()) else Err
  {
    if wireType == 0 {
      var n := reader.ReadVarUInt();
      return n.Ok?;
    }
    if wireType == 2 {
      var s := reader.ReadLenencString();
      return s.Ok?;
    }
    if wireType == 5 {
      var s := reader.Read(4);
      return s.Ok?;
    }
    if wireType == 1 {
      var s := reader.Read(8);
      return s.Ok?;
    }
    ok := false;
  }

  method ReadValue(typ: FieldType, reader: BinaryMessageReader) returns (r: Result<Value>)
    requires reader.Valid() && !typ.OBJECT?
    modifies reader
    ensures reader.Valid()
    ensures ReadScalar(typ, old(reader.Left())) == if r.Ok? then Ok((r.value, reader.Left())) else Err
  {
    if typ.DOUBLE? {
      var word := reader.Read(8);
      if word.Err? { return Err; }
      return Ok(Double(FixedValue(word.value) % TWO64));
    }
    if typ.STRING? {
      var s := reader.ReadLenencString();
      if s.Err? { return Err; }
      return Ok(Chars(s.value));
    }
    var n := reader.ReadVarUInt();
    if n.Err? { return Err; }
    r := Ok(FromVar(typ, n.value));
  }

  function After(fields: seq<Message>, d: Decoded): Decoded { Decoded(fields + d.fields, d.ok) }

  lemma DecodeNext(added: seq<Message>, t: string, s: Schema, whole: Decoded)
    requires t != "" && whole == After(added, Decode(t, s))
    ensures var st := DecodeStep(t, s);
      whole == if st.ok then After(added + st.added, Decode(st.rest, s)) else Decoded(added + st.added, false)
  {
    var st := DecodeStep(t, s);
    if st.ok {
      var d := Decode(st.rest, s);
      assert added + (st.added + d.fields) == added + st.added + d.fields;
    }
  }

  /** `MessageDecoder::decode`: the children are added to those the message has. */
  method DecodeInto(data: string, s: Schema, msg: seq<Message>) returns (msg': seq<Message>, ok: bool)
    ensures msg' == msg + Decode(data, s).fields && ok == Decode(data, s).ok
    decreases |data|, 2
  {
    var reader := new BinaryMessageReader(data);
    msg' := msg;
    ghost var added: seq<Message>, whole := [], Decode(data, s);
    var remaining := reader.Remaining();
    while remaining > 0
      invariant reader.Valid() && msg' == msg + added && remaining == |reader.Left()| <= |data|
      invariant whole == After(added, Decode(reader.Left(), s))
      decreases remaining
    {
      ghost var left := reader.Left();
      DecodeNext(added, left, s, whole);
      ok, msg' := DecodeOne(s, reader, msg');
      Assoc(msg, added, DecodeStep(left, s).added);
      added := added + DecodeStep(left, s).added;
      if !ok { return msg', false; }
      remaining := reader.Remaining();
    }
    ok := true;
  }

  /** One turn of the loop. */
  method DecodeOne(s: Schema, reader: BinaryMessageReader, msg: seq<Message>)
    returns (ok: bool, msg': seq<Message>)
    requires reader.Valid() && reader.Left() != ""
    modifies reader
    ensures reader.Valid()
    ensures var st := DecodeStep(old(reader.Left()), s);
      msg' == msg + st.added && ok == st.ok && (ok ==> st.rest == reader.Left())
    decreases |reader.Left()|, 1
  {
    var fkey := reader.ReadVarUInt();
    if fkey.Err? { return false, msg; }
    var fid := fkey.value / 8 % TWO32;
    var typ := TypeAt(s, fid);
    if typ.None? {
      ok := SkipUnknown(fkey.value % 8, reader);
      msg' := msg;
    } else {
      ok, msg' := DecodeKnown(fid, typ.value, reader, msg);
    }
  }

  /** The decoder's cases for a field of the schema. */
  method DecodeKnown(fid: uint32, typ: FieldType, reader: BinaryMessageReader, msg: seq<Message>)
    returns (ok: bool, msg': seq<Message>)
    requires reader.Valid()
    modifies reader
    ensures reader.Valid()
    ensures var st := DecodeField(fid, typ, old(reader.Left()));
      msg' == msg + st.added && st.ok == ok && (ok ==> st.rest == reader.Left())
    decreases |reader.Left()|, 0
  {
    if typ.OBJECT? {
      var len := reader.ReadVarUInt();
      if len.Err? { return false, msg; }
      var remaining := reader.Remaining();
      if len.value > remaining { return false, msg + [Message(fid, Object([]))]; }
      var sub := reader.Read(len.value);
      var child;
      child, ok := DecodeInto(sub.value, typ.sub, []);
      assert child == Decode(sub.value, typ.sub).fields;
      msg' := msg + [Message(fid, Object(child))];
      return;
    }
    var v := ReadValue(typ, reader);
    if v.Err? { return false, msg; }
    return true, msg + [Message(fid, v.value)];
  }
}
