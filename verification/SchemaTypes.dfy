/** Message schemas (`src/stx/protobuf/MessageSchema.h`).  The sub-schema of an
    object field is part of its type, as every object field has one. */
module SchemaTypes {
  import opened Text

  datatype FieldType = OBJECT(sub: Schema) | BOOLEAN | UINT32 | STRING | UINT64 | DOUBLE | DATETIME

  datatype EncodingHint = NONE | BITPACK | LEB128

  datatype Field = Field(id: nat, name: string, typ: FieldType, typeSize: nat,
                         repeated: bool, optional: bool, encoding: EncodingHint)

  datatype Schema = Schema(name: string, fields: seq<Field>)

  /** Ids are 32-bit and sizes 64-bit words, at every level. */
  predicate InRange(s: Schema) {
    forall i :: 0 <= i < |s.fields| ==> FieldInRange(s.fields[i])
  }

  predicate FieldInRange(f: Field) {
    f.id < TWO32 && f.typeSize < TWO64 && (f.typ.OBJECT? ==> InRange(f.typ.sub))
  }

  /** `fieldTypeToString`. */
  function TypeName(t: FieldType): string {
    match t
    case OBJECT(_) => "OBJECT"
    case STRING => "STRING"
    case BOOLEAN => "BOOLEAN"
    case UINT32 => "UINT32"
    case UINT64 => "UINT64"
    case DOUBLE => "DOUBLE"
    case DATETIME => "DATETIME"
  }

  function Upper(c: char): char { if 'a' <= c <= 'z' then c - 'a' + 'A' else c }

  function UpperAll(s: string): (r: string)
    ensures |r| == |s| && forall i :: 0 <= i < |s| ==> r[i] == Upper(s[i])
  {
    seq(|s|, i requires 0 <= i < |s| => Upper(s[i]))
  }

  /** The type names, without the sub-schema that an object has. */
  datatype TypeTag = ObjectTag | Plain(typ: FieldType)

  /** `fieldTypeFromString`: any case of the name. */
  function TypeFromName(name: string): Option<TypeTag> {
    var s := UpperAll(name);
    if s == "OBJECT" then Some(ObjectTag)
    else if s == "STRING" then Some(Plain(STRING))
    else if s == "BOOLEAN" then Some(Plain(BOOLEAN))
    else if s == "UINT32" then Some(Plain(UINT32))
    else if s == "UINT64" then Some(Plain(UINT64))
    else if s == "DOUBLE" then Some(Plain(DOUBLE))
    else if s == "DATETIME" then Some(Plain(DATETIME))
    else None
  }

  lemma TypeNameBack(t: FieldType)
    ensures TypeFromName(TypeName(t)) == Some(if t.OBJECT? then ObjectTag else Plain(t))
  {
    var n := TypeName(t);
    assert UpperAll(n) == n;
  }
}
