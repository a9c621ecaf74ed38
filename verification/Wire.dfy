/** The byte-level reader and writer (`src/stx/util/binarymessagereader_impl.h`,
    `src/stx/util/binarymessagewriter.cc`): LEB128 numbers, length-prefixed strings
    and little-endian words.  Each `char` is one byte. */
module Wire {
  import opened Text

  type uint32 = n: int | 0 <= n < TWO32
  type uint64 = n: int | 0 <= n < TWO64

  // ------------------------------------------------------------------ LEB128

  /** Seven bits a byte, the lowest first; the top bit says that more follow. */
  function VarUInt(n: nat): (r: string)
    ensures r != ""
  {
    if n < 128 then [n as char] else [(n % 128 + 128) as char] + VarUInt(n / 128)
  }

  function Pow128(i: nat): (r: nat)
    ensures r > 0
  {
    if i == 0 then 1 else 128 * Pow128(i - 1)
  }

  lemma {:induction false} VarUIntLength(n: nat, k: nat)
    requires n < Pow128(k) && k > 0
    ensures |VarUInt(n)| <= k
  {
    if n >= 128 { VarUIntLength(n / 128, k - 1); }
  }

  /** A 64-bit number takes at most ten bytes: the writer's buffer never overflows. */
  lemma VarUIntFits(n: uint64)
    ensures |VarUInt(n)| <= 10
  {
    Pow128Ten();
    VarUIntLength(n, 10);
  }

  lemma Pow128Ten()
    ensures Pow128(9) == 0x8000_0000_0000_0000 && Pow128(10) == 64 * TWO64
  {
    assert Pow128(5) == 0x8_0000_0000;
    assert Pow128(9) == 128 * 128 * 128 * 128 * Pow128(5);
  }

  function Low(c: char): nat { c as int % 128 }

  predicate More(c: char) { c as int / 128 % 2 == 1 }

  /** The number at the front of `t`, and what follows it.  `acc` is what the first `i`
      bytes gave; a shift by 70 bits or more has no meaning, and fails. */
  function ReadVarFrom(t: string, i: nat, acc: nat): (r: Result<(nat, string)>)
    ensures r.Ok? ==> |r.value.1| < |t|
  {
    if t == "" || i >= 10 then Err else
      var value := Wrap(acc + Times(Low(t[0]), i));
      if !More(t[0]) then Ok((value, t[1..])) else ReadVarFrom(t[1..], i + 1, value)
  }

  function ReadVar(t: string): (r: Result<(nat, string)>)
    ensures r.Ok? ==> |r.value.1| < |t|
  {
    ReadVarFrom(t, 0, 0)
  }

  function Times(n: nat, i: nat): (r: nat) { n * Pow128(i) }

  /** The lowest digit of `n` and the rest of it. */
  lemma Digits(n: nat, i: nat)
    ensures Times(n, i) == Times(n % 128, i) + Times(n / 128, i + 1)
    ensures n >= 128 ==> Times(n / 128, i + 1) >= Pow128(i + 1)
  {
    var p := Pow128(i);
    assert n == n % 128 + 128 * (n / 128);
    assert n * p == (n % 128) * p + (128 * (n / 128)) * p;
  }

  lemma FirstByte(n: nat, rest: string)
    ensures var t := VarUInt(n) + rest;
      Low(t[0]) == n % 128 && (More(t[0]) <==> n >= 128)
      && t[1..] == if n < 128 then rest else VarUInt(n / 128) + rest
  {
    if n >= 128 {
      var b := n % 128 + 128;
      assert b / 128 == 1 && b % 128 == n % 128;
    }
  }

  /** In seven-bit digits, the sum of the digits so far and the rest stays the number. */
  lemma {:induction false} VarBackFrom(n: nat, rest: string, i: nat, acc: nat)
    requires acc + Times(n, i) < TWO64 && i < 10
    ensures ReadVarFrom(VarUInt(n) + rest, i, acc) == Ok((acc + Times(n, i), rest))
    decreases n
  {
    Digits(n, i);
    FirstByte(n, rest);
    if n >= 128 {
      if i == 9 { Pow128Ten(); }
      VarBackFrom(n / 128, rest, i + 1, acc + Times(n % 128, i));
    }
  }

  lemma VarBack(n: uint64, rest: string)
    ensures ReadVar(VarUInt(n) + rest) == Ok((n, rest))
  {
    VarBackFrom(n, rest, 0, 0);
  }

  // ------------------------------------------------------------------- words

  /** `k` bytes, the lowest first. */
  function Fixed(n: nat, k: nat): (r: string)
    ensures |r| == k
  {
    if k == 0 then "" else [(n % 256) as char] + Fixed(n / 256, k - 1)
  }

  function FixedValue(s: string): nat {
    if s == "" then 0 else s[0] as int % 256 + 256 * FixedValue(s[1..])
  }

  function Pow256(k: nat): nat { if k == 0 then 1 else 256 * Pow256(k - 1) }

  lemma {:induction false} FixedBack(n: nat, k: nat)
    requires n < Pow256(k)
    ensures FixedValue(Fixed(n, k)) == n
  {
    if k > 0 {
      FixedBack(n / 256, k - 1);
      assert Fixed(n, k)[1..] == Fixed(n / 256, k - 1);
    }
  }

  lemma WordBack(n: uint64)
    ensures FixedValue(Fixed(n, 8)) == n
  {
    assert Pow256(8) == 256 * 256 * 256 * 256 * Pow256(4);
    FixedBack(n, 8);
  }

  /** A bounds-checked read of `n` bytes. */
  function Take(t: string, n: nat): (r: Result<(string, string)>)
    ensures r.Ok? ==> |r.value.1| == |t| - n
  {
    if n > |t| then Err else Ok((t[..n], t[n..]))
  }

  lemma TakeBack(s: string, rest: string)
    ensures Take(s + rest, |s|) == Ok((s, rest))
  {
  }

  function Lenenc(s: string): string { VarUInt(|s|) + s }

  function ReadLenenc(t: string): (r: Result<(string, string)>)
    ensures r.Ok? ==> |r.value.1| < |t|
  {
    match ReadVar(t)
    case Err => Err
    case Ok((n, left)) => Take(left, n)
  }

  lemma LenencBack(s: string, rest: string)
    requires |s| < TWO64
    ensures ReadLenenc(Lenenc(s) + rest) == Ok((s, rest))
  {
    assert Lenenc(s) + rest == VarUInt(|s|) + (s + rest);
    VarBack(|s|, s + rest);
    TakeBack(s, rest);
  }

  // ----------------------------------------------------------- the two classes

  class BinaryMessageWriter {
    var data: string

    constructor ()
      ensures data == ""
    {
      data := "";
    }

    method Append(s: string)
      modifies this
      ensures data == old(data) + s
    {
      data := data + s;
    }

    method AppendUInt8(b: nat)
      requires b < 256
      modifies this
      ensures data == old(data) + [b as char]
    {
      Append([b as char]);
    }

    method AppendVarUInt(n: nat)
      modifies this
      ensures data == old(data) + VarUInt(n)
    {
      var buf := "";
      var value: nat := n;
      if n < TWO64 { VarUIntFits(n); }
      var more := true;
      while more
        invariant more ==> VarUInt(n) == buf + VarUInt(value)
        invariant !more ==> VarUInt(n) == buf
        decreases if more then value + 1 else 0
      {
        assert n < TWO64 ==> |buf| < 10;
        if value >= 128 {
          assert buf + VarUInt(value) == buf + [(value % 128 + 128) as char] + VarUInt(value / 128);
          buf := buf + [(value % 128 + 128) as char];
          value := value / 128;
        } else {
          buf := buf + [value as char];
          more := false;
        }
      }
      Append(buf);
    }

    method AppendLenencString(s: string)
      modifies this
      ensures data == old(data) + Lenenc(s)
    {
      AppendVarUInt(|s|);
      Append(s);
    }

    method AppendWord(n: uint64)
      modifies this
      ensures data == old(data) + Fixed(n, 8)
    {
      Append(Fixed(n, 8));
    }
  }

  class BinaryMessageReader {
    const data: string
    var pos: nat

    ghost predicate Valid() reads this { pos <= |data| }

    /** What is still to be read. */
    function Left(): string
      requires Valid()
      reads this
    {
      data[pos..]
    }

    constructor (s: string)
      ensures data == s && Valid() && Left() == s
    {
      data := s;
      pos := 0;
    }

    method Remaining() returns (n: nat)
      requires Valid()
      ensures n == |Left()|
    {
      n := |data| - pos;
    }

    method Read(n: nat) returns (r: Result<string>)
      requires Valid()
      modifies this
      ensures Valid()
      ensures Take(old(Left()), n) == if r.Ok? then Ok((r.value, Left())) else Err
    {
      if pos + n > |data| { return Err; }
      r := Ok(data[pos..pos + n]);
      assert Left()[..n] == data[pos..pos + n];
      pos := pos + n;
    }

    method ReadUInt8() returns (r: Result<nat>)
      requires Valid()
      modifies this
      ensures Valid()
      ensures old(Left()) == "" ==> r == Err
      ensures old(Left()) != "" ==> r == Ok(old(Left())[0] as int) && Left() == old(Left())[1..]
    {
      var b := Read(1);
      if b.Err? { return Err; }
      r := Ok(b.value[0] as int);
    }

    method ReadVarUInt() returns (r: Result<nat>)
      requires Valid()
      modifies this
      ensures Valid()
      ensures ReadVar(old(Left())) == if r.Ok? then Ok((r.value, Left())) else Err
    {
      var value: nat, i: nat := 0, 0;
      ghost var t := Left();
      while true
        invariant Valid() && ReadVar(t) == ReadVarFrom(Left(), i, value)
        decreases |data| - pos
      {
        ghost var left := Left();
        if pos >= |data| || i >= 10 { return Err; }
        var b := data[pos];
        pos := pos + 1;
        assert Left() == left[1..];
        value := Wrap(value + Times(Low(b), i));
        if !More(b) { return Ok(value); }
        i := i + 1;
      }
    }

    method ReadLenencString() returns (r: Result<string>)
      requires Valid()
      modifies this
      ensures Valid()
      ensures ReadLenenc(old(Left())) == if r.Ok? then Ok((r.value, Left())) else Err
    {
      var n := ReadVarUInt();
      if n.Err? { return Err; }
      r := Read(n.value);
    }
  }
}
