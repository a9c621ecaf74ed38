/** Base64 (`src/stx/util/Base64.cc`).  Bytes are characters below 256. */
module Base64 {
  import opened Text

  /** The encoder's table. */
  function Digit(v: nat): (c: char)
    requires v < 64
    ensures c != '='
  {
    if v < 26 then ('A' as int + v) as char
    else if v < 52 then ('a' as int + v - 26) as char
    else if v < 62 then ('0' as int + v - 52) as char
    else if v == 62 then '+' else '/'
  }

  /** The decoder's table; 64 for anything that is no digit. */
  function Six(c: char): (v: nat)
    ensures v <= 64
  {
    if 'A' <= c <= 'Z' then c as int - 'A' as int
    else if 'a' <= c <= 'z' then c as int - 'a' as int + 26
    else if '0' <= c <= '9' then c as int - '0' as int + 52
    else if c == '+' then 62 else if c == '/' then 63 else 64
  }

  lemma TablesInverse(v: nat)
    requires v < 64
    ensures Six(Digit(v)) == v
  {
  }

  // ------------------------------------------------------------------ encoding

  /** The four sextets of three bytes: `x >> 2`, `(x & 3) << 4 | y >> 4`,
      `(y & 15) << 2 | z >> 6` and `z & 63`. */
  function First(x: nat): nat { x / 4 % 64 }
  function Second(x: nat, y: nat): nat { x % 4 * 16 + y / 16 % 16 }
  function Third(y: nat, z: nat): nat { y % 16 * 4 + z / 64 % 4 }
  function Fourth(z: nat): nat { z % 64 }

  function Digits(s: string): string {
    if s == "" then ""
    else if |s| == 1 then [Digit(First(s[0] as int)), Digit(Second(s[0] as int, 0))]
    else if |s| == 2 then
      [Digit(First(s[0] as int)), Digit(Second(s[0] as int, s[1] as int)), Digit(Third(s[1] as int, 0))]
    else
      [Digit(First(s[0] as int)), Digit(Second(s[0] as int, s[1] as int)),
       Digit(Third(s[1] as int, s[2] as int)), Digit(Fourth(s[2] as int))] + Digits(s[3..])
  }

  function Padding(n: nat): string { if n % 3 == 1 then "==" else if n % 3 == 2 then "=" else "" }

  function Encoded(s: string): string { Digits(s) + Padding(|s|) }

  /** `encode`: its loop bound is two less than the length, so there must be two bytes. */
  method Encode(s: string) returns (out: string)
    requires |s| >= 2
    ensures out == Encoded(s)
  {
    out := "";
    var len, i := |s|, 0;
    ghost var whole := Encoded(s);
    assert s[0..] == s && "" + whole == whole;
    while i < len - 2
      invariant 0 <= i <= len && whole == out + Encoded(s[i..])
    {
      var group := EncodeGroup(s[i], s[i + 1], s[i + 2]);
      EncodedMore(s, i, group);
      Assoc(out, group, Encoded(s[i + 3..]));
      out := out + group;
      i := i + 3;
    }
    var tail := EncodeTail(s[i..]);
    out := out + tail;
  }

  lemma EncodedMore(s: string, i: nat, group: string)
    requires i + 3 <= |s|
    requires group == [Digit(First(s[i] as int)), Digit(Second(s[i] as int, s[i + 1] as int)),
                       Digit(Third(s[i + 1] as int, s[i + 2] as int)), Digit(Fourth(s[i + 2] as int))]
    ensures Encoded(s[i..]) == group + Encoded(s[i + 3..])
  {
    var t := s[i..];
    assert t[3..] == s[i + 3..];
    PaddingLess(|t|);
    Assoc(group, Digits(t[3..]), Padding(|t| - 3));
  }

  lemma PaddingLess(n: nat)
    requires n >= 3
    ensures Padding(n) == Padding(n - 3)
  {
  }

  /** The last one or two bytes. */
  method EncodeTail(s: string) returns (out: string)
    requires |s| < 3
    ensures out == Digits(s) + Padding(|s|)
  {
    out := "";
    if |s| > 0 {
      out := out + [Digit(First(s[0] as int))];
      if |s| == 1 {
        out := out + [Digit(Second(s[0] as int, 0))];
        out := out + "=";
      } else {
        out := out + [Digit(Second(s[0] as int, s[1] as int))];
        out := out + [Digit(Third(s[1] as int, 0))];
      }
      out := out + "=";
    }
  }

  /** The loop's body: four digits for three bytes. */
  method EncodeGroup(x: char, y: char, z: char) returns (group: string)
    ensures group == [Digit(First(x as int)), Digit(Second(x as int, y as int)),
                      Digit(Third(y as int, z as int)), Digit(Fourth(z as int))]
  {
    group := [Digit(First(x as int))];
    group := group + [Digit(Second(x as int, y as int))];
    group := group + [Digit(Third(y as int, z as int))];
    group := group + [Digit(Fourth(z as int))];
  }

  // ------------------------------------------------------------------ decoding

  /** How many digits there are before the first other character or the end. */
  function Leading(t: string): (n: nat)
    ensures n <= |t|
  {
    if t == "" || Six(t[0]) > 63 then 0 else 1 + Leading(t[1..])
  }

  function Byte(n: nat): char { (n % 256) as char }

  /** The bytes between neighbouring digits: `a << 2 | b >> 4`, `b << 4 | c >> 2` and
      `c << 6 | d`, in eight bits. */
  function Byte1(a: char, b: char): char { Byte(Six(a) * 4 + Six(b) / 16) }
  function Byte2(b: char, c: char): char { Byte(Six(b) % 16 * 16 + Six(c) / 4) }
  function Byte3(c: char, d: char): char { Byte(Six(c) % 4 * 64 + Six(d)) }

  function Bytes(u: string): string {
    if |u| > 4 then [Byte1(u[0], u[1]), Byte2(u[1], u[2]), Byte3(u[2], u[3])] + Bytes(u[4..])
    else if |u| == 4 then [Byte1(u[0], u[1]), Byte2(u[1], u[2]), Byte3(u[2], u[3])]
    else if |u| == 3 then [Byte1(u[0], u[1]), Byte2(u[1], u[2])]
    else if |u| == 2 then [Byte1(u[0], u[1])]
    else ""
  }

  function Decoded(t: string): string { Bytes(t[..Leading(t)]) }

  method Decode(t: string) returns (out: string)
    ensures out == Decoded(t)
  {
    var n: nat := 0;
    while n < |t| && Six(t[n]) <= 63
      invariant n <= |t| && Leading(t) == n + Leading(t[n..])
    {
      assert t[n..][1..] == t[n + 1..];
      n := n + 1;
    }
    out := "";
    ghost var u := t[..n];
    var i, left := 0, n;
    assert u[0..] == u;
    while left > 4
      invariant 0 <= i && i + left == n && Bytes(u) == out + Bytes(u[i..])
    {
      ghost var rest, was := u[i..], out;
      assert rest[4..] == u[i + 4..];
      var group := DecodeGroup(t[i], t[i + 1], t[i + 2], t[i + 3]);
      Assoc(was, group, Bytes(rest[4..]));
      out := out + group;
      i := i + 4;
      left := left - 4;
    }
    var tail := DecodeTail(t[i..i + left]);
    assert u[i..] == t[i..i + left];
    out := out + tail;
  }

  /** The last four digits at most. */
  method DecodeTail(u: string) returns (out: string)
    requires |u| <= 4
    ensures out == Bytes(u)
  {
    out := "";
    if |u| > 1 { out := out + [Byte1(u[0], u[1])]; }
    if |u| > 2 { out := out + [Byte2(u[1], u[2])]; }
    if |u| > 3 { out := out + [Byte3(u[2], u[3])]; }
  }

  /** The loop's body: three bytes of four digits. */
  method DecodeGroup(a: char, b: char, c: char, d: char) returns (group: string)
    ensures group == [Byte1(a, b), Byte2(b, c), Byte3(c, d)]
  {
    group := [Byte1(a, b)];
    group := group + [Byte2(b, c)];
    group := group + [Byte3(c, d)];
  }

  // ---------------------------------------------------------------- round trip

  lemma FirstBack(x: nat, y: nat)
    requires x < 256 && y < 256
    ensures First(x) * 4 + Second(x, y) / 16 == x
  {
    assert x == 4 * (x / 4) + x % 4;
  }

  lemma SecondBack(x: nat, y: nat, z: nat)
    requires y < 256 && z < 256
    ensures Second(x, y) % 16 * 16 + Third(y, z) / 4 == y
  {
    assert y == 16 * (y / 16) + y % 16;
    assert Second(x, y) % 16 == y / 16;
  }

  lemma ThirdBack(y: nat, z: nat)
    requires z < 256
    ensures Third(y, z) % 4 * 64 + Fourth(z) == z
  {
    assert z == 64 * (z / 64) + z % 64;
    assert Third(y, z) % 4 == z / 64;
  }

  lemma Join1(a: char, b: char, x: nat)
    requires x < 256 && Six(a) * 4 + Six(b) / 16 == x
    ensures Byte1(a, b) == x as char
  {
  }

  lemma Join2(b: char, c: char, y: nat)
    requires y < 256 && Six(b) % 16 * 16 + Six(c) / 4 == y
    ensures Byte2(b, c) == y as char
  {
  }

  lemma Join3(c: char, d: char, z: nat)
    requires z < 256 && Six(c) % 4 * 64 + Six(d) == z
    ensures Byte3(c, d) == z as char
  {
  }

  lemma SixOf(v: nat) returns (c: char)
    requires v < 64
    ensures c == Digit(v) && Six(c) == v
  {
    TablesInverse(v);
    c := Digit(v);
  }

  /** Byte by byte. */
  lemma BytesBack(x: nat, y: nat, z: nat)
    requires x < 256 && y < 256 && z < 256
    ensures Byte1(Digit(First(x)), Digit(Second(x, y))) == x as char
    ensures Byte2(Digit(Second(x, y)), Digit(Third(y, z))) == y as char
    ensures Byte3(Digit(Third(y, z)), Digit(Fourth(z))) == z as char
  {
    var v, w, t, u := First(x), Second(x, y), Third(y, z), Fourth(z);
    FirstBack(x, y);
    SecondBack(x, y, z);
    ThirdBack(y, z);
    ByteFrom(v, w, t, u, x, y, z);
  }

  lemma ByteFrom(v: nat, w: nat, t: nat, u: nat, x: nat, y: nat, z: nat)
    requires v < 64 && w < 64 && t < 64 && u < 64 && x < 256 && y < 256 && z < 256
    requires v * 4 + w / 16 == x && w % 16 * 16 + t / 4 == y && t % 4 * 64 + u == z
    ensures Byte1(Digit(v), Digit(w)) == x as char
    ensures Byte2(Digit(w), Digit(t)) == y as char
    ensures Byte3(Digit(t), Digit(u)) == z as char
  {
    var a := SixOf(v);
    var b := SixOf(w);
    var c := SixOf(t);
    var d := SixOf(u);
    Join1(a, b, x);
    Join2(b, c, y);
    Join3(c, d, z);
  }

  lemma {:induction false} DigitsBack(s: string)
    requires IsBytes(s)
    ensures Bytes(Digits(s)) == s && (|s| > 0 ==> |Digits(s)| > 1)
  {
    if s != "" {
      var y := if |s| > 1 then s[1] as int else 0;
      var z := if |s| > 2 then s[2] as int else 0;
      BytesBack(s[0] as int, y, z);
      if |s| > 3 {
        DigitsBack(s[3..]);
        var u := Digits(s);
        assert u[4..] == Digits(s[3..]);
        assert s == [s[0], s[1], s[2]] + s[3..];
      } else if |s| == 3 {
        assert s[3..] == "" && s == [s[0], s[1], s[2]];
      } else if |s| == 2 {
        assert s == [s[0], s[1]];
      }
    }
  }

  lemma {:induction false} LeadingDigits(s: string)
    ensures Leading(Encoded(s)) == |Digits(s)|
  {
    DigitsOnly(s);
    LeadingOnly(Digits(s), Padding(|s|));
  }

  lemma {:induction false} LeadingOnly(u: string, pad: string)
    requires (forall i :: 0 <= i < |u| ==> Six(u[i]) < 64) && (pad == "" || Six(pad[0]) >= 64)
    ensures Leading(u + pad) == |u|
  {
    if u == "" {
      assert u + pad == pad;
    } else {
      assert (u + pad)[1..] == u[1..] + pad;
      LeadingOnly(u[1..], pad);
    }
  }

  lemma {:induction false} DigitsOnly(s: string)
    ensures forall i :: 0 <= i < |Digits(s)| ==> Six(Digits(s)[i]) < 64
  {
    if |s| > 2 {
      DigitsOnly(s[3..]);
      forall i | 0 <= i < |Digits(s)| ensures Six(Digits(s)[i]) < 64 {
        if i >= 4 { assert Digits(s)[i] == Digits(s[3..])[i - 4]; }
      }
    }
  }

  /** Decoding what was encoded. */
  lemma RoundTrip(s: string)
    requires IsBytes(s)
    ensures Decoded(Encoded(s)) == s
  {
    LeadingDigits(s);
    DigitsBack(s);
    assert Encoded(s)[..|Digits(s)|] == Digits(s);
  }

  // ------------------------------------------------------------- RFC 4648, section 4

  /** The alphabet. */
  function Symbol(v: nat): char
    requires v < 64
  {
    if v < 26 then "ABCDEFGHIJKLMNOPQRSTUVWXYZ"[v]
    else if v < 52 then "abcdefghijklmnopqrstuvwxyz"[v - 26]
    else "0123456789+/"[v - 52]
  }

  /** Twenty-four bits as four symbols, the highest first. */
  function Group(n: nat): string
    requires n < 16777216
  {
    [Digit(n / 262144), Digit(n / 4096 % 64), Digit(n / 64 % 64), Digit(n % 64)]
  }

  lemma UpperSymbols(v: nat)
    requires v < 26
    ensures "ABCDEFGHIJKLMNOPQRSTUVWXYZ"[v] as int == 0x41 + v && "abcdefghijklmnopqrstuvwxyz"[v] as int == 0x61 + v
  {
  }

  lemma OtherSymbols(v: nat)
    requires v < 12
    ensures "0123456789+/"[v] as int == if v < 10 then 0x30 + v else if v == 10 then 0x2b else 0x2f
  {
  }

  /** The encoder's table is the alphabet. */
  lemma DigitIsSymbol(v: nat)
    requires v < 64
    ensures Digit(v) == Symbol(v)
  {
    if v < 26 { UpperSymbols(v); } else if v < 52 { UpperSymbols(v - 26); } else { OtherSymbols(v - 52); }
  }

  lemma Sextets(x: nat, y: nat, z: nat, n: nat)
    requires x < 256 && y < 256 && z < 256 && n == x * 65536 + y * 256 + z
    ensures First(x) == n / 262144 && Second(x, y) == n / 4096 % 64 && Third(y, z) == n / 64 % 64
    ensures Fourth(z) == n % 64
  {
    MiddleSextet(x, y, z, n);
    HighSextets(x, y, n / 4096);
    Nested(n);
    assert n % 64 == z % 64;
  }

  lemma Nested(n: nat)
    ensures n / 64 / 64 == n / 4096 && n / 4096 / 64 == n / 262144
  {
  }

  lemma MiddleSextet(x: nat, y: nat, z: nat, n: nat)
    requires x < 256 && y < 256 && z < 256 && n == x * 65536 + y * 256 + z
    ensures Third(y, z) == n / 64 % 64 && n / 4096 == x * 16 + y / 16
  {
    Lower(x, y, z, n);
    Nested(n);
    Higher(x, y, n / 64, z / 64);
  }

  lemma Lower(x: nat, y: nat, z: nat, n: nat)
    requires z < 256 && n == x * 65536 + y * 256 + z
    ensures n / 64 == x * 1024 + y * 4 + z / 64
  {
  }

  lemma Higher(x: nat, y: nat, m: nat, q: nat)
    requires x < 256 && y < 256 && q < 4 && m == x * 1024 + y * 4 + q
    ensures m % 64 == y % 16 * 4 + q && m / 64 == x * 16 + y / 16
  {
    assert y == y / 16 * 16 + y % 16;
  }

  lemma HighSextets(x: nat, y: nat, m: nat)
    requires x < 256 && y < 256 && m == x * 16 + y / 16
    ensures First(x) == m / 64 && Second(x, y) == m % 64
  {
    assert x == x / 4 * 4 + x % 4;
  }

  lemma GroupIs(x: nat, y: nat, z: nat)
    requires x < 256 && y < 256 && z < 256
    ensures Group(x * 65536 + y * 256 + z) == FourDigits(x, y, z)
  {
    Sextets(x, y, z, x * 65536 + y * 256 + z);
  }

  function FourDigits(x: nat, y: nat, z: nat): string
    requires x < 256 && y < 256 && z < 256
  {
    [Digit(First(x)), Digit(Second(x, y)), Digit(Third(y, z)), Digit(Fourth(z))]
  }

  lemma FirstDigits(x: char, y: char, z: char, s: string, group: string)
    requires x as int < 256 && y as int < 256 && z as int < 256 && group == FourDigits(x as int, y as int, z as int)
    ensures Encoded([x, y, z] + s) == group + Encoded(s)
  {
    var t := [x, y, z] + s;
    assert t[0..] == t && t[3..] == s;
    EncodedMore(t, 0, group);
  }

  lemma LastDigits(x: char, y: char, group: string)
    requires x as int < 256 && y as int < 256 && group == FourDigits(x as int, y as int, 0)
    ensures Encoded([x, y]) == group[..3] + "="
  {
  }

  lemma LastDigit(x: char, group: string)
    requires x as int < 256 && group == FourDigits(x as int, 0, 0)
    ensures Encoded([x]) == group[..2] + "=="
  {
  }

  /** Three bytes are the number of their 24 bits in four symbols, whatever follows. */
  lemma EncodedFirst(x: char, y: char, z: char, s: string, n: nat)
    requires x as int < 256 && y as int < 256 && z as int < 256 && n == x as int * 65536 + y as int * 256 + z as int
    ensures Encoded([x, y, z] + s) == Group(n) + Encoded(s)
  {
    GroupIs(x as int, y as int, z as int);
    FirstDigits(x, y, z, s, Group(n));
  }

  /** Of the last two bytes three symbols and `=` are left, of the last byte two and `==`. */
  lemma EncodedLast(x: char, y: char, n: nat)
    requires x as int < 256 && y as int < 256 && n == x as int * 65536 + y as int * 256
    ensures Encoded([x, y]) == Group(n)[..3] + "="
    ensures y as int == 0 ==> Encoded([x]) == Group(n)[..2] + "=="
  {
    GroupIs(x as int, y as int, 0);
    LastDigits(x, y, Group(n));
    if y as int == 0 { LastDigit(x, Group(n)); }
  }

  /** The length is a multiple of four: a group for every three bytes or less. */
  lemma {:induction false} EncodedLength(s: string)
    ensures |Encoded(s)| == 4 * ((|s| + 2) / 3)
    decreases |s|
  {
    if |s| >= 3 {
      EncodedLength(s[3..]);
      PaddingLess(|s|);
      assert |Encoded(s)| == |Encoded(s[3..])| + 4;
    }
  }

  lemma SymbolsOnly(c: char)
    ensures Six(c) < 64 <==> exists v :: 0 <= v < 64 && Symbol(v) == c
  {
    if Six(c) < 64 { SymbolOfSix(c); DigitIsSymbol(Six(c)); }
    if v :| 0 <= v < 64 && Symbol(v) == c {
      DigitIsSymbol(v);
      TablesInverse(v);
    }
  }

  lemma SymbolOfSix(c: char)
    requires Six(c) < 64
    ensures Digit(Six(c)) == c
  {
  }

  /** What follows the first byte that is no symbol does not matter to the decoder. */
  lemma DecodedStops(u: string, c: char, rest: string)
    requires forall i :: 0 <= i < |u| ==> exists v :: 0 <= v < 64 && Symbol(v) == u[i]
    requires !exists v :: 0 <= v < 64 && Symbol(v) == c
    ensures Decoded(u + [c] + rest) == Decoded(u)
  {
    forall i | 0 <= i < |u| ensures Six(u[i]) < 64 { SymbolsOnly(u[i]); }
    SymbolsOnly(c);
    LeadingOnly(u, [c] + rest);
    LeadingOnly(u, "");
    Assoc(u, [c], rest);
    assert (u + ([c] + rest))[..|u|] == u && u + "" == u;
  }
}
