/** SHA-1: sections 4.1.1, 5.1.1, 5.2.1 and 6.1.2 of FIPS 180-4 as the
    specification, and the in-place computation of `src/stx/SHA1.cc`. */
module Sha1 {

  // ------------------------------------------------------------- the standard's hash

  function Rotl(x: bv32, n: nat): bv32
    requires 0 < n < 32
  {
    (x << n) | (x >> (32 - n))
  }

  function Ch(x: bv32, y: bv32, z: bv32): bv32 { (x & y) ^ (!x & z) }
  function Parity(x: bv32, y: bv32, z: bv32): bv32 { x ^ y ^ z }
  function Maj(x: bv32, y: bv32, z: bv32): bv32 { (x & y) ^ (x & z) ^ (y & z) }

  function F(t: nat, x: bv32, y: bv32, z: bv32): bv32 {
    if t < 20 then Ch(x, y, z) else if t < 40 then Parity(x, y, z)
    else if t < 60 then Maj(x, y, z) else Parity(x, y, z)
  }

  function K(t: nat): bv32 {
    if t < 20 then 0x5a82_7999 else if t < 40 then 0x6ed9_eba1
    else if t < 60 then 0x8f1b_bcdc else 0xca62_c1d6
  }

  /** The message schedule of a block of sixteen words. */
  function W(m: seq<bv32>, t: nat): bv32
    requires |m| == 16
  {
    if t < 16 then m[t] else Rotl(W(m, t - 3) ^ W(m, t - 8) ^ W(m, t - 14) ^ W(m, t - 16), 1)
  }

  datatype Vars = Vars(a: bv32, b: bv32, c: bv32, d: bv32, e: bv32)

  function Mix(v: Vars, f: bv32, k: bv32, w: bv32): Vars {
    Vars(Rotl(v.a, 5) + f + v.e + k + w, v.a, Rotl(v.b, 30), v.c, v.d)
  }

  function Round(t: nat, v: Vars, w: bv32): Vars { Mix(v, F(t, v.b, v.c, v.d), K(t), w) }

  function Rounds(m: seq<bv32>, v: Vars, n: nat): Vars
    requires |m| == 16
  {
    if n == 0 then v else Round(n - 1, Rounds(m, v, n - 1), W(m, n - 1))
  }

  /** One block into the hash value. */
  function Compress(h: Vars, m: seq<bv32>): Vars
    requires |m| == 16
  {
    Plus(h, Rounds(m, h, 80))
  }

  function Plus(h: Vars, v: Vars): Vars { Vars(h.a + v.a, h.b + v.b, h.c + v.c, h.d + v.d, h.e + v.e) }

  /** The hash value after all whole blocks of `ws`. */
  function Fold(h: Vars, ws: seq<bv32>): Vars
    decreases |ws|
  {
    if |ws| < 16 then h else Fold(Compress(h, ws[..16]), ws[16..])
  }

  function Word(b0: bv8, b1: bv8, b2: bv8, b3: bv8): bv32 {
    (b3 as bv32) | ((b2 as bv32) << 8) | ((b1 as bv32) << 16) | ((b0 as bv32) << 24)
  }

  /** The big-endian words of the bytes. */
  function Words(bs: seq<bv8>): (r: seq<bv32>)
    ensures |r| == |bs| / 4
  {
    seq(|bs| / 4, i requires 0 <= i < |bs| / 4 => Word(bs[4 * i], bs[4 * i + 1], bs[4 * i + 2], bs[4 * i + 3]))
  }

  function Zeros(n: nat): (r: seq<bv8>)
    ensures |r| == n && forall i :: 0 <= i < n ==> r[i] == 0
  {
    seq(n, i => 0)
  }

  /** The message, a one bit, and zeros up to eight bytes short of a block. */
  function Filled(msg: seq<bv8>): (r: seq<bv8>)
    ensures |r| % 64 == 56 && msg < r && |r| <= |msg| + 64
  {
    var used := |msg| % 64;
    msg + [0x80] + Zeros(if used < 56 then 55 - used else 119 - used)
  }

  const TWO32 := 0x1_0000_0000

  const H0 := Vars(0x6745_2301, 0xefcd_ab89, 0x98ba_dcfe, 0x1032_5476, 0xc3d2_e1f0)

  /** The digest when the padding ends in the length words `hi` and `lo`. */
  function Digest(msg: seq<bv8>, hi: bv32, lo: bv32): seq<bv8> {
    Bytes(Fold(H0, Words(Filled(msg)) + [hi, lo]))
  }

  /** Byte `k` of a big-endian word. */
  function ByteOf(x: bv32, k: nat): bv8
    requires k < 4
  {
    ((if k == 0 then x >> 24 else if k == 1 then x >> 16 else if k == 2 then x >> 8 else x) & 0xff) as bv8
  }

  function WordOf(h: Vars, i: nat): bv32
    requires i < 5
  {
    if i == 0 then h.a else if i == 1 then h.b else if i == 2 then h.c else if i == 3 then h.d else h.e
  }

  function Bytes(h: Vars): seq<bv8> {
    seq(20, i requires 0 <= i < 20 => ByteOf(WordOf(h, i / 4), i % 4))
  }

  /** FIPS 180-4: the length in bits is a 64-bit number. */
  function Standard(msg: seq<bv8>): seq<bv8>
    requires 8 * |msg| < TWO32 * TWO32
  {
    Digest(msg, (8 * |msg| / TWO32) as bv32, (8 * |msg| % TWO32) as bv32)
  }

  /** The two length words of the code, which leaves the upper one zero, are the
      standard's exactly below 2^29 bytes. */
  lemma LengthWords(n: nat)
    requires 8 * n < TWO32 * TWO32
    ensures (0, 8 * n % TWO32) == (8 * n / TWO32, 8 * n % TWO32) <==> n < 0x2000_0000
  {
  }

  // ------------------------------------------------------------------ the rounds

  lemma OrForms(x: bv32, y: bv32, z: bv32)
    ensures (x & y) | (!x & z) == Ch(x, y, z)
    ensures (x & y) | (x & z) | (y & z) == Maj(x, y, z)
  {
  }

  ghost predicate Scheduled(w: array<bv32>, m: seq<bv32>, i: nat)
    requires |m| == 16 && w.Length == 80
    reads w
  {
    i < 80 && w[i] == W(m, i)
  }

  /** The first `n` words of the schedule are in place. */
  ghost predicate Ready(w: array<bv32>, m: seq<bv32>, n: nat)
    requires |m| == 16 && w.Length == 80
    reads w
  {
    n <= 80 && forall i: nat {:trigger Scheduled(w, m, i)} :: i < n ==> Scheduled(w, m, i)
  }

  /** The next word of the schedule, in place. */
  method Extend(w: array<bv32>, t: nat, ghost m: seq<bv32>)
    requires w.Length == 80 && |m| == 16 && 16 <= t < 80 && Ready(w, m, t)
    modifies w
    ensures Ready(w, m, t + 1)
  {
    assert Scheduled(w, m, t - 3) && Scheduled(w, m, t - 8) && Scheduled(w, m, t - 14) && Scheduled(w, m, t - 16);
    label before:
    w[t] := Rotl(w[t - 3] ^ w[t - 8] ^ w[t - 14] ^ w[t - 16], 1);
    forall i: nat | i < t + 1 ensures Scheduled(w, m, i) {
      if i < t { assert old@before(Scheduled(w, m, i)); }
    }
  }

  /** One round whose word is already there, with the round function `f`. */
  method RoundAt(w: array<bv32>, t: nat, v: Vars, f: bv32, k: bv32, ghost m: seq<bv32>, ghost h: Vars)
    returns (v': Vars)
    requires w.Length == 80 && |m| == 16 && t < 80 && Ready(w, m, t + 1)
    requires v == Rounds(m, h, t) && f == F(t, v.b, v.c, v.d) && k == K(t)
    ensures v' == Rounds(m, h, t + 1)
  {
    assert Scheduled(w, m, t);
    v' := Mix(v, f, k, w[t]);
  }

  method Rounds0To16(w: array<bv32>, start: Vars, ghost m: seq<bv32>, ghost h: Vars) returns (v: Vars)
    requires w.Length == 80 && |m| == 16 && Ready(w, m, 16) && start == h
    ensures v == Rounds(m, h, 16)
  {
    v := start;
    var round: nat := 0;
    while round < 16
      invariant round <= 16 && v == Rounds(m, h, round)
    {
      OrForms(v.b, v.c, v.d);
      ReadyLess(w, m, 16, round + 1);
      v := RoundAt(w, round, v, (v.b & v.c) | (!v.b & v.d), 0x5a82_7999, m, h);
      round := round + 1;
    }
  }

  method Rounds16To20(w: array<bv32>, start: Vars, ghost m: seq<bv32>, ghost h: Vars) returns (v: Vars)
    requires w.Length == 80 && |m| == 16 && Ready(w, m, 16) && start == Rounds(m, h, 16)
    modifies w
    ensures Ready(w, m, 20) && v == Rounds(m, h, 20)
  {
    v := start;
    var round: nat := 16;
    while round < 20
      invariant 16 <= round <= 20 && Ready(w, m, round) && v == Rounds(m, h, round)
    {
      Extend(w, round, m);
      OrForms(v.b, v.c, v.d);
      v := RoundAt(w, round, v, (v.b & v.c) | (!v.b & v.d), 0x5a82_7999, m, h);
      round := round + 1;
    }
  }

  lemma ReadyLess(w: array<bv32>, m: seq<bv32>, n: nat, k: nat)
    requires w.Length == 80 && |m| == 16 && Ready(w, m, n) && k <= n
    ensures Ready(w, m, k)
  {
  }

  method Rounds20To40(w: array<bv32>, start: Vars, ghost m: seq<bv32>, ghost h: Vars) returns (v: Vars)
    requires w.Length == 80 && |m| == 16 && Ready(w, m, 20) && start == Rounds(m, h, 20)
    modifies w
    ensures Ready(w, m, 40) && v == Rounds(m, h, 40)
  {
    v := start;
    var round: nat := 20;
    while round < 40
      invariant 20 <= round <= 40 && Ready(w, m, round) && v == Rounds(m, h, round)
    {
      Extend(w, round, m);
      v := RoundAt(w, round, v, v.b ^ v.c ^ v.d, 0x6ed9_eba1, m, h);
      round := round + 1;
    }
  }

  method Rounds40To60(w: array<bv32>, start: Vars, ghost m: seq<bv32>, ghost h: Vars) returns (v: Vars)
    requires w.Length == 80 && |m| == 16 && Ready(w, m, 40) && start == Rounds(m, h, 40)
    modifies w
    ensures Ready(w, m, 60) && v == Rounds(m, h, 60)
  {
    v := start;
    var round: nat := 40;
    while round < 60
      invariant 40 <= round <= 60 && Ready(w, m, round) && v == Rounds(m, h, round)
    {
      Extend(w, round, m);
      OrForms(v.b, v.c, v.d);
      v := RoundAt(w, round, v, (v.b & v.c) | (v.b & v.d) | (v.c & v.d), 0x8f1b_bcdc, m, h);
      round := round + 1;
    }
  }

  method Rounds60To80(w: array<bv32>, start: Vars, ghost m: seq<bv32>, ghost h: Vars) returns (v: Vars)
    requires w.Length == 80 && |m| == 16 && Ready(w, m, 60) && start == Rounds(m, h, 60)
    modifies w
    ensures v == Rounds(m, h, 80)
  {
    v := start;
    var round: nat := 60;
    while round < 80
      invariant 60 <= round <= 80 && Ready(w, m, round) && v == Rounds(m, h, round)
    {
      Extend(w, round, m);
      v := RoundAt(w, round, v, v.b ^ v.c ^ v.d, 0xca62_c1d6, m, h);
      round := round + 1;
    }
  }

  method AllRounds(w: array<bv32>, h: Vars, ghost m: seq<bv32>) returns (v: Vars)
    requires w.Length == 80 && |m| == 16 && Ready(w, m, 16)
    modifies w
    ensures v == Rounds(m, h, 80)
  {
    v := Rounds0To16(w, h, m, h);
    v := Rounds16To20(w, v, m, h);
    v := Rounds20To40(w, v, m, h);
    v := Rounds40To60(w, v, m, h);
    v := Rounds60To80(w, v, m, h);
  }

  function Value(result: array<bv32>): Vars
    requires result.Length == 5
    reads result
  {
    Vars(result[0], result[1], result[2], result[3], result[4])
  }

  /** `innerHash`: the sixteen words in `w` are hashed into `result`. */
  method InnerHash(result: array<bv32>, w: array<bv32>)
    requires result.Length == 5 && w.Length == 80 && result != w
    modifies result, w
    ensures Value(result) == Compress(old(Value(result)), old(w[..16]))
  {
    ghost var m := w[..16];
    forall i: nat | i < 16 ensures Scheduled(w, m, i) {}
    var h := Value(result);
    var v := AllRounds(w, h, m);
    Store(result, Plus(h, v));
  }

  method Store(result: array<bv32>, h: Vars)
    requires result.Length == 5
    modifies result
    ensures Value(result) == h
  {
    result[0] := h.a;
    result[1] := h.b;
    result[2] := h.c;
    result[3] := h.d;
    result[4] := h.e;
  }

  // ---------------------------------------------------------------- blocks and padding

  lemma {:induction false} FoldConcat(h: Vars, a: seq<bv32>, b: seq<bv32>)
    requires |a| % 16 == 0
    ensures Fold(h, a + b) == Fold(Fold(h, a), b)
    decreases |a|
  {
    if a == [] {
      assert a + b == b;
    } else {
      assert (a + b)[..16] == a[..16] && (a + b)[16..] == a[16..] + b;
      FoldConcat(Compress(h, a[..16]), a[16..], b);
    }
  }

  lemma FoldOne(h: Vars, m: seq<bv32>)
    requires |m| == 16
    ensures Fold(h, m) == Compress(h, m)
  {
    assert m[..16] == m && m[16..] == [];
  }

  lemma WordsConcat(a: seq<bv8>, b: seq<bv8>)
    requires |a| % 4 == 0
    ensures Words(a + b) == Words(a) + Words(b)
  {
    var c := a + b;
    assert |c| / 4 == |a| / 4 + |b| / 4;
    forall i | 0 <= i < |c| / 4 ensures Words(c)[i] == (Words(a) + Words(b))[i] {
      if i >= |a| / 4 {
        var j := i - |a| / 4;
        assert 4 * i == |a| + 4 * j;
      }
    }
  }

  // -------------------------------------------------------------- filling the round buffer

  function WordAt(bs: seq<bv8>, k: nat): bv32
    requires 4 * k + 3 < |bs|
  {
    Word(bs[4 * k], bs[4 * k + 1], bs[4 * k + 2], bs[4 * k + 3])
  }

  function ZeroFilled(s: seq<bv8>): (r: seq<bv8>)
    requires |s| <= 64
    ensures |r| == 64
  {
    s + Zeros(64 - |s|)
  }

  /** `clearWBuffert`. */
  method Clear(w: array<bv32>)
    requires w.Length == 80
    modifies w
    ensures w[..16] == Words(Zeros(64))
  {
    var pos := 16;
    while pos > 0
      invariant 0 <= pos <= 16 && forall i :: pos <= i < 16 ==> w[i] == 0
    {
      pos := pos - 1;
      w[pos] := 0;
    }
    assert Word(0, 0, 0, 0) == 0;
  }

  lemma OrFirst(b: bv8, b1: bv8, b2: bv8, b3: bv8)
    ensures Word(0, b1, b2, b3) | ((b as bv32) << 24) == Word(b, b1, b2, b3)
  {
  }

  lemma OrSecond(b0: bv8, b: bv8, b2: bv8, b3: bv8)
    ensures Word(b0, 0, b2, b3) | ((b as bv32) << 16) == Word(b0, b, b2, b3)
  {
  }

  lemma OrThird(b0: bv8, b1: bv8, b: bv8, b3: bv8)
    ensures Word(b0, b1, 0, b3) | ((b as bv32) << 8) == Word(b0, b1, b, b3)
  {
  }

  lemma OrFourth(b0: bv8, b1: bv8, b2: bv8, b: bv8)
    ensures Word(b0, b1, b2, 0) | (b as bv32) == Word(b0, b1, b2, b)
  {
  }

  /** The byte `b` shifted to its place in word `i / 4`. */
  function Shifted(b: bv8, i: nat): bv32 {
    if i % 4 == 0 then (b as bv32) << 24 else if i % 4 == 1 then (b as bv32) << 16
    else if i % 4 == 2 then (b as bv32) << 8 else b as bv32
  }

  /** One zero byte of a word or-ed with `b`. */
  lemma OrByte(z: seq<bv8>, z': seq<bv8>, i: nat, b: bv8)
    requires |z| == |z'| == 64 && i < 64 && z[i] == 0 && z' == z[i := b]
    ensures WordAt(z, i / 4) | Shifted(b, i) == WordAt(z', i / 4)
  {
    if i % 4 == 0 { OrByte0(z, z', i, b); }
    else if i % 4 == 1 { OrByte1(z, z', i, b); }
    else if i % 4 == 2 { OrByte2(z, z', i, b); }
    else { OrByte3(z, z', i, b); }
  }

  lemma OrByte0(z: seq<bv8>, z': seq<bv8>, i: nat, b: bv8)
    requires |z| == |z'| == 64 && i < 64 && z[i] == 0 && z' == z[i := b] && i % 4 == 0
    ensures WordAt(z, i / 4) | Shifted(b, i) == WordAt(z', i / 4)
  {
    var k := i / 4;
    OrFirst(b, z[4 * k + 1], z[4 * k + 2], z[4 * k + 3]);
  }

  lemma OrByte1(z: seq<bv8>, z': seq<bv8>, i: nat, b: bv8)
    requires |z| == |z'| == 64 && i < 64 && z[i] == 0 && z' == z[i := b] && i % 4 == 1
    ensures WordAt(z, i / 4) | Shifted(b, i) == WordAt(z', i / 4)
  {
    var k := i / 4;
    OrSecond(z[4 * k], b, z[4 * k + 2], z[4 * k + 3]);
  }

  lemma OrByte2(z: seq<bv8>, z': seq<bv8>, i: nat, b: bv8)
    requires |z| == |z'| == 64 && i < 64 && z[i] == 0 && z' == z[i := b] && i % 4 == 2
    ensures WordAt(z, i / 4) | Shifted(b, i) == WordAt(z', i / 4)
  {
    var k := i / 4;
    OrThird(z[4 * k], z[4 * k + 1], b, z[4 * k + 3]);
  }

  lemma OrByte3(z: seq<bv8>, z': seq<bv8>, i: nat, b: bv8)
    requires |z| == |z'| == 64 && i < 64 && z[i] == 0 && z' == z[i := b] && i % 4 == 3
    ensures WordAt(z, i / 4) | Shifted(b, i) == WordAt(z', i / 4)
  {
    var k := i / 4;
    OrFourth(z[4 * k], z[4 * k + 1], z[4 * k + 2], b);
  }

  function OrWord(ws: seq<bv32>, k: nat, x: bv32): seq<bv32>
    requires k < |ws|
  {
    ws[k := ws[k] | x]
  }

  lemma WordsWithByte(s: seq<bv8>, b: bv8, i: nat, x: bv32)
    requires |s| == i < 64 && x == Shifted(b, i)
    ensures OrWord(Words(ZeroFilled(s)), i / 4, x) == Words(ZeroFilled(s + [b]))
  {
    var z, z' := ZeroFilled(s), ZeroFilled(s + [b]);
    assert z' == z[i := b];
    OrSameWord(z, z', i, b, x);
  }

  lemma OrSameWord(z: seq<bv8>, z': seq<bv8>, i: nat, b: bv8, x: bv32)
    requires |z| == |z'| == 64 && i < 64 && z[i] == 0 && z' == z[i := b] && x == Shifted(b, i)
    ensures OrWord(Words(z), i / 4, x) == Words(z')
  {
    OrAtWord(z, z', i, b, x);
    OrWordIs(Words(z), i / 4, x, Words(z')[i / 4]);
    OneWord(z, z', i / 4, Words(z')[i / 4]);
  }

  lemma OrAtWord(z: seq<bv8>, z': seq<bv8>, i: nat, b: bv8, x: bv32)
    requires |z| == |z'| == 64 && i < 64 && z[i] == 0 && z' == z[i := b] && x == Shifted(b, i)
    ensures Words(z)[i / 4] | x == Words(z')[i / 4]
  {
    OrByte(z, z', i, b);
    WordsAt(z, i / 4);
    WordsAt(z', i / 4);
  }

  lemma WordsAt(z: seq<bv8>, k: nat)
    requires |z| == 64 && k < 16
    ensures Words(z)[k] == WordAt(z, k)
  {
  }

  lemma OrWordIs(ws: seq<bv32>, k: nat, x: bv32, y: bv32)
    requires k < |ws| && ws[k] | x == y
    ensures OrWord(ws, k, x) == ws[k := y]
  {
  }

  lemma OneWord(z: seq<bv8>, z': seq<bv8>, k: nat, x: bv32)
    requires |z| == |z'| == 64 && k < 16 && x == Words(z')[k]
    requires forall j :: 0 <= j < 64 && j / 4 != k ==> z[j] == z'[j]
    ensures Words(z)[k := x] == Words(z')
  {
  }

  /** `w[i >> 2] |= b << ((3 - (i & 3)) << 3)` */
  method PutByte(w: array<bv32>, b: bv8, ghost s: seq<bv8>, i: nat)
    requires w.Length == 80 && |s| == i < 64 && w[..16] == Words(ZeroFilled(s))
    modifies w
    ensures w[..16] == Words(ZeroFilled(s + [b]))
  {
    var x := Shifted(b, i);
    WordsWithByte(s, b, i, x);
    OrInto(w, i / 4, x);
  }

  method OrInto(w: array<bv32>, k: nat, x: bv32)
    requires w.Length == 80 && k < 16
    modifies w
    ensures w[..16] == OrWord(old(w[..16]), k, x)
  {
    SetWord(w, k, w[..16][k] | x);
  }

  method SetWord(w: array<bv32>, k: nat, y: bv32)
    requires w.Length == 80 && k < 16
    modifies w
    ensures w[..16] == old(w[..16])[k := y]
  {
    w[k] := y;
  }

  method PutNext(w: array<bv32>, rest: seq<bv8>, n: nat)
    requires w.Length == 80 && n < |rest| < 64 && w[..16] == Words(ZeroFilled(rest[..n]))
    modifies w
    ensures w[..16] == Words(ZeroFilled(rest[..n + 1]))
  {
    assert rest[..n + 1] == rest[..n] + [rest[n]];
    PutByte(w, rest[n], rest[..n], n);
  }

  /** The last bytes of the message and the one bit after them. */
  method FillTail(w: array<bv32>, rest: seq<bv8>)
    requires w.Length == 80 && |rest| < 64
    modifies w
    ensures w[..16] == Words(ZeroFilled(rest + [0x80]))
  {
    Clear(w);
    assert ZeroFilled([]) == Zeros(64);
    var n: nat := 0;
    assert rest[..0] == [];
    while n < |rest|
      invariant n <= |rest| && w[..16] == Words(ZeroFilled(rest[..n]))
    {
      PutNext(w, rest, n);
      n := n + 1;
    }
    assert rest[..n] == rest;
    PutByte(w, 0x80, rest, n);
  }

  method LoadBlock(w: array<bv32>, data: seq<bv8>, cur: nat)
    requires w.Length == 80 && cur + 64 <= |data|
    modifies w
    ensures w[..16] == Words(data[cur..cur + 64])
  {
    ghost var ws := Words(data[cur..cur + 64]);
    var pos: nat := 0;
    while pos < 16
      invariant pos <= 16 && w[..pos] == ws[..pos]
    {
      var c := cur + 4 * pos;
      w[pos] := Word(data[c], data[c + 1], data[c + 2], data[c + 3]);
      assert w[..pos + 1] == w[..pos] + [w[pos]];
      pos := pos + 1;
    }
    assert ws[..16] == ws;
  }

  // -------------------------------------------------------------------- the whole message

  lemma FilledCut(data: seq<bv8>, cur: nat)
    requires cur <= |data| && cur % 64 == 0
    ensures Filled(data) == data[..cur] + Filled(data[cur..])
  {
    var rest := data[cur..];
    assert |data| % 64 == |rest| % 64;
    assert data == data[..cur] + rest;
    var used := |rest| % 64;
    var zs := Zeros(if used < 56 then 55 - used else 119 - used);
    assert (data[..cur] + rest) + [0x80] + zs == data[..cur] + (rest + [0x80] + zs);
  }

  /** The hash value, when the first `cur` bytes are hashed into `h`. */
  lemma FoldTail(data: seq<bv8>, cur: nat, h: Vars, c: seq<bv32>)
    requires cur <= |data| && cur % 64 == 0
    requires h == Fold(H0, Words(data[..cur]))
    ensures Fold(H0, Words(Filled(data)) + c) == Fold(h, Words(Filled(data[cur..])) + c)
  {
    WordsCut(data, cur);
    WholeWords(cur);
    FoldThree(Words(data[..cur]), Words(Filled(data[cur..])), c);
  }

  lemma WholeWords(n: nat)
    requires n % 64 == 0
    ensures n % 4 == 0 && n / 4 % 16 == 0
  {
    var q := n / 64;
    assert n == 4 * (16 * q);
    assert n / 4 == 16 * q;
  }

  lemma WordsCut(data: seq<bv8>, cur: nat)
    requires cur <= |data| && cur % 64 == 0
    ensures Words(Filled(data)) == Words(data[..cur]) + Words(Filled(data[cur..]))
  {
    var a, b := data[..cur], Filled(data[cur..]);
    FilledCut(data, cur);
    WholeWords(cur);
    WordsConcat(a, b);
  }

  lemma FoldThree(a: seq<bv32>, b: seq<bv32>, c: seq<bv32>)
    requires |a| % 16 == 0
    ensures Fold(H0, (a + b) + c) == Fold(Fold(H0, a), b + c)
  {
    assert (a + b) + c == a + (b + c);
    FoldConcat(H0, a, b + c);
  }

  /** One more block. */
  lemma FoldBlock(data: seq<bv8>, cur: nat)
    requires cur + 64 <= |data| && cur % 64 == 0
    ensures Fold(H0, Words(data[..cur + 64]))
      == Compress(Fold(H0, Words(data[..cur])), Words(data[cur..cur + 64]))
  {
    var a, b := data[..cur], data[cur..cur + 64];
    assert data[..cur + 64] == a + b;
    WordsConcat(a, b);
    FoldConcat(H0, Words(a), Words(b));
    FoldOne(Fold(H0, Words(a)), Words(b));
  }

  lemma SameWords(a: seq<bv8>, b: seq<bv8>, n: nat)
    requires 4 * n <= |a| && 4 * n <= |b| && a[..4 * n] == b[..4 * n]
    ensures Words(a)[..n] == Words(b)[..n]
  {
    forall k | 0 <= k < n ensures Words(a)[k] == Words(b)[k] {
      assert forall j :: 0 <= j < 4 * n ==> a[j] == a[..4 * n][j] == b[j];
    }
  }

  lemma ZeroWord(a: seq<bv8>, k: nat)
    requires 4 * k + 4 <= |a| && a[4 * k] == a[4 * k + 1] == a[4 * k + 2] == a[4 * k + 3] == 0
    ensures Words(a)[k] == 0
  {
    assert Word(0, 0, 0, 0) == 0;
  }

  lemma LastTwo(ws: seq<bv32>, vs: seq<bv32>, lo: bv32)
    requires |ws| == 16 && |vs| == 14 && ws[..14] == vs && ws[14] == 0
    ensures vs + [0, lo] == ws[15 := lo]
  {
  }

  /** A short tail: padding and length share its block. */
  lemma OneBlock(rest: seq<bv8>, lo: bv32)
    requires |rest| < 56
    ensures Words(Filled(rest)) + [0, lo] == Words(ZeroFilled(rest + [0x80]))[15 := lo]
  {
    var z, f := ZeroFilled(rest + [0x80]), Filled(rest);
    assert z[..56] == f[..56] && |f| == 56;
    SameWords(z, f, 14);
    assert Words(f)[..14] == Words(f);
    ZeroWord(z, 14);
    LastTwo(Words(z), Words(f), lo);
  }

  /** A long tail: the length goes into a block of its own. */
  lemma TwoBlocks(rest: seq<bv8>, lo: bv32)
    requires 56 <= |rest| < 64
    ensures Words(Filled(rest)) + [0, lo] == Words(ZeroFilled(rest + [0x80])) + Words(Zeros(64))[15 := lo]
  {
    var z, f := ZeroFilled(rest + [0x80]), Filled(rest);
    assert f == z + Zeros(56);
    WordsConcat(z, Zeros(56));
    assert Zeros(64)[..56] == Zeros(56)[..56];
    SameWords(Zeros(64), Zeros(56), 14);
    assert Words(Zeros(56))[..14] == Words(Zeros(56));
    ZeroWord(Zeros(64), 14);
    LastTwo(Words(Zeros(64)), Words(Zeros(56)), lo);
    assert Words(z) + Words(Zeros(56)) + [0, lo] == Words(z) + (Words(Zeros(56)) + [0, lo]);
  }

  /** The last block or blocks. */
  method HashTail(result: array<bv32>, w: array<bv32>, rest: seq<bv8>, lo: bv32)
    requires result.Length == 5 && w.Length == 80 && result != w && |rest| < 64
    modifies result, w
    ensures Value(result) == Fold(old(Value(result)), Words(Filled(rest)) + [0, lo])
  {
    ghost var h := Value(result);
    ghost var block := ZeroFilled(rest + [0x80]);
    FillTail(w, rest);
    if |rest| >= 56 {
      InnerHash(result, w);
      Clear(w);
      ghost var words := w[..16];
      w[15] := lo;
      assert w[..16] == words[15 := lo];
      InnerHash(result, w);
      TwoBlocks(rest, lo);
      FoldConcat(h, Words(block), Words(Zeros(64))[15 := lo]);
      FoldOne(h, Words(block));
      FoldOne(Compress(h, Words(block)), Words(Zeros(64))[15 := lo]);
    } else {
      ghost var words := w[..16];
      w[15] := lo;
      assert w[..16] == words[15 := lo];
      InnerHash(result, w);
      OneBlock(rest, lo);
      FoldOne(h, Words(block)[15 := lo]);
    }
  }

  /** All whole blocks; returns where the tail begins. */
  method HashBlocks(result: array<bv32>, w: array<bv32>, data: seq<bv8>) returns (cur: nat)
    requires result.Length == 5 && w.Length == 80 && result != w && Value(result) == H0
    modifies result, w
    ensures cur <= |data| < cur + 64 && cur % 64 == 0
    ensures Value(result) == Fold(H0, Words(data[..cur]))
  {
    var endOfFullBlocks := |data| - 64;
    cur := 0;
    assert Words(data[..0]) == [];
    while cur <= endOfFullBlocks
      invariant cur <= |data| && cur % 64 == 0 && Value(result) == Fold(H0, Words(data[..cur]))
    {
      LoadBlock(w, data, cur);
      InnerHash(result, w);
      FoldBlock(data, cur);
      cur := cur + 64;
    }
  }

  /** `SHA1::compute` (its cursors are 32-bit `int`s): the standard's hash with the
      upper length word left zero, hence the standard's hash below 2^29 bytes. */
  method Compute(data: seq<bv8>) returns (hash: seq<bv8>)
    requires |data| < 0x8000_0000
    ensures hash == Digest(data, 0, (8 * |data| % TWO32) as bv32)
    ensures |data| < 0x2000_0000 ==> hash == Standard(data)
  {
    LengthWords(|data|);
    var result := new bv32[5];
    Store(result, H0);
    var w := new bv32[80];
    var cur := HashBlocks(result, w, data);
    ghost var h := Value(result);
    var lo := (8 * |data| % TWO32) as bv32;
    HashTail(result, w, data[cur..], lo);
    FoldTail(data, cur, h, [0, lo]);
    hash := Output(result);
  }

  method OutputByte(result: array<bv32>, i: nat) returns (byte: bv8)
    requires result.Length == 5 && i < 20
    ensures byte == Bytes(Value(result))[i]
  {
    assert result[i / 4] == WordOf(Value(result), i / 4);
    byte := ByteOf(result[i / 4], i % 4);
  }

  method Output(result: array<bv32>) returns (hash: seq<bv8>)
    requires result.Length == 5
    ensures hash == Bytes(Value(result))
  {
    hash := [];
    ghost var want := Bytes(Value(result));
    var i := 20;
    while i > 0
      invariant 0 <= i <= 20 && hash == want[i..]
    {
      i := i - 1;
      var byte := OutputByte(result, i);
      hash := [byte] + hash;
    }
  }
}
