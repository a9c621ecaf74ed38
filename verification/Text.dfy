/** Byte-string helpers shared by the text protocols.  A `string` stands for a
    C++ `std::string`: each `char` is one byte. */
module Text {

  datatype Option<+T> = None | Some(value: T)

  /** `Err` stands for an exception. */
  datatype Result<+T> = Ok(value: T) | Err

  const TWO32 := 0x1_0000_0000

  const TWO31 := 0x8000_0000
  const TWO64 := 0x1_0000_0000_0000_0000

  // ---------------------------------------------------------------- characters

  function Lower(c: char): char {
    if 'A' <= c <= 'Z' then c - 'A' + 'a' else c
  }

  function LowerAll(s: string): (r: string)
    ensures |r| == |s|
    ensures forall i :: 0 <= i < |s| ==> r[i] == Lower(s[i])
  {
    seq(|s|, i requires 0 <= i < |s| => Lower(s[i]))
  }

  /** C's `isspace` in the default locale. */
  predicate IsSpace(c: char) { c == ' ' || '\t' <= c <= '\r' }

  predicate IsDigit(c: char) { '0' <= c <= '9' }

  // ------------------------------------------------------------------ scanning

  /** Index of the first `c` in `s`, or `|s|`. */
  function Find(s: string, c: char): (n: nat)
    ensures n <= |s|
    ensures n < |s| ==> s[n] == c
    ensures c !in s[..n]
  {
    if s == "" || s[0] == c then 0 else
      var n := 1 + Find(s[1..], c);
      assert s[..n] == [s[0]] + s[1..][..n - 1];
      n
  }

  /** `Find` is determined by its contract. */
  lemma FindUnique(s: string, c: char, n: nat)
    requires n <= |s| && c !in s[..n] && (n < |s| ==> s[n] == c)
    ensures Find(s, c) == n
  {
    if n > 0 {
      assert s[0] == s[..n][0];
      assert s[..n][1..] == s[1..][..n - 1];
      FindUnique(s[1..], c, n - 1);
    }
  }

  lemma FindSplit(a: string, c: char, b: string)
    requires c !in a
    ensures Find(a + [c] + b, c) == |a|
  {
    assert (a + [c] + b)[..|a|] == a;
    FindUnique(a + [c] + b, c, |a|);
  }

  /** `s` without its longest suffix of `c`s. */
  function StripTrailing(s: string, c: char): (r: string)
    ensures r <= s
    ensures r != "" ==> r[|r| - 1] != c
    ensures forall i :: |r| <= i < |s| ==> s[i] == c
  {
    if s != "" && s[|s| - 1] == c then StripTrailing(s[..|s| - 1], c) else s
  }

  function SkipSpaces(s: string): string {
    if s != "" && s[0] == ' ' then SkipSpaces(s[1..]) else s
  }

  function SkipWhite(s: string): string {
    if s != "" && IsSpace(s[0]) then SkipWhite(s[1..]) else s
  }

  function TakeDigits(s: string): (r: string)
    ensures AllDigits(r)
  {
    if s != "" && IsDigit(s[0]) then [s[0]] + TakeDigits(s[1..]) else ""
  }

  // ------------------------------------------------------------------ decimals

  predicate AllDigits(s: string) { forall i :: 0 <= i < |s| ==> IsDigit(s[i]) }

  function DigitValue(c: char): (d: nat)
    requires IsDigit(c)
    ensures d < 10
  {
    c as int - '0' as int
  }

  function DecValue(s: string): nat
    requires AllDigits(s)
  {
    if s == "" then 0 else DecValue(s[..|s| - 1]) * 10 + DigitValue(s[|s| - 1])
  }

  /** `std::to_string` on an unsigned value. */
  function Dec(n: nat): (s: string)
    ensures s != "" && AllDigits(s)
    ensures DecValue(s) == n
  {
    var d := ('0' as int + n % 10) as char;
    if n < 10 then
      assert [d][..0] == "";
      [d]
    else
      var s := Dec(n / 10) + [d];
      assert s[..|s| - 1] == Dec(n / 10);
      s
  }

  function DecInt(n: int): string { if n < 0 then "-" + Dec(-n) else Dec(n) }

  /** `strtol`/`strtoul` in base 10 before the range check: leading white space,
      an optional sign, then digits; whatever follows is ignored. */
  function ScanInt(s: string): Option<(bool, nat)> {
    var t := SkipWhite(s);
    var neg := t != "" && t[0] == '-';
    var u := if t != "" && (t[0] == '-' || t[0] == '+') then t[1..] else t;
    var ds := TakeDigits(u);
    if ds == "" then None else Some((neg, DecValue(ds)))
  }

  /** `std::stoi`; `None` is its exception. */
  function Stoi(s: string): Option<int> {
    match ScanInt(s)
    case None => None
    case Some((neg, v)) =>
      var n := if neg then 0 - v else v as int;
      if -TWO31 <= n < TWO31 then Some(n) else None
  }

  /** `std::stoul` with a 64-bit `unsigned long`: a minus sign negates modulo 2^64. */
  function Stoul(s: string): Option<nat> {
    match ScanInt(s)
    case None => None
    case Some((neg, v)) =>
      if v >= TWO64 then None
      else if neg then Some((TWO64 - v) % TWO64)
      else Some(v)
  }

  lemma {:induction false} TakeAllDigits(ds: string, rest: string)
    requires AllDigits(ds) && (rest == "" || !IsDigit(rest[0]))
    ensures TakeDigits(ds + rest) == ds
  {
    if ds == "" {
      assert ds + rest == rest;
    } else {
      assert (ds + rest)[1..] == ds[1..] + rest;
      TakeAllDigits(ds[1..], rest);
    }
  }

  predicate AllSpace(s: string) {
    forall i :: 0 <= i < |s| ==> s[i] in " \t\n\r" || s[i] as int == 11 || s[i] as int == 12
  }

  lemma {:induction false} SkipWhiteBack(w: string, rest: string)
    requires AllSpace(w) && (rest == "" || !IsSpace(rest[0]))
    ensures SkipWhite(w + rest) == rest
  {
    if w == "" {
      assert w + rest == rest;
    } else {
      assert (w + rest)[1..] == w[1..] + rest;
      SkipWhiteBack(w[1..], rest);
    }
  }

  /** White space, a sign or none, digits, and anything that is no digit behind them. */
  predicate Numeral(sign: string, junk: string) {
    (sign == "" || sign == "-" || sign == "+") && (junk == "" || !IsDigit(junk[0]))
  }

  lemma ScanNumeral(w: string, sign: string, n: nat, junk: string)
    requires AllSpace(w) && Numeral(sign, junk)
    ensures ScanInt(w + (sign + (Dec(n) + junk))) == Some((sign == "-", n))
  {
    var t := sign + (Dec(n) + junk);
    SignThenDigits(sign, Dec(n), junk, t);
    SkipWhiteBack(w, t);
    TakeAllDigits(Dec(n), junk);
  }

  lemma SignThenDigits(sign: string, ds: string, junk: string, t: string)
    requires Numeral(sign, junk) && ds != "" && AllDigits(ds) && t == sign + (ds + junk)
    ensures t != "" && !IsSpace(t[0]) && (t[0] == '-' <==> sign == "-")
    ensures (if t[0] == '-' || t[0] == '+' then t[1..] else t) == ds + junk
  {
    assert IsDigit(ds[0]) && (ds + junk)[0] == ds[0];
    if sign == "" { assert t == ds + junk; } else { assert t[0] == sign[0] && t[1..] == ds + junk; }
  }

  lemma ScanDec(n: nat)
    ensures ScanInt(Dec(n)) == Some((false, n)) && ScanInt("-" + Dec(n)) == Some((true, n))
  {
    NothingAround(Dec(n));
    ScanNumeral("", "", n, "");
    ScanNumeral("", "-", n, "");
  }

  lemma NothingAround(d: string)
    ensures "" + ("" + (d + "")) == d && "" + ("-" + (d + "")) == "-" + d
  {
  }

  /** `stoul` ignores white space in front and text behind, and a minus sign negates modulo
      2^64; 2^64 and more is out of range. */
  lemma StoulText(w: string, sign: string, n: nat, junk: string)
    requires AllSpace(w) && Numeral(sign, junk)
    ensures Stoul(w + (sign + (Dec(n) + junk))) ==
      if n >= 18446744073709551616 then None
      else if sign == "-" && n > 0 then Some(18446744073709551616 - n) else Some(n)
  {
    ScanNumeral(w, sign, n, junk);
  }

  /** Reading back what `std::to_string` printed. */
  lemma StoulDec(n: nat)
    requires n < TWO64
    ensures Stoul(Dec(n)) == Some(n)
  {
    ScanDec(n);
  }

  /** A 64-bit value printed as a signed number and read back with `stoul` is
      unchanged: the minus sign undoes the wrap-around. */
  lemma StoulSigned(n: nat)
    requires n < TWO64
    ensures Stoul(DecInt(if n < TWO64 / 2 then n else n - TWO64)) == Some(n)
  {
    if n < TWO64 / 2 { StoulDec(n); } else { StoulNegated(TWO64 - n); }
  }

  lemma StoulNegated(v: nat)
    requires 0 < v < TWO64
    ensures Stoul("-" + Dec(v)) == Some(TWO64 - v)
  {
    ScanDec(v);
  }

  /** The same for `std::stoi`, which takes 32 bits. */
  lemma StoiDecInt(n: int)
    ensures Stoi(DecInt(n)) == if -2147483648 <= n < 2147483648 then Some(n) else None
  {
    ScanDec(if n < 0 then -n else n);
  }

  /** Ten digits, the lowest last. */
  lemma Decimal(n: nat, d: nat)
    requires d < 10 && n > 0
    ensures Dec(10 * n + d) == Dec(n) + ["0123456789"[d]] && Dec(d) == ["0123456789"[d]]
  {
    TenDigits(d);
    assert (10 * n + d) / 10 == n && (10 * n + d) % 10 == d;
  }

  lemma TenDigits(d: nat)
    requires d < 10
    ensures "0123456789"[d] == ('0' as int + d) as char
  {
  }

  // ------------------------------------------------------------- bytes and words

  /** A string of bytes. */
  predicate IsBytes(s: string) { forall i :: 0 <= i < |s| ==> s[i] as int < 256 }

  /** 64-bit unsigned arithmetic. */
  function Wrap(n: nat): (r: nat)
    ensures r < TWO64 && (n < TWO64 ==> r == n)
  {
    n % TWO64
  }

  predicate IsHexDigit(c: char) { '0' <= c <= '9' || 'a' <= c <= 'f' || 'A' <= c <= 'F' }

  /** A hex digit; `ten` is the letter for ten. */
  function HexDigit(n: nat, ten: char): (c: char)
    requires n < 16 && (ten == 'a' || ten == 'A')
    ensures IsHexDigit(c)
  {
    if n < 10 then '0' + n as char else ten + (n - 10) as char
  }

  lemma Assoc<T>(a: seq<T>, b: seq<T>, c: seq<T>)
    ensures a + b + c == a + (b + c)
  {
  }

  // -------------------------------------------------------------------- chunks

  function Flatten(chunks: seq<string>): string {
    if chunks == [] then "" else chunks[0] + Flatten(chunks[1..])
  }
}
