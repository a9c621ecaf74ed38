/** Percent-encoding and query strings (`src/stx/uri.cc`; section 2.1 of RFC 3986).
    Bytes are characters below 256. */
module UrlCoding {
  import opened Text
  import opened Format

  // ---------------------------------------------------------- percent-encoding

  predicate Unreserved(c: char) {
    'A' <= c <= 'Z' || 'a' <= c <= 'z' || '0' <= c <= '9' || c == '-' || c == '_' || c == '.' || c == '~'
  }

  function HexValue(c: char): (v: nat)
    requires IsHexDigit(c)
    ensures v < 16
  {
    if c <= '9' then c as int - '0' as int
    else if c <= 'F' then c as int - 'A' as int + 10 else c as int - 'a' as int + 10
  }

  /** `%`, the high and the low four bits. */
  function Escaped(c: char): string {
    if Unreserved(c) then [c] else ['%', HexDigit(c as int / 16 % 16, 'A'), HexDigit(c as int % 16, 'A')]
  }

  function UrlEncoded(s: string): string {
    if s == "" then "" else Escaped(s[0]) + UrlEncoded(s[1..])
  }

  /** `urlDecode`: `%` needs two more bytes, and stands for itself unless both are hex
      digits. */
  function UrlDecoded(t: string): Result<string> {
    if t == "" then Ok("")
    else if t[0] == '%' then
      if |t| < 3 then Err
      else if IsHexDigit(t[1]) && IsHexDigit(t[2]) then
        Before([(16 * HexValue(t[1]) + HexValue(t[2])) as char], UrlDecoded(t[3..]))
      else Before("%", UrlDecoded(t[1..]))
    else if t[0] == '+' then Before(" ", UrlDecoded(t[1..]))
    else Before([t[0]], UrlDecoded(t[1..]))
  }

  function Before(a: string, r: Result<string>): Result<string> {
    match r
    case Err => Err
    case Ok(b) => Ok(a + b)
  }

  method UrlEncode(s: string) returns (encoded: string)
    ensures encoded == UrlEncoded(s)
  {
    encoded := "";
    var i := 0;
    assert s[0..] == s;
    while i < |s|
      invariant 0 <= i <= |s| && UrlEncoded(s) == encoded + UrlEncoded(s[i..])
    {
      assert s[i..][1..] == s[i + 1..];
      Assoc(encoded, Escaped(s[i]), UrlEncoded(s[i + 1..]));
      if Unreserved(s[i]) {
        encoded := encoded + [s[i]];
      } else {
        encoded := encoded + ['%', HexDigit(s[i] as int / 16 % 16, 'A'), HexDigit(s[i] as int % 16, 'A')];
      }
      i := i + 1;
    }
  }

  lemma BeforeTwice(a: string, b: string, r: Result<string>)
    ensures Before(a, Before(b, r)) == Before(a + b, r)
  {
    match r
    case Err =>
    case Ok(c) => Assoc(a, b, c);
  }

  /** What one turn of the decoder's loop reads and writes. */
  function DecodeOne(t: string): (r: Result<(string, nat)>)
    requires t != ""
    ensures r.Ok? ==> 0 < r.value.1 <= |t|
  {
    if t[0] == '%' then
      if |t| < 3 then Err
      else if IsHexDigit(t[1]) && IsHexDigit(t[2]) then Ok(([(16 * HexValue(t[1]) + HexValue(t[2])) as char], 3))
      else Ok(("%", 1))
    else if t[0] == '+' then Ok((" ", 1))
    else Ok(([t[0]], 1))
  }

  lemma DecodeNext(decoded: string, t: string, whole: Result<string>)
    requires t != "" && whole == Before(decoded, UrlDecoded(t))
    ensures var one := DecodeOne(t);
      whole == if one.Err? then Err else Before(decoded + one.value.0, UrlDecoded(t[one.value.1..]))
  {
    var one := DecodeOne(t);
    if one.Ok? { BeforeTwice(decoded, one.value.0, UrlDecoded(t[one.value.1..])); }
  }

  method UrlDecode(str: string) returns (r: Result<string>)
    ensures r == UrlDecoded(str)
  {
    var decoded := "";
    var begin, end := 0, |str|;
    ghost var whole := UrlDecoded(str);
    assert str[0..] == str && Before("", whole) == whole by { BeforeNone(whole); }
    while begin != end
      invariant 0 <= begin <= end == |str| && whole == Before(decoded, UrlDecoded(str[begin..]))
      decreases end - begin
    {
      ghost var t := str[begin..];
      DecodeNext(decoded, t, whole);
      assert t[1..] == str[begin + 1..] && (|t| >= 3 ==> t[3..] == str[begin + 3..]);
      if str[begin] == '%' {
        if begin + 3 > end { return Err; }
        if !(IsHexDigit(str[begin + 1]) && IsHexDigit(str[begin + 2])) {
          decoded := decoded + "%";
          begin := begin + 1;
        } else {
          decoded := decoded + [(16 * HexValue(str[begin + 1]) + HexValue(str[begin + 2])) as char];
          begin := begin + 3;
        }
      } else if str[begin] == '+' {
        decoded := decoded + " ";
        begin := begin + 1;
      } else {
        decoded := decoded + [str[begin]];
        begin := begin + 1;
      }
    }
    assert decoded + "" == decoded;
    r := Ok(decoded);
  }

  lemma BeforeNone(r: Result<string>)
    ensures Before("", r) == r
  {
    match r
    case Err =>
    case Ok(b) => assert "" + b == b;
  }

  lemma HexBack(v: nat)
    requires v < 16
    ensures IsHexDigit(HexDigit(v, 'A')) && HexValue(HexDigit(v, 'A')) == v
  {
  }

  lemma DecodeHex(h: char, l: char, rest: string)
    requires IsHexDigit(h) && IsHexDigit(l)
    ensures UrlDecoded(['%', h, l] + rest) == Before([(16 * HexValue(h) + HexValue(l)) as char], UrlDecoded(rest))
  {
    var t := ['%', h, l] + rest;
    assert t[0] == '%' && t[1] == h && t[2] == l && t[3..] == rest;
  }

  lemma DecodePlain(c: char, rest: string)
    requires c != '%' && c != '+'
    ensures UrlDecoded([c] + rest) == Before([c], UrlDecoded(rest))
  {
    assert ([c] + rest)[1..] == rest;
  }

  /** One byte and what follows it. */
  lemma EscapeBack(c: char, rest: string)
    requires c as int < 256
    ensures UrlDecoded(Escaped(c) + rest) == Before([c], UrlDecoded(rest))
  {
    if Unreserved(c) {
      DecodePlain(c, rest);
    } else {
      var high, low := c as int / 16, c as int % 16;
      assert Escaped(c) == ['%', HexDigit(high, 'A'), HexDigit(low, 'A')] && 16 * high + low == c as int;
      HexBack(high);
      HexBack(low);
      DecodeHex(HexDigit(high, 'A'), HexDigit(low, 'A'), rest);
    }
  }

  /** Decoding undoes encoding, for all bytes. */
  lemma {:induction false} DecodeEncoded(s: string)
    requires IsBytes(s)
    ensures UrlDecoded(UrlEncoded(s)) == Ok(s)
  {
    if s != "" {
      DecodeEncoded(s[1..]);
      EscapeBack(s[0], UrlEncoded(s[1..]));
      assert [s[0]] + s[1..] == s;
    }
  }

  /** The unreserved bytes of section 2.3 of RFC 3986. */
  predicate StandsForItself(c: char) {
    c in "ABCDEFGHIJKLMNOPQRSTUVWXYZ" || c in "abcdefghijklmnopqrstuvwxyz" || c in "0123456789" || c in "-_.~"
  }

  lemma UpperLetters(c: char)
    ensures c in "ABCDEFGHIJKLMNOPQRSTUVWXYZ" <==> 'A' <= c <= 'Z'
  {
    if 'A' <= c <= 'Z' { assert c == "ABCDEFGHIJKLMNOPQRSTUVWXYZ"[c as int - 0x41]; }
  }

  lemma LowerLetters(c: char)
    ensures c in "abcdefghijklmnopqrstuvwxyz" <==> 'a' <= c <= 'z'
  {
    if 'a' <= c <= 'z' { assert c == "abcdefghijklmnopqrstuvwxyz"[c as int - 0x61]; }
  }

  lemma Digits(c: char)
    ensures c in "0123456789" <==> '0' <= c <= '9'
  {
    if '0' <= c <= '9' { assert c == "0123456789"[c as int - 0x30]; }
  }

  lemma UnreservedIs(c: char)
    ensures Unreserved(c) <==> StandsForItself(c)
  {
    UpperLetters(c);
    LowerLetters(c);
    Digits(c);
  }

  lemma UpperHex(v: nat)
    requires v < 16
    ensures HexDigit(v, 'A') == "0123456789ABCDEF"[v]
  {
  }

  /** Unreserved bytes stand for themselves; section 2.1 of RFC 3986 has upper-case digits for
      the others. */
  lemma EncodedFirst(c: char, s: string)
    requires c as int < 256
    ensures UrlEncoded([c] + s) == EncodedByte(c) + UrlEncoded(s)
  {
    EscapedIs(c);
    assert ([c] + s)[1..] == s;
  }

  lemma EscapedIs(c: char)
    requires c as int < 256
    ensures Escaped(c) == EncodedByte(c)
  {
    UnreservedIs(c);
    UpperHex(c as int / 16);
    UpperHex(c as int % 16);
  }

  function EncodedByte(c: char): string
    requires c as int < 256
  {
    if StandsForItself(c) then [c]
    else ['%', "0123456789ABCDEF"[c as int / 16], "0123456789ABCDEF"[c as int % 16]]
  }

  // -------------------------------------------------- text that others have encoded

  /** How one byte is written: as it is, as `%` and two hex digits, or as `+`. */
  datatype Form = Itself | Hex(high: char, low: char) | Plus

  /** A hex digit of either case and its value. */
  predicate HexOf(h: char, v: nat) { v < 16 && (h == "0123456789abcdef"[v] || h == "0123456789ABCDEF"[v]) }

  predicate Stands(f: Form, c: char) {
    match f
    case Itself => c != '%' && c != '+'
    case Hex(high, low) => HexOf(high, c as int / 16) && HexOf(low, c as int % 16)
    case Plus => c as int == 0x20
  }

  function FormText(f: Form, c: char): string {
    match f
    case Itself => [c]
    case Hex(high, low) => ['%', high, low]
    case Plus => "+"
  }

  predicate AllStand(fs: seq<Form>, s: string) { |fs| == |s| && forall i :: 0 <= i < |s| ==> Stands(fs[i], s[i]) }

  function Written(fs: seq<Form>, s: string): string
    requires |fs| == |s|
  {
    if s == "" then "" else FormText(fs[0], s[0]) + Written(fs[1..], s[1..])
  }

  lemma HexOfValue(h: char, v: nat)
    requires HexOf(h, v)
    ensures IsHexDigit(h) && HexValue(h) == v
  {
  }

  lemma FormDecoded(f: Form, c: char, rest: string)
    requires Stands(f, c)
    ensures UrlDecoded(FormText(f, c) + rest) == Before([c], UrlDecoded(rest))
  {
    match f {
      case Itself => DecodePlain(c, rest);
      case Hex(high, low) =>
        HexOfValue(high, c as int / 16);
        HexOfValue(low, c as int % 16);
        assert 16 * (c as int / 16) + c as int % 16 == c as int;
        DecodeHex(high, low, rest);
      case Plus => assert ("+" + rest)[1..] == rest && c == ' ';
    }
  }

  /** Whichever way each byte is written, and whatever text follows, the bytes come first. */
  lemma {:induction false} WrittenFirst(fs: seq<Form>, s: string, rest: string)
    requires AllStand(fs, s)
    ensures UrlDecoded(Written(fs, s) + rest) == Before(s, UrlDecoded(rest))
  {
    if s == "" {
      assert Written(fs, s) + rest == rest;
      BeforeNone(UrlDecoded(rest));
    } else {
      var more := Written(fs[1..], s[1..]) + rest;
      Assoc(FormText(fs[0], s[0]), Written(fs[1..], s[1..]), rest);
      FormDecoded(fs[0], s[0], more);
      WrittenFirst(fs[1..], s[1..], rest);
      BeforeTwice([s[0]], s[1..], UrlDecoded(rest));
      assert [s[0]] + s[1..] == s;
    }
  }

  /** Form-encoded text, with hex digits of either case, stands for its bytes. */
  lemma WrittenBack(fs: seq<Form>, s: string)
    requires AllStand(fs, s)
    ensures UrlDecoded(Written(fs, s)) == Ok(s)
  {
    WrittenFirst(fs, s, "");
    assert Written(fs, s) + "" == Written(fs, s) && s + "" == s;
  }

  /** A `%` with less than two bytes behind it is an error, a hex digit or not. */
  lemma WrittenCut(fs: seq<Form>, s: string, tail: string)
    requires AllStand(fs, s) && 1 <= |tail| <= 2 && tail[0] == '%'
    ensures UrlDecoded(Written(fs, s) + tail) == Err
  {
    WrittenFirst(fs, s, tail);
  }

  /** No `%` has two hex digits behind it, and each has two bytes. */
  predicate StrayOnly(t: string) {
    forall i :: 0 <= i < |t| && t[i] == '%' ==>
      i + 2 < |t| && !(t[i + 1] in "0123456789abcdefABCDEF" && t[i + 2] in "0123456789abcdefABCDEF")
  }

  lemma HexDigits(c: char)
    ensures IsHexDigit(c) <==> c in "0123456789abcdefABCDEF"
  {
    if '0' <= c <= '9' { assert c == "0123456789abcdefABCDEF"[c as int - 0x30]; }
    else if 'a' <= c <= 'f' { assert c == "0123456789abcdefABCDEF"[c as int - 0x61 + 10]; }
    else if 'A' <= c <= 'F' { assert c == "0123456789abcdefABCDEF"[c as int - 0x41 + 16]; }
  }

  /** Such text stands for itself, except that `+` is a blank. */
  lemma {:induction false} StrayBack(t: string)
    requires StrayOnly(t)
    ensures var r := UrlDecoded(t);
      r.Ok? && |r.value| == |t| && forall i :: 0 <= i < |t| ==> r.value[i] == if t[i] == '+' then ' ' else t[i]
  {
    if t != "" {
      StrayRest(t);
      StrayBack(t[1..]);
      if t[0] == '%' {
        HexDigits(t[1]);
        HexDigits(t[2]);
      }
    }
  }

  lemma StrayRest(t: string)
    requires StrayOnly(t) && t != ""
    ensures StrayOnly(t[1..])
  {
    var u := t[1..];
    forall i | 0 <= i < |u| && u[i] == '%'
      ensures i + 2 < |u| && !(u[i + 1] in "0123456789abcdefABCDEF" && u[i + 2] in "0123456789abcdefABCDEF")
    {
      assert u[i] == t[i + 1];
    }
  }

  /** What encoded text is made of. */
  predicate Plain(t: string) { forall i :: 0 <= i < |t| ==> Unreserved(t[i]) || t[i] == '%' }

  lemma {:induction false} EncodedPlain(s: string)
    ensures Plain(UrlEncoded(s)) && (UrlEncoded(s) == "" <==> s == "")
  {
    if s != "" {
      EncodedPlain(s[1..]);
      HexUnreserved(s[0] as int / 16 % 16);
      HexUnreserved(s[0] as int % 16);
    }
  }

  lemma HexUnreserved(v: nat)
    requires v < 16
    ensures Unreserved(HexDigit(v, 'A'))
  {
  }

  // -------------------------------------------------------------- query strings

  datatype Param = Param(key: string, value: string)

  /** The first `=` or `&`, or the end. */
  function Mark(t: string): (n: nat)
    ensures n <= |t| && (n < |t| ==> t[n] == '=' || t[n] == '&')
    ensures forall i :: 0 <= i < n ==> t[i] != '=' && t[i] != '&'
  {
    if t == "" || t[0] == '=' || t[0] == '&' then 0 else 1 + Mark(t[1..])
  }

  predicate Unmarked(a: string) { forall i :: 0 <= i < |a| ==> a[i] != '=' && a[i] != '&' }

  lemma MarkAt(a: string, rest: string)
    requires Unmarked(a) && (rest == "" || rest[0] == '=' || rest[0] == '&')
    ensures Mark(a + rest) == |a|
  {
    var n := Mark(a + rest);
    assert forall i :: 0 <= i < |a| ==> (a + rest)[i] == a[i];
    if rest != "" { assert (a + rest)[|a|] == rest[0]; }
  }

  datatype Cut = Stop | Cut(key: string, value: string, rest: string)

  /** The first key and value in front of the next mark, still encoded; an empty key or a
      key without `=` stops the parser. */
  function CutOne(t: string): (r: Cut)
    ensures r.Cut? ==> |r.rest| < |t|
  {
    var k := Mark(t);
    if k == 0 || k == |t| || t[k] != '=' then Stop else
      var u := t[k + 1..];
      var n := Mark(u);
      Cut(t[..k], u[..n], if n < |u| then u[n + 1..] else "")
  }

  /** `parseQueryString`. */
  function ParsedQuery(t: string): Result<seq<Param>>
    decreases |t|
  {
    var cut := CutOne(t);
    if cut.Stop? then Ok([]) else
      var key, value := UrlDecoded(cut.key), UrlDecoded(cut.value);
      if key.Err? || value.Err? then Err else First(Param(key.value, value.value), ParsedQuery(cut.rest))
  }

  function First(p: Param, r: Result<seq<Param>>): Result<seq<Param>> {
    match r
    case Err => Err
    case Ok(ps) => Ok([p] + ps)
  }

  /** Scans to the next `=` or `&`. */
  method FindMark(t: string) returns (cur: nat)
    ensures cur == Mark(t)
  {
    cur := 0;
    while cur < |t| && t[cur] != '=' && t[cur] != '&'
      invariant cur <= |t| && Mark(t) == cur + Mark(t[cur..])
    {
      assert t[cur..][1..] == t[cur + 1..];
      cur := cur + 1;
    }
  }

  function After(got: seq<Param>, r: Result<seq<Param>>): Result<seq<Param>> {
    match r
    case Err => Err
    case Ok(ps) => Ok(got + ps)
  }

  lemma AfterFirst(got: seq<Param>, p: Param, r: Result<seq<Param>>)
    ensures After(got, First(p, r)) == After(got + [p], r)
  {
    match r
    case Err =>
    case Ok(ps) => assert got + ([p] + ps) == got + [p] + ps;
  }

  lemma AfterNone(r: Result<seq<Param>>)
    ensures After([], r) == r
  {
    match r
    case Err =>
    case Ok(ps) => assert [] + ps == ps;
  }

  /** One turn of the loop: the next key and value. */
  method NextParam(t: string) returns (cut: Cut)
    ensures cut == CutOne(t)
  {
    var cur := FindMark(t);
    if !(cur > 0 && cur < |t| && t[cur] == '=') { return Stop; }
    var val := t[cur + 1..];
    var end := FindMark(val);
    cut := Cut(t[..cur], val[..end], if end < |val| then val[end + 1..] else "");
  }

  lemma ParseNext(params: seq<Param>, t: string, whole: Result<seq<Param>>)
    requires whole == After(params, ParsedQuery(t))
    ensures var cut := CutOne(t);
      if cut.Stop? then whole == Ok(params) else
        var key, value := UrlDecoded(cut.key), UrlDecoded(cut.value);
        if key.Err? || value.Err? then whole == Err
        else whole == After(params + [Param(key.value, value.value)], ParsedQuery(cut.rest))
  {
    var cut := CutOne(t);
    if cut.Stop? {
      assert params + [] == params;
    } else {
      var key, value := UrlDecoded(cut.key), UrlDecoded(cut.value);
      if key.Ok? && value.Ok? { AfterFirst(params, Param(key.value, value.value), ParsedQuery(cut.rest)); }
    }
  }

  /** The cursor is the part of the query string that is left. */
  method ParseQueryString(query: string) returns (r: Result<seq<Param>>)
    ensures r == ParsedQuery(query)
  {
    var params: seq<Param> := [];
    var left := query;
    ghost var whole := ParsedQuery(query);
    AfterNone(whole);
    while left != ""
      invariant whole == After(params, ParsedQuery(left))
      decreases |left|
    {
      ParseNext(params, left, whole);
      var cut := NextParam(left);
      if cut.Stop? { return Ok(params); }
      var key := UrlDecode(cut.key);
      var value := UrlDecode(cut.value);
      if key.Err? || value.Err? { return Err; }
      params := params + [Param(key.value, value.value)];
      left := cut.rest;
    }
    ParseNext(params, "", whole);
    r := Ok(params);
  }

  const PAIR := "$0=$1"

  /** `buildQueryString`. */
  function Built(ps: seq<Param>): string {
    if ps == [] then ""
    else if |ps| == 1 then Pair(ps[0])
    else Pair(ps[0]) + "&" + Built(ps[1..])
  }

  function Pair(p: Param): string { Formatted(PAIR, [UrlEncoded(p.key), UrlEncoded(p.value)]) }

  /** The placeholders come to plain concatenation, as encoded text has no `$`. */
  lemma PairText(p: Param)
    ensures Pair(p) == UrlEncoded(p.key) + "=" + UrlEncoded(p.value)
  {
    EncodedPlain(p.key);
    var k, v := UrlEncoded(p.key), UrlEncoded(p.value);
    assert Dec(0) == "0" && Dec(1) == "1";
    assert PAIR == "$" + Dec(0) + "=" + "$" + Dec(1) + "";
    FormatTwo(PAIR, k, "=", v, "");
    assert k + "=" + v + "" == k + "=" + v;
  }

  method FormatPair(p: Param) returns (pair: string)
    ensures pair == Pair(p)
  {
    var k := UrlEncode(p.key);
    var v := UrlEncode(p.value);
    pair := FormatString(PAIR, [k, v]);
  }

  method BuildQueryString(params: seq<Param>) returns (out: string)
    ensures out == Built(params)
  {
    out := "";
    var i := 0;
    while i < |params|
      invariant 0 <= i <= |params| && out == Built(params[..i])
    {
      var pair := FormatPair(params[i]);
      BuiltNext(params, i);
      if i > 0 { out := out + "&"; }
      out := out + pair;
      i := i + 1;
    }
    assert params[..i] == params;
  }

  lemma BuiltNext(params: seq<Param>, i: nat)
    requires i < |params|
    ensures Built(params[..i + 1]) == (if i == 0 then "" else Built(params[..i]) + "&") + Pair(params[i])
    ensures i == 0 ==> Built(params[..i]) == ""
  {
    assert params[..i + 1] == params[..i] + [params[i]];
    BuiltMore(params[..i], params[i]);
  }

  lemma Joined3(a: string, b: string, c: string, d: string)
    ensures a + (b + c + d) == a + b + c + d
  {
  }

  lemma {:induction false} BuiltMore(ps: seq<Param>, p: Param)
    ensures Built(ps + [p]) == if ps == [] then "" + Pair(p) else Built(ps) + "&" + Pair(p)
  {
    if ps == [] {
      assert ps + [p] == [p] && "" + Pair(p) == Pair(p);
    } else {
      assert (ps + [p])[1..] == ps[1..] + [p];
      BuiltMore(ps[1..], p);
      if |ps| > 1 {
        Joined3(Pair(ps[0]) + "&", Built(ps[1..]), "&", Pair(p));
      } else {
        assert "" + Pair(p) == Pair(p);
      }
    }
  }

  /** The parameters before the first empty key. */
  function UpToEmptyKey(ps: seq<Param>): seq<Param> {
    if ps == [] || ps[0].key == "" then [] else [ps[0]] + UpToEmptyKey(ps[1..])
  }

  predicate AllBytes(ps: seq<Param>) { forall i :: 0 <= i < |ps| ==> IsBytes(ps[i].key) && IsBytes(ps[i].value) }

  lemma PairParts(t: string, k: string, v: string, rest: string)
    requires t == k + "=" + v + rest
    ensures t == k + ("=" + v + rest) && t[|k|] == '=' && t[..|k|] == k && t[|k| + 1..] == v + rest
    ensures (v + rest)[..|v|] == v && (rest != "" ==> (v + rest)[|v| + 1..] == rest[1..])
  {
  }

  lemma CutPair(t: string, k: string, v: string, rest: string)
    requires Unmarked(k) && Unmarked(v) && k != "" && (rest == "" || rest[0] == '&') && t == k + "=" + v + rest
    ensures CutOne(t) == Cut(k, v, if rest == "" then "" else rest[1..])
  {
    PairParts(t, k, v, rest);
    MarkAt(k, "=" + v + rest);
    MarkAt(v, rest);
    CutIs(t, |k|, v + rest, |v|);
  }

  lemma CutIs(t: string, k: nat, u: string, n: nat)
    requires 0 < k < |t| && k == Mark(t) && t[k] == '=' && u == t[k + 1..] && n == Mark(u)
    ensures CutOne(t) == Cut(t[..k], u[..n], if n < |u| then u[n + 1..] else "")
  {
  }

  lemma ParsePair(key: string, value: string, rest: string)
    requires IsBytes(key) && IsBytes(value) && key != "" && (rest == "" || rest[0] == '&')
    ensures ParsedQuery(UrlEncoded(key) + "=" + UrlEncoded(value) + rest)
      == First(Param(key, value), ParsedQuery(if rest == "" then "" else rest[1..]))
  {
    EncodedPlain(key);
    EncodedPlain(value);
    CutPair(UrlEncoded(key) + "=" + UrlEncoded(value) + rest, UrlEncoded(key), UrlEncoded(value), rest);
    DecodeEncoded(key);
    DecodeEncoded(value);
  }

  lemma ParseEmptyKey(value: string, rest: string)
    ensures ParsedQuery(UrlEncoded("") + "=" + UrlEncoded(value) + rest) == Ok([])
  {
    var t := UrlEncoded("") + "=" + UrlEncoded(value) + rest;
    assert t[0] == '=';
  }

  /** Parsing a built query string gives the parameters before the first empty key. */
  lemma {:induction false} ParseBuilt(ps: seq<Param>)
    requires AllBytes(ps)
    ensures ParsedQuery(Built(ps)) == Ok(UpToEmptyKey(ps))
  {
    if ps != [] {
      var p := ps[0];
      var rest := if |ps| == 1 then "" else "&" + Built(ps[1..]);
      PairText(p);
      var text := UrlEncoded(p.key) + "=" + UrlEncoded(p.value);
      assert Built(ps) == text + rest;
      if p.key == "" {
        ParseEmptyKey(p.value, rest);
      } else {
        ParsePair(p.key, p.value, rest);
        ParseBuilt(ps[1..]);
        if |ps| > 1 { assert rest[1..] == Built(ps[1..]); }
      }
    }
  }

  /** A list of parameters survives exactly when no key is empty. */
  lemma QueryRoundTrip(ps: seq<Param>)
    requires AllBytes(ps)
    ensures ParsedQuery(Built(ps)) == Ok(ps) <==> forall i :: 0 <= i < |ps| ==> ps[i].key != ""
  {
    ParseBuilt(ps);
    NoEmptyKey(ps);
  }

  lemma {:induction false} NoEmptyKey(ps: seq<Param>)
    ensures UpToEmptyKey(ps) == ps <==> forall i :: 0 <= i < |ps| ==> ps[i].key != ""
  {
    if ps != [] {
      NoEmptyKey(ps[1..]);
      if ps[0].key != "" {
        assert ps == [ps[0]] + ps[1..];
        assert UpToEmptyKey(ps)[1..] == UpToEmptyKey(ps[1..]);
      }
    }
  }

  // ------------------------------------------------- query strings that others wrote

  /** A parameter, and how the bytes of its key and its value are written. */
  datatype Entry = Entry(p: Param, keyForms: seq<Form>, valueForms: seq<Form>)

  /** `=` and `&` are not written as they are. */
  predicate Clear(fs: seq<Form>, s: string) {
    AllStand(fs, s) && forall i :: 0 <= i < |s| && fs[i].Itself? ==> s[i] != '=' && s[i] != '&'
  }

  predicate ClearEntry(e: Entry) { e.p.key != "" && Clear(e.keyForms, e.p.key) && Clear(e.valueForms, e.p.value) }

  predicate AllClear(es: seq<Entry>) { forall i :: 0 <= i < |es| ==> ClearEntry(es[i]) }

  lemma {:induction false} ClearUnmarked(fs: seq<Form>, s: string)
    requires Clear(fs, s)
    ensures Unmarked(Written(fs, s)) && (s != "" ==> Written(fs, s) != "")
  {
    if s != "" {
      ClearUnmarked(fs[1..], s[1..]);
      FormUnmarked(fs[0], s[0]);
    }
  }

  lemma FormUnmarked(f: Form, c: char)
    requires Stands(f, c) && (f.Itself? ==> c != '=' && c != '&')
    ensures Unmarked(FormText(f, c)) && FormText(f, c) != ""
  {
    if f.Hex? {
      HexOfValue(f.high, c as int / 16);
      HexOfValue(f.low, c as int % 16);
    }
  }

  function EntryText(e: Entry): string
    requires ClearEntry(e)
  {
    Written(e.keyForms, e.p.key) + "=" + Written(e.valueForms, e.p.value)
  }

  /** The pairs, each with the `&` in front of the next. */
  function QueryText(es: seq<Entry>, tail: string): string
    requires AllClear(es)
  {
    if es == [] then tail
    else if |es| == 1 && tail == "" then EntryText(es[0])
    else EntryText(es[0]) + ("&" + QueryText(es[1..], tail))
  }

  function Params(es: seq<Entry>): (ps: seq<Param>)
    ensures |ps| == |es| && forall i :: 0 <= i < |es| ==> ps[i] == es[i].p
  {
    seq(|es|, i requires 0 <= i < |es| => es[i].p)
  }

  /** Nothing, or text that begins with a mark or has no `=` before its first `&`. */
  predicate EndsQuery(tail: string) {
    var n := Mark(tail);
    n == 0 || n == |tail| || tail[n] == '&'
  }

  /** A query string of form-encoded pairs gives their keys and values in order, up to an empty
      key or a key without a value. */
  lemma {:induction false} FormQuery(es: seq<Entry>, tail: string)
    requires AllClear(es) && EndsQuery(tail)
    ensures ParsedQuery(QueryText(es, tail)) == Ok(Params(es))
  {
    if es != [] {
      FormQuery(es[1..], tail);
      var rest := QueryRest(es, tail);
      FirstEntry(es[0], rest);
      ParamsFirst(es);
    }
  }

  lemma ParamsFirst(es: seq<Entry>)
    requires es != []
    ensures Params(es) == [es[0].p] + Params(es[1..])
  {
  }

  lemma QueryRest(es: seq<Entry>, tail: string) returns (rest: string)
    requires AllClear(es) && es != []
    ensures AllClear(es[1..]) && QueryText(es, tail) == EntryText(es[0]) + rest && (rest == "" || rest[0] == '&')
    ensures (if rest == "" then "" else rest[1..]) == QueryText(es[1..], tail)
  {
    if |es| == 1 && tail == "" {
      rest := "";
      assert EntryText(es[0]) + "" == EntryText(es[0]);
    } else {
      rest := "&" + QueryText(es[1..], tail);
    }
  }

  lemma FirstEntry(e: Entry, rest: string)
    requires ClearEntry(e) && (rest == "" || rest[0] == '&')
    ensures ParsedQuery(EntryText(e) + rest) == First(e.p, ParsedQuery(if rest == "" then "" else rest[1..]))
  {
    var k, v := Written(e.keyForms, e.p.key), Written(e.valueForms, e.p.value);
    ClearUnmarked(e.keyForms, e.p.key);
    ClearUnmarked(e.valueForms, e.p.value);
    CutPair(EntryText(e) + rest, k, v, rest);
    WrittenBack(e.keyForms, e.p.key);
    WrittenBack(e.valueForms, e.p.value);
  }
}
