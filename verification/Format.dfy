/** `StringUtil::replaceAll` and the placeholder substitution of
    `StringUtil::format`, which rewrites its scratch string once per argument. */
module Format {
  import opened Text

  /** Every occurrence of `pat`, left to right, becomes `rep`. */
  function Replaced(s: string, pat: string, rep: string): string
    requires pat != ""
    decreases |s|
  {
    if s == "" then ""
    else if pat <= s then rep + Replaced(s[|pat|..], pat, rep)
    else [s[0]] + Replaced(s[1..], pat, rep)
  }

  /** `replaceAll`: in place, `find` from the cursor, then jump over the replacement. */
  method ReplaceAll(input: string, pat: string, rep: string) returns (str: string)
    requires pat != ""
    ensures str == Replaced(input, pat, rep)
  {
    str := input;
    if |str| == 0 { return; }
    var cur: nat := 0;
    ghost var whole := Replaced(input, pat, rep);
    assert str[0..] == str && str[..0] + whole == whole;
    while cur < |str|
      invariant cur <= |str| && whole == str[..cur] + Replaced(str[cur..], pat, rep)
      decreases |str| - cur
    {
      ghost var done, rest := str[..cur], str[cur..];
      if pat <= str[cur..] {
        MatchNext(done, rest, pat, rep);
        str := str[..cur] + rep + str[cur + |pat|..];
        cur := cur + |rep|;
        assert str[cur..] == rest[|pat|..] && str[..cur] == done + rep;
      } else {
        SkipNext(done, rest, pat, rep);
        cur := cur + 1;
        assert str[cur..] == rest[1..] && str[..cur] == done + [rest[0]];
      }
    }
    assert str[..cur] == str && str[cur..] == "";
  }

  lemma MatchNext(done: string, rest: string, pat: string, rep: string)
    requires pat != "" && pat <= rest
    ensures done + Replaced(rest, pat, rep) == (done + rep) + Replaced(rest[|pat|..], pat, rep)
  {
    Assoc(done, rep, Replaced(rest[|pat|..], pat, rep));
  }

  lemma SkipNext(done: string, rest: string, pat: string, rep: string)
    requires pat != "" && rest != "" && !(pat <= rest)
    ensures done + Replaced(rest, pat, rep) == (done + [rest[0]]) + Replaced(rest[1..], pat, rep)
  {
    Assoc(done, [rest[0]], Replaced(rest[1..], pat, rep));
  }

  /** `formatImpl`: argument `n`, then the rest, on the rewritten string. */
  function Formatted(fmt: string, args: seq<string>, n: nat := 0): string
    decreases |args|
  {
    if args == [] then fmt
    else Formatted(Replaced(fmt, "$" + Dec(n), args[0]), args[1..], n + 1)
  }

  // ------------------------------------------------- placeholders `$0`, `$1`, ...

  /** `s` does not hold the placeholder `$d`. */
  predicate NoSlot(s: string, d: char) {
    forall i {:trigger s[i]} :: 0 <= i < |s| - 1 && s[i] == '$' ==> s[i + 1] != d
  }

  lemma {:induction false} NoSlotKept(s: string, d: char, rep: string)
    requires NoSlot(s, d)
    ensures Replaced(s, ['$', d], rep) == s
  {
    if s != "" {
      assert NoSlot(s[1..], d);
      NoSlotKept(s[1..], d, rep);
      assert s == [s[0]] + s[1..];
    }
  }

  /** Filling the only slot `$d` of a text. */
  lemma {:induction false} FillSlot(a: string, d: char, b: string, rep: string)
    requires d != '$' && NoSlot(a, d) && NoSlot(b, d)
    ensures Replaced(a + ['$', d] + b, ['$', d], rep) == a + rep + b
  {
    var pat := ['$', d];
    var s := a + pat + b;
    if a == "" {
      assert s[2..] == b && a + rep + b == rep + b;
      NoSlotKept(b, d, rep);
    } else {
      assert s[1..] == a[1..] + pat + b && NoSlot(a[1..], d);
      FillSlot(a[1..], d, b, rep);
      assert s[0] == a[0] && s[1] == (if |a| > 1 then a[1] else '$');
      assert a + rep + b == [a[0]] + (a[1..] + rep + b);
    }
  }

  lemma FormatStep(fmt: string, args: seq<string>, n: nat, a: string, b: string)
    requires n < 10 && args != [] && fmt == a + "$" + Dec(n) + b
    requires NoSlot(a, Dec(n)[0]) && NoSlot(b, Dec(n)[0])
    ensures Formatted(fmt, args, n) == Formatted(a + args[0] + b, args[1..], n + 1)
  {
    assert "$" + Dec(n) == ['$', Dec(n)[0]];
    assert IsDigit(Dec(n)[0]);
    FillSlot(a, Dec(n)[0], b, args[0]);
    assert fmt == a + ['$', Dec(n)[0]] + b;
  }

  lemma FormatOne(fmt: string, a: string, v: string, b: string)
    requires fmt == a + "$" + Dec(0) + b && '$' !in a && '$' !in b
    ensures Formatted(fmt, [v]) == a + v + b
  {
    FormatStep(fmt, [v], 0, a, b);
  }

  /** `"$0<s1>$1<s2>"` is plain concatenation when the first argument does not
      itself hold the second placeholder. */
  lemma FormatTwo(fmt: string, k: string, s1: string, v: string, s2: string)
    requires fmt == "$" + Dec(0) + s1 + "$" + Dec(1) + s2
    requires '$' !in s1 && '$' !in s2 && NoSlot(k, '1') && s1 != "" && s1[0] != '1'
    ensures Formatted(fmt, [k, v]) == k + s1 + v + s2
  {
    var args := [k, v];
    var b := s1 + "$" + Dec(1) + s2;
    assert fmt == "" + "$" + Dec(0) + b;
    FormatStep(fmt, args, 0, "", b);
    var f1 := "" + k + b;
    assert f1 == (k + s1) + "$" + Dec(1) + s2;
    FormatStep(f1, args[1..], 1, k + s1, s2);
    assert args[1..][1..] == [];
  }

  /** The same for three arguments: neither of the first two may hold a later
      placeholder. */
  lemma FormatThree(fmt: string, m: string, s1: string, u: string, s2: string, v: string, s3: string)
    requires fmt == "$" + Dec(0) + s1 + "$" + Dec(1) + s2 + "$" + Dec(2) + s3
    requires '$' !in m && '$' !in s1 && '$' !in s2 && '$' !in s3
    requires NoSlot(u, '2') && s1 != "" && s2 != "" && s2[0] != '2'
    ensures Formatted(fmt, [m, u, v]) == m + s1 + u + s2 + v + s3
  {
    var b := s1 + "$" + Dec(1) + s2 + "$" + Dec(2) + s3;
    var c := s2 + "$" + Dec(2) + s3;
    var args := [m, u, v];
    assert args[1..] == [u, v] && args[1..][1..] == [v];
    FillThird(m + s1 + u + s2, v, s3);
    FillSecond(m + s1, u, c, [v]);
    FillFirst(m, b, [u, v]);
    ThreeTexts(m, s1, u, s2, v, s3, b, c, fmt);
  }

  /** The three slots one after the other. */
  lemma FillFirst(m: string, b: string, rest: seq<string>)
    requires '$' !in m && NoSlot(b, '0')
    ensures Formatted("$" + Dec(0) + b, [m] + rest, 0) == Formatted(m + b, rest, 1)
  {
    FormatStep("$" + Dec(0) + b, [m] + rest, 0, "", b);
    assert ([m] + rest)[1..] == rest && "" + m + b == m + b && "" + "$" + Dec(0) + b == "$" + Dec(0) + b;
  }

  lemma FillSecond(a: string, u: string, c: string, rest: seq<string>)
    requires NoSlot(a, '1') && NoSlot(c, '1')
    ensures Formatted(a + "$" + Dec(1) + c, [u] + rest, 1) == Formatted(a + u + c, rest, 2)
  {
    FormatStep(a + "$" + Dec(1) + c, [u] + rest, 1, a, c);
    assert ([u] + rest)[1..] == rest;
  }

  lemma FillThird(a: string, v: string, s3: string)
    requires NoSlot(a, '2') && NoSlot(s3, '2')
    ensures Formatted(a + "$" + Dec(2) + s3, [v], 2) == a + v + s3
  {
    FormatStep(a + "$" + Dec(2) + s3, [v], 2, a, s3);
  }

  lemma ThreeTexts(m: string, s1: string, u: string, s2: string, v: string, s3: string, b: string, c: string,
                   fmt: string)
    requires fmt == "$" + Dec(0) + s1 + "$" + Dec(1) + s2 + "$" + Dec(2) + s3
    requires b == s1 + "$" + Dec(1) + s2 + "$" + Dec(2) + s3 && c == s2 + "$" + Dec(2) + s3
    ensures fmt == "$" + Dec(0) + b && m + b == m + s1 + "$" + Dec(1) + c
    ensures m + s1 + u + c == m + s1 + u + s2 + "$" + Dec(2) + s3
    ensures [m, u, v] == [m] + ([u] + [v])
  {
  }

  /** `format`: one `replaceAll` per argument, on the same scratch string. */
  method FormatString(fmt: string, args: seq<string>) returns (str: string)
    ensures str == Formatted(fmt, args)
  {
    str := fmt;
    var n := 0;
    assert args[0..] == args;
    while n < |args|
      invariant 0 <= n <= |args|
      invariant Formatted(str, args[n..], n) == Formatted(fmt, args)
    {
      var digits := Dec(n);
      assert args[n..][1..] == args[n + 1..];
      str := ReplaceAll(str, "$" + digits, args[n]);
      n := n + 1;
    }
  }
}
