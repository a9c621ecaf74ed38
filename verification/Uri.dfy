/** URIs: `parseURI` and `toString` in `src/stx/uri.cc` (section 3 of RFC 3986). */
module Uri {
  import opened Text

  datatype URI = URI(scheme: string, userinfo: string, host: string, port: nat, path: string, query: string,
                     fragment: string)

  /** The first character of `s` that is one of `stops`, or the end. */
  function Stop(s: string, stops: string): (n: nat)
    ensures n <= |s| && (n < |s| ==> s[n] in stops)
    ensures Free(s[..n], stops)
  {
    if s == "" || s[0] in stops then 0 else
      var n := 1 + Stop(s[1..], stops);
      assert s[..n] == [s[0]] + s[1..][..n - 1];
      n
  }

  predicate Free(s: string, stops: string) { forall i :: 0 <= i < |s| ==> s[i] !in stops }

  lemma StopAt(a: string, rest: string, stops: string)
    requires Free(a, stops) && (rest == "" || rest[0] in stops)
    ensures var s := a + rest; Stop(s, stops) == |a| && s[..|a|] == a && s[|a|..] == rest
  {
    var s := a + rest;
    assert forall i :: 0 <= i < |a| ==> s[i] == a[i];
    StopIs(s, |a|, stops);
  }

  lemma {:induction false} StopIs(s: string, n: nat, stops: string)
    requires n <= |s| && (n < |s| ==> s[n] in stops) && forall i :: 0 <= i < n ==> s[i] !in stops
    ensures Stop(s, stops) == n
  {
    if n > 0 { StopIs(s[1..], n - 1, stops); }
  }

  lemma {:induction false} StopBefore(s: string, n: nat, stops: string)
    requires n < |s| && s[n] in stops
    ensures Stop(s, stops) <= n
  {
    if n > 0 && s[0] !in stops { StopBefore(s[1..], n - 1, stops); }
  }

  lemma StopLater(s: string, k: nat, stops: string)
    requires k <= Stop(s, stops)
    ensures Stop(s[k..], stops) == Stop(s, stops) - k
  {
    var n := Stop(s, stops);
    forall i | 0 <= i < n - k ensures s[k..][i] !in stops {
      assert s[k..][i] == s[..n][k + i];
    }
    StopIs(s[k..], n - k, stops);
  }

  /** A cursor loop. */
  method Find(s: string, stops: string) returns (cur: nat)
    ensures cur == Stop(s, stops)
  {
    cur := 0;
    while cur < |s| && s[cur] !in stops
      invariant cur <= |s| && Stop(s, stops) == cur + Stop(s[cur..], stops)
    {
      assert s[cur..][1..] == s[cur + 1..];
      cur := cur + 1;
    }
  }

  // ------------------------------------------------------------------- parsing

  /** The scheme, if a colon comes before any slash. */
  function CutScheme(s: string): (string, string) {
    var n := Stop(s, "/:");
    if n < |s| && s[n] == ':' then (s[..n], s[n + 1..]) else ("", s)
  }

  /** User info, host and port of a non-empty authority; `Err` for a port beyond `int`. */
  function ReadAuthority(a: string): Result<(string, string, nat)> {
    var k := Stop(a, "@");
    var b := if k < |a| then a[k + 1..] else a;
    var m := Stop(b, ":");
    match ReadPort(b[m..])
    case Err => Err
    case Ok(port) => Ok((if k < |a| then a[..k] else "", b[..m], port))
  }

  /** `c` begins at the colon. */
  function ReadPort(c: string): Result<nat> {
    var digits := if |c| > 1 then TakeDigits(c[1..]) else "";
    if digits == "" then Ok(0)
    else if DecValue(digits) < TWO31 then Ok(DecValue(digits)) else Err
  }

  predicate HasAuthority(t: string) { |t| > 2 && t[0] == '/' && t[1] == '/' }

  function CutAuthority(t: string): Result<(string, string, nat, string)> {
    if !HasAuthority(t) then Ok(("", "", 0, t)) else
      var n := Stop(t[2..], "/?#");
      var rest := t[2..][n..];
      if n == 0 then Ok(("", "", 0, rest)) else
        match ReadAuthority(t[2..][..n])
        case Err => Err
        case Ok((userinfo, host, port)) => Ok((userinfo, host, port, rest))
  }

  /** Path, query and fragment. */
  function CutTail(t: string): (string, string, string) {
    var n := Stop(t, "?#");
    var u := t[n..];
    var q := if u != "" && u[0] == '?' then Stop(u[1..], "#") else 0;
    var query := if u != "" && u[0] == '?' then u[1..][..q] else "";
    var v := if u != "" && u[0] == '?' then u[1..][q..] else u;
    (t[..n], query, if |v| > 1 && v[0] == '#' then v[1..] else "")
  }

  function Parsed(s: string): Result<URI> {
    var (scheme, t) := CutScheme(s);
    match CutAuthority(t)
    case Err => Err
    case Ok((userinfo, host, port, rest)) =>
      var (path, query, fragment) := CutTail(rest);
      Ok(URI(scheme, userinfo, host, port, path, query, fragment))
  }

  method ParseAuthority(a: string) returns (r: Result<(string, string, nat)>)
    ensures r == ReadAuthority(a)
  {
    var userinfo, b := "", a;
    var k := Find(a, "@");
    if k < |a| {
      userinfo := a[..k];
      b := a[k + 1..];
    }
    var m := Find(b, ":");
    var host := b[..m];
    var port := 0;
    if m < |b| - 1 {
      var digits := TakeDigits(b[m + 1..]);
      assert b[m..][1..] == b[m + 1..];
      if digits != "" {
        if DecValue(digits) >= TWO31 { return Err; }
        port := DecValue(digits);
      }
    }
    r := Ok((userinfo, host, port));
  }

  method ParseTail(t: string) returns (path: string, query: string, fragment: string)
    ensures (path, query, fragment) == CutTail(t)
  {
    query, fragment := "", "";
    var n := Find(t, "?#");
    path := t[..n];
    var left := t[n..];
    if left != "" && left[0] == '?' {
      left := left[1..];
      var q := Find(left, "#");
      query := left[..q];
      left := left[q..];
    }
    if |left| > 1 && left[0] == '#' { fragment := left[1..]; }
  }

  /** The scheme and what follows it. */
  method ParseScheme(s: string) returns (scheme: string, left: string)
    ensures (scheme, left) == CutScheme(s)
  {
    scheme, left := "", s;
    var n := Find(s, "/:");
    if n < |s| && s[n] == ':' {
      scheme := s[..n];
      left := s[n + 1..];
    }
  }

  /** The authority, if there is one, and what follows it. */
  method ParseAfterScheme(t: string) returns (r: Result<(string, string, nat, string)>)
    ensures r == CutAuthority(t)
  {
    if !HasAuthority(t) { return Ok(("", "", 0, t)); }
    var left := t[2..];
    var cur := Find(left, "/?#");
    if cur == 0 { return Ok(("", "", 0, left[cur..])); }
    var a := ParseAuthority(left[..cur]);
    if a.Err? { return Err; }
    r := Ok((a.value.0, a.value.1, a.value.2, left[cur..]));
  }

  method ParseURI(s: string) returns (r: Result<URI>)
    ensures r == Parsed(s)
  {
    var scheme, left := ParseScheme(s);
    var authority := ParseAfterScheme(left);
    if authority.Err? { return Err; }
    var (userinfo, host, port, rest) := authority.value;
    var path, query, fragment := ParseTail(rest);
    r := Ok(URI(scheme, userinfo, host, port, path, query, fragment));
  }

  // ------------------------------------------------------------------ printing

  function Authority(u: URI): string {
    (if u.userinfo != "" then u.userinfo + "@" else "") + (u.host + if u.port > 0 then ":" + Dec(u.port) else "")
  }

  function Tail(u: URI): string {
    u.path + ((if u.query != "" then "?" + u.query else "") + if u.fragment != "" then "#" + u.fragment else "")
  }

  function AfterScheme(u: URI): string { (if u.host != "" then "//" + Authority(u) else "") + Tail(u) }

  function Printed(u: URI): string { u.scheme + (":" + AfterScheme(u)) }

  /** Section 3 of RFC 3986, for a URI in which nothing is missing. */
  lemma FullText(u: URI)
    requires u.userinfo != "" && u.host != "" && u.port > 0 && u.query != "" && u.fragment != ""
    ensures Printed(u) == u.scheme + ("://" + (u.userinfo + "@" + (u.host + (":" + (Dec(u.port) + (u.path
      + ("?" + (u.query + ("#" + u.fragment)))))))))
  {
    var tail := "?" + (u.query + ("#" + u.fragment));
    Assoc("?", u.query, "#" + u.fragment);
    assert Tail(u) == u.path + tail;
    TextRegrouped(u.userinfo + "@", u.host, Dec(u.port), u.path + tail);
  }

  lemma TextRegrouped(a: string, b: string, c: string, d: string)
    ensures ":" + ("//" + (a + (b + (":" + c))) + d) == "://" + (a + (b + (":" + (c + d))))
  {
  }

  method ToString(u: URI) returns (s: string)
    ensures s == Printed(u)
  {
    s := u.scheme;
    s := s + ":";
    if u.host != "" {
      s := s + "//";
      s := AppendAuthority(s, u);
      Assoc(u.scheme + ":", "//", Authority(u));
    }
    ghost var front := s;
    s := AppendTail(s, u);
    Assoc(u.scheme, ":", AfterScheme(u));
    AfterSchemeText(u.scheme + ":", u, front);
  }

  method AppendAuthority(uri: string, u: URI) returns (s: string)
    ensures s == uri + Authority(u)
  {
    s := "";
    if u.userinfo != "" {
      s := s + u.userinfo;
      s := s + "@";
    }
    s := s + u.host;
    if u.port > 0 {
      s := s + ":";
      s := s + Dec(u.port);
    }
    assert s == Authority(u);
    s := uri + s;
  }

  method AppendTail(uri: string, u: URI) returns (s: string)
    ensures s == uri + Tail(u)
  {
    s := u.path;
    if u.query != "" {
      s := s + "?";
      s := s + u.query;
    }
    if u.fragment != "" {
      s := s + "#";
      s := s + u.fragment;
    }
    assert s == Tail(u);
    s := uri + s;
  }

  lemma AfterSchemeText(a: string, u: URI, front: string)
    requires front == a + if u.host != "" then "//" + Authority(u) else ""
    ensures front + Tail(u) == a + AfterScheme(u)
  {
  }

  // ---------------------------------------------------------------- round trip

  /** Each component keeps clear of the characters that end it.  With a host, the path
      is empty or begins with a slash; without one, nothing else of an authority is there
      and the rest does not look like one. */
  predicate WellFormed(u: URI) {
    Free(u.scheme, "/:") && Free(u.path, "?#") && Free(u.query, "#") &&
    if u.host != "" then
      Free(u.userinfo, "@/?#") && Free(u.host, ":/?#") && (u.userinfo == "" ==> Free(u.host, "@"))
      && u.port < TWO31 && (u.path == "" || u.path[0] == '/')
    else u.userinfo == "" && u.port == 0 && !HasAuthority(Tail(u))
  }

  lemma SchemeBack(u: URI)
    requires Free(u.scheme, "/:")
    ensures CutScheme(Printed(u)) == (u.scheme, AfterScheme(u))
  {
    var s := Printed(u);
    StopAt(u.scheme, ":" + AfterScheme(u), "/:");
    assert s[|u.scheme| + 1..] == AfterScheme(u);
  }

  lemma TailBack(u: URI)
    requires Free(u.path, "?#") && Free(u.query, "#")
    ensures CutTail(Tail(u)) == (u.path, u.query, u.fragment)
  {
    var f := if u.fragment != "" then "#" + u.fragment else "";
    var q := if u.query != "" then "?" + u.query else "";
    var v := q + f;
    StopAt(u.path, v, "?#");
    StopAt(u.query, f, "#");
    if u.query != "" {
      assert v[1..] == u.query + f;
    } else {
      assert v == f;
    }
  }

  lemma PortBack(port: nat)
    requires port < TWO31
    ensures ReadPort(if port > 0 then ":" + Dec(port) else "") == Ok(port)
  {
    if port > 0 {
      var c := ":" + Dec(port);
      assert c[1..] == Dec(port) && Dec(port) + "" == Dec(port);
      TakeAllDigits(Dec(port), "");
    }
  }

  /** Reading an authority, in its two steps. */
  function HostAndPort(b: string): Result<(string, nat)> {
    var m := Stop(b, ":");
    match ReadPort(b[m..])
    case Err => Err
    case Ok(port) => Ok((b[..m], port))
  }

  lemma ReadParts(a: string)
    ensures var k := Stop(a, "@");
      var b := if k < |a| then a[k + 1..] else a;
      ReadAuthority(a) == match HostAndPort(b)
        case Err => Err
        case Ok((host, port)) => Ok((if k < |a| then a[..k] else "", host, port))
  {
  }

  lemma HostPortBack(host: string, port: nat, c: string)
    requires Free(host, ":") && port < TWO31 && c == if port > 0 then ":" + Dec(port) else ""
    ensures HostAndPort(host + c) == Ok((host, port))
  {
    PortBack(port);
    StopAt(host, c, ":");
  }

  lemma UserBack(userinfo: string, b: string)
    requires Free(userinfo, "@")
    ensures var a := userinfo + "@" + b;
      Stop(a, "@") == |userinfo| < |a| && a[..|userinfo|] == userinfo && a[|userinfo| + 1..] == b
  {
    StopAt(userinfo, "@" + b, "@");
    assert userinfo + "@" + b == userinfo + ("@" + b);
  }

  lemma FreeOfBoth(s: string, a: string, b: string)
    requires Free(s, a + b)
    ensures Free(s, a) && Free(s, b)
  {
  }

  lemma AuthorityBack(u: URI)
    requires WellFormed(u) && u.host != ""
    ensures ReadAuthority(Authority(u)) == Ok((u.userinfo, u.host, u.port))
  {
    var c := if u.port > 0 then ":" + Dec(u.port) else "";
    FreeOfBoth(u.host, ":", "/?#");
    HostPortBack(u.host, u.port, c);
    if u.userinfo != "" {
      FreeOfBoth(u.userinfo, "@", "/?#");
      WithUser(u.userinfo, u.host + c, u.host, u.port);
    } else {
      NoAt(u.host, c, u.port);
      WithoutUser(u.host + c, u.host, u.port);
      assert Authority(u) == u.host + c;
    }
  }

  lemma WithUser(userinfo: string, b: string, host: string, port: nat)
    requires Free(userinfo, "@") && HostAndPort(b) == Ok((host, port))
    ensures ReadAuthority(userinfo + "@" + b) == Ok((userinfo, host, port))
  {
    UserBack(userinfo, b);
    ReadParts(userinfo + "@" + b);
  }

  lemma WithoutUser(b: string, host: string, port: nat)
    requires Free(b, "@") && HostAndPort(b) == Ok((host, port))
    ensures ReadAuthority(b) == Ok(("", host, port))
  {
    assert b + "" == b;
    StopAt(b, "", "@");
    ReadParts(b);
  }

  lemma NoAt(host: string, c: string, port: nat)
    requires Free(host, "@") && c == if port > 0 then ":" + Dec(port) else ""
    ensures Free(host + c, "@")
  {
    forall i | 0 <= i < |host + c| ensures (host + c)[i] !in "@" {
      if i > |host| { assert IsDigit(Dec(port)[i - |host| - 1]); }
    }
  }

  lemma AuthorityFree(u: URI)
    requires Free(u.userinfo, "/?#") && Free(u.host, "/?#")
    ensures Free(Authority(u), "/?#")
  {
    var a := Authority(u);
    var front := if u.userinfo != "" then u.userinfo + "@" else "";
    var digits := if u.port > 0 then Dec(u.port) else "";
    var c := if u.port > 0 then ":" + digits else "";
    assert a == front + (u.host + c);
    forall i | 0 <= i < |a| ensures a[i] !in "/?#" {
      if i < |front| {
      } else if i < |front| + |u.host| {
        assert a[i] == u.host[i - |front|];
      } else if i > |front| + |u.host| {
        assert IsDigit(digits[i - |front| - |u.host| - 1]);
      }
    }
  }

  /** With a host: the authority ends where the rest begins. */
  lemma HostText(u: URI)
    requires u.host != "" && Free(u.userinfo, "/?#") && Free(u.host, "/?#") && (u.path == "" || u.path[0] == '/')
    ensures HasAuthority(AfterScheme(u))
    ensures var t := AfterScheme(u)[2..];
      var n := Stop(t, "/?#"); n > 0 && t[..n] == Authority(u) && t[n..] == Tail(u)
  {
    AuthorityFree(u);
    assert AfterScheme(u)[2..] == Authority(u) + Tail(u);
    StopAt(Authority(u), Tail(u), "/?#");
  }

  lemma WellFormedBack(u: URI)
    requires WellFormed(u)
    ensures Parsed(Printed(u)) == Ok(u)
  {
    SchemeBack(u);
    TailBack(u);
    if u.host != "" {
      HostText(u);
      AuthorityBack(u);
    } else {
      assert AfterScheme(u) == Tail(u);
    }
  }

  // ------------------------------------------------------------- only such URIs

  lemma FreePart(s: string, i: nat, j: nat, stops: string)
    requires i <= j <= |s| && Free(s, stops)
    ensures Free(s[i..j], stops)
  {
  }

  lemma TailClean(t: string)
    ensures var (path, query, _) := CutTail(t);
      Free(path, "?#") && Free(query, "#") && (t == "" || t[0] in "/?#" ==> path == "" || path[0] == '/')
  {
    var n := Stop(t, "?#");
    if n > 0 { assert t[..n][0] == t[0]; }
  }

  lemma AuthorityClean(a: string)
    requires Free(a, "/?#") && ReadAuthority(a).Ok?
    ensures var (userinfo, host, port) := ReadAuthority(a).value;
      Free(userinfo, "@") && Free(userinfo, "/?#") && Free(host, ":") && Free(host, "/?#") && port < TWO31
  {
    var k := Stop(a, "@");
    var b := if k < |a| then a[k + 1..] else a;
    ReadParts(a);
    FreePart(b, 0, Stop(b, ":"), "/?#");
  }

  predicate CleanHost(u: URI) {
    Free(u.userinfo, "@/?#") && Free(u.host, ":/?#") && u.port < TWO31 && (u.path == "" || u.path[0] == '/')
  }

  /** What any parse comes to. */
  lemma ParsedClean(s: string, u: URI)
    requires Parsed(s) == Ok(u)
    ensures Free(u.scheme, "/:") && Free(u.path, "?#") && Free(u.query, "#")
    ensures u.host != "" ==> CleanHost(u)
  {
    var t := CutScheme(s).1;
    var rest := CutAuthority(t).value.3;
    TailClean(rest);
    if u.host != "" {
      var n := Stop(t[2..], "/?#");
      AuthorityClean(t[2..][..n]);
      BothFree(u.userinfo, "@", "/?#");
      BothFree(u.host, ":", "/?#");
    }
  }

  lemma BothFree(s: string, a: string, b: string)
    requires Free(s, a) && Free(s, b)
    ensures Free(s, a + b)
  {
  }

  /** A host that holds an at sign needs user info before it. */
  lemma HostWithAt(host: string, c: string, port: nat)
    requires !Free(host, "@") && (c == "" || c[0] == ':')
    ensures ReadAuthority(host + c) != Ok(("", host, port))
  {
    var j :| 0 <= j < |host| && host[j] in "@";
    StopBefore(host + c, j, "@");
    ShorterHost(host, c, Stop(host + c, "@"));
    ReadParts(host + c);
    HostLength((host + c)[Stop(host + c, "@") + 1..]);
  }

  lemma HostLength(b: string)
    ensures HostAndPort(b).Ok? ==> |HostAndPort(b).value.0| == Stop(b, ":")
  {
  }

  /** What is left of the host behind the at sign is shorter. */
  lemma ShorterHost(host: string, c: string, k: nat)
    requires k < |host| && (c == "" || c[0] == ':')
    ensures Stop((host + c)[k + 1..], ":") < |host|
  {
    var b := (host + c)[k + 1..];
    if c != "" { StopBefore(b, |host| - k - 1, ":"); }
  }

  lemma SlashSlash(u: URI)
    requires Free(u.path, "?#") && u.host == "" && HasAuthority(Tail(u))
    ensures |u.path| >= 2
    ensures var t := Tail(u)[2..];
      var rest := t[Stop(t, "/?#")..]; CutTail(rest).0 != u.path
  {
    var t := Tail(u);
    var v := (if u.query != "" then "?" + u.query else "") + if u.fragment != "" then "#" + u.fragment else "";
    StopAt(u.path, v, "?#");
    assert v != "" ==> t[|u.path|] == v[0];
    StopLater(t, 2, "?#");
    var n := Stop(t[2..], "/?#");
    Sooner(t[2..]);
    StopLater(t[2..], n, "?#");
  }

  lemma Sooner(t: string)
    ensures Stop(t, "/?#") <= Stop(t, "?#")
  {
    var n := Stop(t, "?#");
    if n < |t| { StopBefore(t, n, "/?#"); }
  }

  /** The parts of a parsed URI. */
  lemma ParsedParts(s: string, u: URI)
    requires Parsed(s) == Ok(u)
    ensures var r := CutAuthority(CutScheme(s).1);
      r.Ok? && r.value.0 == u.userinfo && r.value.1 == u.host && r.value.2 == u.port
      && u.path == CutTail(r.value.3).0
  {
  }

  lemma RestOf(t: string)
    requires HasAuthority(t) && CutAuthority(t).Ok?
    ensures CutAuthority(t).value.3 == t[2..][Stop(t[2..], "/?#")..]
  {
  }

  lemma OnlyWithHost(u: URI)
    requires u.host != "" && CleanHost(u) && Parsed(Printed(u)) == Ok(u)
    requires CutScheme(Printed(u)) == (u.scheme, AfterScheme(u))
    ensures u.userinfo == "" ==> Free(u.host, "@")
  {
    FreeOfBoth(u.userinfo, "@", "/?#");
    FreeOfBoth(u.host, ":", "/?#");
    HostText(u);
    ParsedParts(Printed(u), u);
    if u.userinfo == "" && !Free(u.host, "@") {
      HostWithAt(u.host, if u.port > 0 then ":" + Dec(u.port) else "", u.port);
      assert Authority(u) == u.host + if u.port > 0 then ":" + Dec(u.port) else "";
    }
  }

  lemma OnlyWithoutHost(u: URI)
    requires u.host == "" && Free(u.path, "?#") && Parsed(Printed(u)) == Ok(u)
    requires CutScheme(Printed(u)) == (u.scheme, AfterScheme(u))
    ensures u.userinfo == "" && u.port == 0 && !HasAuthority(Tail(u))
  {
    assert AfterScheme(u) == Tail(u);
    ParsedParts(Printed(u), u);
    if HasAuthority(Tail(u)) {
      RestOf(Tail(u));
      SlashSlash(u);
    }
  }

  lemma OnlyWellFormed(u: URI)
    requires Parsed(Printed(u)) == Ok(u)
    ensures WellFormed(u)
  {
    ParsedClean(Printed(u), u);
    SchemeBack(u);
    if u.host != "" { OnlyWithHost(u); } else { OnlyWithoutHost(u); }
  }

  /** Printing and parsing a URI gives it back exactly when it is well-formed. */
  lemma RoundTrip(u: URI)
    ensures Parsed(Printed(u)) == Ok(u) <==> WellFormed(u)
  {
    if WellFormed(u) { WellFormedBack(u); }
    if Parsed(Printed(u)) == Ok(u) { OnlyWellFormed(u); }
  }
}
