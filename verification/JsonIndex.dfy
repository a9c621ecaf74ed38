/** `parseJSON` of `src/stx/json/json.cc`: the token vector and its skip sizes,
    filled in from a stack of open brackets. */
module JsonIndex {
  import opened Text
  import opened JsonTypes
  import opened JsonPrinter
  import opened JsonLexer
  import opened JsonRoundTrip

  // --------------------------------------------------------------- bracket depth

  predicate Opener(k: Kind) { k == ObjectBegin || k == ArrayBegin }
  predicate Closer(k: Kind) { k == ObjectEnd || k == ArrayEnd }

  function Delta(k: Kind): int { if Opener(k) then 1 else if Closer(k) then -1 else 0 }

  /** Brackets open after `n` tokens; the kinds of bracket are not compared. */
  function Depth(ts: seq<Tok>, n: nat): int
    requires n <= |ts|
  {
    if n == 0 then 0 else Depth(ts, n - 1) + Delta(ts[n - 1].kind)
  }

  predicate AtLeast(ts: seq<Tok>, n: nat, d: int)
    requires n <= |ts|
  {
    Depth(ts, n) >= d
  }

  /** The depth is at least `d` from `i` tokens to `j` tokens. */
  ghost predicate Stays(ts: seq<Tok>, i: nat, j: nat, d: int)
    requires j <= |ts|
  {
    forall m: nat {:trigger AtLeast(ts, m, d)} :: i <= m <= j ==> AtLeast(ts, m, d)
  }

  ghost predicate Balanced(ts: seq<Tok>) {
    Depth(ts, |ts|) == 0 && Stays(ts, 0, |ts|, 0)
  }

  /** The bracket at `i` is closed at `j`, and not before. */
  ghost predicate Matches(ts: seq<Tok>, i: nat, j: nat) {
    && i < j < |ts|
    && Depth(ts, j + 1) == Depth(ts, i)
    && Stays(ts, i + 1, j, Depth(ts, i) + 1)
  }

  /** The size of `part[i]`, which stands at `p + i`, spans to the matching closer. */
  ghost predicate SizeOk(ts: seq<Tok>, part: seq<JSONToken>, p: nat, i: nat)
    requires i < |part|
  {
    var size := part[i].size;
    if Opener(part[i].kind) then size >= 2 && Matches(ts, p + i, p + i + size - 1) else size == 1
  }

  ghost predicate SizesOk(ts: seq<Tok>, part: seq<JSONToken>, p: nat) {
    forall i: nat {:trigger SizeOk(ts, part, p, i)} :: i < |part| ==> SizeOk(ts, part, p, i)
  }

  /** The vector of a token stream: every size is right. */
  ghost predicate Indexed(ts: seq<Tok>, obj: seq<JSONToken>) {
    Bare(obj) == ts && SizesOk(ts, obj, 0)
  }

  lemma MatchUnique(ts: seq<Tok>, i: nat, j: nat, k: nat)
    requires Matches(ts, i, j) && Matches(ts, i, k)
    ensures j == k
  {
    assert j + 1 <= |ts| && k + 1 <= |ts|;
    assert !AtLeast(ts, j + 1, Depth(ts, i) + 1) && !AtLeast(ts, k + 1, Depth(ts, i) + 1);
  }

  /** There is only one right index. */
  lemma IndexUnique(ts: seq<Tok>, a: seq<JSONToken>, b: seq<JSONToken>)
    requires Indexed(ts, a) && Indexed(ts, b)
    ensures a == b
  {
    forall i: nat | i < |ts| ensures a[i] == b[i] {
      assert Bare(a)[i] == Bare(b)[i];
      assert SizeOk(ts, a, 0, i) && SizeOk(ts, b, 0, i);
      if Opener(ts[i].kind) { MatchUnique(ts, i, i + a[i].size - 1, i + b[i].size - 1); }
    }
  }

  lemma {:induction false} DepthPrefix(ts: seq<Tok>, more: seq<Tok>, n: nat)
    requires n <= |ts|
    ensures Depth(ts + more, n) == Depth(ts, n)
  {
    if n > 0 { DepthPrefix(ts, more, n - 1); }
  }

  lemma StaysPrefix(ts: seq<Tok>, more: seq<Tok>, i: nat, j: nat, d: int)
    requires j <= |ts| && Stays(ts, i, j, d)
    ensures Stays(ts + more, i, j, d)
  {
    forall m: nat | i <= m <= j ensures AtLeast(ts + more, m, d) {
      assert AtLeast(ts, m, d);
      DepthPrefix(ts, more, m);
    }
  }

  lemma MatchesPrefix(ts: seq<Tok>, more: seq<Tok>, i: nat, j: nat)
    requires Matches(ts, i, j)
    ensures Matches(ts + more, i, j)
  {
    DepthPrefix(ts, more, j + 1);
    DepthPrefix(ts, more, i);
    StaysPrefix(ts, more, i + 1, j, Depth(ts, i) + 1);
  }

  // ----------------------------------------------------------------- the stack loop

  /** The open brackets, outermost first, and what is known about each. */
  ghost predicate OpenStack(ts: seq<Tok>, stack: seq<nat>) {
    && |stack| == Depth(ts, |ts|)
    && Stays(ts, 0, |ts|, 0)
    && forall k :: 0 <= k < |stack| ==> OpenAt(ts, stack[k], k)
  }

  ghost predicate OpenAt(ts: seq<Tok>, i: nat, k: nat) {
    && i < |ts| && Opener(ts[i].kind) && Depth(ts, i) == k
    && Stays(ts, i + 1, |ts|, k + 1)
  }

  /** Finished brackets have their size; open ones still have size 1. */
  ghost predicate PartIndexed(ts: seq<Tok>, stack: seq<nat>, obj: seq<JSONToken>) {
    && Bare(obj) == ts
    && (|ts| < TWO32 ==> forall i: nat {:trigger SizeOk(ts, obj, 0, i)} ::
          i < |obj| && i !in stack ==> SizeOk(ts, obj, 0, i))
  }

  lemma DepthStep(ts: seq<Tok>, t: Tok)
    ensures Depth(ts + [t], |ts| + 1) == Depth(ts, |ts|) + Delta(t.kind)
  {
    DepthPrefix(ts, [t], |ts|);
  }

  /** One more token, when the new depth is still high enough. */
  lemma StaysStep(ts: seq<Tok>, t: Tok, i: nat, d: int)
    requires Stays(ts, i, |ts|, d) && Depth(ts, |ts|) + Delta(t.kind) >= d
    ensures Stays(ts + [t], i, |ts| + 1, d)
  {
    DepthStep(ts, t);
    StaysPrefix(ts, [t], i, |ts|, d);
    assert AtLeast(ts + [t], |ts| + 1, d);
    forall m: nat | i <= m <= |ts| + 1 ensures AtLeast(ts + [t], m, d) {}
  }

  lemma OpenAtStep(ts: seq<Tok>, t: Tok, i: nat, k: nat)
    requires OpenAt(ts, i, k) && Depth(ts, |ts|) + Delta(t.kind) >= k + 1
    ensures OpenAt(ts + [t], i, k)
  {
    DepthPrefix(ts, [t], i);
    StaysStep(ts, t, i + 1, k + 1);
  }

  /** A size stays right when a token follows, and in a vector with the same entry. */
  lemma SizeKept(ts: seq<Tok>, t: Tok, obj: seq<JSONToken>, obj': seq<JSONToken>, i: nat)
    requires i < |obj| && SizeOk(ts, obj, 0, i) && i < |obj'| && obj'[i] == obj[i]
    ensures SizeOk(ts + [t], obj', 0, i)
  {
    if Opener(obj[i].kind) { MatchesPrefix(ts, [t], i, i + obj[i].size - 1); }
  }

  lemma OpenStep(ts: seq<Tok>, t: Tok, stack: seq<nat>)
    requires OpenStack(ts, stack) && Opener(t.kind)
    ensures OpenStack(ts + [t], stack + [|ts|])
  {
    DepthStep(ts, t);
    StaysStep(ts, t, 0, 0);
    var stack' := stack + [|ts|];
    forall k | 0 <= k < |stack'| ensures OpenAt(ts + [t], stack'[k], k) {
      if k < |stack| {
        assert OpenAt(ts, stack[k], k);
        OpenAtStep(ts, t, stack[k], k);
      } else {
        DepthPrefix(ts, [t], |ts|);
      }
    }
  }

  lemma LeafStep(ts: seq<Tok>, t: Tok, stack: seq<nat>)
    requires OpenStack(ts, stack) && Delta(t.kind) == 0
    ensures OpenStack(ts + [t], stack)
  {
    DepthStep(ts, t);
    StaysStep(ts, t, 0, 0);
    forall k | 0 <= k < |stack| ensures OpenAt(ts + [t], stack[k], k) {
      assert OpenAt(ts, stack[k], k);
      OpenAtStep(ts, t, stack[k], k);
    }
  }

  lemma CloseStep(ts: seq<Tok>, t: Tok, stack: seq<nat>)
    requires OpenStack(ts, stack) && Closer(t.kind) && stack != []
    ensures OpenStack(ts + [t], stack[..|stack| - 1])
    ensures Matches(ts + [t], stack[|stack| - 1], |ts|)
  {
    DepthStep(ts, t);
    StaysStep(ts, t, 0, 0);
    var n := |stack| - 1;
    forall k | 0 <= k < n ensures OpenAt(ts + [t], stack[k], k) {
      assert OpenAt(ts, stack[k], k);
      OpenAtStep(ts, t, stack[k], k);
    }
    assert OpenAt(ts, stack[n], n);
    DepthPrefix(ts, [t], stack[n]);
    StaysPrefix(ts, [t], stack[n] + 1, |ts|, n + 1);
  }

  /** The closed bracket has its size; nothing else changes. */
  lemma SizeSet(ts: seq<Tok>, t: Tok, stack: seq<nat>, obj: seq<JSONToken>, top: nat, obj': seq<JSONToken>)
    requires OpenStack(ts, stack) && PartIndexed(ts, stack, obj) && Closer(t.kind)
    requires stack != [] && top == stack[|stack| - 1] && top < |obj|
    requires obj' == (obj + [JSONToken(t.kind, t.data, 1)])[top := obj[top].(size := (|obj| + 1 - top) % TWO32)]
    ensures PartIndexed(ts + [t], stack[..|stack| - 1], obj')
  {
    assert Bare(obj') == ts + [t];
    assert OpenAt(ts, top, |stack| - 1);
    CloseStep(ts, t, stack);
    if |ts| + 1 < TWO32 {
      forall i: nat | i < |obj'| && i !in stack[..|stack| - 1] ensures SizeOk(ts + [t], obj', 0, i) {
        if i < |obj| && i != top {
          assert i !in stack;
          SizeKept(ts, t, obj, obj', i);
        }
      }
    }
  }

  /** One token of the input goes into the vector; failure is "unbalanced braces". */
  method Push(obj: seq<JSONToken>, stack: seq<nat>, t: Tok, ghost ts: seq<Tok>)
    returns (ok: bool, obj': seq<JSONToken>, stack': seq<nat>)
    requires OpenStack(ts, stack) && PartIndexed(ts, stack, obj)
    ensures ok ==> OpenStack(ts + [t], stack') && PartIndexed(ts + [t], stack', obj')
    ensures !ok ==> Depth(ts + [t], |ts| + 1) < 0
  {
    ok := true;
    obj' := obj + [JSONToken(t.kind, t.data, 1)];
    stack' := stack;
    if Opener(t.kind) {
      stack' := stack + [|obj|];
      OpenStep(ts, t, stack);
      GrowIndexed(ts, t, stack, obj, stack');
    } else if Closer(t.kind) {
      if stack == [] {
        DepthStep(ts, t);
        return false, obj', stack';
      }
      var top := stack[|stack| - 1];
      assert OpenAt(ts, top, |stack| - 1);
      obj' := obj'[top := obj'[top].(size := (|obj'| - top) % TWO32)];
      stack' := stack[..|stack| - 1];
      CloseStep(ts, t, stack);
      SizeSet(ts, t, stack, obj, top, obj');
    } else {
      LeafStep(ts, t, stack);
      GrowIndexed(ts, t, stack, obj, stack');
    }
  }

  lemma GrowIndexed(ts: seq<Tok>, t: Tok, stack: seq<nat>, obj: seq<JSONToken>, stack': seq<nat>)
    requires PartIndexed(ts, stack, obj) && !Closer(t.kind)
    requires stack' == if Opener(t.kind) then stack + [|obj|] else stack
    ensures PartIndexed(ts + [t], stack', obj + [JSONToken(t.kind, t.data, 1)])
  {
    var obj' := obj + [JSONToken(t.kind, t.data, 1)];
    assert Bare(obj') == ts + [t];
    assert forall i :: i in stack ==> i in stack';
    assert Opener(t.kind) ==> stack'[|stack|] == |obj| && |obj| in stack';
    if |ts| + 1 < TWO32 {
      forall i: nat | i < |obj'| && i !in stack' ensures SizeOk(ts + [t], obj', 0, i) {
        if i < |obj| { SizeKept(ts, t, obj, obj', i); }
      }
    }
  }

  lemma TooManyClosers(ts: seq<Tok>, more: seq<Tok>)
    requires Depth(ts, |ts|) < 0
    ensures !Balanced(ts + more)
  {
    DepthPrefix(ts, more, |ts|);
    assert !AtLeast(ts + more, |ts|, 0);
  }

  lemma AtTheEnd(ts: seq<Tok>, stack: seq<nat>, obj: seq<JSONToken>)
    requires OpenStack(ts, stack) && PartIndexed(ts, stack, obj)
    ensures Balanced(ts) <==> stack == []
    ensures stack == [] && |ts| < TWO32 ==> Indexed(ts, obj)
  {
  }

  /** What `parseJSON` makes of a token stream (sizes are 32-bit words). */
  ghost predicate ParsesTo(ts: seq<Tok>, r: Option<seq<JSONToken>>) {
    && (r.Some? <==> Balanced(ts))
    && (r.Some? ==> Bare(r.value) == ts)
    && (r.Some? && |ts| < TWO32 ==> Indexed(ts, r.value))
  }

  /** `readNextToken`, seen as one step of `LexAll`. */
  method NextToken(json: JSONInputStream) returns (t: Option<Option<Tok>>)
    requires json.Valid()
    modifies json
    ensures json.Valid()
    ensures t == None ==> LexAll(old(json.Rest())) == None
    ensures t == Some(None) ==> LexAll(old(json.Rest())) == Some([])
    ensures t.Some? && t.value.Some? ==>
      && Left(json.Rest()) < Left(old(json.Rest()))
      && LexAll(old(json.Rest())) == Then([t.value.value], LexAll(json.Rest()))
  {
    t := json.ReadNextToken();
  }

  /** Between two tokens of the input: `seen` so far, of `all` there is. */
  ghost predicate Between(all: Option<seq<Tok>>, rest: string, seen: seq<Tok>, stack: seq<nat>, obj: seq<JSONToken>)
    requires rest != ""
  {
    OpenStack(seen, stack) && PartIndexed(seen, stack, obj) && Then(seen, LexAll(rest)) == all
  }

  ghost predicate Answer(all: Option<seq<Tok>>, r: Option<seq<JSONToken>>) {
    if all == None then r == None else ParsesTo(all.value, r)
  }

  lemma FailsEarly(all: Option<seq<Tok>>, seen: seq<Tok>, more: Option<seq<Tok>>)
    requires Then(seen, more) == all && Depth(seen, |seen|) < 0
    ensures Answer(all, None)
  {
    if more.Some? { TooManyClosers(seen, more.value); }
  }

  /** One turn of the loop: `go` when there is more to read, else the result. */
  method Turn(json: JSONInputStream, obj: seq<JSONToken>, stack: seq<nat>,
              ghost seen: seq<Tok>, ghost all: Option<seq<Tok>>)
    returns (go: bool, r: Option<seq<JSONToken>>, obj': seq<JSONToken>, stack': seq<nat>, ghost seen': seq<Tok>)
    requires json.Valid() && Between(all, json.Rest(), seen, stack, obj)
    modifies json
    ensures json.Valid()
    ensures go ==> Between(all, json.Rest(), seen', stack', obj') && Left(json.Rest()) < Left(old(json.Rest()))
    ensures !go ==> Answer(all, r)
  {
    obj', stack', seen', r := obj, stack, seen, None;
    var t := NextToken(json);
    if t == None { return false, None, obj', stack', seen'; }
    if t.value == None {
      assert seen + [] == seen;
      AtTheEnd(seen, stack, obj);
      return false, if stack == [] then Some(obj) else None, obj', stack', seen';
    }
    ThenThen(seen, [t.value.value], LexAll(json.Rest()));
    go, obj', stack' := Push(obj, stack, t.value.value, seen);
    seen' := seen + [t.value.value];
    if !go { FailsEarly(all, seen', LexAll(json.Rest())); }
  }

  /** `parseJSON`: accepts exactly the depth-balanced token streams, and indexes
      them. */
  method ParseJSON(json: JSONInputStream) returns (r: Option<seq<JSONToken>>)
    requires json.Valid()
    modifies json
    ensures match LexAll(old(json.Rest())) { case None => r == None case Some(ts) => ParsesTo(ts, r) }
  {
    var obj: seq<JSONToken> := [];
    var stack: seq<nat> := [];
    ghost var seen: seq<Tok> := [];
    ghost var all := LexAll(json.Rest());
    assert all.Some? ==> [] + all.value == all.value;
    var go := true;
    r := None;
    while go
      invariant json.Valid() && (if go then Between(all, json.Rest(), seen, stack, obj) else Answer(all, r))
      decreases go, Left(json.Rest())
    {
      go, r, obj, stack, seen := Turn(json, obj, stack, seen, all);
    }
  }

  // ----------------------------------------------------- the index of a value's tokens

  /** The sizes of `part` are right for the tokens of `ts` from `p` on, which are
      balanced. */
  ghost predicate IndexedAt(ts: seq<Tok>, p: nat, part: seq<JSONToken>) {
    && p + |part| <= |ts|
    && SizesOk(ts, part, p)
    && Depth(ts, p + |part|) == Depth(ts, p)
    && Stays(ts, p, p + |part|, Depth(ts, p))
  }

  lemma StaysJoin(ts: seq<Tok>, i: nat, j: nat, k: nat, d: int)
    requires i <= j <= k <= |ts| && Stays(ts, i, j, d) && Stays(ts, j, k, d)
    ensures Stays(ts, i, k, d)
  {
    forall m: nat | i <= m <= k ensures AtLeast(ts, m, d) {}
  }

  lemma IndexedConcat(ts: seq<Tok>, p: nat, a: seq<JSONToken>, b: seq<JSONToken>)
    requires IndexedAt(ts, p, a) && IndexedAt(ts, p + |a|, b)
    ensures IndexedAt(ts, p, a + b)
  {
    var c := a + b;
    StaysJoin(ts, p, p + |a|, p + |a| + |b|, Depth(ts, p));
    forall i: nat | i < |c| ensures SizeOk(ts, c, p, i) {
      if i < |a| {
        assert SizeOk(ts, a, p, i);
      } else {
        assert SizeOk(ts, b, p + |a|, i - |a|);
      }
    }
  }

  lemma IndexedLeaf(ts: seq<Tok>, p: nat, t: JSONToken)
    requires Here(ts, p, [t]) && Delta(t.kind) == 0 && t.size == 1
    ensures IndexedAt(ts, p, [t])
  {
    HereFirst(ts, p, t);
    assert Depth(ts, p + 1) == Depth(ts, p);
    forall m: nat | p <= m <= p + 1 ensures AtLeast(ts, m, Depth(ts, p)) {}
  }

  lemma IndexedBrackets(ts: seq<Tok>, p: nat, open: JSONToken, inner: seq<JSONToken>, close: JSONToken)
    requires Here(ts, p, [open]) && IndexedAt(ts, p + 1, inner) && Here(ts, p + 1 + |inner|, [close])
    requires Opener(open.kind) && open.size == |inner| + 2 && Closer(close.kind) && close.size == 1
    ensures IndexedAt(ts, p, [open] + inner + [close])
  {
    var c := [open] + inner + [close];
    var q := p + 1 + |inner|;
    HereFirst(ts, p, open);
    HereFirst(ts, q, close);
    assert Depth(ts, p + 1) == Depth(ts, p) + 1;
    assert Depth(ts, q + 1) == Depth(ts, q) - 1;
    assert Matches(ts, p, q);
    StaysOutside(ts, p, q);
    forall i: nat | i < |c| ensures SizeOk(ts, c, p, i) {
      if 1 <= i <= |inner| { assert SizeOk(ts, inner, p + 1, i - 1); }
    }
  }

  lemma StaysOutside(ts: seq<Tok>, p: nat, q: nat)
    requires Matches(ts, p, q)
    ensures Stays(ts, p, q + 1, Depth(ts, p))
  {
    var d := Depth(ts, p);
    forall m: nat | p <= m <= q + 1 ensures AtLeast(ts, m, d) {
      if p < m <= q { assert AtLeast(ts, m, d + 1); }
    }
  }

  predicate StandsAt(ts: seq<Tok>, p: nat, part: seq<JSONToken>, i: nat) {
    i < |part| && p + i < |ts| && ts[p + i] == Tok(part[i].kind, part[i].data)
  }

  /** The tokens of `part` stand in `ts` from `p` on. */
  ghost predicate Here(ts: seq<Tok>, p: nat, part: seq<JSONToken>) {
    p + |part| <= |ts| && forall i: nat {:trigger StandsAt(ts, p, part, i)} :: i < |part| ==> StandsAt(ts, p, part, i)
  }

  lemma HereParts(ts: seq<Tok>, p: nat, a: seq<JSONToken>, b: seq<JSONToken>)
    requires Here(ts, p, a + b)
    ensures Here(ts, p, a) && Here(ts, p + |a|, b)
  {
    var c, q := a + b, p + |a|;
    forall i: nat | i < |a| ensures StandsAt(ts, p, a, i) { assert StandsAt(ts, p, c, i); }
    forall i: nat | i < |b| ensures StandsAt(ts, q, b, i) { assert StandsAt(ts, p, c, |a| + i); }
  }

  lemma HereFirst(ts: seq<Tok>, p: nat, t: JSONToken)
    requires Here(ts, p, [t])
    ensures ts[p] == Tok(t.kind, t.data)
  {
    assert StandsAt(ts, p, [t], 0);
  }

  lemma {:induction false} ValueIndexed(ts: seq<Tok>, p: nat, v: Value)
    requires Here(ts, p, Flat(v))
    ensures IndexedAt(ts, p, Flat(v))
    decreases v
  {
    match v
    case Obj(ms) =>
      var open := JSONToken(ObjectBegin, "", |FlatMembers(ms)| + 2);
      HereParts(ts, p, [open] + FlatMembers(ms), [Leaf(ObjectEnd, "")]);
      HereParts(ts, p, [open], FlatMembers(ms));
      MembersIndexed(ts, p + 1, ms);
      IndexedBrackets(ts, p, open, FlatMembers(ms), Leaf(ObjectEnd, ""));
    case Arr(vs) =>
      var open := JSONToken(ArrayBegin, "", |FlatItems(vs)| + 2);
      HereParts(ts, p, [open] + FlatItems(vs), [Leaf(ArrayEnd, "")]);
      HereParts(ts, p, [open], FlatItems(vs));
      ItemsIndexed(ts, p + 1, vs);
      IndexedBrackets(ts, p, open, FlatItems(vs), Leaf(ArrayEnd, ""));
    case _ =>
      IndexedLeaf(ts, p, Flat(v)[0]);
      assert Flat(v) == [Flat(v)[0]];
  }

  lemma {:induction false} MembersIndexed(ts: seq<Tok>, p: nat, ms: seq<Member>)
    requires Here(ts, p, FlatMembers(ms))
    ensures IndexedAt(ts, p, FlatMembers(ms))
    decreases ms
  {
    if ms != [] {
      var k, v, rest := [Leaf(StringTok, ms[0].key)], Flat(ms[0].value), FlatMembers(ms[1..]);
      HereParts(ts, p, k + v, rest);
      HereParts(ts, p, k, v);
      IndexedLeaf(ts, p, k[0]);
      ValueIndexed(ts, p + 1, ms[0].value);
      MembersIndexed(ts, p + 1 + |v|, ms[1..]);
      IndexedConcat(ts, p, k, v);
      IndexedConcat(ts, p, k + v, rest);
    }
  }

  lemma {:induction false} ItemsIndexed(ts: seq<Tok>, p: nat, vs: seq<Value>)
    requires Here(ts, p, FlatItems(vs))
    ensures IndexedAt(ts, p, FlatItems(vs))
    decreases vs
  {
    if vs != [] {
      var v, rest := Flat(vs[0]), FlatItems(vs[1..]);
      HereParts(ts, p, v, rest);
      ValueIndexed(ts, p, vs[0]);
      ItemsIndexed(ts, p + |v|, vs[1..]);
      IndexedConcat(ts, p, v, rest);
    }
  }

  /** The tokens of a value are balanced, and their index is `Flat`. */
  lemma FlatIsIndex(v: Value)
    ensures Balanced(Toks(v)) && Indexed(Toks(v), Flat(v))
  {
    BareFlat(v);
    var ts := Toks(v);
    forall i: nat | i < |Flat(v)| ensures StandsAt(ts, 0, Flat(v), i) {}
    ValueIndexed(ts, 0, v);
  }

  // ----------------------------------------------------- the vector determines the value

  lemma CutFirst(x: JSONToken, a: seq<JSONToken>, y: JSONToken, b: seq<JSONToken>)
    requires [x] + a == [y] + b
    ensures x == y && a == b
  {
    assert ([x] + a)[0] == x && ([y] + b)[0] == y;
    assert ([x] + a)[1..] == a && ([y] + b)[1..] == b;
  }

  lemma {:induction false} FlatInjective(v: Value, w: Value, a: seq<JSONToken>, b: seq<JSONToken>)
    requires Flat(v) + a == Flat(w) + b
    ensures v == w && a == b
    decreases v
  {
    var x, y := Flat(v)[0], Flat(w)[0];
    assert (Flat(v) + a)[0] == x && (Flat(w) + b)[0] == y;
    if v.Obj? && w.Obj? {
      var close := [Leaf(ObjectEnd, "")];
      assert Flat(v) + a == [x] + (FlatMembers(v.members) + (close + a));
      assert Flat(w) + b == [y] + (FlatMembers(w.members) + (close + b));
      CutFirst(x, FlatMembers(v.members) + (close + a), y, FlatMembers(w.members) + (close + b));
      MembersInjective(v.members, w.members, a, b);
    } else if v.Arr? && w.Arr? {
      var close := [Leaf(ArrayEnd, "")];
      assert Flat(v) + a == [x] + (FlatItems(v.items) + (close + a));
      assert Flat(w) + b == [y] + (FlatItems(w.items) + (close + b));
      CutFirst(x, FlatItems(v.items) + (close + a), y, FlatItems(w.items) + (close + b));
      ItemsInjective(v.items, w.items, a, b);
    } else {
      LeafInjective(v, w, a, b);
    }
  }

  lemma LeafInjective(v: Value, w: Value, a: seq<JSONToken>, b: seq<JSONToken>)
    requires Flat(v)[0] == Flat(w)[0] && Flat(v) + a == Flat(w) + b
    requires !(v.Obj? && w.Obj?) && !(v.Arr? && w.Arr?)
    ensures v == w && a == b
  {
    assert Flat(v) == [Flat(v)[0]] && Flat(w) == [Flat(w)[0]];
    CutFirst(Flat(v)[0], a, Flat(w)[0], b);
  }

  lemma {:induction false} MembersInjective(ms: seq<Member>, ns: seq<Member>, a: seq<JSONToken>, b: seq<JSONToken>)
    requires FlatMembers(ms) + ([Leaf(ObjectEnd, "")] + a) == FlatMembers(ns) + ([Leaf(ObjectEnd, "")] + b)
    ensures ms == ns && a == b
    decreases ms
  {
    var close := Leaf(ObjectEnd, "");
    var l, r := FlatMembers(ms) + ([close] + a), FlatMembers(ns) + ([close] + b);
    assert l[0] == if ms == [] then close else Leaf(StringTok, ms[0].key);
    assert r[0] == if ns == [] then close else Leaf(StringTok, ns[0].key);
    if ms == [] {
      assert l == [close] + a && r == [close] + b;
      CutFirst(close, a, close, b);
    } else {
      var v, w := ms[0].value, ns[0].value;
      var c, d := FlatMembers(ms[1..]) + ([close] + a), FlatMembers(ns[1..]) + ([close] + b);
      MemberRegroup(l[0], Flat(v), FlatMembers(ms[1..]), [close] + a);
      MemberRegroup(r[0], Flat(w), FlatMembers(ns[1..]), [close] + b);
      CutFirst(l[0], Flat(v) + c, r[0], Flat(w) + d);
      FlatInjective(v, w, c, d);
      MembersInjective(ms[1..], ns[1..], a, b);
      assert ms == [ms[0]] + ms[1..] && ns == [ns[0]] + ns[1..];
    }
  }

  lemma MemberRegroup(k: JSONToken, v: seq<JSONToken>, more: seq<JSONToken>, rest: seq<JSONToken>)
    ensures ([k] + v + more) + rest == [k] + (v + (more + rest))
  {
  }

  lemma {:induction false} ItemsInjective(vs: seq<Value>, ws: seq<Value>, a: seq<JSONToken>, b: seq<JSONToken>)
    requires FlatItems(vs) + ([Leaf(ArrayEnd, "")] + a) == FlatItems(ws) + ([Leaf(ArrayEnd, "")] + b)
    ensures vs == ws && a == b
    decreases vs
  {
    var close := Leaf(ArrayEnd, "");
    if vs == [] || ws == [] {
      BothEmpty(vs, ws, close, a, b);
    } else {
      var c, d := FlatItems(vs[1..]) + ([close] + a), FlatItems(ws[1..]) + ([close] + b);
      ItemRegroup(Flat(vs[0]), FlatItems(vs[1..]), [close] + a);
      ItemRegroup(Flat(ws[0]), FlatItems(ws[1..]), [close] + b);
      FlatInjective(vs[0], ws[0], c, d);
      ItemsInjective(vs[1..], ws[1..], a, b);
      assert vs == [vs[0]] + vs[1..] && ws == [ws[0]] + ws[1..];
    }
  }

  lemma ItemRegroup(v: seq<JSONToken>, more: seq<JSONToken>, rest: seq<JSONToken>)
    ensures (v + more) + rest == v + (more + rest)
  {
  }

  lemma BothEmpty(vs: seq<Value>, ws: seq<Value>, close: JSONToken, a: seq<JSONToken>, b: seq<JSONToken>)
    requires FlatItems(vs) + ([close] + a) == FlatItems(ws) + ([close] + b)
    requires Closer(close.kind) && (vs == [] || ws == [])
    ensures vs == ws && a == b
  {
    var l, r := FlatItems(vs) + ([close] + a), FlatItems(ws) + ([close] + b);
    assert l[0] == if vs == [] then close else Flat(vs[0])[0];
    assert r[0] == if ws == [] then close else Flat(ws[0])[0];
    FirstIsNoCloser(vs);
    FirstIsNoCloser(ws);
    assert l == [close] + a && r == [close] + b;
    CutFirst(close, a, close, b);
  }

  lemma FirstIsNoCloser(vs: seq<Value>)
    ensures vs != [] ==> !Closer(Flat(vs[0])[0].kind)
  {
  }

  // ------------------------------------------------------------------- end to end

  /** Text that holds the printed form of `v` is parsed into the vector of the
      value read back. */
  method ParseText(st: Style, text: string, ghost v: Value) returns (r: Option<seq<JSONToken>>)
    requires text == Render(st, v) && Printable(st, v) && ColonText(st.colon)
    requires |Toks(ReadBack(st, v))| < TWO32
    ensures r == Some(Flat(ReadBack(st, v)))
  {
    var json := new JSONInputStream(text);
    ghost var w := ReadBack(st, v);
    TextBack(st, v);
    FlatIsIndex(w);
    r := ParseJSON(json);
    IndexUnique(Toks(w), r.value, Flat(w));
  }

  /** The stack machine's output, parsed again: the same vector, with the numbers
      as strings; it is the original vector exactly for values that survive. */
  method PrintThenParse(v: Value) returns (r: Option<seq<JSONToken>>)
    requires |Toks(ReadBack(STREAM, v))| < TWO32
    ensures r == Some(Flat(ReadBack(STREAM, v)))
    ensures r == Some(Flat(v)) <==> Survives(STREAM, v)
  {
    var os := new JSONOutputStream();
    os.WriteValue(v);
    assert os.output == Render(STREAM, v);
    StreamPrintable(v);
    r := ParseText(STREAM, os.output, v);
    ReadBackIdentity(STREAM, v);
    if Flat(ReadBack(STREAM, v)) == Flat(v) { FlatInjective(ReadBack(STREAM, v), v, [], []); }
  }

  lemma StreamPrintable(v: Value)
    ensures Printable(STREAM, v)
  {
  }
}
