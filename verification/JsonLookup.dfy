/** Lookups on the skip-indexed vector (`src/stx/json/jsonutil.cc`): they jump
    over values by their sizes, and find what the tree holds. */
module JsonLookup {
  import opened Text
  import opened JsonTypes

  // ------------------------------------------------------------- lookups on the tree

  /** Index of the first member with this key. */
  function FirstKey(ms: seq<Member>, key: string): (r: Option<nat>)
    ensures r.None? ==> forall i :: 0 <= i < |ms| ==> ms[i].key != key
    ensures r.Some? ==> r.value < |ms| && ms[r.value].key == key
    ensures r.Some? ==> forall i :: 0 <= i < r.value ==> ms[i].key != key
  {
    if ms == [] then None
    else if ms[0].key == key then Some(0)
    else match FirstKey(ms[1..], key)
      case None => None
      case Some(i) => Some(i + 1)
  }

  /** `Err` where the source raises: `v` is not an object. */
  function Get(v: Value, key: string): Result<Option<Value>> {
    if !v.Obj? then Err
    else match FirstKey(v.members, key)
      case None => Ok(None)
      case Some(i) => Ok(Some(v.members[i].value))
  }

  function GetString(v: Value, key: string): Result<Option<string>> {
    match Get(v, key)
    case Err => Err
    case Ok(Some(Str(s))) => Ok(Some(s))
    case _ => Ok(None)
  }

  function UIntText(s: string): Result<Option<nat>> {
    match Stoul(s)
    case None => Err
    case Some(n) => Ok(Some(n))
  }

  function GetUInt64(v: Value, key: string): Result<Option<nat>> {
    match Get(v, key)
    case Err => Err
    case Ok(Some(Str(s))) => UIntText(s)
    case Ok(Some(Num(s))) => UIntText(s)
    case _ => Ok(None)
  }

  function BoolText(s: string): Option<bool> {
    if s == "true" || s == "TRUE" then Some(true)
    else if s == "false" || s == "FALSE" then Some(false)
    else None
  }

  function GetBool(v: Value, key: string): Result<Option<bool>> {
    match Get(v, key)
    case Err => Err
    case Ok(Some(Bool(b))) => Ok(Some(b))
    case Ok(Some(Str(s))) => Ok(BoolText(s))
    case _ => Ok(None)
  }

  // ------------------------------------------------------- where a value's parts stand

  predicate Same(ts: seq<JSONToken>, p: nat, part: seq<JSONToken>, i: nat) {
    i < |part| && p + i < |ts| && ts[p + i] == part[i]
  }

  /** `part` stands in `ts` from `p` on. */
  ghost predicate Here(ts: seq<JSONToken>, p: nat, part: seq<JSONToken>) {
    p + |part| <= |ts| && forall i: nat {:trigger Same(ts, p, part, i)} :: i < |part| ==> Same(ts, p, part, i)
  }

  lemma HereIn(ts: seq<JSONToken>, p: nat, f: seq<JSONToken>, i: nat, part: seq<JSONToken>)
    requires Here(ts, p, f) && Here(f, i, part)
    ensures Here(ts, p + i, part)
  {
    var q := p + i;
    forall j: nat | j < |part| ensures Same(ts, q, part, j) {
      assert Same(f, i, part, j) && Same(ts, p, f, i + j);
    }
  }

  lemma HereBehind(a: seq<JSONToken>, b: seq<JSONToken>, i: nat, part: seq<JSONToken>)
    requires Here(b, i, part)
    ensures Here(a + b, |a| + i, part)
  {
    var f, q := a + b, |a| + i;
    forall j: nat | j < |part| ensures Same(f, q, part, j) {
      assert Same(b, i, part, j);
    }
  }

  lemma HereConcat(a: seq<JSONToken>, b: seq<JSONToken>, c: seq<JSONToken>)
    ensures Here(a + b + c, 0, a) && Here(a + b + c, |a|, b) && Here(a + b + c, |a + b|, c)
  {
    var f := a + b + c;
    forall i: nat | i < |a| ensures Same(f, 0, a, i) {}
    forall i: nat | i < |b| ensures Same(f, |a|, b, i) {}
    forall i: nat | i < |c| ensures Same(f, |a + b|, c, i) {}
  }

  /** The vector of `v` stands in `ts` from `p` on, before `end`. */
  ghost predicate Holds(ts: seq<JSONToken>, p: nat, end: nat, v: Value) {
    p + |Flat(v)| <= end <= |ts| && Here(ts, p, Flat(v))
  }

  /** Tokens in front of member `k`, counted from the first key. */
  function MemberOffset(ms: seq<Member>, k: nat): nat
    requires k <= |ms|
  {
    if k == 0 then 0 else MemberOffset(ms, k - 1) + 1 + |Flat(ms[k - 1].value)|
  }

  function ItemOffset(vs: seq<Value>, k: nat): nat
    requires k <= |vs|
  {
    if k == 0 then 0 else ItemOffset(vs, k - 1) + |Flat(vs[k - 1])|
  }

  lemma {:induction false} MemberOffsetShift(ms: seq<Member>, k: nat)
    requires 0 < k <= |ms|
    ensures MemberOffset(ms, k) == 1 + |Flat(ms[0].value)| + MemberOffset(ms[1..], k - 1)
  {
    if k > 1 { MemberOffsetShift(ms, k - 1); }
  }

  lemma {:induction false} ItemOffsetShift(vs: seq<Value>, k: nat)
    requires 0 < k <= |vs|
    ensures ItemOffset(vs, k) == |Flat(vs[0])| + ItemOffset(vs[1..], k - 1)
  {
    if k > 1 { ItemOffsetShift(vs, k - 1); }
  }

  /** Member `k`: its key and its value. */
  lemma {:induction false} MemberAt(ms: seq<Member>, k: nat)
    requires k < |ms|
    ensures MemberHere(FlatMembers(ms), MemberOffset(ms, k), ms[k])
    decreases k
  {
    var front := [Leaf(StringTok, ms[0].key)] + Flat(ms[0].value);
    var rest := FlatMembers(ms[1..]);
    if k == 0 {
      FirstMember(ms[0], rest);
    } else {
      MemberAt(ms[1..], k - 1);
      MemberOffsetShift(ms, k);
      MemberBehind(front, rest, MemberOffset(ms[1..], k - 1), ms[k]);
    }
  }

  ghost predicate MemberHere(ts: seq<JSONToken>, p: nat, m: Member) {
    Here(ts, p, [Leaf(StringTok, m.key)]) && Here(ts, p + 1, Flat(m.value))
  }

  lemma FirstMember(m: Member, rest: seq<JSONToken>)
    ensures MemberHere([Leaf(StringTok, m.key)] + Flat(m.value) + rest, 0, m)
  {
    HereConcat([Leaf(StringTok, m.key)], Flat(m.value), rest);
  }

  /** What stands behind the first member stands in the whole. */
  lemma MemberBehind(front: seq<JSONToken>, rest: seq<JSONToken>, o: nat, m: Member)
    requires MemberHere(rest, o, m)
    ensures MemberHere(front + rest, |front| + o, m)
  {
    HereBehind(front, rest, o, [Leaf(StringTok, m.key)]);
    HereBehind(front, rest, o + 1, Flat(m.value));
  }

  lemma {:induction false} MembersEnd(ms: seq<Member>)
    ensures MemberOffset(ms, |ms|) == |FlatMembers(ms)|
  {
    if ms != [] {
      MembersEnd(ms[1..]);
      MemberOffsetShift(ms, |ms|);
    }
  }

  lemma {:induction false} ItemAt(vs: seq<Value>, k: nat)
    requires k < |vs|
    ensures Here(FlatItems(vs), ItemOffset(vs, k), Flat(vs[k]))
    decreases k
  {
    HereConcat([], Flat(vs[0]), FlatItems(vs[1..]));
    assert [] + Flat(vs[0]) == Flat(vs[0]);
    if k > 0 {
      ItemAt(vs[1..], k - 1);
      ItemOffsetShift(vs, k);
      HereIn(FlatItems(vs), |Flat(vs[0])|, FlatItems(vs[1..]), ItemOffset(vs[1..], k - 1), Flat(vs[k]));
    }
  }

  lemma {:induction false} ItemsEnd(vs: seq<Value>)
    ensures ItemOffset(vs, |vs|) == |FlatItems(vs)|
  {
    if vs != [] {
      ItemsEnd(vs[1..]);
      ItemOffsetShift(vs, |vs|);
    }
  }

  lemma MemberHeld(ts: seq<JSONToken>, p: nat, end: nat, ms: seq<Member>, k: nat)
    requires Holds(ts, p, end, Obj(ms)) && k < |ms|
    ensures var q := p + 1 + MemberOffset(ms, k);
      && q + 1 + |Flat(ms[k].value)| <= p + |Flat(Obj(ms))| - 1
      && ts[q] == Leaf(StringTok, ms[k].key) && Holds(ts, q + 1, end, ms[k].value)
  {
    MemberAt(ms, k);
    var open, inner := [Flat(Obj(ms))[0]], FlatMembers(ms);
    var o := MemberOffset(ms, k);
    HereConcat(open, inner, [Leaf(ObjectEnd, "")]);
    HereIn(ts, p, Flat(Obj(ms)), 1, inner);
    HereIn(ts, p + 1, inner, o, [Leaf(StringTok, ms[k].key)]);
    HereIn(ts, p + 1, inner, o + 1, Flat(ms[k].value));
    assert Same(ts, p + 1 + o, [Leaf(StringTok, ms[k].key)], 0);
  }

  lemma ItemHeld(ts: seq<JSONToken>, q: nat, vs: seq<Value>, k: nat)
    requires Here(ts, q, FlatItems(vs)) && k < |vs|
    ensures Here(ts, q + ItemOffset(vs, k), Flat(vs[k]))
    ensures ItemOffset(vs, k + 1) == ItemOffset(vs, k) + |Flat(vs[k])| <= |FlatItems(vs)|
    ensures ts[q + ItemOffset(vs, k)] == Flat(vs[k])[0]
  {
    ItemAt(vs, k);
    HereIn(ts, q, FlatItems(vs), ItemOffset(vs, k), Flat(vs[k]));
    assert Same(ts, q + ItemOffset(vs, k), Flat(vs[k]), 0);
  }

  /** The inside of a held array. */
  lemma ArrayInner(ts: seq<JSONToken>, p: nat, vs: seq<Value>)
    requires Here(ts, p, Flat(Arr(vs)))
    ensures Here(ts, p + 1, FlatItems(vs)) && |Flat(Arr(vs))| == |FlatItems(vs)| + 2
  {
    var open := JSONToken(ArrayBegin, "", |FlatItems(vs)| + 2);
    HereConcat([open], FlatItems(vs), [Leaf(ArrayEnd, "")]);
    HereIn(ts, p, Flat(Arr(vs)), 1, FlatItems(vs));
  }

  /** The first token of a held value, its size, and the end of an object. */
  lemma Head(ts: seq<JSONToken>, p: nat, end: nat, v: Value)
    requires Holds(ts, p, end, v)
    ensures ts[p] == Flat(v)[0] && ts[p].size == |Flat(v)|
    ensures v.Obj? ==> ts[p + |Flat(v)| - 1] == Leaf(ObjectEnd, "")
  {
    var f := Flat(v);
    assert Same(ts, p, f, 0) && Same(ts, p, f, |f| - 1);
  }

  // --------------------------------------------------------------- lookups on the vector

  /** Where key `k` or the closing brace stands, and how far the next one is. */
  lemma KeyOrBrace(ts: seq<JSONToken>, start: nat, end: nat, ms: seq<Member>, k: nat)
    requires Holds(ts, start, end, Obj(ms)) && k <= |ms|
    ensures var q, oend := start + 1 + MemberOffset(ms, k), start + |Flat(Obj(ms))|;
      if k == |ms| then q == oend - 1 && ts[q] == Leaf(ObjectEnd, "")
      else q + 1 < oend - 1 && ts[q] == Leaf(StringTok, ms[k].key)
           && Holds(ts, q + 1, end, ms[k].value)
           && q + 1 + ts[q + 1].size == start + 1 + MemberOffset(ms, k + 1)
  {
    if k == |ms| {
      MembersEnd(ms);
      Head(ts, start, end, Obj(ms));
    } else {
      MemberHeld(ts, start, end, ms, k);
      Head(ts, start + 1 + MemberOffset(ms, k) + 1, end, ms[k].value);
    }
  }

  /** The keys and the closing brace stand inside the object. */
  lemma KeyInside(ts: seq<JSONToken>, start: nat, end: nat, ms: seq<Member>, k: nat)
    requires Holds(ts, start, end, Obj(ms)) && k <= |ms|
    ensures start + 1 + MemberOffset(ms, k) < start + |Flat(Obj(ms))| <= end
  {
    KeyOrBrace(ts, start, end, ms, k);
  }

  /** The search loop of `objectLookup`: from key to key, jumping over values. */
  method FindMember(ts: seq<JSONToken>, start: nat, oend: nat, end: nat, key: string, ghost ms: seq<Member>)
    returns (r: nat)
    requires Holds(ts, start, end, Obj(ms)) && oend == start + |Flat(Obj(ms))|
    ensures match FirstKey(ms, key) {
      case None => r == end
      case Some(i) => r == start + 1 + MemberOffset(ms, i) + 1 }
  {
    ghost var k: nat := 0;
    var begin := start + 1;
    KeyInside(ts, start, end, ms, 0);
    while begin < end
      invariant k <= |ms| && begin == start + 1 + MemberOffset(ms, k) < oend
      invariant forall i :: 0 <= i < k ==> ms[i].key != key
      decreases end - begin
    {
      KeyOrBrace(ts, start, end, ms, k);
      if ts[begin].kind == StringTok && ts[begin].data == key { return begin + 1; }
      begin := begin + 1;
      if begin == oend { break; }
      begin := begin + ts[begin].size;
      k := k + 1;
      KeyInside(ts, start, end, ms, k);
    }
    return end;
  }

  /** `objectLookup`: `Ok(end)` when the key is missing. */
  method ObjectLookup(ts: seq<JSONToken>, start: nat, end: nat, key: string, ghost v: Value)
    returns (r: Result<nat>)
    requires start <= end <= |ts| && (start < end ==> Holds(ts, start, end, v))
    ensures start == end ==> r == Ok(end)
    ensures start < end ==> match Get(v, key) {
      case Err => r == Err
      case Ok(None) => r == Ok(end)
      case Ok(Some(w)) => r.Ok? && r.value < end && Holds(ts, r.value, end, w) }
  {
    if start == end { return Ok(end); }
    Head(ts, start, end, v);
    if ts[start].kind != ObjectBegin { return Err; }
    var oend := start + ts[start].size;
    if oend > end { return Ok(end); }
    var pos := FindMember(ts, start, oend, end, key, v.members);
    if FirstKey(v.members, key).Some? {
      MemberHeld(ts, start, end, v.members, FirstKey(v.members, key).value);
    }
    return Ok(pos);
  }

  /** `arrayLength`. */
  method ArrayLength(ts: seq<JSONToken>, start: nat, end: nat, ghost v: Value) returns (r: Result<nat>)
    requires start <= end <= |ts| && (start < end ==> Holds(ts, start, end, v))
    ensures start == end ==> r == Ok(0)
    ensures start < end ==> r == if v.Arr? then Ok(|v.items|) else Err
  {
    if start == end { return Ok(0); }
    Head(ts, start, end, v);
    if ts[start].kind != ArrayBegin { return Err; }
    var aend := start + ts[start].size - 1;
    if aend > end { return Err; }
    var n := CountItems(ts, start + 1, aend, v.items);
    return Ok(n);
  }

  method CountItems(ts: seq<JSONToken>, first: nat, aend: nat, ghost vs: seq<Value>) returns (length: nat)
    requires exists p: nat :: first == p + 1 && Here(ts, p, Flat(Arr(vs))) && aend == p + |Flat(Arr(vs))| - 1
    ensures length == |vs|
  {
    ArrayInner(ts, first - 1, vs);
    ItemsEnd(vs);
    length := 0;
    var begin := first;
    while begin < aend
      invariant length <= |vs| && begin == first + ItemOffset(vs, length) <= aend
      decreases aend - begin
    {
      ItemHeld(ts, first, vs, length);
      begin := begin + ts[begin].size;
      length := length + 1;
    }
    if length < |vs| { ItemHeld(ts, first, vs, length); }
  }

  /** The loop of `arrayLookup`; `aend` when there is no such item. */
  method FindItem(ts: seq<JSONToken>, first: nat, aend: nat, index: nat, ghost vs: seq<Value>) returns (r: nat)
    requires exists p: nat :: first == p + 1 && Here(ts, p, Flat(Arr(vs))) && aend == p + |Flat(Arr(vs))| - 1
    ensures if index < |vs| then r < aend && Here(ts, r, Flat(vs[index])) && r + |Flat(vs[index])| <= aend
            else r == aend
  {
    ArrayInner(ts, first - 1, vs);
    ItemsEnd(vs);
    var idx: nat := 0;
    var begin := first;
    while begin < aend
      invariant idx <= |vs| && begin == first + ItemOffset(vs, idx) <= aend && idx <= index
      decreases aend - begin
    {
      ItemHeld(ts, first, vs, idx);
      if idx == index { return begin; }
      begin := begin + ts[begin].size;
      idx := idx + 1;
    }
    if idx < |vs| { ItemHeld(ts, first, vs, idx); }
    return aend;
  }

  /** `arrayLookup`. */
  method ArrayLookup(ts: seq<JSONToken>, start: nat, end: nat, index: nat, ghost v: Value) returns (r: Result<nat>)
    requires start <= end <= |ts| && (start < end ==> Holds(ts, start, end, v))
    ensures start == end ==> r == Ok(end)
    ensures start < end ==>
      if v.Arr? && index < |v.items| then r.Ok? && r.value < end && Holds(ts, r.value, end, v.items[index])
      else r == Err
  {
    if start == end { return Ok(end); }
    Head(ts, start, end, v);
    if ts[start].kind != ArrayBegin { return Err; }
    var aend := start + ts[start].size - 1;
    if aend > end || start == aend { return Err; }
    var pos := FindItem(ts, start + 1, aend, index, v.items);
    return if pos < aend then Ok(pos) else Err;
  }

  // ------------------------------------------------------------------- typed getters

  method ObjectGetString(ts: seq<JSONToken>, start: nat, end: nat, key: string, ghost v: Value)
    returns (r: Result<Option<string>>)
    requires start < end && Holds(ts, start, end, v)
    ensures r == GetString(v, key)
  {
    var it := ObjectLookup(ts, start, end, key, v);
    if it.Err? { return Err; }
    if it.value == end { return Ok(None); }
    Head(ts, it.value, end, Get(v, key).value.value);
    return Ok(if ts[it.value].kind == StringTok then Some(ts[it.value].data) else None);
  }

  method ObjectGetUInt64(ts: seq<JSONToken>, start: nat, end: nat, key: string, ghost v: Value)
    returns (r: Result<Option<nat>>)
    requires start < end && Holds(ts, start, end, v)
    ensures r == GetUInt64(v, key)
  {
    var it := ObjectLookup(ts, start, end, key, v);
    if it.Err? { return Err; }
    if it.value == end { return Ok(None); }
    Head(ts, it.value, end, Get(v, key).value.value);
    var t := ts[it.value];
    if t.kind == StringTok || t.kind == NumberTok { return UIntText(t.data); }
    return Ok(None);
  }

  method ObjectGetBool(ts: seq<JSONToken>, start: nat, end: nat, key: string, ghost v: Value)
    returns (r: Result<Option<bool>>)
    requires start < end && Holds(ts, start, end, v)
    ensures r == GetBool(v, key)
  {
    var it := ObjectLookup(ts, start, end, key, v);
    if it.Err? { return Err; }
    if it.value == end { return Ok(None); }
    Head(ts, it.value, end, Get(v, key).value.value);
    match ts[it.value].kind {
      case TrueTok => return Ok(Some(true));
      case FalseTok => return Ok(Some(false));
      case StringTok => return Ok(BoolText(ts[it.value].data));
      case _ => return Ok(None);
    }
  }

  method ArrayGetString(ts: seq<JSONToken>, start: nat, end: nat, index: nat, ghost v: Value)
    returns (r: Result<Option<string>>)
    requires start < end && Holds(ts, start, end, v)
    ensures r == if !v.Arr? || index >= |v.items| then Err
                 else if v.items[index].Str? then Ok(Some(v.items[index].text)) else Ok(None)
  {
    var it := ArrayLookup(ts, start, end, index, v);
    if it.Err? { return Err; }
    Head(ts, it.value, end, v.items[index]);
    return Ok(if ts[it.value].kind == StringTok then Some(ts[it.value].data) else None);
  }
}
