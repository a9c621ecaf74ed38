/** The type of a column from its values, one value at a time
    (`detectDataTypeSeries` in `src/stx/human.cc`). */
module ColumnType {

  datatype DataType =
    | UNKNOWN | DATETIME | DATETIME_NULLABLE | URL | URL_NULLABLE | CURRENCY | CURRENCY_NULLABLE
    | UNSIGNED_INTEGER | UNSIGNED_INTEGER_NULLABLE | SIGNED_INTEGER | SIGNED_INTEGER_NULLABLE
    | FLOAT | FLOAT_NULLABLE | BOOLEAN | BOOLEAN_NULLABLE | NULL_OR_EMPTY | TEXT | BINARY

  /** What the type of a single value can be. */
  predicate Single(t: DataType) {
    t.DATETIME? || t.URL? || t.CURRENCY? || t.UNSIGNED_INTEGER? || t.SIGNED_INTEGER? || t.FLOAT?
    || t.BOOLEAN? || t.NULL_OR_EMPTY? || t.TEXT? || t.BINARY?
  }

  function AfterNull(prev: DataType): DataType {
    match prev
    case DATETIME => DATETIME_NULLABLE
    case DATETIME_NULLABLE => DATETIME_NULLABLE
    case URL => URL_NULLABLE
    case URL_NULLABLE => URL_NULLABLE
    case CURRENCY => CURRENCY_NULLABLE
    case CURRENCY_NULLABLE => CURRENCY_NULLABLE
    case UNSIGNED_INTEGER => UNSIGNED_INTEGER_NULLABLE
    case UNSIGNED_INTEGER_NULLABLE => UNSIGNED_INTEGER_NULLABLE
    case SIGNED_INTEGER => SIGNED_INTEGER_NULLABLE
    case SIGNED_INTEGER_NULLABLE => SIGNED_INTEGER_NULLABLE
    case FLOAT => FLOAT_NULLABLE
    case FLOAT_NULLABLE => FLOAT_NULLABLE
    case BOOLEAN => BOOLEAN_NULLABLE
    case BOOLEAN_NULLABLE => BOOLEAN_NULLABLE
    case TEXT => TEXT
    case BINARY => BINARY
    case UNKNOWN => NULL_OR_EMPTY
    case NULL_OR_EMPTY => NULL_OR_EMPTY
  }

  function AfterUnsigned(prev: DataType): DataType {
    if prev.FLOAT? then FLOAT
    else if prev.SIGNED_INTEGER? then SIGNED_INTEGER
    else if prev.FLOAT_NULLABLE? then FLOAT_NULLABLE
    else if prev.SIGNED_INTEGER_NULLABLE? then SIGNED_INTEGER_NULLABLE
    else if prev.NULL_OR_EMPTY? || prev.UNSIGNED_INTEGER_NULLABLE? then UNSIGNED_INTEGER_NULLABLE
    else TEXT
  }

  function AfterSigned(prev: DataType): DataType {
    if prev.FLOAT? then FLOAT
    else if prev.UNSIGNED_INTEGER? then SIGNED_INTEGER
    else if prev.FLOAT_NULLABLE? then FLOAT_NULLABLE
    else if prev.NULL_OR_EMPTY? || prev.UNSIGNED_INTEGER_NULLABLE? || prev.SIGNED_INTEGER_NULLABLE? then
      SIGNED_INTEGER_NULLABLE
    else TEXT
  }

  function AfterFloat(prev: DataType): DataType {
    if prev.UNSIGNED_INTEGER? || prev.SIGNED_INTEGER? then FLOAT
    else if prev.NULL_OR_EMPTY? || prev.FLOAT_NULLABLE? || prev.UNSIGNED_INTEGER_NULLABLE?
            || prev.SIGNED_INTEGER_NULLABLE? then FLOAT_NULLABLE
    else TEXT
  }

  function AfterPlain(nullable: DataType, prev: DataType): DataType {
    if prev.NULL_OR_EMPTY? || prev == nullable then nullable else TEXT
  }

  /** `detectDataTypeSeries` after a value of type `t`. */
  function Step(prev: DataType, t: DataType): DataType
    requires Single(t)
  {
    if prev.BINARY? then prev
    else if t == prev || prev.UNKNOWN? then t
    else if t.NULL_OR_EMPTY? then AfterNull(prev)
    else if t.DATETIME? then AfterPlain(DATETIME_NULLABLE, prev)
    else if t.URL? then AfterPlain(URL_NULLABLE, prev)
    else if t.CURRENCY? then AfterPlain(CURRENCY_NULLABLE, prev)
    else if t.UNSIGNED_INTEGER? then AfterUnsigned(prev)
    else if t.SIGNED_INTEGER? then AfterSigned(prev)
    else if t.FLOAT? then AfterFloat(prev)
    else if t.BOOLEAN? then AfterPlain(BOOLEAN_NULLABLE, prev)
    else t
  }

  predicate AllSingle(ts: seq<DataType>) { forall i :: 0 <= i < |ts| ==> Single(ts[i]) }

  /** A whole column. */
  function Column(ts: seq<DataType>): DataType
    requires AllSingle(ts)
  {
    if ts == [] then UNKNOWN else Step(Column(ts[..|ts| - 1]), ts[|ts| - 1])
  }

  // ------------------------------------------------------------ what it computes

  function Nullable(t: DataType, nulls: bool): DataType { if nulls then AfterNull(t) else t }

  /** The values other than null have one type, or are all numbers. */
  function Common(s: set<DataType>): DataType {
    if s <= {UNSIGNED_INTEGER} then UNSIGNED_INTEGER
    else if s <= {UNSIGNED_INTEGER, SIGNED_INTEGER} then SIGNED_INTEGER
    else if s <= {UNSIGNED_INTEGER, SIGNED_INTEGER, FLOAT} then FLOAT
    else if s == {DATETIME} then DATETIME
    else if s == {URL} then URL
    else if s == {CURRENCY} then CURRENCY
    else if s == {BOOLEAN} then BOOLEAN
    else TEXT
  }

  /** The column's type from the set of its values' types alone. */
  function Summary(s: set<DataType>): DataType {
    if s == {} then UNKNOWN
    else if BINARY in s then BINARY
    else if s == {NULL_OR_EMPTY} then NULL_OR_EMPTY
    else Nullable(Common(s - {NULL_OR_EMPTY}), NULL_OR_EMPTY in s)
  }

  /** A value that is neither null nor binary. */
  predicate Plain(t: DataType) { Single(t) && !t.NULL_OR_EMPTY? && !t.BINARY? }

  lemma CommonOne(t: DataType)
    requires Plain(t)
    ensures Common({t}) == t && Plain(Common({t}))
  {
    assert t in {t};
  }

  lemma CommonUnsigned(s: set<DataType>, x: DataType)
    requires x in s && forall x :: x in s ==> Plain(x)
    ensures Common(s + {UNSIGNED_INTEGER}) == AfterUnsigned(Common(s)) || Common(s) == UNSIGNED_INTEGER
    ensures Common(s) == UNSIGNED_INTEGER ==> Common(s + {UNSIGNED_INTEGER}) == UNSIGNED_INTEGER
  {
    assert x in s + {UNSIGNED_INTEGER};
  }

  lemma CommonSigned(s: set<DataType>, x: DataType)
    requires x in s && forall x :: x in s ==> Plain(x)
    ensures Common(s + {SIGNED_INTEGER}) == AfterSigned(Common(s)) || Common(s) == SIGNED_INTEGER
    ensures Common(s) == SIGNED_INTEGER ==> Common(s + {SIGNED_INTEGER}) == SIGNED_INTEGER
  {
    assert x in s + {SIGNED_INTEGER} && SIGNED_INTEGER in s + {SIGNED_INTEGER};
  }

  lemma CommonFloat(s: set<DataType>, x: DataType)
    requires x in s && forall x :: x in s ==> Plain(x)
    ensures Common(s + {FLOAT}) == AfterFloat(Common(s)) || Common(s) == FLOAT
    ensures Common(s) == FLOAT ==> Common(s + {FLOAT}) == FLOAT
  {
    assert x in s + {FLOAT} && FLOAT in s + {FLOAT};
  }

  predicate Number(t: DataType) { t.UNSIGNED_INTEGER? || t.SIGNED_INTEGER? || t.FLOAT? }

  /** A value that is no number goes with its like only. */
  lemma OtherStep(c: DataType, t: DataType)
    requires Plain(c) && Plain(t) && !Number(t)
    ensures Step(c, t) == (if c == t then t else TEXT)
    ensures Step(AfterNull(c), t) == AfterNull(if c == t then t else TEXT)
  {
  }

  lemma CommonOnly(s: set<DataType>, t: DataType)
    requires t in s && Plain(t) && !Number(t) && forall x :: x in s ==> Plain(x)
    ensures Common(s) == if s == {t} then t else TEXT
  {
  }

  lemma CommonIs(s: set<DataType>, x: DataType, t: DataType)
    requires x in s && Plain(t) && !Number(t) && !t.TEXT? && forall x :: x in s ==> Plain(x)
    ensures Common(s) == t <==> s == {t}
  {
  }

  lemma CommonStep(s: set<DataType>, x: DataType, t: DataType)
    requires x in s && Plain(t) && forall x :: x in s ==> Plain(x)
    ensures Common(s + {t}) == Step(Common(s), t)
  {
    CommonOf(s, x);
    if t.UNSIGNED_INTEGER? {
      CommonUnsigned(s, x);
    } else if t.SIGNED_INTEGER? {
      CommonSigned(s, x);
    } else if t.FLOAT? {
      CommonFloat(s, x);
    } else {
      OtherStep(Common(s), t);
      CommonOnly(s + {t}, t);
      assert x in s + {t};
      if !t.TEXT? { CommonIs(s, x, t); }
    }
  }

  /** Having seen a null makes no difference but the type's being nullable. */
  lemma NullableStep(c: DataType, t: DataType)
    requires Plain(c) && Plain(t)
    ensures Step(AfterNull(c), t) == AfterNull(Step(c, t))
  {
    if !Number(t) { OtherStep(c, t); } else { NullableNumber(c, t); }
  }

  lemma NullableNumber(c: DataType, t: DataType)
    requires Plain(c) && Number(t)
    ensures Step(AfterNull(c), t) == AfterNull(Step(c, t))
  {
    if t.UNSIGNED_INTEGER? {
      NullableUnsigned(c);
    } else if t.SIGNED_INTEGER? {
      NullableSigned(c);
    } else {
      NullableFloat(c);
    }
  }

  lemma NullableUnsigned(c: DataType)
    requires Plain(c)
    ensures Step(AfterNull(c), UNSIGNED_INTEGER) == AfterNull(Step(c, UNSIGNED_INTEGER))
  {
  }

  lemma NullableSigned(c: DataType)
    requires Plain(c)
    ensures Step(AfterNull(c), SIGNED_INTEGER) == AfterNull(Step(c, SIGNED_INTEGER))
  {
  }

  lemma NullableFloat(c: DataType)
    requires Plain(c)
    ensures Step(AfterNull(c), FLOAT) == AfterNull(Step(c, FLOAT))
  {
  }

  lemma SummaryStep(s: set<DataType>, t: DataType)
    requires Single(t) && forall x :: x in s ==> Single(x)
    ensures Summary(s + {t}) == Step(Summary(s), t)
  {
    var v := s - {NULL_OR_EMPTY};
    var s' := s + {t};
    assert t in s';
    if BINARY in s' {
    } else if v == {} {
      if !t.NULL_OR_EMPTY? {
        assert s' - {NULL_OR_EMPTY} == {t};
        CommonOne(t);
      } else {
        assert s' == {NULL_OR_EMPTY};
      }
    } else {
      var x :| x in v;
      assert x in s && x in s';
      CommonOf(v, x);
      if t.NULL_OR_EMPTY? {
        assert s' - {NULL_OR_EMPTY} == v;
      } else {
        assert s' - {NULL_OR_EMPTY} == v + {t};
        CommonStep(v, x, t);
        NullableStep(Common(v), t);
      }
    }
  }

  lemma CommonOf(s: set<DataType>, x: DataType)
    requires x in s && forall x :: x in s ==> Plain(x)
    ensures Plain(Common(s))
  {
  }

  function Types(ts: seq<DataType>): set<DataType> { set t | t in ts }

  /** The type of a column depends only on which types occur in it. */
  lemma {:induction false} ColumnIsSummary(ts: seq<DataType>)
    requires AllSingle(ts)
    ensures Column(ts) == Summary(Types(ts))
  {
    if ts != [] {
      var less, t := ts[..|ts| - 1], ts[|ts| - 1];
      ColumnIsSummary(less);
      SummaryStep(Types(less), t);
      assert ts == less + [t];
      assert Types(ts) == Types(less) + {t};
    }
  }

  /** Rows in any order, and any number of times, give the same type. */
  lemma OrderDoesNotMatter(ts: seq<DataType>, us: seq<DataType>)
    requires AllSingle(ts) && AllSingle(us) && Types(ts) == Types(us)
    ensures Column(ts) == Column(us)
  {
    ColumnIsSummary(ts);
    ColumnIsSummary(us);
  }

  lemma PermutedRows(ts: seq<DataType>, us: seq<DataType>)
    requires AllSingle(ts) && multiset(us) == multiset(ts)
    ensures AllSingle(us) && Column(us) == Column(ts)
  {
    forall i | 0 <= i < |us| ensures us[i] in ts {
      assert us[i] in multiset(us);
    }
    forall i | 0 <= i < |ts| ensures ts[i] in us {
      assert ts[i] in multiset(ts);
    }
    OrderDoesNotMatter(ts, us);
  }
}
