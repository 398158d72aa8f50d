/**
 * Rows of the in-memory store, the values in them, and the order `sort` gives them
 * (__tests__/helpers/memory-db.ts).
 */
module Rows {
  import Text
  import opened Lists
  import opened StableSorting

  /** Which allocation an object is: one the store made, or one the caller passed in. */
  datatype Ref = Ours(n: nat) | Theirs(n: nat)

  /**
   * A JavaScript value in a column. Dates and objects carry their identity, so that
   * Dafny's equality on values is `===`: two Dates of one instant are different values. An
   * object also carries the text `String(object)` gives.
   */
  datatype Value =
    | Undefined
    | Null
    | Bool(b: bool)
    | Num(n: int)
    | Str(s: string)
    | Date(ref: Ref, ms: int)
    | Object(obj: Ref, text: string)

  type Row = map<string, Value>

  /** What `Number(text)` reads of a string; None is NaN. */
  type Numerals = string -> Option<int>

  predicate Nullish(v: Value) { v.Undefined? || v.Null? }

  function Column(r: Row, k: string): Value {
    if k in r then r[k] else Undefined
  }

  /** `Number(v)`; None is NaN. */
  function Numeric(num: Numerals, v: Value): Option<int> {
    match v
    case Undefined => None
    case Null => Some(0)
    case Bool(b) => Some(if b then 1 else 0)
    case Num(n) => Some(n)
    case Str(s) => num(s)
    case Date(_, ms) => Some(ms)
    case Object(_, text) => num(text)
  }

  /** `Number(v) || 0`. */
  function NumberOrZero(num: Numerals, v: Value): int {
    var n := Numeric(num, v);
    if n.Some? then n.value else 0
  }

  /** Values that are compared as texts when both are. */
  predicate Textual(v: Value) { v.Str? || v.Object? }

  function TextOf(v: Value): string
    requires Textual(v)
  {
    if v.Str? then v.s else v.text
  }

  /** `x < y`. */
  predicate LessThan(num: Numerals, x: Value, y: Value) {
    if Textual(x) && Textual(y) then Text.Less(TextOf(x), TextOf(y))
    else
      var a, b := Numeric(num, x), Numeric(num, y);
      a.Some? && b.Some? && a.value < b.value
  }

  datatype Direction = Asc | Desc
  datatype NullsOption = Default | First | Last
  datatype OrderSpec = OrderSpec(field: string, dir: Direction, nulls: NullsOption)

  predicate NullsFirst(spec: OrderSpec) {
    match spec.nulls
    case Default => spec.dir == Desc
    case First => true
    case Last => false
  }

  /** One pass of the comparator's loop: the sign for one field, 0 to go on. */
  function CompareValues(num: Numerals, x: Value, y: Value, spec: OrderSpec): int {
    if Nullish(x) && Nullish(y) then 0
    else if Nullish(x) then (if NullsFirst(spec) then -1 else 1)
    else if Nullish(y) then (if NullsFirst(spec) then 1 else -1)
    else if x == y || (x.Date? && y.Date? && x.ms == y.ms) then 0
    else
      var cmp := if LessThan(num, x, y) then -1 else 1;
      if spec.dir == Desc then -cmp else cmp
  }

  function CompareRows(num: Numerals, a: Row, b: Row, specs: seq<OrderSpec>): int {
    if specs == [] then 0
    else
      var c := CompareValues(num, Column(a, specs[0].field), Column(b, specs[0].field), specs[0]);
      if c != 0 then c else CompareRows(num, a, b, specs[1..])
  }

  function RowOrder(num: Numerals, specs: seq<OrderSpec>): (Row, Row) -> bool {
    (a, b) => CompareRows(num, a, b, specs) <= 0
  }

  predicate SameKind(x: Value, y: Value) {
    (x.Bool? && y.Bool?) || (x.Num? && y.Num?) || (x.Str? && y.Str?) || (x.Date? && y.Date?)
  }

  /** A column whose present values are all booleans, all numbers, all strings or all dates. */
  ghost predicate OneKind(rows: seq<Row>, field: string) {
    forall a, b :: a in rows && b in rows && !Nullish(Column(a, field)) && !Nullish(Column(b, field))
      ==> SameKind(Column(a, field), Column(b, field))
  }

  ghost predicate Sortable(rows: seq<Row>, specs: seq<OrderSpec>) {
    forall s :: s in specs ==> OneKind(rows, s.field)
  }

  /** A pair of values the comparator orders the same way from both sides. */
  predicate Comparable(num: Numerals, x: Value, y: Value) {
    || x == y
    || (x.Date? && y.Date?)
    || if Textual(x) && Textual(y) then TextOf(x) != TextOf(y)
       else (Numeric(num, x).Some? && Numeric(num, y).Some? && Numeric(num, x) != Numeric(num, y))
  }

  /**
   * Swapping the arguments flips the sign exactly on comparable values: a number and a
   * date of the same count of milliseconds, or a number and a word, each come "after"
   * the other.
   */
  lemma CompareFlipsIff(num: Numerals, x: Value, y: Value, spec: OrderSpec)
    requires !Nullish(x) && !Nullish(y)
    ensures CompareValues(num, x, y, spec) == -CompareValues(num, y, x, spec) <==> Comparable(num, x, y)
  {
    if Textual(x) && Textual(y) {
      Text.LessIsStrictOrder(TextOf(x), TextOf(y), TextOf(x));
    }
  }

  /** That is a matter of pairs: "100" comes before "9", "9" before 50 and 50 before "100". */
  lemma ComparablePairsMayCycle(num: Numerals)
    requires num("9") == Some(9) && num("100") == Some(100)
    ensures var spec := OrderSpec("x", Asc, Default);
      && Comparable(num, Str("100"), Str("9")) && Comparable(num, Str("9"), Num(50)) && Comparable(num, Num(50), Str("100"))
      && CompareValues(num, Str("100"), Str("9"), spec) == -1
      && CompareValues(num, Str("9"), Num(50), spec) == -1
      && CompareValues(num, Num(50), Str("100"), spec) == -1
  {
    assert "100"[0] != "9"[0] && Text.Less("100", "9");
  }

  lemma CompareValuesIsOrder(num: Numerals, x: Value, y: Value, z: Value, spec: OrderSpec)
    requires Nullish(x) || Nullish(y) || SameKind(x, y)
    requires Nullish(y) || Nullish(z) || SameKind(y, z)
    requires Nullish(x) || Nullish(z) || SameKind(x, z)
    ensures CompareValues(num, x, y, spec) == -CompareValues(num, y, x, spec)
    ensures CompareValues(num, x, y, spec) <= 0 && CompareValues(num, y, z, spec) <= 0
      ==> CompareValues(num, x, z, spec) <= 0
    ensures CompareValues(num, x, y, spec) <= 0 && CompareValues(num, y, z, spec) <= 0 && CompareValues(num, x, z, spec) == 0
      ==> CompareValues(num, x, y, spec) == 0 && CompareValues(num, y, z, spec) == 0
  {
    if x.Str? && y.Str? && z.Str? {
      Text.LessIsStrictOrder(x.s, y.s, z.s);
      Text.LessIsStrictOrder(z.s, y.s, x.s);
      Text.LessIsStrictOrder(x.s, z.s, y.s);
    } else if x.Str? && y.Str? {
      Text.LessIsStrictOrder(x.s, y.s, x.s);
    } else if y.Str? && z.Str? {
      Text.LessIsStrictOrder(y.s, z.s, y.s);
    } else if x.Str? && z.Str? {
      Text.LessIsStrictOrder(x.s, z.s, x.s);
    }
  }

  lemma {:induction false} CompareRowsIsOrder(num: Numerals, rows: seq<Row>, specs: seq<OrderSpec>, a: Row, b: Row, c: Row)
    requires Sortable(rows, specs) && a in rows && b in rows && c in rows
    ensures CompareRows(num, a, b, specs) <= 0 || CompareRows(num, b, a, specs) <= 0
    ensures CompareRows(num, a, b, specs) <= 0 && CompareRows(num, b, c, specs) <= 0 ==> CompareRows(num, a, c, specs) <= 0
  {
    if specs != [] {
      var f := specs[0].field;
      assert specs[0] in specs && OneKind(rows, f);
      CompareRowsIsOrder(num, rows, specs[1..], a, b, c);
      CompareValuesIsOrder(num, Column(a, f), Column(b, f), Column(c, f), specs[0]);
    }
  }

  /** For every list of fields, directions and null placements over columns of one kind. */
  lemma OrderByIsTotalPreorder(num: Numerals, rows: seq<Row>, specs: seq<OrderSpec>)
    requires Sortable(rows, specs)
    ensures TotalPreorderOn(RowOrder(num, specs), rows)
  {
    var le := RowOrder(num, specs);
    forall a, b | a in rows && b in rows ensures le(a, b) || le(b, a) {
      CompareRowsIsOrder(num, rows, specs, a, b, a);
    }
    forall a, b, c | a in rows && b in rows && c in rows && le(a, b) && le(b, c) ensures le(a, c) {
      CompareRowsIsOrder(num, rows, specs, a, b, c);
    }
  }

  // ---------------------------------------------------------------- the order on the columns

  /** x below y, for two values of one kind: false below true, numbers and dates by size, strings by Less. */
  predicate Below(x: Value, y: Value) {
    match x
    case Bool(b) => y.Bool? && !b && y.b
    case Num(n) => y.Num? && n < y.n
    case Str(s) => y.Str? && Text.Less(s, y.s)
    case Date(_, ms) => y.Date? && ms < y.ms
    case _ => false
  }

  /** Neither of two values comes first: both absent, equal, or dates of one instant. */
  predicate Level(x: Value, y: Value) {
    x == y || (x in {Undefined, Null} && y in {Undefined, Null}) || (x.Date? && y.Date? && x.ms == y.ms)
  }

  /** x belongs before y: absent values at the end asked for, present ones rising or falling. */
  predicate Ahead(x: Value, y: Value, spec: OrderSpec) {
    var absentFirst := spec.nulls == First || (spec.nulls == Default && spec.dir == Desc);
    if x in {Undefined, Null} then absentFirst && y !in {Undefined, Null}
    else if y in {Undefined, Null} then !absentFirst
    else if spec.dir == Asc then Below(x, y) else Below(y, x)
  }

  /** On the first column on which the two rows are not level, a is ahead of b. */
  ghost predicate InOrder(a: Row, b: Row, specs: seq<OrderSpec>) {
    forall k :: 0 <= k < |specs| && LevelUntil(a, b, specs, k)
      ==> Ahead(Column(a, specs[k].field), Column(b, specs[k].field), specs[k]) || Level(Column(a, specs[k].field), Column(b, specs[k].field))
  }

  ghost predicate LevelUntil(a: Row, b: Row, specs: seq<OrderSpec>, k: nat)
    requires k <= |specs|
  {
    forall m :: 0 <= m < k ==> Level(Column(a, specs[m].field), Column(b, specs[m].field))
  }

  lemma CompareValuesMeans(num: Numerals, x: Value, y: Value, spec: OrderSpec)
    requires Nullish(x) || Nullish(y) || SameKind(x, y)
    ensures CompareValues(num, x, y, spec) < 0 <==> Ahead(x, y, spec)
    ensures CompareValues(num, x, y, spec) == 0 <==> Level(x, y)
  {
    if x.Str? && y.Str? {
      Text.LessIsStrictOrder(x.s, y.s, x.s);
    }
  }

  lemma InOrderUnfolds(a: Row, b: Row, specs: seq<OrderSpec>)
    requires specs != []
    ensures var x, y := Column(a, specs[0].field), Column(b, specs[0].field);
      InOrder(a, b, specs) <==> (Ahead(x, y, specs[0]) && !Level(x, y)) || (Level(x, y) && InOrder(a, b, specs[1..]))
  {
    hide Ahead, Level;
    var x, y := Column(a, specs[0].field), Column(b, specs[0].field);
    var rest := specs[1..];
    if InOrder(a, b, specs) {
      assert LevelUntil(a, b, specs, 0);
      if Level(x, y) {
        forall k | 0 <= k < |rest| && LevelUntil(a, b, rest, k)
          ensures Ahead(Column(a, rest[k].field), Column(b, rest[k].field), rest[k]) || Level(Column(a, rest[k].field), Column(b, rest[k].field))
        {
          LevelOneMore(a, b, specs, k);
        }
      }
    }
    if Level(x, y) && InOrder(a, b, rest) {
      forall k | 0 <= k < |specs| && LevelUntil(a, b, specs, k)
        ensures Ahead(Column(a, specs[k].field), Column(b, specs[k].field), specs[k]) || Level(Column(a, specs[k].field), Column(b, specs[k].field))
      {
        if k > 0 {
          LevelOneMore(a, b, specs, k - 1);
          assert rest[k - 1] == specs[k];
        }
      }
    }
  }

  lemma LevelOneMore(a: Row, b: Row, specs: seq<OrderSpec>, k: nat)
    requires specs != [] && k <= |specs[1..]|
    ensures LevelUntil(a, b, specs, k + 1) <==> Level(Column(a, specs[0].field), Column(b, specs[0].field)) && LevelUntil(a, b, specs[1..], k)
  {
    hide Level, Column;
    assert forall m :: 0 < m <= k ==> specs[m] == specs[1..][m - 1];
    if LevelUntil(a, b, specs, k + 1) {
      assert forall m :: 0 <= m < k ==> specs[1..][m] == specs[m + 1];
    }
  }

  /** What the comparator decides, on columns of one kind each. */
  lemma {:induction false} CompareRowsMeans(num: Numerals, rows: seq<Row>, specs: seq<OrderSpec>, a: Row, b: Row)
    requires Sortable(rows, specs) && a in rows && b in rows
    ensures CompareRows(num, a, b, specs) <= 0 <==> InOrder(a, b, specs)
    ensures CompareRows(num, a, b, specs) == 0 <==> LevelUntil(a, b, specs, |specs|)
  {
    hide InOrder, LevelUntil, CompareValues, Ahead, Level;
    if specs == [] {
      NothingToCompare(a, b);
    } else {
      assert specs[0] in specs && OneKind(rows, specs[0].field);
      CompareRowsMeans(num, rows, specs[1..], a, b);
      CompareValuesMeans(num, Column(a, specs[0].field), Column(b, specs[0].field), specs[0]);
      InOrderUnfolds(a, b, specs);
      LevelOneMore(a, b, specs, |specs| - 1);
    }
  }

  lemma NothingToCompare(a: Row, b: Row)
    ensures InOrder(a, b, []) && LevelUntil(a, b, [], 0)
  {}
}
