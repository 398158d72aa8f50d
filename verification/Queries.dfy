/**
 * `find` on the rows of a model: filter, order, cursor, skip, take
 * (__tests__/helpers/memory-db.ts:711-722).
 */
module Queries {
  import opened Lists
  import opened Rows
  import opened StableSorting
  import Paging
  import Text

  function Ordered(num: Numerals, rows: seq<Row>, where: Row -> bool, orderBy: Option<seq<OrderSpec>>): seq<Row> {
    var list := Filter(rows, where);
    if orderBy.Some? then Sort(RowOrder(num, orderBy.value), list) else list
  }

  function Find(num: Numerals, rows: seq<Row>, where: Row -> bool, orderBy: Option<seq<OrderSpec>>,
                cursor: Option<Row -> bool>, skip: nat, take: Option<nat>): seq<Row> {
    Paging.Window(Ordered(num, rows, where, orderBy), cursor, skip, take)
  }

  /** `matches(row, { id: c })` for a plain value c. */
  predicate IdMatches(row: Row, c: Value) {
    var actual := Column(row, "id");
    match c
    case Undefined => true
    case Null => Nullish(actual)
    case Date(_, ms) => actual.Date? && actual.ms == ms
    case _ => actual == c
  }

  /** The cursor `{ id: last.id }`. */
  function IdCursor(last: Row): Row -> bool {
    (row: Row) => IdMatches(row, Column(last, "id"))
  }

  /** A cursor finds the rows whose id is level with its own: the same value, both absent, or one instant; without an id, every row. */
  lemma CursorFindsLevelIds(last: Row, row: Row)
    ensures IdCursor(last)(row) <==> "id" !in last || last["id"] == Undefined || Level(Column(last, "id"), Column(row, "id"))
  {}

  lemma PartIsSortable(rows: seq<Row>, where: Row -> bool, specs: seq<OrderSpec>)
    requires Sortable(rows, specs)
    ensures Sortable(Filter(rows, where), specs)
  {
    FilterMembers(rows, where);
  }

  /**
   * An ordered query is the stable sorted rearrangement of the rows a plain filter keeps,
   * and any other stable sort would return the same list.
   */
  lemma FindIsStableSort(num: Numerals, rows: seq<Row>, where: Row -> bool, specs: seq<OrderSpec>, other: seq<Row>)
    requires Sortable(rows, specs)
    ensures StableSortOf(RowOrder(num, specs), Filter(rows, where), Find(num, rows, where, Some(specs), None, 0, None))
    ensures StableSortOf(RowOrder(num, specs), Filter(rows, where), other)
      ==> other == Find(num, rows, where, Some(specs), None, 0, None)
  {
    hide Filter, Sort, CompareRows, Sortable;
    var list := Filter(rows, where);
    assert Sortable(list, specs) by { PartIsSortable(rows, where, specs); }
    SliceAll(Ordered(num, rows, where, Some(specs)), |list|);
    FilterMembers(rows, where);
    OrderByIsTotalPreorder(num, list, specs);
    SortIsStable(RowOrder(num, specs), list);
    if StableSortOf(RowOrder(num, specs), list, other) {
      StableSortUnique(RowOrder(num, specs), list, other, Sort(RowOrder(num, specs), list));
    }
  }

  // ---------------------------------------------------------------- what a query returns

  predicate LevelOn(x: Row, specs: seq<OrderSpec>, r: Row) {
    forall m :: 0 <= m < |specs| ==> Level(Column(x, specs[m].field), Column(r, specs[m].field))
  }

  /** The rows that no field of `orderBy` tells from x. */
  function LevelWith(x: Row, specs: seq<OrderSpec>): Row -> bool {
    (r: Row) => LevelOn(x, specs, r)
  }

  /**
   * The same rows, no row in front of one that belongs before it, and rows that no field
   * tells apart left as they stood.
   */
  ghost predicate Arranged(specs: seq<OrderSpec>, list: seq<Row>, r: seq<Row>) {
    && multiset(r) == multiset(list)
    && (forall i, j :: 0 <= i < j < |r| ==> InOrder(r[i], r[j], specs))
    && (forall x :: x in list ==> Filter(r, LevelWith(x, specs)) == Filter(list, LevelWith(x, specs)))
  }

  lemma {:induction false} CompareFlipsOnRows(num: Numerals, rows: seq<Row>, specs: seq<OrderSpec>, a: Row, b: Row)
    requires Sortable(rows, specs) && a in rows && b in rows
    ensures CompareRows(num, a, b, specs) == -CompareRows(num, b, a, specs)
  {
    hide CompareValues;
    if specs != [] {
      var f := specs[0].field;
      assert specs[0] in specs && OneKind(rows, f);
      CompareFlipsOnRows(num, rows, specs[1..], a, b);
      CompareValuesIsOrder(num, Column(a, f), Column(b, f), Column(a, f), specs[0]);
    }
  }

  lemma {:induction false} TiesAreLevelRows(num: Numerals, rows: seq<Row>, specs: seq<OrderSpec>, x: Row, s: seq<Row>)
    requires Sortable(rows, specs) && x in rows && forall r :: r in s ==> r in rows
    ensures TiedWith(RowOrder(num, specs), x, s) == Filter(s, LevelWith(x, specs))
  {
    hide InOrder, CompareRows, Sortable, Level;
    if s != [] {
      assert s[0] in s;
      TiesAreLevelRows(num, rows, specs, x, s[1..]);
      CompareRowsMeans(num, rows, specs, x, s[0]);
      CompareFlipsOnRows(num, rows, specs, x, s[0]);
    }
  }

  lemma SortArranges(num: Numerals, list: seq<Row>, specs: seq<OrderSpec>)
    requires Sortable(list, specs)
    ensures Arranged(specs, list, Sort(RowOrder(num, specs), list))
  {
    hide Filter, Sort, CompareRows, Sortable, InOrder, LevelWith, TiedWith;
    var sorted := Sort(RowOrder(num, specs), list);
    OrderByIsTotalPreorder(num, list, specs);
    SortIsStable(RowOrder(num, specs), list);
    SameMembers(sorted, list);
    forall i, j | 0 <= i < j < |sorted| ensures InOrder(sorted[i], sorted[j], specs) {
      assert RowOrder(num, specs)(sorted[i], sorted[j]) && sorted[i] in list && sorted[j] in list;
      CompareRowsMeans(num, list, specs, sorted[i], sorted[j]);
    }
    forall x | x in list ensures Filter(sorted, LevelWith(x, specs)) == Filter(list, LevelWith(x, specs)) {
      TiesAreLevelRows(num, list, specs, x, sorted);
      TiesAreLevelRows(num, list, specs, x, list);
    }
  }

  /** `all` is what the query lists before its window is cut. */
  ghost predicate MayList(rows: seq<Row>, where: Row -> bool, orderBy: Option<seq<OrderSpec>>, all: seq<Row>) {
    match orderBy
    case None => Keeps(rows, where, true, all)
    case Some(specs) => exists kept: seq<Row> :: Keeps(rows, where, true, kept) && Arranged(specs, kept, all)
  }

  ghost predicate FindOutcome(rows: seq<Row>, where: Row -> bool, orderBy: Option<seq<OrderSpec>>,
                              cursor: Option<Row -> bool>, skip: nat, take: Option<nat>, r: seq<Row>) {
    exists all: seq<Row> :: MayList(rows, where, orderBy, all) && Paging.IsWindow(all, cursor, skip, take, r)
  }

  /** Filter, order on the columns, window: whatever is asked for. */
  lemma FindMeans(num: Numerals, rows: seq<Row>, where: Row -> bool, orderBy: Option<seq<OrderSpec>>,
                  cursor: Option<Row -> bool>, skip: nat, take: Option<nat>)
    requires orderBy.Some? ==> Sortable(rows, orderBy.value)
    ensures FindOutcome(rows, where, orderBy, cursor, skip, take, Find(num, rows, where, orderBy, cursor, skip, take))
  {
    hide Filter, Sort, Sortable, Arranged, Keeps, Paging.IsWindow;
    var list, all := Filter(rows, where), Ordered(num, rows, where, orderBy);
    FilterKeeps(rows, where);
    if orderBy.Some? {
      assert Sortable(list, orderBy.value) by { PartIsSortable(rows, where, orderBy.value); }
      SortArranges(num, list, orderBy.value);
    }
    assert MayList(rows, where, orderBy, all);
    Paging.WindowMeans(all, cursor, skip, take);
  }

  /** x may stand in front of y: absent values keep to the end asked for, present ones rise or fall. */
  ghost predicate RisesOrFalls(x: Value, y: Value, dir: Direction, nulls: NullsOption) {
    && (nulls == First || (nulls == Default && dir == Desc) ==> (y == Undefined || y == Null ==> x == Undefined || x == Null))
    && (nulls == Last || (nulls == Default && dir == Asc) ==> (x == Undefined || x == Null ==> y == Undefined || y == Null))
    && (x.Num? && y.Num? ==> if dir == Asc then x.n <= y.n else x.n >= y.n)
    && (x.Date? && y.Date? ==> if dir == Asc then x.ms <= y.ms else x.ms >= y.ms)
    && (x.Str? && y.Str? ==> if dir == Asc then !Text.Less(y.s, x.s) else !Text.Less(x.s, y.s))
    && (x.Bool? && y.Bool? ==> if dir == Asc then x.b ==> y.b else y.b ==> x.b)
  }

  lemma FitsInWords(x: Value, y: Value, spec: OrderSpec)
    requires Ahead(x, y, spec) || Level(x, y)
    ensures RisesOrFalls(x, y, spec.dir, spec.nulls)
  {
    if x.Str? && y.Str? {
      Text.LessIsStrictOrder(x.s, y.s, x.s);
    }
  }

  lemma FirstFieldFits(a: Row, b: Row, spec: OrderSpec)
    requires InOrder(a, b, [spec])
    ensures Ahead(Column(a, spec.field), Column(b, spec.field), spec) || Level(Column(a, spec.field), Column(b, spec.field))
  {
    hide Ahead, Level;
    assert LevelUntil(a, b, [spec], 0);
    assert [spec][0] == spec;
  }

  /** A query ordered by one field. */
  lemma OneFieldRisesOrFalls(num: Numerals, rows: seq<Row>, where: Row -> bool, spec: OrderSpec)
    requires OneKind(rows, spec.field)
    ensures var list := Find(num, rows, where, Some([spec]), None, 0, None);
      forall i, j :: 0 <= i < j < |list| ==> RisesOrFalls(Column(list[i], spec.field), Column(list[j], spec.field), spec.dir, spec.nulls)
  {
    hide Sort, Filter, Sortable, OneKind, RowOrder, RisesOrFalls, InOrder, Ahead, Level, LevelWith;
    var kept := Filter(rows, where);
    var list := Sort(RowOrder(num, [spec]), kept);
    SameMembers(list, kept);
    SliceAll(list, |kept|);
    assert Sortable(kept, [spec]) by {
      OneFieldSortable(rows, spec);
      PartIsSortable(rows, where, [spec]);
    }
    SortArranges(num, kept, [spec]);
    forall i, j | 0 <= i < j < |list| ensures RisesOrFalls(Column(list[i], spec.field), Column(list[j], spec.field), spec.dir, spec.nulls) {
      FirstFieldFits(list[i], list[j], spec);
      FitsInWords(Column(list[i], spec.field), Column(list[j], spec.field), spec);
    }
  }

  lemma OneFieldSortable(rows: seq<Row>, spec: OrderSpec)
    requires OneKind(rows, spec.field)
    ensures Sortable(rows, [spec])
  {}

  // ---------------------------------------------------------------- ids

  predicate IdsDiffer(rows: seq<Row>) {
    forall i, j :: 0 <= i < j < |rows| ==> Column(rows[i], "id") != Column(rows[j], "id")
  }

  /** A selection and rearrangement of rows with different ids has different ids. */
  lemma PartKeepsIds(rows: seq<Row>, part: seq<Row>)
    requires IdsDiffer(rows) && multiset(part) <= multiset(rows)
    ensures IdsDiffer(part)
  {
    forall i, j | 0 <= i < j < |part| ensures Column(part[i], "id") != Column(part[j], "id") {
      assert part[i] in multiset(part) && part[j] in multiset(part);
      assert part[i] in multiset(rows) && part[j] in multiset(rows);
      if part[i] == part[j] {
        assert part == part[..j] + part[j..];
        assert part[i] in part[..j] && part[j] in part[j..];
        var p, q := TwoPositions(rows, part[i]);
      } else {
        var p :| 0 <= p < |rows| && rows[p] == part[i];
        var q :| 0 <= q < |rows| && rows[q] == part[j];
        assert p < q || q < p;
      }
    }
  }

  /**
   * Paging a filtered, ordered table with `cursor = { id: last }, skip: 1` returns every
   * matching row once, in order, and then stops, for any page size, when the ids are
   * different strings.
   */
  lemma PagingOverTable(num: Numerals, rows: seq<Row>, where: Row -> bool, orderBy: Option<seq<OrderSpec>>, take: nat, n: nat)
    requires IdsDiffer(rows) && (forall r :: r in rows ==> Column(r, "id").Str?) && take >= 1
    ensures var list := Ordered(num, rows, where, orderBy);
      && Paging.Pages(list, IdCursor, take, n) == Slice(list, 0, Paging.Offset(take, n))
      && (n >= |list| ==> Paging.Pages(list, IdCursor, take, n) == list && Paging.Page(list, IdCursor, take, n) == [])
  {
    hide Filter, Sort;
    var list := Ordered(num, rows, where, orderBy);
    FilterMembers(rows, where);
    PartKeepsIds(rows, list);
    forall r | r in list ensures Column(r, "id").Str? {
      assert r in multiset(list);
      assert r in multiset(rows);
    }
    forall k | 0 <= k < |list| ensures Paging.FoundByCursor(list, IdCursor, k) {
      assert list[k] in list;
    }
    Paging.PagesAreComplete(list, IdCursor, take, n);
  }
}
