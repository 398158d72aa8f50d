/**
 * Cursor paging over a list, for any kind of cursor: start at the first row the cursor
 * finds, pass over `skip` rows, keep `take` (__tests__/helpers/memory-db.ts:714-720).
 */
module Paging {
  import opened Lists

  function Window<T>(list: seq<T>, cursor: Option<T -> bool>, skip: nat, take: Option<nat>): seq<T> {
    var start := if cursor.Some? then FirstHit(list, cursor.value) else 0;
    Slice(list, start + skip, if take.Some? then take.value else |list|)
  }

  /** From position `from` on, as many rows as asked for and no more. */
  ghost predicate IsCut<T>(list: seq<T>, from: nat, take: Option<nat>, r: seq<T>) {
    if from > |list| then r == []
    else r <= list[from..] && (if take.Some? && take.value <= |list| - from then |r| == take.value else |r| == |list| - from)
  }

  /** The window opens `skip` rows after the first row the cursor finds, or after the start of the list; a lost cursor shows nothing. */
  ghost predicate IsWindow<T>(list: seq<T>, cursor: Option<T -> bool>, skip: nat, take: Option<nat>, r: seq<T>) {
    match cursor
    case None => IsCut(list, skip, take, r)
    case Some(finds) =>
      || (NoneMatches(list, finds) && r == [])
      || (exists i: nat :: IsFirst(list, finds, i) && IsCut(list, i + skip, take, r))
  }

  lemma SliceIsCut<T>(list: seq<T>, from: nat, take: Option<nat>)
    ensures IsCut(list, from, take, Slice(list, from, if take.Some? then take.value else |list|))
  {
    if from <= |list| {
      var r, rest := Slice(list, from, if take.Some? then take.value else |list|), list[from..];
      assert r == rest[..|r|];
    }
  }

  lemma WindowMeans<T>(list: seq<T>, cursor: Option<T -> bool>, skip: nat, take: Option<nat>)
    ensures IsWindow(list, cursor, skip, take, Window(list, cursor, skip, take))
  {
    var start := if cursor.Some? then FirstHit(list, cursor.value) else 0;
    SliceIsCut(list, start + skip, take);
    if cursor.Some? && start < |list| {
      assert IsFirst(list, cursor.value, start);
    }
  }

  /** What a client asks for next: skip the last row it got, found again by its cursor. */
  function PageAfter<T>(list: seq<T>, cursorOf: T -> T -> bool, take: nat, previous: seq<T>): seq<T> {
    if previous == [] then [] else Window(list, Some(cursorOf(previous[|previous| - 1])), 1, Some(take))
  }

  /** The k-th page of such a client. */
  function Page<T>(list: seq<T>, cursorOf: T -> T -> bool, take: nat, k: nat): seq<T>
    decreases k
  {
    if k == 0 then Window(list, None, 0, Some(take))
    else PageAfter(list, cursorOf, take, Page(list, cursorOf, take, k - 1))
  }

  /** A row's own cursor finds it and no earlier row. */
  ghost predicate FoundByCursor<T>(list: seq<T>, cursorOf: T -> T -> bool, k: nat)
    requires k < |list|
  {
    forall j :: 0 <= j < k ==> !cursorOf(list[k])(list[j])
  }

  ghost predicate DistinctCursors<T>(list: seq<T>, cursorOf: T -> T -> bool) {
    forall k :: 0 <= k < |list| ==> FoundByCursor(list, cursorOf, k)
  }

  /** A cursor made from a row matches that row. */
  ghost predicate SelfFinding<T(!new)>(cursorOf: T -> T -> bool) {
    forall x :: cursorOf(x)(x)
  }

  /** The number of rows on k full pages, k * take. */
  function Offset(take: nat, k: nat): nat {
    if k == 0 then 0 else Offset(take, k - 1) + take
  }

  lemma PageAfterSlice<T(!new)>(list: seq<T>, cursorOf: T -> T -> bool, take: nat, from: nat)
    requires SelfFinding(cursorOf) && DistinctCursors(list, cursorOf) && take >= 1
    ensures PageAfter(list, cursorOf, take, Slice(list, from, take)) == Slice(list, from + take, take)
  {
    var page := Slice(list, from, take);
    if page != [] {
      var last := from + |page| - 1;
      assert FoundByCursor(list, cursorOf, last);
      assert FirstHit(list, cursorOf(list[last])) == last;
    }
  }

  lemma {:induction false} PagesAreSlices<T(!new)>(list: seq<T>, cursorOf: T -> T -> bool, take: nat, k: nat)
    requires SelfFinding(cursorOf) && DistinctCursors(list, cursorOf) && take >= 1
    ensures Page(list, cursorOf, take, k) == Slice(list, Offset(take, k), take)
    decreases k
  {
    hide PageAfter, DistinctCursors, SelfFinding;
    if k > 0 {
      PagesAreSlices(list, cursorOf, take, k - 1);
      PageAfterSlice(list, cursorOf, take, Offset(take, k - 1));
    }
  }

  // ---------------------------------------------------------------- the converse

  function RowAt<T>(list: seq<T>, k: nat): seq<T> {
    if k < |list| then [list[k]] else []
  }

  lemma SliceOne<T>(list: seq<T>, k: nat)
    ensures Slice(list, k, 1) == RowAt(list, k)
  {}

  lemma {:induction false} OffsetOfOne(k: nat)
    ensures Offset(1, k) == k
  {
    if k > 0 { OffsetOfOne(k - 1); }
  }

  lemma AfterOneRow<T(!new)>(list: seq<T>, cursorOf: T -> T -> bool, k: nat)
    requires SelfFinding(cursorOf) && k < |list|
    ensures FirstHit(list, cursorOf(list[k])) <= k
    ensures PageAfter(list, cursorOf, 1, [list[k]]) == RowAt(list, FirstHit(list, cursorOf(list[k])) + 1)
  {
    assert cursorOf(list[k])(list[k]);
    SliceOne(list, FirstHit(list, cursorOf(list[k])) + 1);
  }

  ghost predicate SinglePagesExact<T>(list: seq<T>, cursorOf: T -> T -> bool) {
    forall n: nat :: Page(list, cursorOf, 1, n) == RowAt(list, n)
  }

  lemma {:induction false} SinglePagesNeedDistinct<T(!new)>(list: seq<T>, cursorOf: T -> T -> bool, k: nat)
    requires SelfFinding(cursorOf) && k < |list| && SinglePagesExact(list, cursorOf)
    ensures FirstHit(list, cursorOf(list[k])) == k
    decreases |list| - k
  {
    var i := FirstHit(list, cursorOf(list[k]));
    AfterOneRow(list, cursorOf, k);
    assert Page(list, cursorOf, 1, k) == RowAt(list, k);
    assert Page(list, cursorOf, 1, k + 1) == RowAt(list, k + 1);
    if k + 1 < |list| {
      SinglePagesNeedDistinct(list, cursorOf, k + 1);
      assert list[i + 1] == list[k + 1];
      assert cursorOf(list[i + 1])(list[i + 1]);
    }
  }

  ghost predicate PagesExact<T>(list: seq<T>, cursorOf: T -> T -> bool) {
    forall take: nat, k: nat :: take >= 1 ==> Page(list, cursorOf, take, k) == Slice(list, Offset(take, k), take)
  }

  lemma ExactSinglePages<T(!new)>(list: seq<T>, cursorOf: T -> T -> bool)
    requires PagesExact(list, cursorOf)
    ensures SinglePagesExact(list, cursorOf)
  {
    forall n: nat ensures Page(list, cursorOf, 1, n) == RowAt(list, n) {
      OffsetOfOne(n);
      SliceOne(list, n);
      assert Page(list, cursorOf, 1, n) == Slice(list, Offset(1, n), 1);
    }
  }

  /**
   * On an unchanged list every page of every page size is the next slice, so each row is
   * returned exactly once and in order and then nothing, exactly when no row's cursor
   * finds an earlier row.
   */
  lemma PagingIsExactIff<T(!new)>(list: seq<T>, cursorOf: T -> T -> bool)
    requires SelfFinding(cursorOf)
    ensures PagesExact(list, cursorOf) <==> DistinctCursors(list, cursorOf)
  {
    if DistinctCursors(list, cursorOf) {
      forall take: nat, k: nat | take >= 1 ensures Page(list, cursorOf, take, k) == Slice(list, Offset(take, k), take) {
        PagesAreSlices(list, cursorOf, take, k);
      }
    }
    if PagesExact(list, cursorOf) {
      ExactSinglePages(list, cursorOf);
      forall k | 0 <= k < |list| ensures FoundByCursor(list, cursorOf, k) {
        SinglePagesNeedDistinct(list, cursorOf, k);
      }
    }
  }

  // ---------------------------------------------------------------- whole runs

  function Pages<T>(list: seq<T>, cursorOf: T -> T -> bool, take: nat, n: nat): seq<T>
    decreases n
  {
    if n == 0 then [] else Pages(list, cursorOf, take, n - 1) + Page(list, cursorOf, take, n - 1)
  }

  lemma {:induction false} PagesJoin<T(!new)>(list: seq<T>, cursorOf: T -> T -> bool, take: nat, n: nat)
    requires SelfFinding(cursorOf) && DistinctCursors(list, cursorOf) && take >= 1
    ensures Pages(list, cursorOf, take, n) == Slice(list, 0, Offset(take, n))
    decreases n
  {
    hide Page, DistinctCursors, SelfFinding;
    if n > 0 {
      PagesJoin(list, cursorOf, take, n - 1);
      PagesAreSlices(list, cursorOf, take, n - 1);
      SlicesJoin(list, Offset(take, n - 1), take);
    }
  }

  lemma {:induction false} OffsetGrows(take: nat, n: nat)
    requires take >= 1
    ensures Offset(take, n) >= n
  {
    if n > 0 { OffsetGrows(take, n - 1); }
  }

  /** The first n pages are the first n * take rows; after the last row every page is empty. */
  lemma PagesAreComplete<T(!new)>(list: seq<T>, cursorOf: T -> T -> bool, take: nat, n: nat)
    requires SelfFinding(cursorOf) && DistinctCursors(list, cursorOf) && take >= 1
    ensures Pages(list, cursorOf, take, n) == Slice(list, 0, Offset(take, n))
    ensures n >= |list| ==> Pages(list, cursorOf, take, n) == list && Page(list, cursorOf, take, n) == []
  {
    PagesJoin(list, cursorOf, take, n);
    PagesAreSlices(list, cursorOf, take, n);
    OffsetGrows(take, n);
    if n >= |list| {
      SliceAll(list, Offset(take, n));
    }
  }
}
