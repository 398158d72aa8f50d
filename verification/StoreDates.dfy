/**
 * Unique keys of the in-memory store read as a database reads them: two Dates of one instant
 * are the same value. `create` and `update` compare with `===`, by identity
 * (__tests__/helpers/memory-db.ts:744-750, 801-808).
 */
module StoreDates {
  import opened Lists
  import opened Rows
  import opened Store
  import opened StoreSafety

  ghost predicate SameInstant(x: Value, y: Value) { x == y || (x.Date? && y.Date? && x.ms == y.ms) }

  ghost predicate AgreeAt(a: Row, b: Row, key: Key) {
    forall k :: k in key ==> SameInstant(Column(a, k), Column(b, k))
  }

  /** No two rows share a fully non-null tuple of any key, dates being their instants. */
  ghost predicate UniqueAt(keys: seq<Key>, rows: seq<Row>) {
    forall key, i, j :: key in keys && 0 <= i < j < |rows| && Full(rows[i], key) ==> !AgreeAt(rows[i], rows[j], key)
  }

  lemma UniqueAtIsUnique(keys: seq<Key>, rows: seq<Row>)
    requires UniqueAt(keys, rows)
    ensures Unique(keys, rows)
  {
    forall key, i, j | key in keys && 0 <= i < j < |rows| && Full(rows[i], key) ensures !Agree(rows[i], rows[j], key) {
      assert !AgreeAt(rows[i], rows[j], key);
    }
  }

  predicate HasDate(r: Row, key: Key) { exists k :: k in key && Column(r, k).Date? }

  /** Where one side has no date, the two readings of a key agree. */
  lemma WithoutDates(a: Row, b: Row, key: Key)
    requires !HasDate(a, key) || !HasDate(b, key)
    ensures AgreeAt(a, b, key) <==> Agree(a, b, key)
  {
    if Agree(a, b, key) {
      forall k | k in key ensures SameInstant(Column(a, k), Column(b, k)) {}
    }
    if AgreeAt(a, b, key) {
      forall k | k in key ensures Column(a, k) == Column(b, k) {
        assert SameInstant(Column(a, k), Column(b, k));
      }
    }
  }

  function Another(r: Ref): Ref { if r.Ours? then Theirs(r.n) else Ours(r.n) }

  // ---------------------------------------------------------------- create

  /** No key that the row fills holds a date. */
  ghost predicate NoDatedKey(keys: seq<Key>, row: Row) {
    forall key :: key in keys && Full(row, key) ==> !HasDate(row, key)
  }

  lemma SeedKeepsUniqueAt(s: Schema, db: Db, model: string, row: Row, now: int)
    requires UniqueAt(KeysOf(s, model), RowsOf(db, model)) && CreateSafe(KeysOf(s, model), DefaultsOf(s, model), row)
    requires NoDatedKey(KeysOf(s, model), row) && FirstClash(KeysOf(s, model), RowsOf(db, model), row).None?
    ensures UniqueAt(KeysOf(s, model), RowsOf(Seed(s, db, model, row, now), model))
  {
    hide Full, AgreeAt, Agree, HasDate, Seeded;
    var keys, rows, full := KeysOf(s, model), RowsOf(db, model), Seeded(s, db, model, row, now);
    var after := RowsOf(Seed(s, db, model, row, now), model);
    assert after == rows + [full];
    forall key, i, j | key in keys && 0 <= i < j < |after| && Full(after[i], key) ensures !AgreeAt(after[i], after[j], key) {
      if j == |rows| {
        NewRowDiffers(s, db, model, row, now, key, i);
      }
    }
  }

  lemma NewRowDiffers(s: Schema, db: Db, model: string, row: Row, now: int, key: Key, i: nat)
    requires CreateSafe(KeysOf(s, model), DefaultsOf(s, model), row) && NoDatedKey(KeysOf(s, model), row)
    requires FirstClash(KeysOf(s, model), RowsOf(db, model), row).None?
    requires key in KeysOf(s, model) && i < |RowsOf(db, model)| && Full(RowsOf(db, model)[i], key)
    ensures !AgreeAt(RowsOf(db, model)[i], Seeded(s, db, model, row, now), key)
  {
    var old_, full := RowsOf(db, model)[i], Seeded(s, db, model, row, now);
    if forall k :: k in key ==> SeedFills(DefaultsOf(s, model), row, k) {
      assert Full(row, key) && !HasDate(row, key);
      forall k | k in key ensures Column(full, k) == Column(row, k) {
        assert !Nullish(Column(row, k)) && k in row;
        SeededColumns(s, db, model, row, now, k);
      }
      assert !HasDate(full, key);
      WithoutDates(old_, full, key);
      assert !Agree(old_, row, key);
      var k :| k in key && Column(old_, k) != Column(row, k);
    } else {
      var k :| k in key && !SeedFills(DefaultsOf(s, model), row, k);
      SeededColumns(s, db, model, row, now, k);
      assert Nullish(Column(full, k)) && !Nullish(Column(old_, k));
    }
  }

  /** The row of a full, dated key again, with other Date objects of the same instants. */
  lemma DatedCreateWitness(s: Schema, model: string, row: Row, now: int, key: Key, k0: string) returns (db: Db)
    requires WellFormedKeys(KeysOf(s, model)) && key in KeysOf(s, model) && model !in s.legacy
    requires Full(row, key) && k0 in key && Column(row, k0).Date?
    ensures UniqueAt(KeysOf(s, model), RowsOf(db, model))
    ensures !UniqueAt(KeysOf(s, model), RowsOf(Create(s, db, model, row, now).0, model))
  {
    var keys, d := KeysOf(s, model), Column(row, k0);
    var twin := Restrict(row, key)[k0 := Date(Another(d.ref), d.ms)];
    db := EMPTY_DB.(tables := map[model := [twin]]);
    forall other | other in keys && Full(row, other) ensures !Agree(twin, row, other) {
      if forall k :: k in other ==> k in key {
        assert k0 in other && Column(twin, k0) != Column(row, k0);
      } else {
        var k :| k in other && k !in key;
        assert Column(twin, k) == Undefined;
      }
    }
    CreateAppends(s, db, model, row, now);
    var full := Seeded(s, db, model, row, now);
    forall k | k in key ensures SameInstant(Column(twin, k), Column(full, k)) && !Nullish(Column(twin, k)) {
      assert k in row && Column(full, k) == row[k];
    }
    var rows := [twin] + [full];
    assert rows[0] == twin && rows[1] == full && AgreeAt(rows[0], rows[1], key);
  }

  /**
   * `create` keeps the keys of every table, dates being their instants, exactly for rows
   * that leave no key to a default and fill no key that holds a date.
   */
  lemma CreateKeepsUniqueAtIff(s: Schema, model: string, row: Row, now: int)
    requires WellFormedKeys(KeysOf(s, model)) && model !in s.legacy
    ensures (forall db: Db :: UniqueAt(KeysOf(s, model), RowsOf(db, model))
               ==> UniqueAt(KeysOf(s, model), RowsOf(Create(s, db, model, row, now).0, model)))
            <==> CreateSafe(KeysOf(s, model), DefaultsOf(s, model), row) && NoDatedKey(KeysOf(s, model), row)
  {
    hide UniqueAt, Full, Seed;
    var keys := KeysOf(s, model);
    if !CreateSafe(keys, DefaultsOf(s, model), row) {
      var key :| key in keys && (forall k :: k in key ==> SeedFills(DefaultsOf(s, model), row, k)) && !Full(row, key);
      var db := UnsafeCreateWitness(s, model, row, now, key);
      OneRowIsUniqueAt(keys, RowsOf(db, model));
      var after := RowsOf(Create(s, db, model, row, now).0, model);
      if UniqueAt(keys, after) { UniqueAtIsUnique(keys, after); }
    } else if !NoDatedKey(keys, row) {
      var key :| key in keys && Full(row, key) && HasDate(row, key);
      var k0 :| k0 in key && Column(row, k0).Date?;
      var db := DatedCreateWitness(s, model, row, now, key, k0);
    } else {
      forall db: Db | UniqueAt(keys, RowsOf(db, model)) ensures UniqueAt(keys, RowsOf(Create(s, db, model, row, now).0, model)) {
        CreateStepKeepsUniqueAt(s, db, model, row, now);
      }
    }
  }

  lemma OneRowIsUniqueAt(keys: seq<Key>, rows: seq<Row>)
    requires |rows| <= 1
    ensures UniqueAt(keys, rows)
  {}

  lemma CreateStepKeepsUniqueAt(s: Schema, db: Db, model: string, row: Row, now: int)
    requires CreateSafe(KeysOf(s, model), DefaultsOf(s, model), row) && NoDatedKey(KeysOf(s, model), row)
    requires UniqueAt(KeysOf(s, model), RowsOf(db, model))
    ensures UniqueAt(KeysOf(s, model), RowsOf(Create(s, db, model, row, now).0, model))
    ensures forall other :: other != model ==> RowsOf(Create(s, db, model, row, now).0, other) == RowsOf(db, other)
  {
    hide UniqueAt;
    if Create(s, db, model, row, now).1.Stored? {
      SeedKeepsUniqueAt(s, db.(log := db.log + [LogEntry(model, "create")]), model, row, now);
    }
  }

  // ---------------------------------------------------------------- update

  /** `dated` are the columns that may hold dates. */
  ghost predicate Typed(keys: seq<Key>, dated: set<string>, rows: seq<Row>) {
    forall key, k, i :: key in keys && k in key && 0 <= i < |rows| && Column(rows[i], k).Date? ==> k in dated
  }

  ghost predicate TypedPatch(dated: set<string>, p: Patch) {
    forall k :: k in p && p[k].Set? && p[k].v.Date? ==> k in dated
  }

  predicate Touches(p: Patch, key: Key) { exists k :: k in key && Writes(p, k) }

  predicate NullsKey(p: Patch, key: Key) { exists k :: k in key && Nulls(p, k) }

  predicate WritesPlain(p: Patch, k: string) { Writes(p, k) && p[k].Set? && !p[k].v.Date? }

  /** A key the patch writes to is nulled, or the patch writes each of its dated columns, and no date. */
  ghost predicate DateSafe(keys: seq<Key>, dated: set<string>, p: Patch) {
    forall key :: key in keys && Touches(p, key) ==> NullsKey(p, key) || forall k :: k in key && k in dated ==> WritesPlain(p, k)
  }

  lemma UpdateKeepsUniqueAt(num: Numerals, keys: seq<Key>, dated: set<string>, rows: seq<Row>, i: nat, p: Patch, stamp: Value)
    requires WellFormedKeys(keys) && UniqueAt(keys, rows) && Typed(keys, dated, rows) && TypedPatch(dated, p) && i < |rows|
    requires UpdateSafe(keys, p) && DateSafe(keys, dated, p) && FirstTaken(keys, rows, i, p).None?
    ensures UniqueAt(keys, rows[i := Applied(num, rows[i], p, stamp)])
    ensures Typed(keys, dated, rows[i := Applied(num, rows[i], p, stamp)])
  {
    hide Full, AgreeAt, Applied, UpdateSafe, DateSafe;
    var row := Applied(num, rows[i], p, stamp);
    var after := rows[i := row];
    forall key, a, b | key in keys && 0 <= a < b < |after| && Full(after[a], key) ensures !AgreeAt(after[a], after[b], key) {
      if a == i {
        UpdatedRowDiffers(num, keys, dated, rows, i, p, stamp, key, b);
      } else if b == i {
        UpdatedRowDiffers(num, keys, dated, rows, i, p, stamp, key, a);
      }
    }
    forall key, k, j | key in keys && k in key && 0 <= j < |after| && Column(after[j], k).Date? ensures k in dated {
      if j == i { AppliedColumn(num, rows[i], p, stamp, k); }
    }
  }

  lemma AppliedColumn(num: Numerals, row: Row, p: Patch, stamp: Value, k: string)
    requires k != "updatedAt"
    ensures !Writes(p, k) ==> Column(Applied(num, row, p, stamp), k) == Column(row, k)
    ensures Writes(p, k) && p[k].Set? ==> Column(Applied(num, row, p, stamp), k) == p[k].v
    ensures Writes(p, k) && p[k].Delta? ==> Column(Applied(num, row, p, stamp), k).Num?
  {}

  lemma UpdatedRowDiffers(num: Numerals, keys: seq<Key>, dated: set<string>, rows: seq<Row>, i: nat, p: Patch, stamp: Value, key: Key, j: nat)
    requires WellFormedKeys(keys) && UniqueAt(keys, rows) && Typed(keys, dated, rows) && TypedPatch(dated, p) && key in keys
    requires UpdateSafe(keys, p) && DateSafe(keys, dated, p) && i < |rows| && j < |rows| && j != i && !Taken(rows, i, p, key)
    ensures var row := Applied(num, rows[i], p, stamp);
      && (Full(row, key) || Full(rows[j], key) ==> !AgreeAt(row, rows[j], key) && !AgreeAt(rows[j], row, key))
  {
    var row := Applied(num, rows[i], p, stamp);
    assert forall k :: k in key ==> k != "updatedAt";
    forall k | k in key ensures true { AppliedColumn(num, rows[i], p, stamp, k); }
    if NullsKey(p, key) {
      var n :| n in key && Nulls(p, n);
      assert Column(row, n) == Null;
    } else if !Touches(p, key) {
      forall k | k in key ensures Column(row, k) == Column(rows[i], k) { AppliedColumn(num, rows[i], p, stamp, k); }
      UntouchedDiffers(keys, rows, i, j, key, row);
    } else {
      forall k | k in key ensures !Column(row, k).Date? { AppliedColumn(num, rows[i], p, stamp, k); }
      assert !HasDate(row, key);
      WithoutDates(row, rows[j], key);
      WithoutDates(rows[j], row, key);
      UpdatedRowIsFree(num, keys, rows, i, p, stamp, key, j);
    }
  }

  lemma UntouchedDiffers(keys: seq<Key>, rows: seq<Row>, i: nat, j: nat, key: Key, row: Row)
    requires UniqueAt(keys, rows) && key in keys && i < |rows| && j < |rows| && i != j
    requires forall k :: k in key ==> Column(row, k) == Column(rows[i], k)
    ensures Full(row, key) || Full(rows[j], key) ==> !AgreeAt(row, rows[j], key) && !AgreeAt(rows[j], row, key)
  {
    if AgreeAt(rows[i], rows[j], key) {
      forall k | k in key ensures SameInstant(Column(rows[j], k), Column(rows[i], k)) {
        assert SameInstant(Column(rows[i], k), Column(rows[j], k));
      }
      assert AgreeAt(rows[j], rows[i], key);
      assert !Full(rows[if i < j then i else j], key);
    }
  }

  /** Lacks the columns of `key` the patch writes, and has a date in k0. */
  function DatedRow(p: Patch, key: Key, k0: string): Row {
    map k | k in key :: if Writes(p, k) then Null else if k == k0 then Date(Theirs(0), 0) else Str("x")
  }

  /** The patched row again, with another Date object in k0. */
  function DatedTwin(row: Row, key: Key, k0: string): Row
    requires Column(row, k0).Date?
  {
    Restrict(row, key)[k0 := Date(Another(Column(row, k0).ref), Column(row, k0).ms)]
  }

  lemma PatchedDatedRow(num: Numerals, keys: seq<Key>, p: Patch, stamp: Value, key: Key, k0: string)
    requires WellFormedKeys(keys) && UpdateSafe(keys, p) && key in keys
    requires !NullsKey(p, key) && k0 in key && !WritesPlain(p, k0)
    ensures var moved := Applied(num, DatedRow(p, key, k0), p, stamp);
      Full(moved, key) && Column(moved, k0).Date? && ProbeOf(DatedRow(p, key, k0), p, k0) == Plain(Column(moved, k0))
  {
    var a := DatedRow(p, key, k0);
    forall k | k in key ensures !Nullish(Column(Applied(num, a, p, stamp), k)) {
      assert k != "updatedAt" && !Increments(p, k) && !Nulls(p, k);
      AppliedColumn(num, a, p, stamp, k);
    }
    assert k0 != "updatedAt" && !Increments(p, k0) && !Nulls(p, k0);
    AppliedColumn(num, a, p, stamp, k0);
  }

  lemma DatedTwinIsFree(keys: seq<Key>, p: Patch, moved: Row, key: Key, k0: string, other: Key)
    requires WellFormedKeys(keys) && key in keys && other in keys && Touches(p, key) && k0 in key
    requires Column(moved, k0).Date? && ProbeOf(DatedRow(p, key, k0), p, k0) == Plain(Column(moved, k0))
    ensures var a := DatedRow(p, key, k0); !Full(a, other) && !Taken([a, DatedTwin(moved, key, k0)], 0, p, other)
  {
    var a, b := DatedRow(p, key, k0), DatedTwin(moved, key, k0);
    var t :| t in key && Writes(p, t);
    if forall k :: k in other ==> k in key {
      assert t in other && k0 in other;
      assert Column(a, t) == Null && Column(b, k0) != Column(moved, k0);
    } else {
      var k :| k in other && k !in key;
      assert Column(a, k) == Undefined && Column(b, k) == Undefined;
      if ProbeAgrees(b, a, p, other) {
        assert ProbeOf(a, p, k) == Plain(Undefined);
      }
    }
  }

  lemma DatedRowsAreTyped(num: Numerals, keys: seq<Key>, dated: set<string>, p: Patch, stamp: Value, key: Key, k0: string)
    requires WellFormedKeys(keys) && TypedPatch(dated, p) && key in keys && k0 in dated
    requires Column(Applied(num, DatedRow(p, key, k0), p, stamp), k0).Date?
    ensures var a := DatedRow(p, key, k0); Typed(keys, dated, [a, DatedTwin(Applied(num, a, p, stamp), key, k0)])
  {
    hide Applied;
    var a := DatedRow(p, key, k0);
    var rows := [a, DatedTwin(Applied(num, a, p, stamp), key, k0)];
    forall o, k, i | o in keys && k in o && 0 <= i < |rows| && Column(rows[i], k).Date? ensures k in dated {
      AppliedColumn(num, a, p, stamp, k);
    }
  }

  lemma TwinsBreakKeyAt(keys: seq<Key>, key: Key, moved: Row, k0: string)
    requires key in keys && Full(moved, key) && k0 in key && Column(moved, k0).Date?
    ensures !UniqueAt(keys, [moved, DatedTwin(moved, key, k0)])
  {
    var rows := [moved, DatedTwin(moved, key, k0)];
    assert Full(rows[0], key) && AgreeAt(rows[0], rows[1], key);
  }

  /** A table in which only the identity of two dates keeps two rows apart after the update. */
  lemma DatedUpdateWitness(num: Numerals, keys: seq<Key>, dated: set<string>, p: Patch, stamp: Value, key: Key, k0: string) returns (rows: seq<Row>)
    requires WellFormedKeys(keys) && TypedPatch(dated, p) && UpdateSafe(keys, p) && key in keys
    requires Touches(p, key) && !NullsKey(p, key) && k0 in key && k0 in dated && !WritesPlain(p, k0)
    ensures |rows| == 2 && Typed(keys, dated, rows) && UniqueAt(keys, rows) && FirstTaken(keys, rows, 0, p).None?
    ensures !UniqueAt(keys, rows[0 := Applied(num, rows[0], p, stamp)])
  {
    hide Full, Taken, Applied, DatedRow, DatedTwin, Touches, NullsKey, WritesPlain, UpdateSafe;
    PatchedDatedRow(num, keys, p, stamp, key, k0);
    var a := DatedRow(p, key, k0);
    var moved := Applied(num, a, p, stamp);
    rows := [a, DatedTwin(moved, key, k0)];
    forall other | other in keys ensures !Full(a, other) && !Taken(rows, 0, p, other) {
      DatedTwinIsFree(keys, p, moved, key, k0, other);
    }
    DatedRowsAreTyped(num, keys, dated, p, stamp, key, k0);
    TwinsBreakKeyAt(keys, key, moved, k0);
    assert rows[0 := moved] == [moved, DatedTwin(moved, key, k0)];
  }

  /**
   * An update keeps the keys of every table with its dates in the columns `dated` exactly
   * when it increments no key column of a key it does not null, and each key it writes to is
   * nulled or gets all its dated columns written, with values that are no dates.
   */
  lemma UpdateKeepsUniqueAtIff(num: Numerals, keys: seq<Key>, dated: set<string>, p: Patch, stamp: Value)
    requires WellFormedKeys(keys) && TypedPatch(dated, p)
    ensures (forall rows: seq<Row>, i: nat :: i < |rows| && Typed(keys, dated, rows) && UniqueAt(keys, rows) && FirstTaken(keys, rows, i, p).None?
               ==> UniqueAt(keys, rows[i := Applied(num, rows[i], p, stamp)]))
            <==> UpdateSafe(keys, p) && DateSafe(keys, dated, p)
  {
    hide UniqueAt, Applied, Typed;
    if !UpdateSafe(keys, p) {
      var key :| key in keys && (exists k :: k in key && Increments(p, k)) && !exists k :: k in key && Nulls(p, k);
      var rows := UnsafeUpdateWitness(num, keys, p, stamp, key);
      WitnessIsTyped(num, keys, dated, p, stamp, key);
      var after := rows[0 := Applied(num, rows[0], p, stamp)];
      if UniqueAt(keys, after) { UniqueAtIsUnique(keys, after); }
    } else if !DateSafe(keys, dated, p) {
      var key :| key in keys && Touches(p, key) && !NullsKey(p, key) && !forall k :: k in key && k in dated ==> WritesPlain(p, k);
      var k0 :| k0 in key && k0 in dated && !WritesPlain(p, k0);
      var rows := DatedUpdateWitness(num, keys, dated, p, stamp, key, k0);
    } else {
      forall rows: seq<Row>, i: nat | i < |rows| && Typed(keys, dated, rows) && UniqueAt(keys, rows) && FirstTaken(keys, rows, i, p).None?
        ensures UniqueAt(keys, rows[i := Applied(num, rows[i], p, stamp)])
      {
        UpdateKeepsUniqueAt(num, keys, dated, rows, i, p, stamp);
      }
    }
  }

  lemma WitnessIsTyped(num: Numerals, keys: seq<Key>, dated: set<string>, p: Patch, stamp: Value, key: Key)
    requires WellFormedKeys(keys) && key in keys && TypedPatch(dated, p) && forall other :: other in keys ==> !Full(NulledRow(p, key), other)
    ensures var a := NulledRow(p, key); var rows := [a, Restrict(Applied(num, a, p, stamp), key)];
      Typed(keys, dated, rows) && UniqueAt(keys, rows)
  {
    hide Full, AgreeAt, Applied;
    var a := NulledRow(p, key);
    var rows := [a, Restrict(Applied(num, a, p, stamp), key)];
    forall o, k, i | o in keys && k in o && 0 <= i < |rows| && Column(rows[i], k).Date? ensures k in dated {
      AppliedColumn(num, a, p, stamp, k);
    }
  }

  // ---------------------------------------------------------------- runs

  /** The row stored for `row` has dates in key columns only where dates may be. */
  ghost predicate TypedRow(keys: seq<Key>, dated: set<string>, defaults: Row, row: Row) {
    forall key, k :: key in keys && k in key ==>
      if k in row then row[k].Date? ==> k in dated
      else (k == "createdAt" ==> k in dated) && (k in defaults && defaults[k].Date? ==> k in dated)
  }

  ghost predicate SafeRow(s: Schema, model: string, dated: set<string>, row: Row) {
    && CreateSafe(KeysOf(s, model), DefaultsOf(s, model), row) && NoDatedKey(KeysOf(s, model), row)
    && TypedRow(KeysOf(s, model), dated, DefaultsOf(s, model), row)
  }

  ghost predicate SafeOpAt(s: Schema, dated: string -> set<string>, op: Op) {
    match op
    case CreateOp(model, row, _) => SafeRow(s, model, dated(model), row)
    case CreateManyOp(model, data, _, _) => forall row :: row in data ==> SafeRow(s, model, dated(model), row)
    case UpdateOp(model, _, patch, _) =>
      UpdateSafe(KeysOf(s, model), patch) && DateSafe(KeysOf(s, model), dated(model), patch) && TypedPatch(dated(model), patch)
    case _ => true
  }

  ghost predicate KeptAt(s: Schema, dated: string -> set<string>, db: Db, model: string) {
    UniqueAt(KeysOf(s, model), RowsOf(db, model)) && Typed(KeysOf(s, model), dated(model), RowsOf(db, model))
  }

  lemma SeedStaysTyped(s: Schema, dated: set<string>, db: Db, model: string, row: Row, now: int)
    requires WellFormedKeys(KeysOf(s, model)) && Typed(KeysOf(s, model), dated, RowsOf(db, model))
    requires TypedRow(KeysOf(s, model), dated, DefaultsOf(s, model), row)
    ensures Typed(KeysOf(s, model), dated, RowsOf(Seed(s, db, model, row, now), model))
  {
    var keys, rows, full := KeysOf(s, model), RowsOf(db, model), Seeded(s, db, model, row, now);
    forall key, k | key in keys && k in key && Column(full, k).Date? ensures k in dated {
      assert k != "updatedAt";
    }
  }

  lemma {:induction false} BatchKeepsAt(s: Schema, dated: string -> set<string>, db: Db, model: string, data: seq<Row>, skip: bool, now: int, count: nat)
    requires WellFormedKeys(KeysOf(s, model)) && KeptAt(s, dated, db, model)
    requires forall row :: row in data ==> SafeRow(s, model, dated(model), row)
    ensures var after := CreateManyFrom(s, db, model, data, skip, now, count).0;
      KeptAt(s, dated, after, model) && (forall other :: other != model ==> RowsOf(after, other) == RowsOf(db, other))
    decreases |data|
  {
    hide UniqueAt, Typed, WellFormedKeys, CreateSafe, NoDatedKey, TypedRow, FirstClash;
    if data != [] {
      assert data[0] in data;
      if FirstClash(KeysOf(s, model), RowsOf(db, model), data[0]).Some? {
        BatchKeepsAt(s, dated, db, model, data[1..], skip, now, count);
      } else {
        SeedKeepsUniqueAt(s, db, model, data[0], now);
        SeedStaysTyped(s, dated(model), db, model, data[0], now);
        BatchKeepsAt(s, dated, Seed(s, db, model, data[0], now), model, data[1..], skip, now, count + 1);
      }
    }
  }

  ghost function ApartAt(key: Key): (Row, Row) -> bool { (a: Row, b: Row) => Full(a, key) ==> !AgreeAt(a, b, key) }

  lemma PairwiseUniqueAt(keys: seq<Key>, rows: seq<Row>)
    ensures UniqueAt(keys, rows) <==> forall key :: key in keys ==> Pairwise(ApartAt(key), rows)
  {
    hide Full, AgreeAt;
    if forall key :: key in keys ==> Pairwise(ApartAt(key), rows) {
      forall key, i, j | key in keys && 0 <= i < j < |rows| && Full(rows[i], key) ensures !AgreeAt(rows[i], rows[j], key) {
        assert ApartAt(key)(rows[i], rows[j]);
      }
    }
  }

  lemma PartKeepsUniqueAt(keys: seq<Key>, rows: seq<Row>, keep: Row -> bool, i: nat)
    requires UniqueAt(keys, rows)
    ensures UniqueAt(keys, Filter(rows, keep))
    ensures i < |rows| ==> UniqueAt(keys, rows[..i] + rows[i + 1..])
  {
    hide UniqueAt, Pairwise, Filter;
    PairwiseUniqueAt(keys, rows);
    PairwiseUniqueAt(keys, Filter(rows, keep));
    if i < |rows| { PairwiseUniqueAt(keys, rows[..i] + rows[i + 1..]); }
    forall key | key in keys
      ensures Pairwise(ApartAt(key), Filter(rows, keep)) && (i < |rows| ==> Pairwise(ApartAt(key), rows[..i] + rows[i + 1..]))
    {
      PartIsPairwise(ApartAt(key), rows, keep, i);
    }
  }

  lemma PartStaysTyped(keys: seq<Key>, dated: set<string>, rows: seq<Row>, part: seq<Row>)
    requires Typed(keys, dated, rows) && forall r :: r in part ==> r in rows
    ensures Typed(keys, dated, part)
  {
    forall key, k, i | key in keys && k in key && 0 <= i < |part| && Column(part[i], k).Date? ensures k in dated {
      assert part[i] in rows;
    }
  }

  lemma FilterStaysTyped(keys: seq<Key>, dated: set<string>, rows: seq<Row>, keep: Row -> bool)
    requires Typed(keys, dated, rows)
    ensures Typed(keys, dated, Filter(rows, keep))
  {
    hide Typed, Filter;
    FilterMembers(rows, keep);
    PartStaysTyped(keys, dated, rows, Filter(rows, keep));
  }

  lemma RemovedStaysTyped(keys: seq<Key>, dated: set<string>, rows: seq<Row>, i: nat)
    requires Typed(keys, dated, rows) && i < |rows|
    ensures Typed(keys, dated, rows[..i] + rows[i + 1..])
  {
    hide Typed;
    RemovedMembers(rows, i);
    PartStaysTyped(keys, dated, rows, rows[..i] + rows[i + 1..]);
  }

  lemma PartKeepsAt(s: Schema, dated: string -> set<string>, db: Db, model: string, where: Row -> bool)
    requires KeptAt(s, dated, db, model)
    ensures KeptAt(s, dated, Delete(db, model, where), model) && KeptAt(s, dated, DeleteMany(db, model, where), model)
  {
    hide UniqueAt, Typed, Filter;
    var keys, rows := KeysOf(s, model), RowsOf(db, model);
    var i := FirstHit(rows, where);
    PartKeepsUniqueAt(keys, rows, Not(where), i);
    FilterStaysTyped(keys, dated(model), rows, Not(where));
    if i < |rows| { RemovedStaysTyped(keys, dated(model), rows, i); }
  }

  lemma StepKeepsAt(s: Schema, dated: string -> set<string>, db: Db, op: Op)
    requires WellFormedKeys(KeysOf(s, op.model)) && KeptAt(s, dated, db, op.model) && SafeOpAt(s, dated, op)
    ensures KeptAt(s, dated, Step(s, db, op), op.model)
    ensures forall other :: other != op.model ==> RowsOf(Step(s, db, op), other) == RowsOf(db, other)
  {
    hide UniqueAt, Typed, WellFormedKeys, CreateSafe, NoDatedKey, TypedRow, FirstClash, UpdateSafe, DateSafe, FirstTaken, Applied, TypedPatch;
    match op
    case CreateOp(model, row, now) =>
      if Create(s, db, model, row, now).1.Stored? {
        var logged := db.(log := db.log + [LogEntry(model, "create")]);
        SeedKeepsUniqueAt(s, logged, model, row, now);
        SeedStaysTyped(s, dated(model), logged, model, row, now);
      }
    case CreateManyOp(model, data, skip, now) => BatchKeepsAt(s, dated, db, model, data, skip, now, 0);
    case UpdateOp(model, where, patch, now) =>
      if Update(s, db, model, where, patch, now).1.Stored? {
        UpdateKeepsUniqueAt(s.num, KeysOf(s, model), dated(model), RowsOf(db, model), FirstHit(RowsOf(db, model), where), patch, Date(Ours(db.dates), now));
      }
    case DeleteOp(model, where) => PartKeepsAt(s, dated, db, model, where);
    case DeleteManyOp(model, where) => PartKeepsAt(s, dated, db, model, where);
  }

  /** From the empty store, every run of calls that are safe for dates keeps every key, dates being their instants. */
  lemma {:induction false} EveryRunIsUniqueAt(s: Schema, dated: string -> set<string>, db: Db, ops: seq<Op>)
    requires forall model :: WellFormedKeys(KeysOf(s, model)) && KeptAt(s, dated, db, model)
    requires forall op :: op in ops ==> SafeOpAt(s, dated, op)
    ensures forall model :: KeptAt(s, dated, Run(s, db, ops), model)
    decreases |ops|
  {
    hide Step, SafeOpAt, WellFormedKeys, UniqueAt, Typed;
    if ops != [] {
      assert ops[0] in ops;
      StepKeepsAt(s, dated, db, ops[0]);
      EveryRunIsUniqueAt(s, dated, Step(s, db, ops[0]), ops[1..]);
    }
  }

  lemma EveryReachableStateIsUniqueAt(s: Schema, dated: string -> set<string>, ops: seq<Op>)
    requires forall model :: WellFormedKeys(KeysOf(s, model))
    requires forall op :: op in ops ==> SafeOpAt(s, dated, op)
    ensures forall model :: UniqueAt(KeysOf(s, model), RowsOf(Run(s, EMPTY_DB, ops), model))
  {
    hide UniqueAt, Typed, WellFormedKeys, SafeOpAt, Run;
    forall model ensures KeptAt(s, dated, EMPTY_DB, model) {
      EmptyIsKept(s, dated, model);
    }
    EveryRunIsUniqueAt(s, dated, EMPTY_DB, ops);
    forall model ensures UniqueAt(KeysOf(s, model), RowsOf(Run(s, EMPTY_DB, ops), model)) {
      assert KeptAt(s, dated, Run(s, EMPTY_DB, ops), model);
    }
  }

  lemma EmptyIsKept(s: Schema, dated: string -> set<string>, model: string)
    ensures KeptAt(s, dated, EMPTY_DB, model)
  {}
}
