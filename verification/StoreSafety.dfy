/**
 * Which calls keep the unique keys of the in-memory store, over every run.
 */
module StoreSafety {
  import opened Lists
  import opened Rows
  import opened Store
  import Paging
  import Queries
  import Text

  /** No key of a model is part of another one, and none holds the column every update rewrites. */
  ghost predicate WellFormedKeys(keys: seq<Key>) {
    && (forall key :: key in keys ==> "updatedAt" !in key)
    && (forall a, b :: a in keys && b in keys && (forall k :: k in a ==> k in b) ==> (forall k :: k in b ==> k in a))
  }

  // ---------------------------------------------------------------- create

  /** Column k holds something once the row is laid over the defaults. */
  predicate SeedFills(defaults: Row, row: Row, k: string) {
    if k in row then !Nullish(row[k])
    else k == "id" || k == "createdAt" || k == "updatedAt" || !Nullish(Column(defaults, k))
  }

  /** The caller spells out every key that the defaults would otherwise complete. */
  ghost predicate CreateSafe(keys: seq<Key>, defaults: Row, row: Row) {
    forall key :: key in keys && (forall k :: k in key ==> SeedFills(defaults, row, k)) ==> Full(row, key)
  }

  lemma SeededColumns(s: Schema, db: Db, model: string, row: Row, now: int, k: string)
    ensures !Nullish(Column(Seeded(s, db, model, row, now), k)) <==> SeedFills(DefaultsOf(s, model), row, k)
    ensures k in row ==> Column(Seeded(s, db, model, row, now), k) == row[k]
  {}

  lemma SeedKeepsUnique(s: Schema, db: Db, model: string, row: Row, now: int)
    requires Unique(KeysOf(s, model), RowsOf(db, model)) && CreateSafe(KeysOf(s, model), DefaultsOf(s, model), row)
    requires FirstClash(KeysOf(s, model), RowsOf(db, model), row).None?
    ensures Unique(KeysOf(s, model), RowsOf(Seed(s, db, model, row, now), model))
  {
    var keys, rows, full := KeysOf(s, model), RowsOf(db, model), Seeded(s, db, model, row, now);
    forall key, i | key in keys && 0 <= i < |rows| && Full(rows[i], key) ensures !Agree(rows[i], full, key) {
      if Agree(rows[i], full, key) {
        forall k | k in key ensures SeedFills(DefaultsOf(s, model), row, k) {
          SeededColumns(s, db, model, row, now, k);
          assert Column(rows[i], k) == Column(full, k);
        }
        assert Full(row, key);
        forall k | k in key ensures Column(rows[i], k) == Column(row, k) {
          SeededColumns(s, db, model, row, now, k);
        }
        assert false;
      }
    }
  }

  function Restrict(r: Row, key: Key): Row {
    map k | k in r && k in key :: r[k]
  }

  /**
   * `create` checks the row before the defaults are added. It keeps the keys of every
   * table intact exactly for rows that leave no key to be completed by a default.
   */
  lemma CreateKeepsUniqueIff(s: Schema, model: string, row: Row, now: int)
    requires WellFormedKeys(KeysOf(s, model))
    requires model !in s.legacy
    ensures (forall db: Db :: Unique(KeysOf(s, model), RowsOf(db, model))
               ==> Unique(KeysOf(s, model), RowsOf(Create(s, db, model, row, now).0, model)))
            <==> CreateSafe(KeysOf(s, model), DefaultsOf(s, model), row)
  {
    var keys := KeysOf(s, model);
    if CreateSafe(keys, DefaultsOf(s, model), row) {
      forall db: Db | Unique(keys, RowsOf(db, model)) ensures Unique(keys, RowsOf(Create(s, db, model, row, now).0, model)) {
        var logged := db.(log := db.log + [LogEntry(model, "create")]);
        if Create(s, db, model, row, now).1.Stored? {
          SeedKeepsUnique(s, logged, model, row, now);
        }
      }
    } else {
      var key :| key in keys && (forall k :: k in key ==> SeedFills(DefaultsOf(s, model), row, k)) && !Full(row, key);
      var db := UnsafeCreateWitness(s, model, row, now, key);
    }
  }

  lemma CreateAppends(s: Schema, db: Db, model: string, row: Row, now: int)
    requires model !in s.legacy
    requires FirstClash(KeysOf(s, model), RowsOf(db, model), row).None?
    ensures RowsOf(Create(s, db, model, row, now).0, model) == RowsOf(db, model) + [Seeded(s, db, model, row, now)]
    ensures Create(s, db, model, row, now).1.Stored?
  {
    var logged := db.(log := db.log + [LogEntry(model, "create")]);
    assert Seeded(s, logged, model, row, now) == Seeded(s, db, model, row, now);
  }

  /** A table with one row that the unsafe create duplicates. */
  lemma UnsafeCreateWitness(s: Schema, model: string, row: Row, now: int, key: Key) returns (db: Db)
    requires WellFormedKeys(KeysOf(s, model)) && key in KeysOf(s, model)
    requires model !in s.legacy
    requires (forall k :: k in key ==> SeedFills(DefaultsOf(s, model), row, k)) && !Full(row, key)
    ensures Unique(KeysOf(s, model), RowsOf(db, model)) && |RowsOf(db, model)| == 1
    ensures !Unique(KeysOf(s, model), RowsOf(Create(s, db, model, row, now).0, model))
  {
    hide FirstClash, WellFormedKeys, Unique;
    var keys := KeysOf(s, model);
    var full := Seeded(s, EMPTY_DB, model, row, now);
    var twin := Restrict(full, key);
    db := EMPTY_DB.(tables := map[model := [twin]]);
    forall other | other in keys && Full(row, other) ensures !Agree(twin, row, other) {
      OtherKeysSeeNoTwin(keys, full, row, key, other);
    }
    CreateAppends(s, db, model, row, now);
    assert Seeded(s, db, model, row, now) == full;
    forall k | k in key ensures Column(twin, k) == Column(full, k) && !Nullish(Column(twin, k)) {
      SeededColumns(s, EMPTY_DB, model, row, now, k);
    }
    TwinsBreakKey(keys, key, twin, full);
  }

  /** A row holding only the columns of `key` cannot stand in the way of another key. */
  lemma OtherKeysSeeNoTwin(keys: seq<Key>, full: Row, row: Row, key: Key, other: Key)
    requires WellFormedKeys(keys) && key in keys && other in keys
    requires Full(row, other) && !Full(row, key)
    ensures !Agree(Restrict(full, key), row, other)
  {
    var lacking :| lacking in key && Nullish(Column(row, lacking));
    assert lacking !in other;
    var k :| k in other && k !in key;
    assert Column(Restrict(full, key), k) == Undefined;
  }

  lemma TwinsBreakKey(keys: seq<Key>, key: Key, a: Row, b: Row)
    requires key in keys && Full(a, key) && Agree(a, b, key)
    ensures !Unique(keys, [a] + [b]) && Unique(keys, [a])
  {
    var rows := [a] + [b];
    assert rows[0] == a && rows[1] == b;
  }

  // ---------------------------------------------------------------- createMany

  predicate Clashes(s: Schema, db: Db, model: string, row: Row) {
    FirstClash(KeysOf(s, model), RowsOf(db, model), row).Some?
  }

  function SeedAll(s: Schema, db: Db, model: string, data: seq<Row>, now: int): Db
    decreases |data|
  {
    if data == [] then db else SeedAll(s, Seed(s, db, model, data[0], now), model, data[1..], now)
  }

  lemma {:induction false} SeedAllAdds(s: Schema, db: Db, model: string, data: seq<Row>, now: int)
    ensures |RowsOf(SeedAll(s, db, model, data, now), model)| == |RowsOf(db, model)| + |data|
    decreases |data|
  {
    if data != [] {
      SeedAllAdds(s, Seed(s, db, model, data[0], now), model, data[1..], now);
    }
  }

  lemma SeedAllFirst(s: Schema, db: Db, model: string, data: seq<Row>, k: nat, now: int)
    requires k < |data|
    ensures SeedAll(s, db, model, data[..k + 1], now) == SeedAll(s, Seed(s, db, model, data[0], now), model, data[1..][..k], now)
  {
    assert data[..k + 1][1..] == data[1..][..k];
  }

  /**
   * Without skipDuplicates a rejected batch keeps the rows stored before the clash: it is
   * the same as storing the prefix alone, and it leaves the table as it was exactly when
   * the very first row is the one that clashes.
   */
  lemma {:induction false} RejectedBatchKeepsPrefix(s: Schema, db: Db, model: string, data: seq<Row>, now: int, count: nat) returns (k: nat)
    requires CreateManyFrom(s, db, model, data, false, now, count).1.BatchDuplicate?
    ensures k < |data|
    ensures CreateManyFrom(s, db, model, data, false, now, count).0 == SeedAll(s, db, model, data[..k], now)
    ensures |RowsOf(SeedAll(s, db, model, data[..k], now), model)| == |RowsOf(db, model)| + k
    ensures Clashes(s, SeedAll(s, db, model, data[..k], now), model, data[k])
    ensures k == 0 <==> Clashes(s, db, model, data[0])
    decreases |data|
  {
    hide Seed, FirstClash;
    if Clashes(s, db, model, data[0]) {
      k := 0;
      assert data[..0] == [];
    } else {
      var j := RejectedBatchKeepsPrefix(s, Seed(s, db, model, data[0], now), model, data[1..], now, count + 1);
      SeedAllFirst(s, db, model, data, j, now);
      k := j + 1;
    }
    SeedAllAdds(s, db, model, data[..k], now);
  }

  /** With skipDuplicates no batch is rejected, and the count is the number of rows added. */
  lemma {:induction false} SkippingBatchCounts(s: Schema, db: Db, model: string, data: seq<Row>, now: int, count: nat)
    ensures var r := CreateManyFrom(s, db, model, data, true, now, count);
      r.1.Counted? && |RowsOf(r.0, model)| - |RowsOf(db, model)| == r.1.count - count
    decreases |data|
  {
    hide FirstClash, Seeded;
    if data != [] {
      if Clashes(s, db, model, data[0]) {
        SkippingBatchCounts(s, db, model, data[1..], now, count);
      } else {
        SkippingBatchCounts(s, Seed(s, db, model, data[0], now), model, data[1..], now, count + 1);
      }
    }
  }

  lemma {:induction false} BatchKeepsUnique(s: Schema, db: Db, model: string, data: seq<Row>, skip: bool, now: int, count: nat)
    requires Unique(KeysOf(s, model), RowsOf(db, model))
    requires forall row :: row in data ==> CreateSafe(KeysOf(s, model), DefaultsOf(s, model), row)
    ensures var after := CreateManyFrom(s, db, model, data, skip, now, count).0;
      Unique(KeysOf(s, model), RowsOf(after, model)) && (forall other :: other != model ==> RowsOf(after, other) == RowsOf(db, other))
    decreases |data|
  {
    if data != [] {
      assert data[0] in data;
      if Clashes(s, db, model, data[0]) {
        BatchKeepsUnique(s, db, model, data[1..], skip, now, count);
      } else {
        SeedKeepsUnique(s, db, model, data[0], now);
        BatchKeepsUnique(s, Seed(s, db, model, data[0], now), model, data[1..], skip, now, count + 1);
      }
    }
  }

  // ---------------------------------------------------------------- update

  /** A key that is incremented is nulled at the same time. */
  ghost predicate UpdateSafe(keys: seq<Key>, p: Patch) {
    forall key :: key in keys && (exists k :: k in key && Increments(p, k)) ==> exists k :: k in key && Nulls(p, k)
  }

  lemma UpdateKeepsUnique(num: Numerals, keys: seq<Key>, rows: seq<Row>, i: nat, p: Patch, stamp: Value)
    requires WellFormedKeys(keys) && Unique(keys, rows) && i < |rows| && UpdateSafe(keys, p)
    requires FirstTaken(keys, rows, i, p).None?
    ensures Unique(keys, rows[i := Applied(num, rows[i], p, stamp)])
  {
    var row := Applied(num, rows[i], p, stamp);
    var after := rows[i := row];
    forall key, a, b | key in keys && 0 <= a < b < |after| && Full(after[a], key) ensures !Agree(after[a], after[b], key) {
      if a == i {
        UpdatedRowIsFree(num, keys, rows, i, p, stamp, key, b);
      } else if b == i {
        UpdatedRowIsFree(num, keys, rows, i, p, stamp, key, a);
      }
    }
  }

  lemma UpdatedRowIsFree(num: Numerals, keys: seq<Key>, rows: seq<Row>, i: nat, p: Patch, stamp: Value, key: Key, j: nat)
    requires WellFormedKeys(keys) && key in keys && UpdateSafe(keys, p)
    requires i < |rows| && j < |rows| && j != i && !Taken(rows, i, p, key)
    ensures var row := Applied(num, rows[i], p, stamp);
      Full(row, key) ==> !Agree(row, rows[j], key) && !Agree(rows[j], row, key)
    ensures var row := Applied(num, rows[i], p, stamp);
      Full(rows[j], key) ==> !Agree(row, rows[j], key) && !Agree(rows[j], row, key)
  {
    var row := Applied(num, rows[i], p, stamp);
    assert forall k :: k in key ==> k != "updatedAt";
    if n :| n in key && Nulls(p, n) {
      assert Column(row, n) == Null;
    } else {
      assert forall k :: k in key ==> !Increments(p, k);
      forall k | k in key ensures ProbeOf(rows[i], p, k) == Plain(Column(row, k)) {}
      if ProbeFull(rows[i], p, key) {
        assert !ProbeAgrees(rows[j], rows[i], p, key);
      } else {
        var k :| k in key && Nullish(Column(row, k));
      }
    }
  }

  /**
   * The check compares the operator object `{ increment }` itself, which equals nothing.
   * An update keeps the keys of every table exactly when it increments no key column, or
   * only columns of keys it nulls anyway.
   */
  lemma UpdateKeepsUniqueIff(num: Numerals, keys: seq<Key>, p: Patch, stamp: Value)
    requires WellFormedKeys(keys)
    ensures (forall rows: seq<Row>, i: nat :: i < |rows| && Unique(keys, rows) && FirstTaken(keys, rows, i, p).None?
               ==> Unique(keys, rows[i := Applied(num, rows[i], p, stamp)]))
            <==> UpdateSafe(keys, p)
  {
    if UpdateSafe(keys, p) {
      forall rows: seq<Row>, i: nat | i < |rows| && Unique(keys, rows) && FirstTaken(keys, rows, i, p).None?
        ensures Unique(keys, rows[i := Applied(num, rows[i], p, stamp)])
      {
        UpdateKeepsUnique(num, keys, rows, i, p, stamp);
      }
    } else {
      var key :| key in keys && (exists k :: k in key && Increments(p, k)) && !exists k :: k in key && Nulls(p, k);
      var rows := UnsafeUpdateWitness(num, keys, p, stamp, key);
    }
  }

  /** A row that lacks the columns of `key` the patch increments. */
  function NulledRow(p: Patch, key: Key): Row {
    map k | k in key :: if Increments(p, k) then Null else Str("x")
  }

  lemma UnsafeUpdateWitness(num: Numerals, keys: seq<Key>, p: Patch, stamp: Value, key: Key) returns (rows: seq<Row>)
    requires WellFormedKeys(keys) && key in keys
    requires (exists k :: k in key && Increments(p, k)) && !exists k :: k in key && Nulls(p, k)
    ensures |rows| == 2 && Unique(keys, rows) && FirstTaken(keys, rows, 0, p).None?
    ensures rows == [NulledRow(p, key), Restrict(Applied(num, NulledRow(p, key), p, stamp), key)]
    ensures forall other :: other in keys ==> !Full(NulledRow(p, key), other)
    ensures !Unique(keys, rows[0 := Applied(num, rows[0], p, stamp)])
  {
    hide Full, Taken, Applied, Restrict, NulledRow;
    var a := NulledRow(p, key);
    var moved := Applied(num, a, p, stamp);
    rows := [a, Restrict(moved, key)];
    forall other | other in keys ensures !Full(a, other) && !Taken(rows, 0, p, other) {
      NulledRowIsFree(keys, p, moved, key, other);
    }
    NulledRowMoves(num, keys, p, stamp, key);
    assert rows[0 := moved] == [moved] + [Restrict(moved, key)];
    TwinsBreakKey(keys, key, moved, Restrict(moved, key));
  }

  lemma NulledRowIsFree(keys: seq<Key>, p: Patch, moved: Row, key: Key, other: Key)
    requires WellFormedKeys(keys) && key in keys && other in keys && exists k :: k in key && Increments(p, k)
    ensures var a := NulledRow(p, key); !Full(a, other) && !Taken([a, Restrict(moved, key)], 0, p, other)
  {
    var a, b := NulledRow(p, key), Restrict(moved, key);
    var k0 :| k0 in key && Increments(p, k0);
    if forall k :: k in other ==> k in key {
      assert k0 in other;
      assert Column(a, k0) == Null;
      assert ProbeOf(a, p, k0) == Operator;
    } else {
      var k :| k in other && k !in key;
      assert Column(a, k) == Undefined && Column(b, k) == Undefined;
      if ProbeAgrees(b, a, p, other) {
        assert ProbeOf(a, p, k) == Plain(Undefined);
      }
    }
  }

  lemma NulledRowMoves(num: Numerals, keys: seq<Key>, p: Patch, stamp: Value, key: Key)
    requires WellFormedKeys(keys) && key in keys && !exists k :: k in key && Nulls(p, k)
    ensures var moved := Applied(num, NulledRow(p, key), p, stamp); Full(moved, key) && Agree(moved, Restrict(moved, key), key)
  {
    var moved := Applied(num, NulledRow(p, key), p, stamp);
    forall k | k in key ensures !Nullish(Column(moved, k)) && Column(moved, k) == Column(Restrict(moved, key), k) {
      assert k != "updatedAt" && !Nulls(p, k);
    }
  }

  // ---------------------------------------------------------------- deletes

  function Apart(key: Key): (Row, Row) -> bool { (a: Row, b: Row) => Full(a, key) ==> !Agree(a, b, key) }

  lemma PartKeepsUnique(keys: seq<Key>, rows: seq<Row>, keep: Row -> bool, i: nat)
    requires Unique(keys, rows)
    ensures Unique(keys, Filter(rows, keep))
    ensures i < |rows| ==> Unique(keys, rows[..i] + rows[i + 1..])
  {
    hide Full, Agree;
    forall key | key in keys
      ensures Pairwise(Apart(key), Filter(rows, keep)) && (i < |rows| ==> Pairwise(Apart(key), rows[..i] + rows[i + 1..]))
    {
      PartIsPairwise(Apart(key), rows, keep, i);
    }
    forall key, a, b | key in keys && 0 <= a < b < |Filter(rows, keep)| && Full(Filter(rows, keep)[a], key)
      ensures !Agree(Filter(rows, keep)[a], Filter(rows, keep)[b], key)
    {
      assert Apart(key)(Filter(rows, keep)[a], Filter(rows, keep)[b]);
    }
    if i < |rows| {
      var rest := rows[..i] + rows[i + 1..];
      forall key, a, b | key in keys && 0 <= a < b < |rest| && Full(rest[a], key) ensures !Agree(rest[a], rest[b], key) {
        assert Apart(key)(rest[a], rest[b]);
      }
    }
  }

  // ---------------------------------------------------------------- runs

  datatype Op =
    | CreateOp(model: string, row: Row, now: int)
    | CreateManyOp(model: string, data: seq<Row>, skipDuplicates: bool, now: int)
    | UpdateOp(model: string, where: Row -> bool, patch: Patch, now: int)
    | DeleteOp(model: string, where: Row -> bool)
    | DeleteManyOp(model: string, where: Row -> bool)

  function Step(s: Schema, db: Db, op: Op): Db {
    match op
    case CreateOp(model, row, now) => Create(s, db, model, row, now).0
    case CreateManyOp(model, data, skip, now) => CreateMany(s, db, model, data, skip, now).0
    case UpdateOp(model, where, patch, now) => Update(s, db, model, where, patch, now).0
    case DeleteOp(model, where) => Delete(db, model, where)
    case DeleteManyOp(model, where) => DeleteMany(db, model, where)
  }

  function Run(s: Schema, db: Db, ops: seq<Op>): Db
    decreases |ops|
  {
    if ops == [] then db else Run(s, Step(s, db, ops[0]), ops[1..])
  }

  /** Each call of a run starts from what the calls before it left. */
  lemma {:induction false} RunOneMore(s: Schema, db: Db, ops: seq<Op>, op: Op)
    ensures Run(s, db, ops + [op]) == Step(s, Run(s, db, ops), op)
    decreases |ops|
  {
    hide Step;
    if ops == [] {
      assert ops + [op] == [op] && [op][1..] == [];
    } else {
      assert (ops + [op])[1..] == ops[1..] + [op];
      RunOneMore(s, Step(s, db, ops[0]), ops[1..], op);
    }
  }

  ghost predicate SafeOp(s: Schema, op: Op) {
    match op
    case CreateOp(model, row, _) => CreateSafe(KeysOf(s, model), DefaultsOf(s, model), row)
    case CreateManyOp(model, data, _, _) => forall row :: row in data ==> CreateSafe(KeysOf(s, model), DefaultsOf(s, model), row)
    case UpdateOp(model, _, patch, _) => UpdateSafe(KeysOf(s, model), patch)
    case _ => true
  }

  ghost predicate AllUnique(s: Schema, db: Db) {
    forall model :: Unique(KeysOf(s, model), RowsOf(db, model))
  }

  lemma StepKeepsUnique(s: Schema, db: Db, op: Op)
    requires forall model :: WellFormedKeys(KeysOf(s, model))
    requires AllUnique(s, db) && SafeOp(s, op)
    ensures AllUnique(s, Step(s, db, op))
  {
    var m := op.model;
    var keys, rows := KeysOf(s, m), RowsOf(db, m);
    assert Unique(keys, rows);
    match op
    case CreateOp(model, row, now) =>
      if Create(s, db, model, row, now).1.Stored? {
        SeedKeepsUnique(s, db.(log := db.log + [LogEntry(model, "create")]), model, row, now);
      }
    case CreateManyOp(model, data, skip, now) =>
      BatchKeepsUnique(s, db, model, data, skip, now, 0);
    case UpdateOp(model, where, patch, now) =>
      if Update(s, db, model, where, patch, now).1.Stored? {
        UpdateKeepsUnique(s.num, keys, rows, FirstHit(rows, where), patch, Date(Ours(db.dates), now));
      }
    case DeleteOp(model, where) =>
      if FirstHit(rows, where) < |rows| {
        PartKeepsUnique(keys, rows, where, FirstHit(rows, where));
      }
    case DeleteManyOp(model, where) =>
      PartKeepsUnique(keys, rows, Not(where), |rows|);
  }

  lemma {:induction false} RunKeepsUnique(s: Schema, db: Db, ops: seq<Op>)
    requires forall model :: WellFormedKeys(KeysOf(s, model))
    requires AllUnique(s, db) && (forall op :: op in ops ==> SafeOp(s, op))
    ensures AllUnique(s, Run(s, db, ops))
    decreases |ops|
  {
    if ops != [] {
      assert ops[0] in ops;
      StepKeepsUnique(s, db, ops[0]);
      RunKeepsUnique(s, Step(s, db, ops[0]), ops[1..]);
    }
  }

  /** In every state any run of safe calls reaches from the empty store, every unique key of every model holds. */
  lemma EveryReachableStateIsUnique(s: Schema, ops: seq<Op>)
    requires forall model :: WellFormedKeys(KeysOf(s, model))
    requires forall op :: op in ops ==> SafeOp(s, op)
    ensures forall model :: Unique(KeysOf(s, model), RowsOf(Run(s, EMPTY_DB, ops), model))
  {
    RunKeepsUnique(s, EMPTY_DB, ops);
  }

  // ---------------------------------------------------------------- ids

  /** The id was made by `nextId` and is not ahead of the counter. */
  ghost predicate MadeId(model: string, v: Value, counter: nat) {
    exists n: nat :: 1 <= n <= counter && v == Str(IdText(model, n))
  }

  ghost predicate IdsMade(model: string, rows: seq<Row>, counter: nat) {
    && Queries.IdsDiffer(rows)
    && (forall i :: 0 <= i < |rows| ==> MadeId(model, Column(rows[i], "id"), counter))
  }

  /** No caller writes the id column. */
  predicate LeavesIds(op: Op) {
    match op
    case CreateOp(_, row, _) => "id" !in row
    case CreateManyOp(_, data, _, _) => forall i :: 0 <= i < |data| ==> "id" !in data[i]
    case UpdateOp(_, _, patch, _) => "id" !in patch
    case _ => true
  }

  lemma NextIdIsNew(model: string, n: nat, counter: nat)
    requires n <= counter
    ensures IdText(model, n) != IdText(model, counter + 1)
  {
    if IdText(model, n) == IdText(model, counter + 1) {
      assert IdText(model, n)[|model + "_"|..] == Text.NatText(n);
      assert IdText(model, counter + 1)[|model + "_"|..] == Text.NatText(counter + 1);
      Text.NatTextInjective(n, counter + 1);
    }
  }

  lemma CounterMayGrow(model: string, rows: seq<Row>, counter: nat)
    requires IdsMade(model, rows, counter)
    ensures IdsMade(model, rows, counter + 1)
  {
    forall i | 0 <= i < |rows| ensures MadeId(model, Column(rows[i], "id"), counter + 1) {
      assert MadeId(model, Column(rows[i], "id"), counter);
    }
  }

  lemma AppendKeepsIds(model: string, rows: seq<Row>, counter: nat, full: Row)
    requires IdsMade(model, rows, counter) && Column(full, "id") == Str(IdText(model, counter + 1))
    ensures IdsMade(model, rows + [full], counter + 1)
  {
    CounterMayGrow(model, rows, counter);
    forall i | 0 <= i < |rows| ensures Column(rows[i], "id") != Column(full, "id") {
      assert MadeId(model, Column(rows[i], "id"), counter);
      var n: nat :| 1 <= n <= counter && Column(rows[i], "id") == Str(IdText(model, n));
      NextIdIsNew(model, n, counter);
    }
    assert MadeId(model, Column(full, "id"), counter + 1);
  }

  lemma SeedKeepsIds(s: Schema, db: Db, model: string, row: Row, now: int, other: string)
    requires "id" !in row && IdsMade(other, RowsOf(db, other), db.ids)
    ensures var after := Seed(s, db, model, row, now); IdsMade(other, RowsOf(after, other), after.ids)
  {
    var full := Seeded(s, db, model, row, now);
    assert Column(full, "id") == Str(IdText(model, db.ids + 1)) && Column(row, "id") == Undefined;
    if other == model {
      AppendKeepsIds(model, RowsOf(db, model), db.ids, full);
    } else {
      CounterMayGrow(other, RowsOf(db, other), db.ids);
    }
  }

  lemma {:induction false} BatchKeepsIds(s: Schema, db: Db, model: string, data: seq<Row>, skip: bool, now: int, count: nat, other: string)
    requires (forall i :: 0 <= i < |data| ==> "id" !in data[i]) && IdsMade(other, RowsOf(db, other), db.ids)
    ensures var after := CreateManyFrom(s, db, model, data, skip, now, count).0; IdsMade(other, RowsOf(after, other), after.ids)
    decreases |data|
  {
    if data != [] {
      if Clashes(s, db, model, data[0]) {
        BatchKeepsIds(s, db, model, data[1..], skip, now, count, other);
      } else {
        SeedKeepsIds(s, db, model, data[0], now, other);
        BatchKeepsIds(s, Seed(s, db, model, data[0], now), model, data[1..], skip, now, count + 1, other);
      }
    }
  }

  lemma PartKeepsMadeIds(model: string, rows: seq<Row>, counter: nat, part: seq<Row>)
    requires IdsMade(model, rows, counter) && multiset(part) <= multiset(rows)
    ensures IdsMade(model, part, counter)
  {
    Queries.PartKeepsIds(rows, part);
    forall i | 0 <= i < |part| ensures MadeId(model, Column(part[i], "id"), counter) {
      assert part[i] in multiset(part);
      assert part[i] in multiset(rows);
      var k :| 0 <= k < |rows| && rows[k] == part[i];
    }
  }

  lemma UpdateKeepsIds(model: string, rows: seq<Row>, counter: nat, i: nat, row: Row)
    requires IdsMade(model, rows, counter) && i < |rows| && Column(row, "id") == Column(rows[i], "id")
    ensures IdsMade(model, rows[i := row], counter)
  {
    forall k | 0 <= k < |rows| ensures Column(rows[i := row][k], "id") == Column(rows[k], "id") {}
  }

  lemma RemovalIsPart(rows: seq<Row>, i: nat)
    requires i < |rows|
    ensures multiset(rows[..i] + rows[i + 1..]) <= multiset(rows)
  {
    assert rows == rows[..i] + [rows[i]] + rows[i + 1..];
  }

  lemma StepKeepsIds(s: Schema, db: Db, op: Op, model: string)
    requires LeavesIds(op) && IdsMade(model, RowsOf(db, model), db.ids)
    ensures var after := Step(s, db, op); IdsMade(model, RowsOf(after, model), after.ids)
  {
    hide IdsMade, Seeded, FirstClash, FirstTaken, LegacyClash, Applied, Filter;
    var rows := RowsOf(db, op.model);
    match op
    case CreateOp(m, row, now) =>
      if Create(s, db, m, row, now).1.Stored? {
        SeedKeepsIds(s, db.(log := db.log + [LogEntry(m, "create")]), m, row, now, model);
      }
    case CreateManyOp(m, data, skip, now) =>
      BatchKeepsIds(s, db, m, data, skip, now, 0, model);
    case UpdateOp(m, where, patch, now) =>
      if Update(s, db, m, where, patch, now).1.Stored? && m == model {
        var i := FirstHit(rows, where);
        AppliedKeepsId(s.num, rows[i], patch, Date(Ours(db.dates), now));
        UpdateKeepsIds(m, rows, db.ids, i, Applied(s.num, rows[i], patch, Date(Ours(db.dates), now)));
      }
    case DeleteOp(m, where) =>
      var i := FirstHit(rows, where);
      if i < |rows| && m == model {
        RemovalIsPart(rows, i);
        PartKeepsMadeIds(m, rows, db.ids, rows[..i] + rows[i + 1..]);
      }
    case DeleteManyOp(m, where) =>
      if m == model {
        FilterMembers(rows, Not(where));
        PartKeepsMadeIds(m, rows, db.ids, Filter(rows, Not(where)));
      }
  }

  lemma AppliedKeepsId(num: Numerals, row: Row, p: Patch, stamp: Value)
    requires "id" !in p
    ensures Column(Applied(num, row, p, stamp), "id") == Column(row, "id")
  {}

  lemma {:induction false} RunKeepsIds(s: Schema, db: Db, ops: seq<Op>, model: string)
    requires (forall i :: 0 <= i < |ops| ==> LeavesIds(ops[i])) && IdsMade(model, RowsOf(db, model), db.ids)
    ensures var after := Run(s, db, ops); IdsMade(model, RowsOf(after, model), after.ids)
    decreases |ops|
  {
    if ops != [] {
      StepKeepsIds(s, db, ops[0], model);
      RunKeepsIds(s, Step(s, db, ops[0]), ops[1..], model);
    }
  }

  /** Paging is exact over every table that calls leaving ids to the store can build. */
  lemma PagingInEveryReachableState(s: Schema, ops: seq<Op>, model: string, where: Row -> bool, orderBy: Option<seq<OrderSpec>>, take: nat, n: nat)
    requires (forall i :: 0 <= i < |ops| ==> LeavesIds(ops[i])) && take >= 1
    ensures var list := Queries.Ordered(s.num, RowsOf(Run(s, EMPTY_DB, ops), model), where, orderBy);
      && Paging.Pages(list, Queries.IdCursor, take, n) == Slice(list, 0, Paging.Offset(take, n))
      && (n >= |list| ==> Paging.Pages(list, Queries.IdCursor, take, n) == list)
  {
    RunKeepsIds(s, EMPTY_DB, ops, model);
    var rows := RowsOf(Run(s, EMPTY_DB, ops), model);
    forall r | r in rows ensures Column(r, "id").Str? {
      var i :| 0 <= i < |rows| && rows[i] == r;
      assert MadeId(model, Column(rows[i], "id"), Run(s, EMPTY_DB, ops).ids);
    }
    Queries.PagingOverTable(s.num, rows, where, orderBy, take, n);
  }

  // ---------------------------------------------------------------- concrete failures

  const CAPI_SCHEMA := Schema(
    map["capiEvent" := [["dealId", "eventName"]]],
    map["capiEvent" := map["eventName" := Str("Purchase"), "status" := Str("PENDING")]],
    map[],
    t => None)

  lemma NothingToClash(key: Key, rows: seq<Row>, row: Row)
    requires !Full(row, key)
    ensures FirstClash([key], rows, row).None?
  {}

  lemma SeedsAgree(s: Schema, db: Db, later: Db, model: string, key: Key, row: Row, now: int)
    requires "createdAt" !in key && "updatedAt" !in key && "id" !in key
    requires forall k :: k in key ==> SeedFills(DefaultsOf(s, model), row, k)
    ensures Full(Seeded(s, db, model, row, now), key)
    ensures Agree(Seeded(s, db, model, row, now), Seeded(s, later, model, row, now), key)
  {
    forall k | k in key ensures !Nullish(Column(Seeded(s, db, model, row, now), k)) {
      SeededColumns(s, db, model, row, now, k);
    }
  }

  /** With one key, an unsafe row can be stored twice in a row. */
  lemma UnsafeRowStoredTwice(s: Schema, db: Db, model: string, key: Key, row: Row, now: int)
    requires KeysOf(s, model) == [key] && model !in s.legacy && RowsOf(db, model) == []
    requires (forall k :: k in key ==> SeedFills(DefaultsOf(s, model), row, k)) && !Full(row, key)
    requires "createdAt" !in key && "updatedAt" !in key && "id" !in key
    ensures var once := Create(s, db, model, row, now).0;
      var twice := Create(s, once, model, row, now);
      twice.1.Stored? && !Unique(KeysOf(s, model), RowsOf(twice.0, model))
  {
    var once := Create(s, db, model, row, now).0;
    NothingToClash(key, RowsOf(db, model), row);
    CreateAppends(s, db, model, row, now);
    NothingToClash(key, RowsOf(once, model), row);
    CreateAppends(s, once, model, row, now);
    var a, b := Seeded(s, db, model, row, now), Seeded(s, once, model, row, now);
    SeedsAgree(s, db, once, model, key, row, now);
    assert [] + [a] == [a];
    TwinsBreakKey([key], key, a, b);
  }

  /** Two conversion events of one deal, both left to the default name, are both stored. */
  lemma DefaultedKeyIsDuplicated(now: int)
    ensures var data := map["dealId" := Str("d1")];
      var once := Create(CAPI_SCHEMA, EMPTY_DB, "capiEvent", data, now).0;
      var twice := Create(CAPI_SCHEMA, once, "capiEvent", data, now);
      twice.1.Stored? && !Unique(KeysOf(CAPI_SCHEMA, "capiEvent"), RowsOf(twice.0, "capiEvent"))
  {
    var data: Row := map["dealId" := Str("d1")];
    var key := ["dealId", "eventName"];
    assert key[0] != key[1] && key[1] in key && Column(data, key[1]) == Undefined;
    assert DefaultsOf(CAPI_SCHEMA, "capiEvent")[key[1]] == Str("Purchase");
    assert |"createdAt"| != |key[0]| && |"createdAt"| == |key[1]| && "createdAt"[0] != key[1][0];
    assert |"updatedAt"| != |key[0]| && "updatedAt"[0] != key[1][0];
    UnsafeRowStoredTwice(CAPI_SCHEMA, EMPTY_DB, "capiEvent", key, data, now);
  }

  const REPORT_SCHEMA := Schema(map["contentReport" := [["instagramAccountId", "weekStart"]]], map[], map[], t => None)

  /** Dates in a key are compared by identity: two equal instants do not clash. */
  lemma EqualDatesDoNotClash(now: int, week: int)
    ensures var one := Create(REPORT_SCHEMA, EMPTY_DB, "contentReport", map["instagramAccountId" := Str("a"), "weekStart" := Date(Theirs(1), week)], now);
      Create(REPORT_SCHEMA, one.0, "contentReport", map["instagramAccountId" := Str("a"), "weekStart" := Date(Theirs(2), week)], now).1.Stored?
  {
    var key := ["instagramAccountId", "weekStart"];
    var a: Row := map["instagramAccountId" := Str("a"), "weekStart" := Date(Theirs(1), week)];
    var b: Row := map["instagramAccountId" := Str("a"), "weekStart" := Date(Theirs(2), week)];
    var one := Create(REPORT_SCHEMA, EMPTY_DB, "contentReport", a, now);
    var rows := RowsOf(one.0, "contentReport");
    assert KeysOf(REPORT_SCHEMA, "contentReport") == [key];
    assert |rows| == 1 && Column(rows[0], key[1]) == Date(Theirs(1), week) && Column(b, key[1]) == Date(Theirs(2), week);
    assert !Agree(rows[0], b, key);
  }
}
