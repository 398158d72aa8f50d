/**
 * Inserts, updates and deletes of the in-memory store under compound unique keys that
 * allow nulls (__tests__/helpers/memory-db.ts). The functions on `Db` say what each call
 * does; the class keeps the fields the source mutates and is proved against them.
 */
module Store {
  import opened Lists
  import opened Rows
  import opened StableSorting
  import Paging
  import Queries
  import Text

  type Key = seq<string>

  /** The three models whose inserts have a hand-written check instead of a UNIQUE_KEYS entry. */
  datatype LegacyRule = LeadKey | MessageMid | DeliveryKind

  /** UNIQUE_KEYS, DEFAULTS, the hand-written checks, and what `Number()` reads of text. */
  datatype Schema = Schema(keys: map<string, seq<Key>>, defaults: map<string, Row>, legacy: map<string, LegacyRule>, num: Numerals)

  const LEGACY_RULES := map["lead" := LeadKey, "conversationMessage" := MessageMid, "leadDelivery" := DeliveryKind]

  function KeysOf(s: Schema, model: string): seq<Key> {
    if model in s.keys then s.keys[model] else []
  }

  function DefaultsOf(s: Schema, model: string): Row {
    if model in s.defaults then s.defaults[model] else map[]
  }

  predicate Full(r: Row, key: Key) {
    forall k :: k in key ==> !Nullish(Column(r, k))
  }

  predicate Agree(a: Row, b: Row, key: Key) {
    forall k :: k in key ==> Column(a, k) == Column(b, k)
  }

  /** No two rows share a fully non-null tuple of any key. */
  ghost predicate Unique(keys: seq<Key>, rows: seq<Row>) {
    forall key, i, j :: key in keys && 0 <= i < j < |rows| && Full(rows[i], key) ==> !Agree(rows[i], rows[j], key)
  }

  /** The first key whose tuple in `row` is full and already taken. */
  function FirstClash(keys: seq<Key>, rows: seq<Row>, row: Row): (r: Option<Key>)
    ensures r.None? <==> forall key, i :: key in keys && 0 <= i < |rows| && Full(row, key) ==> !Agree(rows[i], row, key)
  {
    if keys == [] then None
    else if Full(row, keys[0]) && exists i :: 0 <= i < |rows| && Agree(rows[i], row, keys[0]) then
      assert keys[0] in keys;
      Some(keys[0])
    else FirstClash(keys[1..], rows, row)
  }

  // ---------------------------------------------------------------- the state

  datatype LogEntry = LogEntry(model: string, op: string)

  datatype Db = Db(tables: map<string, seq<Row>>, log: seq<LogEntry>, ids: nat, ticks: nat, dates: nat)

  const EMPTY_DB := Db(map[], [], 0, 0, 0)

  function RowsOf(db: Db, model: string): seq<Row> {
    if model in db.tables then db.tables[model] else []
  }

  function IdText(model: string, n: nat): string { model + "_" + Text.NatText(n) }

  /** `row.id ?? nextId(model)` */
  function IdOf(db: Db, model: string, row: Row): Value {
    if Nullish(Column(row, "id")) then Str(IdText(model, db.ids + 1)) else row["id"]
  }

  function Seeded(s: Schema, db: Db, model: string, row: Row, now: int): Row {
    DefaultsOf(s, model)
    + map["id" := IdOf(db, model, row), "createdAt" := Date(Ours(db.dates), now + db.ticks + 1), "updatedAt" := Date(Ours(db.dates + 1), now)]
    + row
  }

  function Seed(s: Schema, db: Db, model: string, row: Row, now: int): Db {
    Db(db.tables[model := RowsOf(db, model) + [Seeded(s, db, model, row, now)]],
       db.log,
       if Nullish(Column(row, "id")) then db.ids + 1 else db.ids,
       db.ticks + 1,
       db.dates + 2)
  }

  // ---------------------------------------------------------------- create

  predicate Truthy(v: Value) {
    !Nullish(v) && v != Bool(false) && v != Num(0) && v != Str("")
  }

  function KindOrNew(r: Row): Value {
    if Nullish(Column(r, "kind")) then Str("new") else r["kind"]
  }

  predicate LegacyClash(rule: LegacyRule, rows: seq<Row>, row: Row) {
    match rule
    case LeadKey => exists i :: 0 <= i < |rows| && Agree(rows[i], row, ["idempotencyKey"])
    case MessageMid =>
      Truthy(Column(row, "mid")) && exists i :: 0 <= i < |rows| && Agree(rows[i], row, ["conversationId", "mid"])
    case DeliveryKind =>
      exists i :: 0 <= i < |rows| && Agree(rows[i], row, ["leadId", "integrationId"]) && KindOrNew(rows[i]) == KindOrNew(row)
  }

  /** A new row b is refused for the sake of a stored row a. */
  ghost predicate Collides(rule: LegacyRule, a: Row, b: Row) {
    match rule
    case LeadKey => Column(a, "idempotencyKey") == Column(b, "idempotencyKey")
    case MessageMid =>
      && Column(b, "mid") !in {Undefined, Null, Bool(false), Num(0), Str("")}
      && Column(a, "conversationId") == Column(b, "conversationId") && Column(a, "mid") == Column(b, "mid")
    case DeliveryKind =>
      && Column(a, "leadId") == Column(b, "leadId") && Column(a, "integrationId") == Column(b, "integrationId")
      && (Column(a, "kind") == Column(b, "kind")
          || (Column(a, "kind") in {Undefined, Null, Str("new")} && Column(b, "kind") in {Undefined, Null, Str("new")}))
  }

  datatype Outcome =
    | Stored(row: Row)
    | Duplicate(key: Key)
    | LegacyDuplicate
    | NotFound

  function Create(s: Schema, db: Db, model: string, row: Row, now: int): (Db, Outcome) {
    var logged := db.(log := db.log + [LogEntry(model, "create")]);
    var clash := FirstClash(KeysOf(s, model), RowsOf(db, model), row);
    if model in s.legacy && LegacyClash(s.legacy[model], RowsOf(db, model), row) then (logged, LegacyDuplicate)
    else if clash.Some? then (logged, Duplicate(clash.value))
    else (Seed(s, logged, model, row, now), Stored(Seeded(s, logged, model, row, now)))
  }

  datatype BatchResult = Counted(count: nat) | BatchDuplicate

  /** The rows still to come, after `count` of the batch have been stored. */
  function CreateManyFrom(s: Schema, db: Db, model: string, data: seq<Row>, skipDuplicates: bool, now: int, count: nat): (Db, BatchResult)
    decreases |data|
  {
    if data == [] then (db, Counted(count))
    else if FirstClash(KeysOf(s, model), RowsOf(db, model), data[0]).Some? then
      if skipDuplicates then CreateManyFrom(s, db, model, data[1..], skipDuplicates, now, count) else (db, BatchDuplicate)
    else CreateManyFrom(s, Seed(s, db, model, data[0], now), model, data[1..], skipDuplicates, now, count + 1)
  }

  function CreateMany(s: Schema, db: Db, model: string, data: seq<Row>, skipDuplicates: bool, now: int): (Db, BatchResult) {
    CreateManyFrom(s, db, model, data, skipDuplicates, now, 0)
  }

  // ---------------------------------------------------------------- update

  /** One entry of an update's data: a value, or `{ increment, decrement }`. */
  datatype Change = Set(v: Value) | Delta(increment: int, decrement: int)

  type Patch = map<string, Change>

  /** `value === undefined` entries are passed over. */
  predicate Writes(p: Patch, k: string) { k in p && p[k] != Set(Undefined) }

  predicate Increments(p: Patch, k: string) { k in p && p[k].Delta? }

  predicate Nulls(p: Patch, k: string) { k in p && p[k] == Set(Null) }

  function Applied(num: Numerals, row: Row, p: Patch, stamp: Value): Row {
    (row + map k | k in p && Writes(p, k) ::
       match p[k]
       case Set(v) => v
       case Delta(up, down) => Num(NumberOrZero(num, Column(row, k)) + up - down))
    ["updatedAt" := stamp]
  }

  /** What the update's uniqueness check compares: an increment is still the operator object there. */
  datatype Probe = Plain(v: Value) | Operator

  function ProbeOf(row: Row, p: Patch, k: string): Probe {
    if !Writes(p, k) then Plain(Column(row, k))
    else match p[k]
      case Set(v) => Plain(v)
      case Delta(_, _) => Operator
  }

  predicate ProbeFull(row: Row, p: Patch, key: Key) {
    forall k :: k in key ==> ProbeOf(row, p, k).Operator? || !Nullish(ProbeOf(row, p, k).v)
  }

  predicate ProbeAgrees(other: Row, row: Row, p: Patch, key: Key) {
    forall k :: k in key ==> ProbeOf(row, p, k) == Plain(Column(other, k))
  }

  predicate Taken(rows: seq<Row>, i: nat, p: Patch, key: Key)
    requires i < |rows|
  {
    ProbeFull(rows[i], p, key) && exists j :: 0 <= j < |rows| && j != i && ProbeAgrees(rows[j], rows[i], p, key)
  }

  function FirstTaken(keys: seq<Key>, rows: seq<Row>, i: nat, p: Patch): (r: Option<Key>)
    requires i < |rows|
    ensures r.None? <==> forall key :: key in keys ==> !Taken(rows, i, p, key)
  {
    if keys == [] then None
    else if Taken(rows, i, p, keys[0]) then
      assert keys[0] in keys;
      Some(keys[0])
    else FirstTaken(keys[1..], rows, i, p)
  }

  function Update(s: Schema, db: Db, model: string, where: Row -> bool, p: Patch, now: int): (Db, Outcome) {
    var logged := db.(log := db.log + [LogEntry(model, "update")]);
    var rows := RowsOf(db, model);
    var i := FirstHit(rows, where);
    if i == |rows| then (logged, NotFound)
    else
      var taken := FirstTaken(KeysOf(s, model), rows, i, p);
      if taken.Some? then (logged, Duplicate(taken.value))
      else
        var row := Applied(s.num, rows[i], p, Date(Ours(db.dates), now));
        (logged.(tables := db.tables[model := rows[i := row]], dates := db.dates + 1), Stored(row))
  }

  // ---------------------------------------------------------------- delete

  function Delete(db: Db, model: string, where: Row -> bool): Db {
    var rows := RowsOf(db, model);
    var i := FirstHit(rows, where);
    db.(tables := db.tables[model := if i == |rows| then rows else rows[..i] + rows[i + 1..]])
  }

  function DeleteMany(db: Db, model: string, where: Row -> bool): Db {
    db.(tables := db.tables[model := Filter(RowsOf(db, model), Not(where))])
  }

  // ---------------------------------------------------------------- what a caller sees

  /** Both rows have the same present value in every column of the key. */
  ghost predicate Shares(a: Row, b: Row, key: Key) {
    forall k :: k in key ==> Column(a, k) == Column(b, k) && Column(a, k) !in {Undefined, Null}
  }

  ghost predicate NoneShares(keys: seq<Key>, rows: seq<Row>, row: Row) {
    forall key, i :: key in keys && 0 <= i < |rows| ==> !Shares(rows[i], row, key)
  }

  /** `full` is `row` completed: its own columns as given, then the store's, then the defaults. */
  ghost predicate Completes(full: Row, row: Row, stamps: Row, defaults: Row) {
    && full.Keys == row.Keys + stamps.Keys + defaults.Keys
    && (forall k :: k in row ==> full[k] == row[k])
    && (forall k :: k in stamps && k !in row ==> full[k] == stamps[k])
    && (forall k :: k in defaults && k !in row && k !in stamps ==> full[k] == defaults[k])
  }

  /** What the store adds to a row at the time `now`; `ids`, `ticks` and `dates` count what it made before. */
  function Stamps(model: string, ids: nat, ticks: nat, dates: nat, now: int): Row {
    map["id" := Str(model + "_" + Text.NatText(ids + 1)), "createdAt" := Date(Ours(dates), now + ticks + 1), "updatedAt" := Date(Ours(dates + 1), now)]
  }

  predicate Sets(p: Patch, k: string) { k in p && p[k].Set? && p[k].v != Undefined }

  /** `after` is `before` with the patch carried out, column by column. */
  ghost predicate Patches(num: Numerals, before: Row, p: Patch, stamp: Value, after: Row) {
    && Column(after, "updatedAt") == stamp
    && (forall k :: k != "updatedAt" ==>
         if Sets(p, k) then Column(after, k) == p[k].v
         else if k in p && p[k].Delta? then CountsOn(num, Column(before, k), p[k].increment - p[k].decrement, Column(after, k))
         else Column(after, k) == Column(before, k))
  }

  /** `y` is `x` moved on by `step`: a number from itself, a text from what it reads, an absent value from 0. */
  ghost predicate CountsOn(num: Numerals, x: Value, step: int, y: Value) {
    match x
    case Num(n) => y == Num(n + step)
    case Str(s) => y == Num(if num(s).Some? then num(s).value + step else step)
    case Bool(b) => y == Num(if b then 1 + step else step)
    case Date(_, ms) => y == Num(ms + step)
    case Object(_, text) => y == Num(if num(text).Some? then num(text).value + step else step)
    case _ => y == Num(step)
  }

  /** Row j has the values row i would have in the key; an incremented column is never taken for equal. */
  ghost predicate TakenBy(rows: seq<Row>, i: nat, p: Patch, key: Key, j: nat)
    requires i < |rows| && j < |rows|
  {
    && j != i
    && (forall k :: k in key ==>
         && !(k in p && p[k].Delta?)
         && Column(rows[j], k) == (if Sets(p, k) then p[k].v else Column(rows[i], k))
         && Column(rows[j], k) !in {Undefined, Null})
  }

  ghost predicate OthersKept(before: Db, after: Db, model: string) {
    forall m :: m != model ==> RowsOf(after, m) == RowsOf(before, m)
  }

  lemma ClashMeans(keys: seq<Key>, rows: seq<Row>, row: Row)
    ensures FirstClash(keys, rows, row).None? <==> NoneShares(keys, rows, row)
    ensures var clash := FirstClash(keys, rows, row);
      clash.Some? ==> clash.value in keys && exists i :: 0 <= i < |rows| && Shares(rows[i], row, clash.value)
  {
    forall key, i | key in keys && 0 <= i < |rows| ensures (Full(row, key) && Agree(rows[i], row, key)) <==> Shares(rows[i], row, key) {}
    ClashIsFound(keys, rows, row);
  }

  lemma {:induction false} ClashIsFound(keys: seq<Key>, rows: seq<Row>, row: Row)
    ensures var clash := FirstClash(keys, rows, row);
      clash.Some? ==> clash.value in keys && Full(row, clash.value) && exists i :: 0 <= i < |rows| && Agree(rows[i], row, clash.value)
  {
    if keys != [] {
      ClashIsFound(keys[1..], rows, row);
    }
  }

  lemma LegacyClashMeans(rule: LegacyRule, rows: seq<Row>, row: Row)
    ensures LegacyClash(rule, rows, row) <==> exists i :: 0 <= i < |rows| && Collides(rule, rows[i], row)
  {
    hide KindOrNew, Truthy;
    KindAndMid(row);
    match rule
    case LeadKey =>
      forall i | 0 <= i < |rows| ensures Agree(rows[i], row, ["idempotencyKey"]) <==> Collides(rule, rows[i], row) {
        assert "idempotencyKey" in ["idempotencyKey"];
      }
    case MessageMid =>
      forall i | 0 <= i < |rows| ensures Truthy(Column(row, "mid")) && Agree(rows[i], row, ["conversationId", "mid"]) <==> Collides(rule, rows[i], row) {
        assert "conversationId" in ["conversationId", "mid"] && "mid" in ["conversationId", "mid"];
      }
    case DeliveryKind =>
      forall i | 0 <= i < |rows|
        ensures Agree(rows[i], row, ["leadId", "integrationId"]) && KindOrNew(rows[i]) == KindOrNew(row) <==> Collides(rule, rows[i], row)
      {
        KindAndMid(rows[i]);
        assert "leadId" in ["leadId", "integrationId"] && "integrationId" in ["leadId", "integrationId"];
      }
  }

  lemma KindAndMid(r: Row)
    ensures KindOrNew(r) == (if Column(r, "kind") in {Undefined, Null} then Str("new") else Column(r, "kind"))
    ensures Truthy(Column(r, "mid")) <==> Column(r, "mid") !in {Undefined, Null, Bool(false), Num(0), Str("")}
  {}

  lemma TakenMeans(rows: seq<Row>, i: nat, p: Patch, key: Key)
    requires i < |rows|
    ensures Taken(rows, i, p, key) <==> exists j :: 0 <= j < |rows| && TakenBy(rows, i, p, key, j)
  {
    forall j | 0 <= j < |rows| && j != i
      ensures ProbeFull(rows[i], p, key) && ProbeAgrees(rows[j], rows[i], p, key) <==> TakenBy(rows, i, p, key, j)
    {
      if ProbeFull(rows[i], p, key) && ProbeAgrees(rows[j], rows[i], p, key) {
        forall k | k in key
          ensures !(k in p && p[k].Delta?) && Column(rows[j], k) == (if Sets(p, k) then p[k].v else Column(rows[i], k)) && Column(rows[j], k) !in {Undefined, Null}
        {
          assert ProbeOf(rows[i], p, k) == Plain(Column(rows[j], k));
        }
      }
    }
  }

  lemma AppliedMeans(num: Numerals, row: Row, p: Patch, stamp: Value)
    ensures Patches(num, row, p, stamp, Applied(num, row, p, stamp))
  {}

  // ---------------------------------------------------------------- what each call does

  /** The row joins its table, completed; nothing else but the counters moves. */
  ghost predicate AddsRow(s: Schema, before: Db, after: Db, model: string, row: Row, now: int, full: Row) {
    && RowsOf(after, model) == RowsOf(before, model) + [full] && OthersKept(before, after, model)
    && Completes(full, row, Stamps(model, before.ids, before.ticks, before.dates, now), if model in s.defaults then s.defaults[model] else map[])
    && after.ids == before.ids + (if Column(row, "id") in {Undefined, Null} then 1 else 0)
    && after.ticks == before.ticks + 1 && after.dates == before.dates + 2
  }

  lemma SeedMeans(s: Schema, db: Db, model: string, row: Row, now: int)
    ensures AddsRow(s, db, Seed(s, db, model, row, now), model, row, now, Seeded(s, db, model, row, now))
  {
    SeededCompletes(s, db, model, row, now);
  }

  lemma MergedCompletes(defaults: Row, own: Row, row: Row, stamps: Row)
    requires own.Keys == stamps.Keys && forall k :: k in own && k !in row ==> own[k] == stamps[k]
    ensures Completes(defaults + own + row, row, stamps, defaults)
  {}

  lemma OwnId(a: string, b: string, c: string, id: Value, x: Value, y: Value, z: Value)
    requires a != b && a != c
    ensures map[a := x, b := y, c := z][a := id] == map[a := id, b := y, c := z]
  {}

  lemma SeededCompletes(s: Schema, db: Db, model: string, row: Row, now: int)
    ensures Completes(Seeded(s, db, model, row, now), row, Stamps(model, db.ids, db.ticks, db.dates, now), DefaultsOf(s, model))
  {
    hide DefaultsOf, Completes;
    var stamps := Stamps(model, db.ids, db.ticks, db.dates, now);
    var own := stamps["id" := IdOf(db, model, row)];
    MergedCompletes(DefaultsOf(s, model), own, row, stamps);
    OwnId("id", "createdAt", "updatedAt", IdOf(db, model, row), stamps["id"], stamps["createdAt"], stamps["updatedAt"]);
    assert own == map["id" := IdOf(db, model, row), "createdAt" := Date(Ours(db.dates), now + db.ticks + 1), "updatedAt" := Date(Ours(db.dates + 1), now)];
  }

  /**
   * A row is stored unless the model's own check or a key stands against it, and then
   * nothing but the log moves.
   */
  ghost predicate CreateOutcome(s: Schema, before: Db, after: Db, model: string, row: Row, now: int, r: Outcome) {
    var rows := RowsOf(before, model);
    var logged := before.(log := before.log + [LogEntry(model, "create")]);
    match r
    case LegacyDuplicate => after == logged && model in s.legacy && exists i :: 0 <= i < |rows| && Collides(s.legacy[model], rows[i], row)
    case Duplicate(key) => after == logged && model in s.keys && key in s.keys[model] && exists i :: 0 <= i < |rows| && Shares(rows[i], row, key)
    case Stored(full) =>
      && (model in s.legacy ==> forall i :: 0 <= i < |rows| ==> !Collides(s.legacy[model], rows[i], row))
      && (model in s.keys ==> NoneShares(s.keys[model], rows, row))
      && AddsRow(s, before, after, model, row, now, full) && after.log == logged.log
    case NotFound => false
  }

  lemma CreateMeans(s: Schema, db: Db, model: string, row: Row, now: int)
    ensures CreateOutcome(s, db, Create(s, db, model, row, now).0, model, row, now, Create(s, db, model, row, now).1)
  {
    hide Collides, LegacyClash, Shares, Completes, Seeded, FirstClash;
    ClashMeans(KeysOf(s, model), RowsOf(db, model), row);
    if model in s.legacy { LegacyClashMeans(s.legacy[model], RowsOf(db, model), row); }
    SeedMeans(s, db.(log := db.log + [LogEntry(model, "create")]), model, row, now);
  }

  /** One row of a batch: stored, or passed over for a key it shares. */
  ghost predicate BatchStep(s: Schema, before: Db, after: Db, model: string, row: Row, skipDuplicates: bool, now: int) {
    if model in s.keys ==> NoneShares(s.keys[model], RowsOf(before, model), row)
    then exists full :: AddsRow(s, before, after, model, row, now, full) && after.log == before.log
    else skipDuplicates && after == before
  }

  /** The states after each row of the batch that was dealt with. */
  ghost predicate BatchTrace(s: Schema, model: string, data: seq<Row>, skipDuplicates: bool, now: int, trace: seq<Db>) {
    && 1 <= |trace| <= |data| + 1
    && forall n :: 0 <= n < |trace| - 1 ==> BatchStep(s, trace[n], trace[n + 1], model, data[n], skipDuplicates, now)
  }

  /** The rows are dealt with in order; the count is of the rows added, and a rejection leaves those before it. */
  ghost predicate BatchOutcome(s: Schema, before: Db, after: Db, model: string, data: seq<Row>, skipDuplicates: bool, now: int, r: BatchResult) {
    exists trace: seq<Db> :: BatchTrace(s, model, data, skipDuplicates, now, trace) && trace[0] == before && trace[|trace| - 1] == after
      && match r
         case Counted(count) => |trace| == |data| + 1 && count == |RowsOf(after, model)| - |RowsOf(before, model)|
         case BatchDuplicate =>
           !skipDuplicates && |trace| <= |data| && model in s.keys && !NoneShares(s.keys[model], RowsOf(after, model), data[|trace| - 1])
  }

  lemma {:induction false} BatchTraces(s: Schema, db: Db, model: string, data: seq<Row>, skipDuplicates: bool, now: int, count: nat) returns (trace: seq<Db>)
    ensures BatchTrace(s, model, data, skipDuplicates, now, trace) && trace[0] == db
    ensures var r := CreateManyFrom(s, db, model, data, skipDuplicates, now, count);
      && trace[|trace| - 1] == r.0
      && match r.1
         case Counted(n) => |trace| == |data| + 1 && n - count == |RowsOf(r.0, model)| - |RowsOf(db, model)|
         case BatchDuplicate =>
           !skipDuplicates && |trace| <= |data| && model in s.keys && !NoneShares(s.keys[model], RowsOf(r.0, model), data[|trace| - 1])
    decreases |data|
  {
    hide FirstClash, NoneShares, Seed, Seeded, Completes;
    trace := [db];
    if data != [] {
      ClashMeans(KeysOf(s, model), RowsOf(db, model), data[0]);
      if NoneShares(KeysOf(s, model), RowsOf(db, model), data[0]) {
        SeedIsStep(s, db, model, data[0], skipDuplicates, now);
        var rest := BatchTraces(s, Seed(s, db, model, data[0], now), model, data[1..], skipDuplicates, now, count + 1);
        TraceGrows(s, db, model, data, skipDuplicates, now, rest);
        trace := [db] + rest;
      } else if skipDuplicates {
        var rest := BatchTraces(s, db, model, data[1..], skipDuplicates, now, count);
        TraceGrows(s, db, model, data, skipDuplicates, now, rest);
        trace := [db] + rest;
      }
    }
  }

  lemma SeedIsStep(s: Schema, db: Db, model: string, row: Row, skipDuplicates: bool, now: int)
    requires NoneShares(KeysOf(s, model), RowsOf(db, model), row)
    ensures BatchStep(s, db, Seed(s, db, model, row, now), model, row, skipDuplicates, now)
    ensures |RowsOf(Seed(s, db, model, row, now), model)| == |RowsOf(db, model)| + 1
  {
    hide NoneShares, Seeded, Completes;
    SeedMeans(s, db, model, row, now);
  }

  lemma TraceGrows(s: Schema, db: Db, model: string, data: seq<Row>, skipDuplicates: bool, now: int, rest: seq<Db>)
    requires data != [] && BatchTrace(s, model, data[1..], skipDuplicates, now, rest)
    requires BatchStep(s, db, rest[0], model, data[0], skipDuplicates, now)
    ensures BatchTrace(s, model, data, skipDuplicates, now, [db] + rest)
  {
    hide BatchStep;
    var trace := [db] + rest;
    forall n | 0 <= n < |trace| - 1 ensures BatchStep(s, trace[n], trace[n + 1], model, data[n], skipDuplicates, now) {
      if n > 0 {
        assert trace[n] == rest[n - 1] && trace[n + 1] == rest[n] && data[n] == data[1..][n - 1];
      }
    }
  }

  lemma BatchMeans(s: Schema, db: Db, model: string, data: seq<Row>, skipDuplicates: bool, now: int)
    ensures var r := CreateMany(s, db, model, data, skipDuplicates, now); BatchOutcome(s, db, r.0, model, data, skipDuplicates, now, r.1)
  {
    hide NoneShares, CreateManyFrom, BatchTrace;
    var trace := BatchTraces(s, db, model, data, skipDuplicates, now, 0);
  }

  /** The first match is patched, unless there is none or another row has its new key; nothing else moves but the log. */
  ghost predicate UpdateOutcome(s: Schema, before: Db, after: Db, model: string, where: Row -> bool, p: Patch, now: int, r: Outcome) {
    var rows := RowsOf(before, model);
    var logged := before.(log := before.log + [LogEntry(model, "update")]);
    match r
    case NotFound => after == logged && NoneMatches(rows, where)
    case Duplicate(key) =>
      && after == logged && model in s.keys && key in s.keys[model]
      && exists i: nat, j: nat :: IsFirst(rows, where, i) && j < |rows| && TakenBy(rows, i, p, key, j)
    case Stored(row) => exists i: nat :: IsFirst(rows, where, i) && UpdatedAt(s, before, after, model, p, now, i, row)
    case LegacyDuplicate => false
  }

  ghost predicate UpdatedAt(s: Schema, before: Db, after: Db, model: string, p: Patch, now: int, i: nat, row: Row) {
    var rows := RowsOf(before, model);
    && i < |rows|
    && (forall key, j :: model in s.keys && key in s.keys[model] && 0 <= j < |rows| ==> !TakenBy(rows, i, p, key, j))
    && Patches(s.num, rows[i], p, Date(Ours(before.dates), now), row)
    && RowsOf(after, model) == rows[..i] + [row] + rows[i + 1..] && OthersKept(before, after, model)
    && after.log == before.log + [LogEntry(model, "update")]
    && after.ids == before.ids && after.ticks == before.ticks && after.dates == before.dates + 1
  }

  lemma UpdateMeans(s: Schema, db: Db, model: string, where: Row -> bool, p: Patch, now: int)
    ensures UpdateOutcome(s, db, Update(s, db, model, where, p, now).0, model, where, p, now, Update(s, db, model, where, p, now).1)
  {
    hide Taken, TakenBy, Patches, Applied, FirstTaken;
    var rows, i := RowsOf(db, model), FirstHit(RowsOf(db, model), where);
    if i < |rows| {
      assert IsFirst(rows, where, i);
      forall key ensures Taken(rows, i, p, key) <==> exists j :: 0 <= j < |rows| && TakenBy(rows, i, p, key, j) {
        TakenMeans(rows, i, p, key);
      }
      TakenIsFound(KeysOf(s, model), rows, i, p);
      var row := Applied(s.num, rows[i], p, Date(Ours(db.dates), now));
      AppliedMeans(s.num, rows[i], p, Date(Ours(db.dates), now));
      assert rows[i := row] == rows[..i] + [row] + rows[i + 1..];
    }
  }

  lemma {:induction false} TakenIsFound(keys: seq<Key>, rows: seq<Row>, i: nat, p: Patch)
    requires i < |rows|
    ensures var taken := FirstTaken(keys, rows, i, p); taken.Some? ==> taken.value in keys && Taken(rows, i, p, taken.value)
  {
    if keys != [] {
      TakenIsFound(keys[1..], rows, i, p);
    }
  }

  /** The first match goes, and is the one returned; without a match nothing does. */
  ghost predicate RemovesFirst(before: Db, after: Db, model: string, where: Row -> bool, r: Option<Row>) {
    var rows := RowsOf(before, model);
    && (match r
        case None => NoneMatches(rows, where) && RowsOf(after, model) == rows
        case Some(row) => exists i: nat :: IsFirst(rows, where, i) && row == rows[i] && RowsOf(after, model) == rows[..i] + rows[i + 1..])
    && OthersKept(before, after, model)
    && after.log == before.log && after.ids == before.ids && after.ticks == before.ticks && after.dates == before.dates
  }

  /** Exactly the matches go, the others keep their order, and the number gone is returned. */
  ghost predicate RemovesAll(before: Db, after: Db, model: string, where: Row -> bool, count: nat) {
    && Keeps(RowsOf(before, model), where, false, RowsOf(after, model))
    && count == |RowsOf(before, model)| - |RowsOf(after, model)|
    && OthersKept(before, after, model)
    && after.log == before.log && after.ids == before.ids && after.ticks == before.ticks && after.dates == before.dates
  }

  lemma DeleteMeans(db: Db, model: string, where: Row -> bool)
    ensures var rows := RowsOf(db, model); var i := FirstHit(rows, where);
      RemovesFirst(db, Delete(db, model, where), model, where, if i < |rows| then Some(rows[i]) else None)
  {
    var rows, i := RowsOf(db, model), FirstHit(RowsOf(db, model), where);
    if i < |rows| {
      assert IsFirst(rows, where, i);
    }
  }

  lemma DeleteManyMeans(db: Db, model: string, where: Row -> bool)
    ensures RemovesAll(db, DeleteMany(db, model, where), model, where, |Filter(RowsOf(db, model), where)|)
  {
    hide Filter, Keeps;
    FilterKeeps(RowsOf(db, model), where);
  }

  // ---------------------------------------------------------------- the class

  class MemoryDb {
    const schema: Schema
    var tables: map<string, seq<Row>>
    var log: seq<LogEntry>
    var ids: nat
    var ticks: nat
    var dates: nat

    ghost function State(): Db
      reads this
    {
      Db(tables, log, ids, ticks, dates)
    }

    constructor (schema: Schema)
      ensures this.schema == schema && State() == EMPTY_DB
    {
      this.schema := schema;
      tables, log, ids, ticks, dates := map[], [], 0, 0, 0;
    }

    function Rows(model: string): seq<Row>
      reads this
    {
      if model in tables then tables[model] else []
    }

    method SeedRow(model: string, row: Row, now: int) returns (full: Row)
      modifies this
      ensures State() == Seed(schema, old(State()), model, row, now)
      ensures full == Seeded(schema, old(State()), model, row, now)
      ensures AddsRow(schema, old(State()), State(), model, row, now, full) && log == old(log)
    {
      hide AddsRow;
      SeedMeans(schema, State(), model, row, now);
      var id: Value;
      if Nullish(Column(row, "id")) {
        ids := ids + 1;
        id := Str(IdText(model, ids));
      } else {
        id := row["id"];
      }
      ticks := ticks + 1;
      full := DefaultsOf(schema, model)
        + map["id" := id, "createdAt" := Date(Ours(dates), now + ticks), "updatedAt" := Date(Ours(dates + 1), now)]
        + row;
      dates := dates + 2;
      tables := tables[model := Rows(model) + [full]];
    }

    static method CheckClash(keys: seq<Key>, rows: seq<Row>, data: Row) returns (r: Option<Key>)
      ensures r == FirstClash(keys, rows, data)
      ensures r.None? <==> NoneShares(keys, rows, data)
    {
      hide Agree, Full, NoneShares;
      ClashMeans(keys, rows, data);
      var n := 0;
      while n < |keys|
        invariant n <= |keys|
        invariant FirstClash(keys, rows, data) == FirstClash(keys[n..], rows, data)
      {
        if Full(data, keys[n]) && exists i :: 0 <= i < |rows| && Agree(rows[i], data, keys[n]) {
          return Some(keys[n]);
        }
        n := n + 1;
      }
      r := None;
    }

    method CreateRow(model: string, data: Row, now: int) returns (r: Outcome)
      modifies this
      ensures (State(), r) == Create(schema, old(State()), model, data, now)
      ensures CreateOutcome(schema, old(State()), State(), model, data, now, r)
    {
      hide CreateOutcome, AddsRow, LegacyClash, FirstClash, NoneShares, Seeded;
      CreateMeans(schema, State(), model, data, now);
      log := log + [LogEntry(model, "create")];
      if model in schema.legacy && LegacyClash(schema.legacy[model], Rows(model), data) {
        return LegacyDuplicate;
      }
      var clash := CheckClash(KeysOf(schema, model), Rows(model), data);
      if clash.Some? {
        return Duplicate(clash.value);
      }
      var created := SeedRow(model, data, now);
      r := Stored(created);
    }

    method CreateRows(model: string, data: seq<Row>, skipDuplicates: bool, now: int) returns (r: BatchResult)
      modifies this
      ensures (State(), r) == CreateMany(schema, old(State()), model, data, skipDuplicates, now)
      ensures BatchOutcome(schema, old(State()), State(), model, data, skipDuplicates, now, r)
    {
      hide BatchOutcome, AddsRow;
      BatchMeans(schema, State(), model, data, skipDuplicates, now);
      var count := 0;
      var n := 0;
      while n < |data|
        invariant n <= |data|
        invariant CreateManyFrom(schema, State(), model, data[n..], skipDuplicates, now, count)
          == CreateMany(schema, old(State()), model, data, skipDuplicates, now)
      {
        assert data[n..][1..] == data[n + 1..];
        var clash := FirstClash(KeysOf(schema, model), Rows(model), data[n]).Some?;
        if clash && skipDuplicates {
          n := n + 1;
          continue;
        }
        if clash {
          return BatchDuplicate;
        }
        var _ := SeedRow(model, data[n], now);
        count := count + 1;
        n := n + 1;
      }
      r := Counted(count);
    }

    static method CheckTaken(keys: seq<Key>, rows: seq<Row>, i: nat, data: Patch) returns (r: Option<Key>)
      requires i < |rows|
      ensures r == FirstTaken(keys, rows, i, data)
      ensures r.Some? ==> r.value in keys && exists j :: 0 <= j < |rows| && TakenBy(rows, i, data, r.value, j)
    {
      var n := 0;
      while n < |keys|
        invariant n <= |keys|
        invariant FirstTaken(keys, rows, i, data) == FirstTaken(keys[n..], rows, i, data)
      {
        if Taken(rows, i, data, keys[n]) {
          TakenMeans(rows, i, data, keys[n]);
          return Some(keys[n]);
        }
        n := n + 1;
      }
      r := None;
    }

    method UpdateRow(model: string, where: Row -> bool, data: Patch, now: int) returns (r: Outcome)
      modifies this
      ensures (State(), r) == Update(schema, old(State()), model, where, data, now)
      ensures UpdateOutcome(schema, old(State()), State(), model, where, data, now, r)
    {
      hide UpdateOutcome, Applied;
      UpdateMeans(schema, State(), model, where, data, now);
      log := log + [LogEntry(model, "update")];
      var rows := Rows(model);
      var i := FirstHit(rows, where);
      if i == |rows| {
        return NotFound;
      }
      var taken := CheckTaken(KeysOf(schema, model), rows, i, data);
      if taken.Some? {
        return Duplicate(taken.value);
      }
      var row := Applied(schema.num, rows[i], data, Date(Ours(dates), now));
      dates := dates + 1;
      tables := tables[model := rows[i := row]];
      r := Stored(row);
    }

    static method WindowOf(ordered: seq<Row>, cursor: Option<Row -> bool>, skip: nat, take: Option<nat>) returns (list: seq<Row>)
      ensures list == Paging.Window(ordered, cursor, skip, take)
      ensures Paging.IsWindow(ordered, cursor, skip, take, list)
    {
      hide Paging.IsWindow;
      Paging.WindowMeans(ordered, cursor, skip, take);
      list := ordered;
      ghost var start := if cursor.Some? then FirstHit(ordered, cursor.value) else 0;
      if cursor.Some? {
        var index := FirstHit(list, cursor.value);
        list := if index == |list| then [] else From(list, index);
      }
      assert list == From(ordered, start);
      SliceSteps(ordered, start, skip, if take.Some? then take.value else |ordered|);
      if skip != 0 {
        list := From(list, skip);
      }
      if take.Some? {
        list := Until(list, take.value);
      }
    }

    method FindRows(model: string, where: Row -> bool, orderBy: Option<seq<OrderSpec>>,
                    cursor: Option<Row -> bool>, skip: nat, take: Option<nat>) returns (list: seq<Row>)
      ensures list == Queries.Find(schema.num, Rows(model), where, orderBy, cursor, skip, take)
      ensures (orderBy.Some? ==> Sortable(Rows(model), orderBy.value)) ==> Queries.FindOutcome(Rows(model), where, orderBy, cursor, skip, take, list)
    {
      if orderBy.Some? ==> Sortable(Rows(model), orderBy.value) {
        Queries.FindMeans(schema.num, Rows(model), where, orderBy, cursor, skip, take);
      }
      list := Filter(Rows(model), where);
      if orderBy.Some? {
        list := Sort(RowOrder(schema.num, orderBy.value), list);
      }
      list := WindowOf(list, cursor, skip, take);
    }

    method DeleteRow(model: string, where: Row -> bool) returns (r: Option<Row>)
      modifies this
      ensures State() == Delete(old(State()), model, where)
      ensures RemovesFirst(old(State()), State(), model, where, r)
    {
      hide RemovesFirst;
      DeleteMeans(State(), model, where);
      var rows := Rows(model);
      var i := FirstHit(rows, where);
      if i == |rows| {
        tables := tables[model := rows];
        return None;
      }
      tables := tables[model := rows[..i] + rows[i + 1..]];
      r := Some(rows[i]);
    }

    method DeleteRows(model: string, where: Row -> bool) returns (count: nat)
      modifies this
      ensures State() == DeleteMany(old(State()), model, where)
      ensures RemovesAll(old(State()), State(), model, where, count)
    {
      hide RemovesAll, Filter;
      DeleteManyMeans(State(), model, where);
      count := |Filter(Rows(model), where)|;
      tables := tables[model := Filter(Rows(model), Not(where))];
    }
  }
}
