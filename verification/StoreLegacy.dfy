/**
 * The three models of the in-memory store whose inserts have a hand-written check
 * (__tests__/helpers/memory-db.ts:741-743): what creating rows keeps, and the two ways round
 * the check.
 */
module StoreLegacy {
  import opened Lists
  import opened Rows
  import opened Store
  import opened StoreSafety

  ghost predicate NoneCollide(rule: LegacyRule, rows: seq<Row>) {
    Pairwise((a: Row, b: Row) => !Collides(rule, a, b), rows)
  }

  /** The defaults leave what the check compares as the caller gave it. */
  predicate Spelled(rule: LegacyRule, defaults: Row, row: Row) {
    var full := defaults + row;
    match rule
    case LeadKey => Agree(full, row, ["idempotencyKey"])
    case MessageMid => Truthy(Column(full, "mid")) ==> Agree(full, row, ["conversationId", "mid"])
    case DeliveryKind => Agree(full, row, ["leadId", "integrationId"]) && KindOrNew(full) == KindOrNew(row)
  }

  lemma SeededCollides(s: Schema, db: Db, model: string, row: Row, now: int, rule: LegacyRule, a: Row)
    ensures Collides(rule, a, Seeded(s, db, model, row, now)) <==> Collides(rule, a, DefaultsOf(s, model) + row)
  {
    var full, plain := Seeded(s, db, model, row, now), DefaultsOf(s, model) + row;
    SameColumn(s, db, model, row, now, "idempotencyKey", 2, 'e');
    SameColumn(s, db, model, row, now, "mid", 0, 'm');
    SameColumn(s, db, model, row, now, "conversationId", 2, 'n');
    SameColumn(s, db, model, row, now, "leadId", 0, 'l');
    SameColumn(s, db, model, row, now, "integrationId", 2, 't');
    SameColumn(s, db, model, row, now, "kind", 0, 'k');
    assert forall k :: k in ["idempotencyKey"] || k in ["conversationId", "mid"] || k in ["leadId", "integrationId"] ==>
      Column(full, k) == Column(plain, k);
    assert KindOrNew(full) == KindOrNew(plain);
  }

  /** The columns the store itself fills are id, createdAt and updatedAt, told apart here by one letter. */
  lemma SameColumn(s: Schema, db: Db, model: string, row: Row, now: int, k: string, at: nat, letter: char)
    requires at < |k| && k[at] == letter && |k| != 2 && |k| != 9
    ensures Column(Seeded(s, db, model, row, now), k) == Column(DefaultsOf(s, model) + row, k)
  {
    assert |"id"| == 2 && |"createdAt"| == 9 && |"updatedAt"| == 9;
    assert k != "id" && k != "createdAt" && k != "updatedAt";
  }

  lemma SpelledCollides(rule: LegacyRule, defaults: Row, row: Row, a: Row)
    requires Spelled(rule, defaults, row) && Collides(rule, a, defaults + row)
    ensures Collides(rule, a, row)
  {
    var full := defaults + row;
    match rule
    case LeadKey =>
      assert Column(full, "idempotencyKey") == Column(row, "idempotencyKey") by { assert "idempotencyKey" in ["idempotencyKey"]; }
      assert Agree(a, row, ["idempotencyKey"]);
    case MessageMid =>
      assert Agree(full, row, ["conversationId", "mid"]);
      forall k | k in ["conversationId", "mid"] ensures Column(a, k) == Column(row, k) { assert Column(a, k) == Column(full, k) == Column(row, k); }
      assert "mid" in ["conversationId", "mid"];
    case DeliveryKind =>
      forall k | k in ["leadId", "integrationId"] ensures Column(a, k) == Column(row, k) { assert Column(a, k) == Column(full, k) == Column(row, k); }
  }

  /** A stored row that the completed row collides with and the row as given does not. */
  lemma UnspelledCollides(rule: LegacyRule, defaults: Row, row: Row)
    requires !Spelled(rule, defaults, row)
    ensures var full := defaults + row; Collides(rule, full, full) && !Collides(rule, full, row)
  {}

  lemma CreateKeepsNoneColliding(s: Schema, db: Db, model: string, row: Row, now: int)
    requires model in s.legacy && NoneCollide(s.legacy[model], RowsOf(db, model)) && Spelled(s.legacy[model], DefaultsOf(s, model), row)
    ensures NoneCollide(s.legacy[model], RowsOf(Create(s, db, model, row, now).0, model))
  {
    hide Collides, LegacyClash, Spelled, Seeded, FirstClash;
    var rule, rows := s.legacy[model], RowsOf(db, model);
    if Create(s, db, model, row, now).1.Stored? {
      var logged := db.(log := db.log + [LogEntry(model, "create")]);
      var full := Seeded(s, logged, model, row, now);
      LegacyClashMeans(rule, rows, row);
      forall i | 0 <= i < |rows| ensures !Collides(rule, rows[i], full) {
        SeededCollides(s, logged, model, row, now, rule, rows[i]);
        if Collides(rule, rows[i], full) { SpelledCollides(rule, DefaultsOf(s, model), row, rows[i]); }
      }
    }
  }

  /**
   * `create` keeps the rows of every table from colliding exactly when the defaults leave
   * what the check compares as it was given.
   */
  lemma CreateKeepsNoneCollidingIff(s: Schema, model: string, row: Row, now: int)
    requires model in s.legacy && KeysOf(s, model) == []
    ensures (forall db: Db :: NoneCollide(s.legacy[model], RowsOf(db, model))
               ==> NoneCollide(s.legacy[model], RowsOf(Create(s, db, model, row, now).0, model)))
            <==> Spelled(s.legacy[model], DefaultsOf(s, model), row)
  {
    hide Collides, LegacyClash, Spelled, Seeded;
    var rule, full := s.legacy[model], DefaultsOf(s, model) + row;
    if Spelled(rule, DefaultsOf(s, model), row) {
      forall db: Db | NoneCollide(rule, RowsOf(db, model)) ensures NoneCollide(rule, RowsOf(Create(s, db, model, row, now).0, model)) {
        CreateKeepsNoneColliding(s, db, model, row, now);
      }
    } else {
      UnspelledCollides(rule, DefaultsOf(s, model), row);
      var db := EMPTY_DB.(tables := map[model := [full]]);
      var logged := db.(log := db.log + [LogEntry(model, "create")]);
      LegacyClashMeans(rule, [full], row);
      SeededCollides(s, logged, model, row, now, rule, full);
      var after := RowsOf(Create(s, db, model, row, now).0, model);
      assert after == [full] + [Seeded(s, logged, model, row, now)];
      assert after[0] == full && after[1] == Seeded(s, logged, model, row, now);
    }
  }

  /** The defaults complete nothing the check compares, but for a delivery's kind, with "new". */
  predicate PlainDefaults(rule: LegacyRule, defaults: Row) {
    match rule
    case LeadKey => "idempotencyKey" !in defaults
    case MessageMid => "mid" !in defaults && "conversationId" !in defaults
    case DeliveryKind =>
      "leadId" !in defaults && "integrationId" !in defaults && ("kind" in defaults ==> defaults["kind"] == Str("new"))
  }

  /** DEFAULTS (memory-db.ts:365-370) is of that shape, so every row is spelled out. */
  lemma PlainDefaultsAreSpelled(rule: LegacyRule, defaults: Row, row: Row)
    requires PlainDefaults(rule, defaults)
    ensures Spelled(rule, defaults, row)
  {
    var full := defaults + row;
    assert forall k :: k !in defaults ==> Column(full, k) == Column(row, k);
    match rule
    case LeadKey => assert Agree(full, row, ["idempotencyKey"]);
    case MessageMid => assert Agree(full, row, ["conversationId", "mid"]);
    case DeliveryKind => assert Agree(full, row, ["leadId", "integrationId"]);
  }

  ghost predicate CreatesAndDeletes(s: Schema, op: Op) {
    match op
    case CreateOp(model, row, _) => model in s.legacy ==> Spelled(s.legacy[model], DefaultsOf(s, model), row)
    case DeleteOp(_, _) => true
    case DeleteManyOp(_, _) => true
    case CreateManyOp(model, _, _, _) => model !in s.legacy
    case UpdateOp(model, _, _, _) => model !in s.legacy
  }

  lemma {:induction false} BatchLeavesOthers(s: Schema, db: Db, model: string, data: seq<Row>, skip: bool, now: int, count: nat, other: string)
    requires other != model
    ensures RowsOf(CreateManyFrom(s, db, model, data, skip, now, count).0, other) == RowsOf(db, other)
    decreases |data|
  {
    hide FirstClash, Seeded;
    if data != [] {
      BatchLeavesOthers(s, db, model, data[1..], skip, now, count, other);
      BatchLeavesOthers(s, Seed(s, db, model, data[0], now), model, data[1..], skip, now, count + 1, other);
    }
  }

  lemma StepKeepsNoneColliding(s: Schema, db: Db, op: Op, model: string)
    requires model in s.legacy && NoneCollide(s.legacy[model], RowsOf(db, model)) && CreatesAndDeletes(s, op)
    ensures NoneCollide(s.legacy[model], RowsOf(Step(s, db, op), model))
  {
    hide Collides, Spelled, LegacyClash, FirstClash, FirstTaken, Seeded, Pairwise;
    var rows := RowsOf(db, model);
    var differ := (a: Row, b: Row) => !Collides(s.legacy[model], a, b);
    match op
    case CreateOp(m, row, now) => if m == model { CreateKeepsNoneColliding(s, db, model, row, now); }
    case CreateManyOp(m, data, skip, now) => BatchLeavesOthers(s, db, m, data, skip, now, 0, model);
    case UpdateOp(_, _, _, _) =>
    case DeleteOp(_, where) => PartIsPairwise(differ, rows, where, FirstHit(rows, where));
    case DeleteManyOp(_, where) => PartIsPairwise(differ, rows, Not(where), |rows|);
  }

  lemma {:induction false} RunKeepsNoneColliding(s: Schema, db: Db, ops: seq<Op>, model: string)
    requires model in s.legacy && NoneCollide(s.legacy[model], RowsOf(db, model))
    requires forall op :: op in ops ==> CreatesAndDeletes(s, op)
    ensures NoneCollide(s.legacy[model], RowsOf(Run(s, db, ops), model))
    decreases |ops|
  {
    hide Step, NoneCollide, CreatesAndDeletes;
    if ops != [] {
      assert ops[0] in ops;
      StepKeepsNoneColliding(s, db, ops[0], model);
      RunKeepsNoneColliding(s, Step(s, db, ops[0]), ops[1..], model);
    }
  }

  /** Over any run that only creates and deletes rows of these models, whatever it does to others, no two rows collide. */
  lemma CreatesAloneKeepLegacyKeys(s: Schema, ops: seq<Op>, model: string)
    requires model in s.legacy && forall op :: op in ops ==> CreatesAndDeletes(s, op)
    ensures NoneCollide(s.legacy[model], RowsOf(Run(s, EMPTY_DB, ops), model))
  {
    RunKeepsNoneColliding(s, EMPTY_DB, ops, model);
  }

  const LEGACY_SCHEMA := Schema(map[], map[], LEGACY_RULES, t => None)

  /** `createMany` does not look: two leads with one key are stored, which `create` refuses. */
  lemma CreateManyGoesRound(now: int, key: string)
    ensures var lead: Row := map["idempotencyKey" := Str(key)];
      var batch := CreateMany(LEGACY_SCHEMA, EMPTY_DB, "lead", [lead, lead], false, now);
      var one := Create(LEGACY_SCHEMA, EMPTY_DB, "lead", lead, now);
      && batch.1 == Counted(2) && !NoneCollide(LeadKey, RowsOf(batch.0, "lead"))
      && one.1.Stored? && Create(LEGACY_SCHEMA, one.0, "lead", lead, now).1 == LegacyDuplicate
  {
    hide Seeded;
    var s := LEGACY_SCHEMA;
    var lead: Row := map["idempotencyKey" := Str(key)];
    var db1 := Seed(s, EMPTY_DB, "lead", lead, now);
    var db2 := Seed(s, db1, "lead", lead, now);
    var a, b := Seeded(s, EMPTY_DB, "lead", lead, now), Seeded(s, db1, "lead", lead, now);
    LeadKeyIsKept(EMPTY_DB, now, key);
    LeadKeyIsKept(db1, now, key);
    assert [lead, lead][1..] == [lead] && [lead][1..] == [];
    assert CreateManyFrom(s, db1, "lead", [lead], false, now, 1) == CreateManyFrom(s, db2, "lead", [], false, now, 2);
    assert CreateMany(s, EMPTY_DB, "lead", [lead, lead], false, now) == (db2, Counted(2));
    var rows := RowsOf(db2, "lead");
    assert rows == [a, b] && rows[0] == a && rows[1] == b && Collides(LeadKey, rows[0], rows[1]);
    SecondLeadIsRefused(now, key);
  }

  lemma LeadKeyIsKept(db: Db, now: int, key: string)
    ensures Column(Seeded(LEGACY_SCHEMA, db, "lead", map["idempotencyKey" := Str(key)], now), "idempotencyKey") == Str(key)
  {}

  lemma SecondLeadIsRefused(now: int, key: string)
    ensures var lead: Row := map["idempotencyKey" := Str(key)];
      var one := Create(LEGACY_SCHEMA, EMPTY_DB, "lead", lead, now);
      one.1.Stored? && Create(LEGACY_SCHEMA, one.0, "lead", lead, now).1 == LegacyDuplicate
  {
    hide Seeded;
    var lead: Row := map["idempotencyKey" := Str(key)];
    var logged := EMPTY_DB.(log := EMPTY_DB.log + [LogEntry("lead", "create")]);
    var one := Create(LEGACY_SCHEMA, EMPTY_DB, "lead", lead, now);
    var stored := RowsOf(one.0, "lead");
    assert LEGACY_RULES["lead"] == LeadKey by { assert |"lead"| != |"conversationMessage"| && |"lead"| != |"leadDelivery"|; }
    LeadKeyIsKept(logged, now, key);
    assert stored == [] + [Seeded(LEGACY_SCHEMA, logged, "lead", lead, now)];
    assert Agree(stored[0], lead, ["idempotencyKey"]);
  }

  /** Neither does `update`: any row of a model without keys can be given any other row's columns. */
  lemma UpdateGoesRound(s: Schema, db: Db, model: string, i: nat, j: nat, where: Row -> bool, now: int)
    requires model in s.legacy && s.legacy[model] == LeadKey && KeysOf(s, model) == []
    requires var rows := RowsOf(db, model); i < j < |rows| && FirstHit(rows, where) == j && !Nullish(Column(rows[i], "idempotencyKey"))
    ensures var r := Update(s, db, model, where, map["idempotencyKey" := Change.Set(Column(RowsOf(db, model)[i], "idempotencyKey"))], now);
      r.1.Stored? && !NoneCollide(LeadKey, RowsOf(r.0, model))
  {
    var rows := RowsOf(db, model);
    var p: Patch := map["idempotencyKey" := Change.Set(Column(rows[i], "idempotencyKey"))];
    var r := Update(s, db, model, where, p, now);
    var row := Applied(s.num, rows[j], p, Date(Ours(db.dates), now));
    assert RowsOf(r.0, model) == rows[j := row];
    assert |"idempotencyKey"| == 14 && |"updatedAt"| == 9;
    assert Column(row, "idempotencyKey") == Column(rows[i], "idempotencyKey");
    assert Collides(LeadKey, rows[j := row][i], rows[j := row][j]);
  }
}
