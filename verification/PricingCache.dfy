/**
 * The in-process cache of the active pricing plans (lib/pricing.ts:160-178, 203-244). An
 * admin's edit writes the table and then clears the cache (lib/admin/actions.ts:103, 118).
 */
module PricingCache {
  import opened Lists
  import opened StableSorting

  datatype Plan = Plan(slug: string, isActive: bool, sortOrder: int, content: string)

  /** Five minutes, in milliseconds. */
  const TTL: int := 5 * 60 * 1000

  function Active(): Plan -> bool { (p: Plan) => p.isActive }

  function ByOrder(): (Plan, Plan) -> bool { (a: Plan, b: Plan) => a.sortOrder <= b.sortOrder }

  /** `findMany({ where: { isActive: true }, orderBy: { sortOrder: "asc" } })` */
  function Query(rows: seq<Plan>): seq<Plan> { Sort(ByOrder(), Filter(rows, Active())) }

  predicate HasSlug(rows: seq<Plan>, slug: string) { exists i :: 0 <= i < |rows| && rows[i].slug == slug }

  /** `createMany({ data, skipDuplicates: true })` under the unique slug. */
  function InsertMissing(rows: seq<Plan>, plans: seq<Plan>): seq<Plan>
    decreases |plans|
  {
    if plans == [] then rows
    else InsertMissing(if HasSlug(rows, plans[0].slug) then rows else rows + [plans[0]], plans[1..])
  }

  /** The query lists exactly the active plans, in order. */
  lemma QueryIsOrdered(rows: seq<Plan>)
    ensures StableSortOf(ByOrder(), Filter(rows, Active()), Query(rows))
    ensures forall p :: p in Query(rows) <==> p in rows && p.isActive
    ensures forall i, j :: 0 <= i < j < |Query(rows)| ==> Query(rows)[i].sortOrder <= Query(rows)[j].sortOrder
  {
    var kept := Filter(rows, Active());
    SortIsStable(ByOrder(), kept);
    SameMembers(Query(rows), kept);
    FilterMembers(rows, Active());
    forall i, j | 0 <= i < j < |Query(rows)| ensures Query(rows)[i].sortOrder <= Query(rows)[j].sortOrder {
      assert ByOrder()(Query(rows)[i], Query(rows)[j]);
    }
  }

  predicate DistinctSlugs(plans: seq<Plan>) {
    forall i, j :: 0 <= i < j < |plans| ==> plans[i].slug != plans[j].slug
  }

  lemma {:induction false} InsertMissingKeeps(rows: seq<Plan>, plans: seq<Plan>)
    requires DistinctSlugs(rows)
    ensures var after := InsertMissing(rows, plans);
      && rows <= after && DistinctSlugs(after)
      && (forall s :: HasSlug(after, s) <==> HasSlug(rows, s) || HasSlug(plans, s))
    decreases |plans|
  {
    if plans != [] {
      var p, rest := plans[0], plans[1..];
      var next := if HasSlug(rows, p.slug) then rows else rows + [p];
      InsertMissingKeeps(next, rest);
      forall s ensures HasSlug(plans, s) <==> p.slug == s || HasSlug(rest, s) {
        if HasSlug(rest, s) {
          var i :| 0 <= i < |rest| && rest[i].slug == s;
          assert plans[i + 1].slug == s;
        }
        if HasSlug(plans, s) && p.slug != s {
          var i :| 0 <= i < |plans| && plans[i].slug == s;
          assert rest[i - 1].slug == s;
        }
        assert p.slug == s ==> plans[0].slug == s;
      }
      forall s ensures HasSlug(next, s) <==> HasSlug(rows, s) || p.slug == s {
        if HasSlug(rows, s) {
          var i :| 0 <= i < |rows| && rows[i].slug == s;
          assert next[i].slug == s;
        }
        if p.slug == s && !HasSlug(rows, s) { assert next[|rows|].slug == s; }
      }
    }
  }

  lemma {:induction false} NothingMissing(rows: seq<Plan>, plans: seq<Plan>)
    requires forall i :: 0 <= i < |plans| ==> HasSlug(rows, plans[i].slug)
    ensures InsertMissing(rows, plans) == rows
    decreases |plans|
  {
    if plans != [] {
      NothingMissing(rows, plans[1..]);
    }
  }

  function Missing(rows: seq<Plan>): Plan -> bool { (p: Plan) => !HasSlug(rows, p.slug) }

  /** Exactly the plans whose slug the table does not have are added, behind it and in their order. */
  lemma {:induction false} InsertMissingAdds(rows: seq<Plan>, plans: seq<Plan>)
    requires DistinctSlugs(plans)
    ensures InsertMissing(rows, plans) == rows + Filter(plans, Missing(rows))
    decreases |plans|
  {
    hide HasSlug;
    if plans != [] {
      var p, rest := plans[0], plans[1..];
      var next := if HasSlug(rows, p.slug) then rows else rows + [p];
      InsertMissingAdds(next, rest);
      SameMissing(rows, next, p, rest);
    }
  }

  /** The first reader of an empty table stores the defaults. */
  lemma SeedingAnEmptyTable(plans: seq<Plan>)
    requires DistinctSlugs(plans)
    ensures InsertMissing([], plans) == plans
  {
    InsertMissingAdds([], plans);
    AllMissing(plans);
  }

  lemma {:induction false} SameMissing(rows: seq<Plan>, next: seq<Plan>, p: Plan, rest: seq<Plan>)
    requires (next == rows || next == rows + [p]) && forall i :: 0 <= i < |rest| ==> rest[i].slug != p.slug
    ensures Filter(rest, Missing(next)) == Filter(rest, Missing(rows))
  {
    if rest != [] {
      SameMissing(rows, next, p, rest[1..]);
      assert forall i :: 0 <= i < |rows| ==> next[i] == rows[i];
      assert HasSlug(next, rest[0].slug) <==> HasSlug(rows, rest[0].slug);
    }
  }

  lemma {:induction false} AllMissing(plans: seq<Plan>)
    ensures Filter(plans, Missing([])) == plans
  {
    if plans != [] {
      AllMissing(plans[1..]);
    }
  }

  /** Two readers who both found the table empty seed it once. */
  lemma SeedingTwiceIsOnce(rows: seq<Plan>, defaults: seq<Plan>)
    requires DistinctSlugs(rows)
    ensures InsertMissing(InsertMissing(rows, defaults), defaults) == InsertMissing(rows, defaults)
  {
    InsertMissingKeeps(rows, defaults);
    forall i | 0 <= i < |defaults| ensures HasSlug(InsertMissing(rows, defaults), defaults[i].slug) {
      assert HasSlug(defaults, defaults[i].slug);
    }
    NothingMissing(InsertMissing(rows, defaults), defaults);
  }

  // ---------------------------------------------------------------- one reader at a time

  datatype Cached = Cached(list: seq<Plan>, expiresAt: int)

  function Seeded(rows: seq<Plan>, defaults: seq<Plan>): seq<Plan> { if rows == [] then InsertMissing([], defaults) else rows }

  class PricingPlans {
    const defaults: seq<Plan>
    var rows: seq<Plan>
    var cache: Option<Cached>

    constructor (defaults: seq<Plan>, rows: seq<Plan>)
      ensures this.defaults == defaults && this.rows == rows && cache == None
    {
      this.defaults, this.rows, cache := defaults, rows, None;
    }

    /** What is cached is what a query would give now. */
    ghost predicate Coherent()
      reads this
    {
      cache.Some? ==> rows == Seeded(rows, defaults) && cache.value.list == Query(rows)
    }

    /** `now` and `later` are the clock before and after the load. */
    method GetActive(now: int, later: int) returns (plans: seq<Plan>)
      requires Coherent()
      modifies this
      ensures Coherent() && rows == Seeded(old(rows), defaults)
      ensures plans == Query(rows)
      ensures if old(cache).Some? && now < old(cache).value.expiresAt
        then plans == old(cache).value.list && cache == old(cache) && rows == old(rows)
        else cache == Some(Cached(plans, later + 300_000))
    {
      if cache.Some? && cache.value.expiresAt > now {
        return cache.value.list;
      }
      if rows == [] {
        rows := InsertMissing(rows, defaults);
      }
      plans := Query(rows);
      cache := Some(Cached(plans, later + TTL));
      SeededTwice(old(rows), defaults);
    }

    /** savePricingPlan and deletePricingPlan: the write, then the invalidation. */
    method Edit(rows': seq<Plan>)
      modifies this
      ensures Coherent() && rows == rows' && cache == None
    {
      rows := rows';
      cache := None;
    }
  }

  lemma SeededTwice(rows: seq<Plan>, defaults: seq<Plan>)
    ensures Seeded(Seeded(rows, defaults), defaults) == Seeded(rows, defaults)
  {
    if rows == [] && InsertMissing([], defaults) != [] {
      assert Seeded(rows, defaults) != [];
    }
  }

  // ---------------------------------------------------------------- readers and editors interleaved

  /** A load has counted the rows, has seeded if it found none, or has got its list from version `version` at time `at`. */
  datatype Load = Counted(empty: bool) | Ready | Queried(list: seq<Plan>, version: nat, at: int) | Done

  datatype Entry = Entry(list: seq<Plan>, version: nat, at: int, expiresAt: int)

  /** A list given to a reader, and the version the table had by then. */
  datatype Served = Served(list: seq<Plan>, version: nat, at: int, servedAt: int, latest: nat)

  /** Every version of the table with the time it became current, oldest first. */
  datatype World = World(now: int, tables: seq<seq<Plan>>, since: seq<int>, cache: Option<Entry>, loads: seq<Load>, served: seq<Served>)

  datatype Event = Tick(ms: nat) | Edit(rows: seq<Plan>) | Invalidate | Read | Seed(load: nat) | RunQuery(load: nat) | Store(load: nat)

  function Current(w: World): nat
    requires w.tables != []
  {
    |w.tables| - 1
  }

  function Write(w: World, rows: seq<Plan>): World { w.(tables := w.tables + [rows], since := w.since + [w.now]) }

  /** `slowest`: the longest a load takes from its query to its store. */
  predicate Enabled(w: World, e: Event, slowest: int) {
    match e
    case Seed(i) => i < |w.loads| && w.loads[i].Counted?
    case RunQuery(i) => i < |w.loads| && w.loads[i].Ready?
    case Store(i) => i < |w.loads| && w.loads[i].Queried? && w.now - w.loads[i].at <= slowest
    case _ => true
  }

  function Step(w: World, e: Event, defaults: seq<Plan>): (s: World)
    requires w.tables != []
    ensures s.tables != []
  {
    match e
    case Tick(ms) => w.(now := w.now + ms)
    case Edit(rows) => Write(w, rows)
    case Invalidate => w.(cache := None)
    case Read =>
      if Hits(w)
      then w.(served := w.served + [Served(w.cache.value.list, w.cache.value.version, w.cache.value.at, w.now, Current(w))])
      else w.(loads := w.loads + [Counted(w.tables[Current(w)] == [])])
    case Seed(i) =>
      if i >= |w.loads| then w
      else
        var s := if Seeds(w, i, defaults) then Write(w, InsertMissing(w.tables[Current(w)], defaults)) else w;
        s.(loads := w.loads[i := Ready])
    case RunQuery(i) =>
      if i >= |w.loads| then w else w.(loads := w.loads[i := Queried(Query(w.tables[Current(w)]), Current(w), w.now)])
    case Store(i) =>
      if i >= |w.loads| || !w.loads[i].Queried? then w
      else
        var q := w.loads[i];
        w.(cache := Some(Entry(q.list, q.version, q.at, w.now + TTL)), loads := w.loads[i := Done],
           served := w.served + [Served(q.list, q.version, q.at, w.now, Current(w))])
  }

  /** `activePlansCache.expiresAt > Date.now()` */
  predicate Hits(w: World) { w.cache.Some? && w.cache.value.expiresAt > w.now }

  /** The load found no rows, and some of the defaults are still missing. */
  predicate Seeds(w: World, i: nat, defaults: seq<Plan>)
    requires w.tables != []
  {
    i < |w.loads| && w.loads[i] == Counted(true) && InsertMissing(w.tables[Current(w)], defaults) != w.tables[Current(w)]
  }

  ghost predicate IsRun(w: World, events: seq<Event>, slowest: int, defaults: seq<Plan>)
    requires w.tables != []
    decreases |events|
  {
    events == [] || (Enabled(w, events[0], slowest) && IsRun(Step(w, events[0], defaults), events[1..], slowest, defaults))
  }

  function After(w: World, events: seq<Event>, defaults: seq<Plan>): World
    requires w.tables != []
    decreases |events|
  {
    if events == [] then w else After(Step(w, events[0], defaults), events[1..], defaults)
  }

  /** Version v was the table's content at time t. */
  ghost predicate CurrentAt(since: seq<int>, v: nat, t: int) {
    v < |since| && since[v] <= t && (v + 1 < |since| ==> t <= since[v + 1])
  }

  /** `list` is what the query gave at time `at`, when version v was the table. */
  ghost predicate Was(w: World, list: seq<Plan>, v: nat, at: int) {
    at <= w.now && v < |w.tables| && list == Query(w.tables[v]) && CurrentAt(w.since, v, at)
  }

  ghost predicate Inv(w: World, slowest: int) {
    && w.tables != [] && |w.since| == |w.tables|
    && (forall v :: 0 <= v < |w.since| ==> w.since[v] <= w.now)
    && (forall i :: 0 <= i < |w.loads| && w.loads[i].Queried? ==> Was(w, w.loads[i].list, w.loads[i].version, w.loads[i].at))
    && (w.cache.Some? ==> Was(w, w.cache.value.list, w.cache.value.version, w.cache.value.at) && w.cache.value.expiresAt - w.cache.value.at <= slowest + TTL)
    && (forall i :: 0 <= i < |w.served| ==> Recent(w, w.served[i], slowest))
  }

  /** The list was the query of the table at most one load and the TTL before it was served. */
  ghost predicate Recent(w: World, s: Served, slowest: int) {
    Was(w, s.list, s.version, s.at) && s.at <= s.servedAt <= w.now && s.servedAt - s.at < slowest + 300_000
  }

  lemma WriteKeeps(w: World, rows: seq<Plan>, list: seq<Plan>, v: nat, t: int)
    requires |w.since| == |w.tables| && Was(w, list, v, t)
    ensures Was(Write(w, rows), list, v, t)
  {}

  lemma WriteInv(w: World, rows: seq<Plan>, slowest: int)
    requires Inv(w, slowest)
    ensures Inv(Write(w, rows), slowest)
  {
    hide Was;
    var s := Write(w, rows);
    forall i | 0 <= i < |s.loads| && s.loads[i].Queried? ensures Was(s, s.loads[i].list, s.loads[i].version, s.loads[i].at) {
      WriteKeeps(w, rows, w.loads[i].list, w.loads[i].version, w.loads[i].at);
    }
    if w.cache.Some? { WriteKeeps(w, rows, w.cache.value.list, w.cache.value.version, w.cache.value.at); }
    forall i | 0 <= i < |s.served| ensures Recent(s, s.served[i], slowest) {
      assert Recent(w, w.served[i], slowest);
      WriteKeeps(w, rows, w.served[i].list, w.served[i].version, w.served[i].at);
    }
  }

  lemma TickInv(w: World, ms: nat, slowest: int)
    requires Inv(w, slowest)
    ensures Inv(w.(now := w.now + ms), slowest)
  {
    hide CurrentAt, Query;
    var s := w.(now := w.now + ms);
    forall i | 0 <= i < |s.served| ensures Recent(s, s.served[i], slowest) {
      assert Recent(w, w.served[i], slowest);
    }
  }

  lemma StoreInv(w: World, i: nat, slowest: int, defaults: seq<Plan>)
    requires Inv(w, slowest) && Enabled(w, Store(i), slowest)
    ensures Inv(Step(w, Store(i), defaults), slowest)
  {
    hide CurrentAt, Query;
    var s := Step(w, Store(i), defaults);
    forall k | 0 <= k < |s.served| ensures Recent(s, s.served[k], slowest) {
      if k < |w.served| { assert Recent(w, w.served[k], slowest); }
    }
  }

  lemma StepInv(w: World, e: Event, slowest: int, defaults: seq<Plan>)
    requires slowest >= 0 && Inv(w, slowest) && Enabled(w, e, slowest)
    ensures Inv(Step(w, e, defaults), slowest)
  {
    hide Query, InsertMissing;
    match e
    case Edit(rows) => WriteInv(w, rows, slowest);
    case Seed(i) => WriteInv(w, InsertMissing(w.tables[Current(w)], defaults), slowest);
    case Tick(ms) => TickInv(w, ms, slowest);
    case Store(i) => StoreInv(w, i, slowest, defaults);
    case RunQuery(i) =>
      var s := Step(w, e, defaults);
      forall k | 0 <= k < |s.served| ensures Recent(s, s.served[k], slowest) { assert Recent(w, w.served[k], slowest); }
    case Read =>
      var s := Step(w, e, defaults);
      forall k | 0 <= k < |s.served| ensures Recent(s, s.served[k], slowest) {
        if k < |w.served| { assert Recent(w, w.served[k], slowest); }
      }
    case Invalidate =>
  }

  lemma {:induction false} RunInv(w: World, events: seq<Event>, slowest: int, defaults: seq<Plan>)
    requires w.tables != [] && slowest >= 0 && Inv(w, slowest) && IsRun(w, events, slowest, defaults)
    ensures Inv(After(w, events, defaults), slowest)
    decreases |events|
  {
    hide Inv, Step;
    if events != [] {
      StepInv(w, events[0], slowest, defaults);
      RunInv(Step(w, events[0], defaults), events[1..], slowest, defaults);
    }
  }

  /** The process has just started: nothing cached, nothing under way. */
  function Started(rows: seq<Plan>, now: int): World { World(now, [rows], [now], None, [], []) }

  /**
   * Whatever readers, seeders and editors do after the process has started: every list
   * served is the query of a table that was current when it was queried, at most one load
   * and the TTL before it was served.
   */
  lemma ServedListsAreRecent(rows: seq<Plan>, now: int, events: seq<Event>, slowest: int, defaults: seq<Plan>)
    requires slowest >= 0 && IsRun(Started(rows, now), events, slowest, defaults)
    ensures var w := After(Started(rows, now), events, defaults);
      forall i :: 0 <= i < |w.served| ==> Recent(w, w.served[i], slowest)
  {
    RunInv(Started(rows, now), events, slowest, defaults);
  }

  /** A load stores its list; a read is then answered with it, without a load, exactly for the next five minutes. */
  lemma StoredListServesForFiveMinutes(w: World, i: nat, ms: nat, defaults: seq<Plan>)
    requires w.tables != [] && i < |w.loads| && w.loads[i].Queried?
    ensures var stored := Step(w, Store(i), defaults); var read := Step(Step(stored, Tick(ms), defaults), Read, defaults);
      if ms < 300_000
      then read.loads == stored.loads && |read.served| == |stored.served| + 1 && read.served[|stored.served|].list == w.loads[i].list
      else read.served == stored.served && |read.loads| == |stored.loads| + 1
  {
    hide Query, InsertMissing;
  }

  /** A load that has counted no rows adds the missing defaults to whatever the table holds by then; any other leaves it alone. */
  lemma SeedStepMeans(w: World, i: nat, defaults: seq<Plan>)
    requires w.tables != [] && i < |w.loads| && w.loads[i].Counted?
    ensures var s := Step(w, Seed(i), defaults);
      && s.tables[Current(s)] == (if w.loads[i].empty then InsertMissing(w.tables[Current(w)], defaults) else w.tables[Current(w)])
      && (w.loads[i] == Counted(true) && w.tables[Current(w)] == [] && DistinctSlugs(defaults) ==> s.tables[Current(s)] == defaults)
      && s.loads == w.loads[i := Ready] && s.cache == w.cache && s.served == w.served
  {
    if DistinctSlugs(defaults) { SeedingAnEmptyTable(defaults); }
  }

  // ---------------------------------------------------------------- fresh lists

  /** The cache holds a version that is no longer current. */
  predicate Stale(w: World)
    requires w.tables != []
  {
    w.cache.Some? && w.cache.value.version != Current(w)
  }

  /** Each list was queried after the last write there had been when it was served. */
  ghost predicate AllFresh(served: seq<Served>) {
    forall i :: 0 <= i < |served| ==> served[i].version == served[i].latest
  }

  /** Whether the table has been written since the cache was last cleared or filled. */
  function Unclear(w: World, e: Event, unclear: bool, defaults: seq<Plan>): bool
    requires w.tables != []
  {
    match e
    case Edit(_) => true
    case Seed(i) => unclear || Seeds(w, i, defaults)
    case Invalidate => false
    case Store(_) => false
    case _ => unclear
  }

  /** No load stores what it queried before the last write, and no read hits between a write and the invalidation after it. */
  ghost predicate Disciplined(w: World, events: seq<Event>, unclear: bool, defaults: seq<Plan>)
    requires w.tables != []
    decreases |events|
  {
    events == [] ||
    (var e := events[0];
     && (e.Store? && e.load < |w.loads| && w.loads[e.load].Queried? ==> w.loads[e.load].version == Current(w))
     && (e.Read? && Hits(w) ==> !unclear)
     && Disciplined(Step(w, e, defaults), events[1..], Unclear(w, e, unclear, defaults), defaults))
  }

  lemma {:induction false} ServedGrows(w: World, events: seq<Event>, defaults: seq<Plan>)
    requires w.tables != []
    ensures w.served <= After(w, events, defaults).served
    decreases |events|
  {
    if events != [] {
      ServedGrows(Step(w, events[0], defaults), events[1..], defaults);
    }
  }

  /** A stale cache is exactly one filled before a write that nothing has cleared yet. */
  ghost predicate Linked(w: World, unclear: bool)
    requires w.tables != []
  {
    w.cache.Some? ==> (Stale(w) <==> unclear)
  }

  lemma StepStaysLinked(w: World, e: Event, unclear: bool, slowest: int, defaults: seq<Plan>)
    requires w.tables != [] && Inv(w, slowest) && Linked(w, unclear) && Enabled(w, e, slowest)
    requires e.Store? ==> w.loads[e.load].version == Current(w)
    ensures Linked(Step(w, e, defaults), Unclear(w, e, unclear, defaults))
  {}

  lemma {:induction false} FreshRunIff(w: World, events: seq<Event>, unclear: bool, slowest: int, defaults: seq<Plan>)
    requires w.tables != [] && slowest >= 0 && Inv(w, slowest) && Linked(w, unclear) && IsRun(w, events, slowest, defaults) && AllFresh(w.served)
    ensures AllFresh(After(w, events, defaults).served) <==> Disciplined(w, events, unclear, defaults)
    decreases |events|
  {
    hide Inv, Query, InsertMissing, IsRun;
    if events != [] {
      var e, next := events[0], Step(w, events[0], defaults);
      assert Enabled(w, e, slowest) && IsRun(next, events[1..], slowest, defaults) by { FirstOfRun(w, events, slowest, defaults); }
      StepInv(w, e, slowest, defaults);
      ServedGrows(next, events[1..], defaults);
      if next.served == w.served || next.served[|w.served|].version == next.served[|w.served|].latest {
        StepStaysLinked(w, e, unclear, slowest, defaults);
        FreshRunIff(next, events[1..], Unclear(w, e, unclear, defaults), slowest, defaults);
      } else {
        var k := |w.served|;
        assert After(w, events, defaults).served[k] == next.served[k];
      }
    }
  }

  lemma FirstOfRun(w: World, events: seq<Event>, slowest: int, defaults: seq<Plan>)
    requires w.tables != [] && events != [] && IsRun(w, events, slowest, defaults)
    ensures Enabled(w, events[0], slowest) && IsRun(Step(w, events[0], defaults), events[1..], slowest, defaults)
  {}

  /**
   * Over every run from the start, each list served was queried after the last write exactly
   * when no load stores what it queried before one, and no read hits between a write and the
   * invalidation that follows it.
   */
  lemma ServedListsAreFreshIff(rows: seq<Plan>, now: int, events: seq<Event>, slowest: int, defaults: seq<Plan>)
    requires slowest >= 0 && IsRun(Started(rows, now), events, slowest, defaults)
    ensures AllFresh(After(Started(rows, now), events, defaults).served) <==> Disciplined(Started(rows, now), events, false, defaults)
  {
    FreshRunIff(Started(rows, now), events, false, slowest, defaults);
  }

  /** Each served list is the query of the table as it was when the list was served. */
  ghost predicate AllCurrent(w: World) {
    forall i :: 0 <= i < |w.served| ==> w.served[i].latest < |w.tables| && w.served[i].list == Query(w.tables[w.served[i].latest])
  }

  ghost predicate LatestExist(w: World) {
    forall i :: 0 <= i < |w.served| ==> w.served[i].latest < |w.tables|
  }

  lemma {:induction false} LatestStayExisting(w: World, events: seq<Event>, defaults: seq<Plan>)
    requires w.tables != [] && LatestExist(w)
    ensures LatestExist(After(w, events, defaults))
    decreases |events|
  {
    hide Query, InsertMissing;
    if events != [] {
      LatestStayExisting(Step(w, events[0], defaults), events[1..], defaults);
    }
  }

  /** Versions of the table whose lists can be told apart. */
  ghost predicate ListsDiffer(w: World) {
    forall u, v :: 0 <= u < |w.tables| && 0 <= v < |w.tables| && u != v ==> Query(w.tables[u]) != Query(w.tables[v])
  }

  /**
   * Then each list served is the query of the table at that moment; and when no write leaves
   * or brings back a list, only then.
   */
  lemma ServedListsAreCurrentIff(rows: seq<Plan>, now: int, events: seq<Event>, slowest: int, defaults: seq<Plan>)
    requires slowest >= 0 && IsRun(Started(rows, now), events, slowest, defaults)
    ensures var w := After(Started(rows, now), events, defaults);
      && (Disciplined(Started(rows, now), events, false, defaults) ==> AllCurrent(w))
      && (ListsDiffer(w) ==> (AllCurrent(w) <==> Disciplined(Started(rows, now), events, false, defaults)))
  {
    hide Query, InsertMissing, After, IsRun, Disciplined;
    var w := After(Started(rows, now), events, defaults);
    ServedListsAreFreshIff(rows, now, events, slowest, defaults);
    RunInv(Started(rows, now), events, slowest, defaults);
    LatestStayExisting(Started(rows, now), events, defaults);
    forall i | 0 <= i < |w.served| ensures
      && w.served[i].version < |w.tables| && w.served[i].list == Query(w.tables[w.served[i].version])
    {
      assert Recent(w, w.served[i], slowest);
    }
  }

  /** An edit during a load that saves the content `edited`. */
  function EditDuringLoad(edited: seq<Plan>): seq<Event> {
    [Read] + ([Seed(0)] + ([RunQuery(0)] + ([Edit(edited)] + ([Invalidate] + [Store(0)]))))
  }

  function AfterEditDuringLoad(rows: seq<Plan>, edited: seq<Plan>, now: int): World {
    World(now, [rows, edited], [now, now], Some(Entry(Query(rows), 0, now, now + TTL)), [Done], [Served(Query(rows), 0, now, now, 1)])
  }

  lemma EditDuringLoadRuns(rows: seq<Plan>, edited: seq<Plan>, now: int, defaults: seq<Plan>)
    requires rows != []
    ensures IsRun(Started(rows, now), EditDuringLoad(edited), 0, defaults)
    ensures After(Started(rows, now), EditDuringLoad(edited), defaults) == AfterEditDuringLoad(rows, edited, now)
  {
    hide Query, InsertMissing, IsRun, After;
    var w1 := World(now, [rows], [now], None, [Counted(false)], []);
    var w2 := w1.(loads := [Ready]);
    var w3 := w1.(loads := [Queried(Query(rows), 0, now)]);
    var w4 := w3.(tables := [rows, edited], since := [now, now]);
    var w6 := AfterEditDuringLoad(rows, edited, now);
    LastStep(w4, Store(0), w6, defaults);
    ThenRun(w4, Invalidate, w4, [Store(0)], w6, defaults);
    ThenRun(w3, Edit(edited), w4, [Invalidate] + [Store(0)], w6, defaults);
    ThenRun(w2, RunQuery(0), w3, [Edit(edited)] + ([Invalidate] + [Store(0)]), w6, defaults);
    ThenRun(w1, Seed(0), w2, [RunQuery(0)] + ([Edit(edited)] + ([Invalidate] + [Store(0)])), w6, defaults);
    ThenRun(Started(rows, now), Read, w1, [Seed(0)] + ([RunQuery(0)] + ([Edit(edited)] + ([Invalidate] + [Store(0)]))), w6, defaults);
  }

  /** Saving the same content: the list served is the table's, though queried before the write. */
  lemma SameContentIsCurrent(rows: seq<Plan>, now: int, defaults: seq<Plan>)
    requires rows != []
    ensures IsRun(Started(rows, now), EditDuringLoad(rows), 0, defaults)
    ensures AllCurrent(After(Started(rows, now), EditDuringLoad(rows), defaults))
    ensures !Disciplined(Started(rows, now), EditDuringLoad(rows), false, defaults)
  {
    hide Query, InsertMissing, IsRun, After, Disciplined, EditDuringLoad;
    EditDuringLoadRuns(rows, rows, now, defaults);
    ServedListsAreFreshIff(rows, now, EditDuringLoad(rows), 0, defaults);
    var w := AfterEditDuringLoad(rows, rows, now);
    assert w.served[0].version != w.served[0].latest;
  }

  /** The load stores its old list after the edit has cleared the cache, and the next read is served it too. */
  lemma LoadOverlapsEdit(rows: seq<Plan>, edited: seq<Plan>, now: int, defaults: seq<Plan>)
    requires rows != []
    ensures IsRun(Started(rows, now), EditDuringLoad(edited) + [Read], 0, defaults)
    ensures var w := After(Started(rows, now), EditDuringLoad(edited) + [Read], defaults); var stale := Served(Query(rows), 0, now, now, 1);
      w.tables == [rows, edited] && w.served == [stale, stale]
  {
    hide Query, InsertMissing, IsRun, After, EditDuringLoad;
    EditDuringLoadRuns(rows, edited, now, defaults);
    var w := AfterEditDuringLoad(rows, edited, now);
    OneMore(Started(rows, now), EditDuringLoad(edited), Read, defaults);
    assert Step(w, Read, defaults).served == w.served + [Served(Query(rows), 0, now, now, 1)];
  }

  lemma {:induction false} OneMore(w: World, events: seq<Event>, e: Event, defaults: seq<Plan>)
    requires w.tables != [] && IsRun(w, events, 0, defaults) && Enabled(After(w, events, defaults), e, 0)
    requires After(w, events, defaults).tables != []
    ensures IsRun(w, events + [e], 0, defaults)
    ensures After(w, events + [e], defaults) == Step(After(w, events, defaults), e, defaults)
    decreases |events|
  {
    hide Query, InsertMissing, Step;
    if events == [] {
      assert events + [e] == [e] && [e][1..] == [];
    } else {
      assert (events + [e])[0] == events[0] && (events + [e])[1..] == events[1..] + [e];
      OneMore(Step(w, events[0], defaults), events[1..], e, defaults);
    }
  }

  lemma LastStep(w: World, e: Event, next: World, defaults: seq<Plan>)
    requires w.tables != [] && Enabled(w, e, 0) && Step(w, e, defaults) == next
    ensures IsRun(w, [e], 0, defaults) && After(w, [e], defaults) == next
  {
    ThenRun(w, e, next, [], next, defaults);
    assert [e] + [] == [e];
  }

  lemma ThenRun(w: World, e: Event, next: World, rest: seq<Event>, last: World, defaults: seq<Plan>)
    requires w.tables != [] && next.tables != [] && Enabled(w, e, 0) && Step(w, e, defaults) == next
    requires IsRun(next, rest, 0, defaults) && After(next, rest, defaults) == last
    ensures IsRun(w, [e] + rest, 0, defaults) && After(w, [e] + rest, defaults) == last
  {
    assert ([e] + rest)[1..] == rest;
  }
}
