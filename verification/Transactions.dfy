/**
 * Interactive transactions of the in-memory store (__tests__/helpers/memory-db.ts:569-576,
 * 886-895): each `$transaction(body)` is chained behind the one before it, and the chain
 * goes on whether a body returns or throws.
 *
 * The event loop may run any enabled step next; a run is any sequence of steps.
 */
module Transactions {
  import opened Lists

  datatype Status = Waiting | Running | Returned | Threw

  /** One submitted body: the run it is chained behind, and the transaction it awaits. */
  datatype Tx = Tx(behind: Option<nat>, status: Status, awaits: Option<nat>)

  /** `txChain` is the last run; `starts` records the order in which bodies started. */
  datatype Chain = Chain(txs: seq<Tx>, txChain: Option<nat>, starts: seq<nat>, transactionError: bool)

  const EMPTY_CHAIN := Chain([], None, [], false)

  datatype Event =
    | SetError(on: bool)
    | Submit
    | SubmitInside(body: nat)
    | Await(body: nat, other: nat)
    | Start(body: nat)
    | Finish(body: nat, throws: bool)

  predicate Over(tx: Tx) { tx.status == Returned || tx.status == Threw }

  predicate Settled(c: Chain, i: nat)
    requires i < |c.txs|
  {
    Over(c.txs[i])
  }

  /** The promise this link waits for has settled; a rejection is swallowed by the chain. */
  predicate Released(c: Chain, p: Option<nat>) {
    p.None? || (p.value < |c.txs| && Settled(c, p.value))
  }

  predicate Enabled(c: Chain, e: Event) {
    match e
    case SetError(_) => true
    case Submit => true
    case SubmitInside(i) => i < |c.txs| && c.txs[i].status == Running && Released(c, c.txs[i].awaits)
    case Await(i, j) => i < |c.txs| && j < |c.txs| && c.txs[i].status == Running && Released(c, c.txs[i].awaits)
    case Start(i) => i < |c.txs| && c.txs[i].status == Waiting && Released(c, c.txs[i].behind)
    case Finish(i, _) => i < |c.txs| && c.txs[i].status == Running && Released(c, c.txs[i].awaits)
  }

  /** `$transaction(body)`: with transactionError set it throws and chains nothing. */
  function Chained(c: Chain): Chain {
    if c.transactionError then c
    else c.(txs := c.txs + [Tx(c.txChain, Waiting, None)], txChain := Some(|c.txs|))
  }

  function Step(c: Chain, e: Event): Chain
    requires Enabled(c, e)
  {
    match e
    case SetError(on) => c.(transactionError := on)
    case Submit => Chained(c)
    case SubmitInside(i) =>
      var after := Chained(c);
      if c.transactionError then c else after.(txs := after.txs[i := c.txs[i].(awaits := Some(|c.txs|))])
    case Await(i, j) => c.(txs := c.txs[i := c.txs[i].(awaits := Some(j))])
    case Start(i) => c.(txs := c.txs[i := c.txs[i].(status := Running)], starts := c.starts + [i])
    case Finish(i, throws) => c.(txs := c.txs[i := c.txs[i].(status := if throws then Threw else Returned, awaits := None)])
  }

  ghost predicate IsRun(c: Chain, events: seq<Event>)
    decreases |events|
  {
    events == [] || (Enabled(c, events[0]) && IsRun(Step(c, events[0]), events[1..]))
  }

  function After(c: Chain, events: seq<Event>): Chain
    requires IsRun(c, events)
    decreases |events|
  {
    if events == [] then c else After(Step(c, events[0]), events[1..])
  }

  // ---------------------------------------------------------------- serial

  /** Link i of a chain of `total` submissions, `started` of which have begun. */
  predicate LinkOk(tx: Tx, i: nat, started: nat, total: nat) {
    && tx.behind == (if i == 0 then None else Some(i - 1))
    && (tx.status == Waiting <==> i >= started)
    && (i + 1 < started ==> Over(tx))
    && (tx.awaits.Some? ==> tx.status == Running && tx.awaits.value < total)
  }

  /** The first |starts| bodies have started, in submission order, and all but the last of them are over. */
  ghost predicate Serial(c: Chain) {
    && |c.starts| <= |c.txs|
    && (forall i :: 0 <= i < |c.starts| ==> c.starts[i] == i)
    && c.txChain == (if c.txs == [] then None else Some(|c.txs| - 1))
    && (forall i :: 0 <= i < |c.txs| ==> LinkOk(c.txs[i], i, |c.starts|, |c.txs|))
  }

  lemma StepKeepsSerial(c: Chain, e: Event)
    requires Serial(c) && Enabled(c, e)
    ensures Serial(Step(c, e))
  {
    match e
    case SetError(_) =>
    case Submit =>
    case SubmitInside(i) => assert i == |c.starts| - 1;
    case Await(i, _) => assert i == |c.starts| - 1;
    case Start(i) => assert i == |c.starts|;
    case Finish(i, _) => assert i == |c.starts| - 1;
  }

  lemma {:induction false} RunStaysSerial(c: Chain, events: seq<Event>)
    requires Serial(c) && IsRun(c, events)
    ensures Serial(After(c, events))
    decreases |events|
  {
    if events != [] {
      StepKeepsSerial(c, events[0]);
      RunStaysSerial(Step(c, events[0]), events[1..]);
    }
  }

  /**
   * In every state of every run from a fresh store at most one body is running, and the
   * bodies have started in exactly the order they were submitted.
   */
  lemma TransactionsAreSerial(events: seq<Event>)
    requires IsRun(EMPTY_CHAIN, events)
    ensures var d := After(EMPTY_CHAIN, events);
      && Serial(d)
      && (forall k :: 0 <= k < |d.starts| ==> d.starts[k] == k)
      && (forall i, j :: 0 <= i < |d.txs| && 0 <= j < |d.txs| && d.txs[i].status == Running && d.txs[j].status == Running ==> i == j)
  {
    RunStaysSerial(EMPTY_CHAIN, events);
    var d := After(EMPTY_CHAIN, events);
    forall i | 0 <= i < |d.txs| && d.txs[i].status == Running ensures i == |d.starts| - 1 {
      assert LinkOk(d.txs[i], i, |d.starts|, |d.txs|);
    }
  }

  // ---------------------------------------------------------------- progress

  ghost predicate AllSettled(c: Chain) {
    forall i :: 0 <= i < |c.txs| ==> Settled(c, i)
  }

  /** Body i is running and awaits itself or one chained behind it. */
  ghost predicate Nested(c: Chain, i: nat, j: nat) {
    i < |c.txs| && c.txs[i].status == Running && c.txs[i].awaits == Some(j) && j >= i
  }

  ghost predicate Stuck(c: Chain) { exists i, j :: Nested(c, i, j) }

  /** Steps left: two for a waiting body, one for a running one. */
  function Remaining(txs: seq<Tx>): nat {
    if txs == [] then 0
    else (match txs[0].status case Waiting => 2 case Running => 1 case _ => 0) + Remaining(txs[1..])
  }

  lemma {:induction false} RemainingAfter(txs: seq<Tx>, i: nat, tx: Tx)
    requires i < |txs|
    requires (txs[i].status == Waiting && tx.status == Running) || (txs[i].status == Running && (tx.status == Returned || tx.status == Threw))
    ensures Remaining(txs[i := tx]) == Remaining(txs) - 1
  {
    if i == 0 {
      assert txs[i := tx][1..] == txs[1..];
    } else {
      assert txs[i := tx][1..] == txs[1..][i - 1 := tx];
      RemainingAfter(txs[1..], i - 1, tx);
    }
  }

  /** Starting or finishing a body, by return or by throw, uses up one step. */
  lemma WorkIsFinite(c: Chain, e: Event)
    requires Enabled(c, e) && (e.Start? || e.Finish?)
    ensures Remaining(Step(c, e).txs) == Remaining(c.txs) - 1
  {
    match e
    case Start(i) => RemainingAfter(c.txs, i, c.txs[i].(status := Running));
    case Finish(i, throws) => RemainingAfter(c.txs, i, c.txs[i].(status := if throws then Threw else Returned, awaits := None));
  }

  /**
   * While no body awaits itself or one behind it, work can go on until everything submitted
   * is over: a body that throws still lets every later one run.
   */
  lemma NeverStuck(c: Chain) returns (e: Event)
    requires Serial(c) && !Stuck(c) && !AllSettled(c)
    ensures (e.Start? || e.Finish?) && Enabled(c, e)
  {
    var k := |c.starts|;
    if k > 0 && c.txs[k - 1].status == Running {
      e := Finish(k - 1, false);
      var awaits := c.txs[k - 1].awaits;
      if awaits.Some? {
        assert !Nested(c, k - 1, awaits.value);
        assert LinkOk(c.txs[awaits.value], awaits.value, k, |c.txs|);
      }
    } else {
      var i :| 0 <= i < |c.txs| && !Settled(c, i);
      assert LinkOk(c.txs[i], i, k, |c.txs|) && i >= k;
      e := Start(k);
    }
  }

  // ---------------------------------------------------------------- nesting

  /** The body that awaits is the last to have started, and what it awaits is not over. */
  lemma NestedIsLast(c: Chain, i: nat, j: nat)
    requires Serial(c) && Nested(c, i, j)
    ensures i == |c.starts| - 1 && i <= j < |c.txs| && !Over(c.txs[j])
  {
    assert LinkOk(c.txs[i], i, |c.starts|, |c.txs|);
    assert LinkOk(c.txs[j], j, |c.starts|, |c.txs|);
  }

  /** Some body can start or end exactly when something is not over and no body awaits itself or one behind it. */
  lemma CanGoOnIff(c: Chain)
    requires Serial(c)
    ensures (exists e: Event :: (e.Start? || e.Finish?) && Enabled(c, e)) <==> !AllSettled(c) && !Stuck(c)
  {
    if !AllSettled(c) && !Stuck(c) {
      var e := NeverStuck(c);
    } else if Stuck(c) {
      var i, j :| Nested(c, i, j);
      NestedIsLast(c, i, j);
      forall e: Event | e.Start? || e.Finish? ensures !Enabled(c, e) {
        if e.body < |c.txs| { assert LinkOk(c.txs[e.body], e.body, |c.starts|, |c.txs|); }
      }
    } else {
      forall e: Event | e.Start? || e.Finish? ensures !Enabled(c, e) {
        if e.body < |c.txs| { assert Settled(c, e.body); }
      }
    }
  }

  /**
   * A body that awaits itself or a transaction chained behind it never ends, and in every
   * continuation no other body ever starts again.
   */
  lemma {:induction false} NestedTransactionDeadlocks(c: Chain, events: seq<Event>, i: nat, j: nat)
    requires Serial(c) && Nested(c, i, j) && IsRun(c, events)
    ensures Nested(After(c, events), i, j) && After(c, events).starts == c.starts
    decreases |events|
  {
    if events != [] {
      StepKeepsSerial(c, events[0]);
      StepKeepsNested(c, events[0], i, j);
      NestedTransactionDeadlocks(Step(c, events[0]), events[1..], i, j);
    }
  }

  lemma StepKeepsNested(c: Chain, e: Event, i: nat, j: nat)
    requires Serial(c) && Nested(c, i, j) && Enabled(c, e)
    ensures Nested(Step(c, e), i, j) && Step(c, e).starts == c.starts
  {
    NestedIsLast(c, i, j);
    if e.Start? || e.Finish? || e.SubmitInside? || e.Await? {
      assert LinkOk(c.txs[e.body], e.body, |c.starts|, |c.txs|);
    }
  }

  /** A body comes to await what the chain has put behind it: one it submits there and then, or one submitted before. */
  predicate AwaitsAhead(c: Chain, e: Event) {
    (e.SubmitInside? && !c.transactionError) || (e.Await? && e.other >= e.body)
  }

  ghost predicate AwaitedAhead(c: Chain, events: seq<Event>)
    requires IsRun(c, events)
    decreases |events|
  {
    events != [] && (AwaitsAhead(c, events[0]) || AwaitedAhead(Step(c, events[0]), events[1..]))
  }

  lemma StepNestsIff(c: Chain, e: Event)
    requires Serial(c) && Enabled(c, e) && !Stuck(c)
    ensures Stuck(Step(c, e)) <==> AwaitsAhead(c, e)
  {
    var d := Step(c, e);
    if AwaitsAhead(c, e) {
      assert Nested(d, e.body, if e.Await? then e.other else |c.txs|);
    } else if Stuck(d) {
      var i, j :| Nested(d, i, j);
      assert Nested(c, i, j);
    }
  }

  /** A run is stuck for good exactly when a body has come to await itself or one behind it. */
  lemma {:induction false} StuckIff(c: Chain, events: seq<Event>)
    requires Serial(c) && IsRun(c, events)
    ensures Stuck(After(c, events)) <==> Stuck(c) || AwaitedAhead(c, events)
    decreases |events|
  {
    if Stuck(c) {
      var i, j :| Nested(c, i, j);
      NestedTransactionDeadlocks(c, events, i, j);
    } else if events != [] {
      StepKeepsSerial(c, events[0]);
      StepNestsIff(c, events[0]);
      StuckIff(Step(c, events[0]), events[1..]);
    }
  }
}
