/**
 * The Telegram poll loop and its offset (scripts/telegram-poll.ts:27-45). Telegram keeps an
 * update until a request names a higher offset; the script forgets its offset when it stops.
 */
module Polling {
  /** The ids of the updates, in the order in which they arrive. */
  ghost predicate Ascending(updates: seq<nat>) {
    forall i, j :: 0 <= i < j < |updates| ==> updates[i] < updates[j]
  }

  /**
   * One turn of the loop. A failed request may have reached Telegram all the same. A
   * successful one sees the first `arrived` updates and returns at most `size`; the handler
   * throws on update number `throwsAt` of the batch, if there is one.
   */
  datatype Turn = Failed(reached: bool) | Got(arrived: nat, size: nat, throwsAt: nat)

  /** How many updates an offset confirms. */
  function Position(updates: seq<nat>, offset: nat): (n: nat)
    ensures n <= |updates|
    ensures forall i :: 0 <= i < n ==> updates[i] < offset
    ensures n < |updates| ==> updates[n] >= offset
  {
    if updates == [] || updates[0] >= offset then 0 else 1 + Position(updates[1..], offset)
  }

  function Max(a: nat, b: nat): nat { if a < b then b else a }

  function Min(a: nat, b: nat): nat { if a < b then a else b }

  /** Telegram's side: what has been confirmed, and what a request returns. */
  function Confirm(updates: seq<nat>, confirmed: nat, offset: nat): nat { Max(confirmed, Position(updates, offset)) }

  /** Where the batch that starts at `next` ends, of `total` updates. */
  function BatchEnd(total: nat, next: nat, t: Turn): (end: nat)
    requires t.Got? && next <= total
    ensures next <= end <= total
  {
    Max(next, Min(next + t.size, Min(t.arrived, total)))
  }

  function Batch(updates: seq<nat>, confirmed: nat, t: Turn): (batch: seq<nat>)
    requires t.Got? && confirmed <= |updates|
  {
    updates[confirmed..BatchEnd(|updates|, confirmed, t)]
  }

  /**
   * `got` updates from number `next` on are handed over: all there are, a full batch, or
   * those up to the one whose handler throws.
   */
  ghost predicate HandsOver(next: nat, got: int, total: nat, t: Turn)
    requires t.Got?
  {
    && 0 <= got <= t.size && got <= t.throwsAt + 1
    && (got > 0 ==> next + got <= t.arrived && next + got <= total)
    && (got == t.size || next + got >= t.arrived || next + got >= total || got == t.throwsAt + 1)
  }

  /** How many handlers of a batch start: the one that throws is the last. */
  function Begun(size: nat, throwsAt: nat): nat { if throwsAt < size then throwsAt + 1 else size }

  /** How far a turn brings a script that is at `next`. */
  function Onward(total: nat, next: nat, t: Turn): (n: nat)
    requires next <= total
    ensures next <= n <= total
  {
    if t.Failed? then next else next + Begun(BatchEnd(total, next, t) - next, t.throwsAt)
  }

  lemma OnwardHandsOver(total: nat, next: nat, t: Turn)
    requires next <= total
    ensures if t.Got? then HandsOver(next, Onward(total, next, t) - next, total, t) else Onward(total, next, t) == next
  {}

  /** How far the turns bring it. */
  function Reached(total: nat, next: nat, turns: seq<Turn>): (n: nat)
    requires next <= total
    ensures next <= n <= total
    decreases |turns|
  {
    if turns == [] then next else Reached(total, Onward(total, next, turns[0]), turns[1..])
  }

  // ---------------------------------------------------------------- the script

  class Poller {
    const updates: seq<nat>
    var offset: nat
    var confirmed: nat
    /** The updates handed to the handler since the script started, in order. */
    var begun: seq<nat>

    constructor (updates: seq<nat>, confirmed: nat)
      ensures this.updates == updates && this.confirmed == confirmed && offset == 0 && begun == []
    {
      this.updates, this.confirmed, offset, begun := updates, confirmed, 0, [];
    }

    /** Since the script started at `from`, the handler got the updates from there on, each once, in order. */
    ghost predicate Follows(from: nat)
      reads this
    {
      && from <= confirmed <= from + |begun| <= |updates|
      && begun == updates[from..from + |begun|]
      && offset == (if begun == [] then 0 else begun[|begun| - 1] + 1)
    }

    /** `for (const update of updates)` inside `try`. */
    method HandleBatch(batch: seq<nat>, throwsAt: nat)
      modifies `offset, `begun
      ensures begun == old(begun) + batch[..Begun(|batch|, throwsAt)]
      ensures offset == if batch == [] then old(offset) else begun[|begun| - 1] + 1
    {
      var i := 0;
      while i < |batch|
        invariant i <= |batch| && i <= throwsAt
        invariant begun == old(begun) + batch[..i]
        invariant offset == if i == 0 then old(offset) else batch[i - 1] + 1
      {
        offset := batch[i] + 1;
        begun := begun + [batch[i]];
        if i == throwsAt {
          return;
        }
        i := i + 1;
      }
    }

    method OneTurn(turn: Turn, ghost from: nat)
      requires Ascending(updates) && Follows(from)
      modifies this
      ensures Follows(from)
      ensures from + |begun| == Onward(|updates|, from + |old(begun)|, turn)
      ensures confirmed == if turn.Failed? && !turn.reached then old(confirmed) else from + |old(begun)|
    {
      hide Position, Max, Min, Ascending;
      ghost var was := |begun|;
      OffsetConfirms(updates, from, begun, offset, confirmed);
      if turn.Got? || turn.reached {
        confirmed := Confirm(updates, confirmed, offset);
      }
      if turn.Got? {
        var batch := Batch(updates, confirmed, turn);
        HandleBatch(batch, turn.throwsAt);
        Windows(updates, from, from + was, from + |begun|);
      }
    }

    method Poll(turns: seq<Turn>, ghost from: nat)
      requires Ascending(updates) && Follows(from)
      modifies this
      ensures Follows(from) && from + |begun| == Reached(|updates|, from + |old(begun)|, turns)
    {
      hide Onward;
      var k := 0;
      while k < |turns|
        invariant k <= |turns| && Follows(from)
        invariant Reached(|updates|, from + |begun|, turns[k..]) == Reached(|updates|, from + |old(begun)|, turns)
      {
        OneTurn(turns[k], from);
        k := k + 1;
      }
    }
  }

  lemma Windows(updates: seq<nat>, a: nat, b: nat, c: nat)
    requires a <= b <= c <= |updates|
    ensures updates[a..b] + updates[b..c] == updates[a..c]
    ensures forall d :: c <= d <= |updates| ==> updates[b..d][..c - b] == updates[b..c]
  {}

  lemma {:induction false} PositionOf(updates: seq<nat>, k: nat)
    requires Ascending(updates) && k < |updates|
    ensures Position(updates, updates[k] + 1) == k + 1
  {
    var n := Position(updates, updates[k] + 1);
    assert n < |updates| ==> updates[n] > updates[k];
    assert n > 0 ==> updates[n - 1] <= updates[k];
  }

  /** The next offset confirms exactly what has been handed over since the script started. */
  lemma OffsetConfirms(updates: seq<nat>, from: nat, begun: seq<nat>, offset: nat, confirmed: nat)
    requires Ascending(updates) && from <= confirmed <= from + |begun| <= |updates|
    requires begun == updates[from..from + |begun|]
    requires offset == if begun == [] then 0 else begun[|begun| - 1] + 1
    ensures Confirm(updates, confirmed, offset) == from + |begun|
  {
    if begun != [] {
      PositionOf(updates, from + |begun| - 1);
    }
  }

  // ---------------------------------------------------------------- what the runs do

  /**
   * One start of the script: whatever fails and throws, handlers start in strictly
   * increasing id order, none twice, and none below the offset is skipped.
   */
  method OneSession(updates: seq<nat>, turns: seq<Turn>) returns (begun: seq<nat>, offset: nat)
    requires Ascending(updates)
    ensures begun == updates[..Reached(|updates|, 0, turns)]
    ensures Ascending(begun)
    ensures forall i :: 0 <= i < |updates| ==> (updates[i] in begun <==> updates[i] < offset)
  {
    var p := new Poller(updates, 0);
    p.Poll(turns, 0);
    begun, offset := p.begun, p.offset;
    SkipsNothing(updates, |begun|, offset);
  }

  lemma SkipsNothing(updates: seq<nat>, n: nat, offset: nat)
    requires Ascending(updates) && n <= |updates| && offset == if n == 0 then 0 else updates[n - 1] + 1
    ensures forall i :: 0 <= i < |updates| ==> (updates[i] in updates[..n] <==> updates[i] < offset)
  {
    forall i | 0 <= i < |updates| ensures updates[i] in updates[..n] <==> updates[i] < offset {
      InWindow(updates, 0, n, i);
      assert updates[0..n] == updates[..n];
      assert n > 0 && i < n - 1 ==> updates[i] < updates[n - 1];
      assert n > 0 && i >= n ==> updates[n - 1] < updates[i];
    }
  }

  lemma InWindow(updates: seq<nat>, lo: nat, hi: nat, i: nat)
    requires Ascending(updates) && lo <= hi <= |updates| && i < |updates|
    ensures updates[i] in updates[lo..hi] <==> lo <= i < hi
  {
    if lo <= i < hi {
      assert updates[lo..hi][i - lo] == updates[i];
    } else {
      forall k | 0 <= k < hi - lo ensures updates[lo..hi][k] != updates[i] {
        assert updates[lo..hi][k] == updates[lo + k];
        assert lo + k < i ==> updates[lo + k] < updates[i];
        assert i < lo + k ==> updates[i] < updates[lo + k];
      }
    }
  }

  /** A handler that throws holds nothing up: each turn that finds updates waiting starts at least one new handler. */
  lemma {:induction false} EveryFetchAdvances(total: nat, next: nat, turns: seq<Turn>)
    requires next <= total
    requires forall k :: 0 <= k < |turns| ==> turns[k].Got? && turns[k].size > 0 && turns[k].arrived >= total
    ensures Reached(total, next, turns) >= Min(next + |turns|, total)
    decreases |turns|
  {
    if turns != [] {
      EveryFetchAdvances(total, Onward(total, next, turns[0]), turns[1..]);
    }
  }

  /** `two` repeats of `one` exactly the updates from number `from` on, and together they miss none. */
  ghost predicate Overlap(updates: seq<nat>, one: seq<nat>, two: seq<nat>, from: nat) {
    && (forall i :: 0 <= i < |updates| ==> (updates[i] in one && updates[i] in two <==> from <= i < Min(|one|, from + |two|)))
    && from + |two| <= |updates| && |one| <= |updates|
    && (forall i :: 0 <= i < Max(|one|, from + |two|) ==> updates[i] in one || updates[i] in two)
  }

  /**
   * The script is stopped and started again. The second run begins at what Telegram holds
   * confirmed, so exactly the updates handed over since the last request that arrived are
   * repeated, as far as the second run gets, and none is lost.
   */
  method TwoSessions(updates: seq<nat>, first: seq<Turn>, second: seq<Turn>) returns (one: seq<nat>, two: seq<nat>, confirmed: nat)
    requires Ascending(updates)
    ensures one == updates[..Reached(|updates|, 0, first)] && confirmed <= |one|
    ensures two == updates[confirmed..Reached(|updates|, confirmed, second)]
    ensures Overlap(updates, one, two, confirmed)
  {
    hide Ascending, Position, Reached, Overlap;
    var p := new Poller(updates, 0);
    p.Poll(first, 0);
    one, confirmed := p.begun, p.confirmed;
    var q := new Poller(updates, confirmed);
    q.Poll(second, confirmed);
    two := q.begun;
    var end := confirmed + |two|;
    assert one == updates[..|one|] && two == updates[confirmed..end];
    TwoWindows(updates, |one|, confirmed, end);
  }

  lemma TwoWindows(updates: seq<nat>, n: nat, lo: nat, hi: nat)
    requires Ascending(updates) && lo <= n <= |updates| && lo <= hi <= |updates|
    ensures Overlap(updates, updates[..n], updates[lo..hi], lo)
  {
    assert updates[..n] == updates[0..n];
    forall i | 0 <= i < |updates|
      ensures updates[i] in updates[..n] && updates[i] in updates[lo..hi] <==> lo <= i < Min(n, hi)
      ensures updates[i] in updates[..n] || updates[i] in updates[lo..hi] || i >= Max(n, hi)
    {
      InWindow(updates, 0, n, i);
      InWindow(updates, lo, hi, i);
    }
  }

  /** The confirmed mark trails by one batch at most: it is where the last request that arrived began. */
  method MarkTrails(updates: seq<nat>, turns: seq<Turn>, last: Turn) returns (confirmed: nat)
    requires Ascending(updates) && (last.Failed? ==> last.reached)
    ensures confirmed == Reached(|updates|, 0, turns)
  {
    var p := new Poller(updates, 0);
    p.Poll(turns, 0);
    p.OneTurn(last, 0);
    confirmed := p.confirmed;
  }
}
