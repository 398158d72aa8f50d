/**
 * The CSV import queue of the campaign builder: the rows the import page staged in
 * localStorage are offered one at a time (components/campaign-builder.tsx:383-398,
 * 504-541, 566-590; lib/import-queue.ts).
 */
module ImportQueue {
  import opened Lists

  /** `line` only tells apart rows with the same content. */
  datatype Row = Row(line: nat, text: string)

  datatype Entry = Entry(row: Row, saved: bool)

  /** The server's answer to a save; a dropped one was carried out, but the builder is told it failed. */
  datatype Reply = Accepted | Refused | Dropped

  /** `importQueue`, the stored queue, and what became of the rows. */
  datatype State = State(queue: Option<seq<Row>>, stored: Option<seq<Row>>, handled: seq<Entry>)

  /** `written`: whether localStorage took the change; the code goes on either way. */
  datatype Event = Submit(valid: bool, reply: Reply, written: bool) | Skip(written: bool) | Reload

  predicate Nonempty(q: Option<seq<Row>>) { q.Some? && q.value != [] }

  /** The row shown is dealt with: show the next, or clear the storage and leave the page. */
  function Advance(s: State, entry: Entry, written: bool): State
    requires Nonempty(s.queue)
  {
    var rest := s.queue.value[1..];
    var left := if rest == [] then None else Some(rest);
    State(if rest == [] then s.queue else left, if written then left else s.stored, s.handled + [entry])
  }

  function Step(s: State, e: Event): State {
    match e
    case Submit(valid, reply, written) =>
      if !valid || reply == Refused || !Nonempty(s.queue) then s
      else if reply == Dropped then s.(handled := s.handled + [Entry(s.queue.value[0], true)])
      else Advance(s, Entry(s.queue.value[0], true), written)
    case Skip(written) => if !Nonempty(s.queue) then s else Advance(s, Entry(s.queue.value[0], false), written)
    case Reload => s.(queue := if Nonempty(s.stored) then s.stored else None)
  }

  function Open(file: seq<Row>): State { Step(State(None, Some(file), []), Reload) }

  function After(s: State, events: seq<Event>): State
    decreases |events|
  {
    if events == [] then s else After(Step(s, events[0]), events[1..])
  }

  class Builder {
    var importQueue: Option<seq<Row>>
    var stored: Option<seq<Row>>
    ghost var handled: seq<Entry>

    ghost function Contents(): State
      reads this
    {
      State(importQueue, stored, handled)
    }

    /** The effect that picks up a staged import when the builder opens. */
    constructor (stored: Option<seq<Row>>)
      ensures Contents() == Step(State(None, stored, []), Reload)
    {
      this.stored, importQueue, handled := stored, None, [];
      if stored.Some? && stored.value != [] {
        importQueue := stored;
      }
    }

    method HandleSubmit(valid: bool, reply: Reply, written: bool)
      modifies this
      ensures Contents() == Step(old(Contents()), Submit(valid, reply, written))
    {
      if !valid {
        return;
      }
      if reply != Refused && importQueue.Some? && importQueue.value != [] {
        handled := handled + [Entry(importQueue.value[0], true)];
      }
      if reply != Accepted {
        return;
      }
      if importQueue.Some? && |importQueue.value| > 1 {
        var remaining := importQueue.value[1..];
        if written {
          stored := Some(remaining);
        }
        importQueue := Some(remaining);
        return;
      }
      if importQueue.Some? && importQueue.value != [] && written {
        stored := None;
      }
    }

    method SkipRow(written: bool)
      modifies this
      ensures Contents() == Step(old(Contents()), Skip(written))
    {
      if importQueue.None? || importQueue.value == [] {
        return;
      }
      handled := handled + [Entry(importQueue.value[0], false)];
      if |importQueue.value| > 1 {
        var remaining := importQueue.value[1..];
        if written {
          stored := Some(remaining);
        }
        importQueue := Some(remaining);
        return;
      }
      if written {
        stored := None;
      }
    }
  }

  // ---------------------------------------------------------------- positions

  /** The file's rows are told apart by their lines. */
  predicate IsFile(file: seq<Row>) { forall i :: 0 <= i < |file| ==> file[i].line == i }

  /** The line a queue stands at; past the end when there is no queue. */
  function Line(q: Option<seq<Row>>, n: nat): nat { if Nonempty(q) then q.value[0].line else n }

  /** The first line never handled. */
  function Reached(handled: seq<Entry>): nat
    decreases |handled|
  {
    if handled == [] then 0
    else
      var last, before := handled[|handled| - 1].row.line + 1, Reached(handled[..|handled| - 1]);
      if before < last then last else before
  }

  lemma ReachedAppend(handled: seq<Entry>, e: Entry)
    ensures Reached(handled + [e]) == if Reached(handled) < e.row.line + 1 then e.row.line + 1 else Reached(handled)
  {
    assert (handled + [e])[..|handled|] == handled;
  }

  ghost predicate Covers(handled: seq<Entry>, upto: nat) {
    forall l :: 0 <= l < upto ==> WasHandled(handled, l)
  }

  lemma CoversOneMore(handled: seq<Entry>, upto: nat, e: Entry)
    requires Covers(handled, upto) && e.row.line <= upto
    ensures Covers(handled + [e], if e.row.line == upto then upto + 1 else upto)
  {
    var after := handled + [e];
    assert after[|handled|] == e;
    forall l | 0 <= l < upto ensures WasHandled(after, l) {
      assert WasHandled(handled, l);
      var k :| 0 <= k < |handled| && handled[k].row.line == l;
      assert after[k].row.line == l;
    }
  }

  predicate IsTail(q: Option<seq<Row>>, file: seq<Row>) {
    q.Some? && q.value != [] ==> q.value[0].line < |file| && q.value == file[q.value[0].line..]
  }

  ghost predicate Inv(s: State, file: seq<Row>) {
    && IsFile(file) && IsTail(s.queue, file) && IsTail(s.stored, file)
    && Line(s.queue, |file|) <= Reached(s.handled) <= |file| && Line(s.stored, |file|) <= Reached(s.handled)
    && (forall k :: 0 <= k < |s.handled| ==> var l := s.handled[k].row.line; l < |file| && s.handled[k].row == file[l])
    && Covers(s.handled, Reached(s.handled))
  }

  predicate WasHandled(handled: seq<Entry>, line: nat) { exists k :: 0 <= k < |handled| && handled[k].row.line == line }

  /** The row on the screen has been dealt with before. */
  predicate Behind(s: State, n: nat) { Line(s.queue, n) < Reached(s.handled) }

  predicate Handles(s: State, e: Event) {
    Nonempty(s.queue) && ((e.Submit? && e.valid && e.reply != Refused) || e.Skip?)
  }

  lemma OpenInv(file: seq<Row>)
    requires IsFile(file)
    ensures Inv(Open(file), file) && !Behind(Open(file), |file|)
    ensures Open(file).handled == [] && (file != [] ==> Open(file).queue == Some(file))
  {}

  lemma HandlingStep(s: State, e: Event, file: seq<Row>)
    requires Inv(s, file) && Handles(s, e)
    ensures var t := Step(s, e); var l := Line(s.queue, |file|);
      && l < |file| && t.handled == s.handled + [Entry(file[l], e.Submit?)]
      && Reached(t.handled) == (if l < Reached(s.handled) then Reached(s.handled) else l + 1)
      && Covers(t.handled, Reached(t.handled))
      && IsTail(t.queue, file) && IsTail(t.stored, file)
      && Line(t.queue, |file|) == (if l + 1 < |file| && !(e.Submit? && e.reply == Dropped) then l + 1 else l)
      && Line(t.stored, |file|) == (if e.written && !(e.Submit? && e.reply == Dropped) then l + 1 else Line(s.stored, |file|))
  {
    hide Covers, Reached;
    var l := Line(s.queue, |file|);
    var entry := Entry(file[l], e.Submit?);
    ReachedAppend(s.handled, entry);
    CoversOneMore(s.handled, Reached(s.handled), entry);
    assert file[l..][1..] == file[l + 1..];
  }

  lemma StepInv(s: State, e: Event, file: seq<Row>)
    requires Inv(s, file)
    ensures Inv(Step(s, e), file)
  {
    if Handles(s, e) {
      HandlingStep(s, e, file);
    }
  }

  lemma {:induction false} RunInv(s: State, events: seq<Event>, file: seq<Row>)
    requires Inv(s, file)
    ensures Inv(After(s, events), file)
    decreases |events|
  {
    hide Inv, Step;
    if events != [] {
      StepInv(s, events[0], file);
      RunInv(Step(s, events[0]), events[1..], file);
    }
  }

  // ---------------------------------------------------------------- what every run keeps

  /**
   * Whatever is refused, dropped, not written or reloaded: rows are first handled in file
   * order without a gap, and when neither the screen nor the storage has a row left, every
   * row of the file has been saved or skipped.
   */
  lemma NoRowIsLost(file: seq<Row>, events: seq<Event>)
    requires IsFile(file)
    ensures var s := After(Open(file), events);
      && (forall l :: 0 <= l < |file| ==> (WasHandled(s.handled, l) <==> l < Reached(s.handled)))
      && (s.queue.None? ==> forall l :: 0 <= l < |file| ==> WasHandled(s.handled, l))
  {
    OpenInv(file);
    RunInv(Open(file), events, file);
    QueueIsNeverEmpty(Open(file), events);
    var s := After(Open(file), events);
    forall l | 0 <= l < |file| && WasHandled(s.handled, l) ensures l < Reached(s.handled) {
      HandledIsBelow(s.handled, l);
    }
  }

  lemma {:induction false} HandledIsBelow(handled: seq<Entry>, line: nat)
    requires WasHandled(handled, line)
    ensures line < Reached(handled)
    decreases |handled|
  {
    var k :| 0 <= k < |handled| && handled[k].row.line == line;
    var before := handled[..|handled| - 1];
    if k < |handled| - 1 {
      assert before[k].row.line == line;
      HandledIsBelow(before, line);
    }
  }

  lemma {:induction false} QueueIsNeverEmpty(s: State, events: seq<Event>)
    requires s.queue != Some([])
    ensures After(s, events).queue != Some([])
    decreases |events|
  {
    if events != [] {
      QueueIsNeverEmpty(Step(s, events[0]), events[1..]);
    }
  }

  /** How often a row already dealt with is dealt with again. */
  function Repeats(s: State, events: seq<Event>, n: nat): nat
    decreases |events|
  {
    if events == [] then 0
    else Repeats(Step(s, events[0]), events[1..], n) + if Handles(s, events[0]) && Behind(s, n) then 1 else 0
  }

  function RowsOf(handled: seq<Entry>): (rows: seq<Row>)
    ensures |rows| == |handled| && forall k :: 0 <= k < |rows| ==> rows[k] == handled[k].row
  {
    seq(|handled|, k requires 0 <= k < |handled| => handled[k].row)
  }

  /** Each row was handled exactly once, in file order. */
  ghost predicate InOrder(s: State, file: seq<Row>) {
    Reached(s.handled) <= |file| && RowsOf(s.handled) == file[..Reached(s.handled)]
  }

  lemma {:induction false} RepeatsCount(s: State, events: seq<Event>, file: seq<Row>)
    requires Inv(s, file)
    ensures |After(s, events).handled| - Reached(After(s, events).handled) == |s.handled| - Reached(s.handled) + Repeats(s, events, |file|)
    ensures InOrder(s, file) && Repeats(s, events, |file|) == 0 ==> InOrder(After(s, events), file)
    decreases |events|
  {
    hide Inv, Step, InOrder, Reached;
    if events != [] {
      StepInv(s, events[0], file);
      RepeatsCount(Step(s, events[0]), events[1..], file);
      OneStepCounts(s, events[0], file);
    }
  }

  lemma OneStepCounts(s: State, e: Event, file: seq<Row>)
    requires Inv(s, file)
    ensures var t := Step(s, e);
      && |t.handled| - Reached(t.handled) == |s.handled| - Reached(s.handled) + (if Handles(s, e) && Behind(s, |file|) then 1 else 0)
      && (InOrder(s, file) && !(Handles(s, e) && Behind(s, |file|)) ==> InOrder(t, file))
  {
    hide WasHandled, Covers, Step, IsTail, Reached;
    if Handles(s, e) {
      HandlingStep(s, e, file);
      var l := Line(s.queue, |file|);
      if InOrder(s, file) && !Behind(s, |file|) {
        assert file[..l + 1] == file[..l] + [file[l]];
      }
    } else {
      NothingHandled(s, e);
    }
  }

  lemma NothingHandled(s: State, e: Event)
    requires !Handles(s, e)
    ensures Step(s, e).handled == s.handled
  {}

  /**
   * Every row is saved or skipped exactly once, in file order, exactly when no row is ever
   * dealt with while the builder is behind.
   */
  lemma ExactlyOnceIff(file: seq<Row>, events: seq<Event>)
    requires IsFile(file)
    ensures InOrder(After(Open(file), events), file) <==> Repeats(Open(file), events, |file|) == 0
  {
    OpenInv(file);
    RepeatsCount(Open(file), events, file);
  }

  /**
   * How the builder gets behind: its reply is lost, the last row is done and the page has
   * not yet gone away, or it is reopened on a queue whose last change was not written.
   */
  lemma GetsBehindIff(s: State, e: Event, file: seq<Row>)
    requires Inv(s, file) && !Behind(s, |file|)
    ensures Behind(Step(s, e), |file|) <==>
      || (Handles(s, e) && e.Submit? && e.reply == Dropped)
      || (Handles(s, e) && Line(s.queue, |file|) + 1 == |file|)
      || (e.Reload? && Line(s.stored, |file|) < Reached(s.handled))
  {
    if Handles(s, e) {
      HandlingStep(s, e, file);
    }
  }

  /** The storage stands at the first row not handled exactly when the last change to it was written. */
  lemma StorageMirrorsIff(s: State, e: Event, file: seq<Row>)
    requires Inv(s, file) && !Behind(s, |file|) && Handles(s, e)
    ensures var t := Step(s, e);
      && (Line(t.stored, |file|) == Reached(t.handled) <==> e.written && !(e.Submit? && e.reply == Dropped))
      && (Line(t.stored, |file|) == Reached(t.handled) ==> !Behind(Step(t, Reload), |file|))
  {
    HandlingStep(s, e, file);
  }

  /**
   * Read off a run as it goes: `redo`, the row on the screen has been dealt with; `loose`,
   * the storage holds one that has. A lost reply and the last row leave the screen so, a
   * change that is not written the storage, and a reload copies the storage to the screen.
   */
  ghost predicate Careful(s: State, events: seq<Event>, redo: bool, loose: bool)
    decreases |events|
  {
    events == [] ||
    (var e := events[0];
     var lost := e.Submit? && e.reply == Dropped;
     if Handles(s, e) then !redo && Careful(Step(s, e), events[1..], lost || |s.queue.value| == 1, lost || !e.written)
     else Careful(Step(s, e), events[1..], if e.Reload? then loose else redo, loose))
  }

  lemma {:induction false} CarefulRunsRepeatNothing(s: State, events: seq<Event>, file: seq<Row>)
    requires Inv(s, file)
    ensures Careful(s, events, Behind(s, |file|), Line(s.stored, |file|) < Reached(s.handled)) <==> Repeats(s, events, |file|) == 0
    decreases |events|
  {
    hide Covers, IsTail, WasHandled, Reached, Step;
    if events != [] {
      var e, t := events[0], Step(s, events[0]);
      StepInv(s, e, file);
      CarefulRunsRepeatNothing(t, events[1..], file);
      if Handles(s, e) {
        if !Behind(s, |file|) {
          AfterHandling(s, e, file);
        }
      } else {
        AfterOther(s, e, file);
      }
    }
  }

  lemma AfterHandling(s: State, e: Event, file: seq<Row>)
    requires Inv(s, file) && Handles(s, e) && !Behind(s, |file|)
    ensures var t := Step(s, e); var lost := e.Submit? && e.reply == Dropped;
      && (Behind(t, |file|) <==> lost || |s.queue.value| == 1)
      && (Line(t.stored, |file|) < Reached(t.handled) <==> lost || !e.written)
  {
    HandlingStep(s, e, file);
    GetsBehindIff(s, e, file);
    StorageMirrorsIff(s, e, file);
    assert |s.queue.value| == |file| - Line(s.queue, |file|);
  }

  lemma AfterOther(s: State, e: Event, file: seq<Row>)
    requires Inv(s, file) && !Handles(s, e)
    ensures var t := Step(s, e);
      && t.handled == s.handled && t.stored == s.stored
      && (Behind(t, |file|) <==> if e.Reload? then Line(s.stored, |file|) < Reached(s.handled) else Behind(s, |file|))
  {
    hide Reached;
  }

  /**
   * Over a whole run, every row is saved or skipped exactly once and in file order exactly
   * when no further save or skip follows a lost reply, the last row, or an unwritten change
   * and a reload.
   */
  lemma ExactlyOnceWhenCareful(file: seq<Row>, events: seq<Event>)
    requires IsFile(file)
    ensures InOrder(After(Open(file), events), file) <==> Careful(Open(file), events, false, false)
  {
    OpenInv(file);
    ExactlyOnceIff(file, events);
    CarefulRunsRepeatNothing(Open(file), events, file);
  }

  const SAVED := Submit(true, Accepted, true)

  lemma TwoEvents(s: State, a: Event, b: Event)
    ensures After(s, [a, b]) == Step(Step(s, a), b)
  {
    assert [a, b][1..] == [b] && [b][1..] == [];
    assert After(Step(s, a), [b]) == After(Step(Step(s, a), b), []);
  }

  /** A save whose reply is lost, tried again. */
  lemma LostReplySavesTwice(file: seq<Row>)
    requires file != []
    ensures var s := After(Open(file), [Submit(true, Dropped, true), SAVED]);
      s.handled == [Entry(file[0], true), Entry(file[0], true)]
  {
    TwoEvents(Open(file), Submit(true, Dropped, true), SAVED);
  }

  /** The button pressed again after the last row, before the page has gone. */
  lemma LastRowSavesTwice(row: Row)
    ensures After(Open([row]), [SAVED, SAVED]).handled == [Entry(row, true), Entry(row, true)]
  {
    TwoEvents(Open([row]), SAVED, SAVED);
  }

  /** The storage does not take the change, and the builder is opened again. */
  lemma UnwrittenQueueSavesTwice(file: seq<Row>)
    requires |file| >= 2
    ensures var s := After(Open(file), [Submit(true, Accepted, false), Reload] + [SAVED]);
      s.handled == [Entry(file[0], true), Entry(file[0], true)]
  {
    var first, events := Submit(true, Accepted, false), [Submit(true, Accepted, false), Reload] + [SAVED];
    assert events[0] == first && events[1..] == [Reload, SAVED];
    TwoEvents(Step(Open(file), first), Reload, SAVED);
  }

  /** Over any run a refused save, and one the form does not send, may be left out. */
  lemma {:induction false} FailedSavesDoNotAdvance(s: State, before: seq<Event>, failed: Event, after: seq<Event>)
    requires failed.Submit? && (!failed.valid || failed.reply == Refused)
    ensures After(s, before + [failed] + after) == After(s, before + after)
    decreases |before|
  {
    var whole := before + [failed] + after;
    if before == [] {
      assert whole[0] == failed && whole[1..] == after && before + after == after;
    } else {
      assert whole[1..] == before[1..] + [failed] + after && (before + after)[1..] == before[1..] + after;
      FailedSavesDoNotAdvance(Step(s, before[0]), before[1..], failed, after);
    }
  }
}
