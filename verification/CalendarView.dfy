/**
 * The content calendar (components/content/calendar-view.tsx): loads guarded by a sequence
 * number, optimistic moves with rollback, and the cells cards are shown in.
 */
module CalendarView {
  import opened Lists
  import opened StableSorting
  import opened Zones
  import Slots

  datatype Post = Post(id: string, at: Option<int>, status: string, version: int)

  // ---------------------------------------------------------------- moves and loads

  /** What `moveTo` remembers of the card while its request is out. */
  datatype Move = Move(id: string, target: int, at: Option<int>, status: string, version: int)

  datatype Reply = Refused | Moved(at: Option<int>, status: string, version: int)

  /**
   * `moves` are the requests out, by number; `seq` is `seq.current`, `open` the loads not
   * answered yet, and `applied` records the loads whose items were shown.
   */
  datatype View = View(posts: seq<Post>, moves: map<nat, Move>, nextMove: nat, seq_: nat, open: set<nat>, applied: seq<nat>)

  datatype Event =
    | Drop(id: string, at: int)
    | Settle(move: nat, reply: Reply)
    | Load
    | Respond(load: nat, items: Option<seq<Post>>)

  function Find(posts: seq<Post>, id: string): nat { FirstHit(posts, (p: Post) => p.id == id) }

  /** `list.map((p) => (p.id === id ? f(p) : p))` */
  function MapId(posts: seq<Post>, id: string, f: Post -> Post): (r: seq<Post>)
    ensures |r| == |posts|
    ensures forall i :: 0 <= i < |posts| ==> r[i] == if posts[i].id == id then f(posts[i]) else posts[i]
  {
    seq(|posts|, i requires 0 <= i < |posts| => if posts[i].id == id then f(posts[i]) else posts[i])
  }

  function Dropped(at: int): Post -> Post { (p: Post) => p.(at := Some(at)) }

  function Restored(m: Move): Post -> Post { (p: Post) => p.(at := m.at, status := m.status, version := m.version) }

  function Accepted(r: Reply): Post -> Post
    requires r.Moved?
  {
    (p: Post) => p.(at := r.at, status := r.status, version := r.version)
  }

  /** Up to the request: nothing happens for an unknown card or an unchanged time. */
  function StartMove(v: View, id: string, at: int): View {
    var i := Find(v.posts, id);
    if i == |v.posts| || v.posts[i].at == Some(at) then v
    else
      var p := v.posts[i];
      v.(posts := MapId(v.posts, id, Dropped(at)), moves := v.moves[v.nextMove := Move(id, at, p.at, p.status, p.version)], nextMove := v.nextMove + 1)
  }

  /** From the reply on. */
  function FinishMove(v: View, n: nat, reply: Reply): View {
    if n !in v.moves then v
    else
      var m := v.moves[n];
      v.(posts := MapId(v.posts, m.id, if reply.Refused? then Restored(m) else Accepted(reply)), moves := v.moves - {n})
  }

  function Step(v: View, e: Event): View {
    match e
    case Drop(id, at) => StartMove(v, id, at)
    case Settle(n, reply) => FinishMove(v, n, reply)
    case Load => v.(seq_ := v.seq_ + 1, open := v.open + {v.seq_ + 1})
    case Respond(mine, items) =>
      if mine !in v.open then v
      else if mine != v.seq_ || items.None? then v.(open := v.open - {mine})
      else v.(posts := items.value, open := v.open - {mine}, applied := v.applied + [mine])
  }

  function Run(v: View, events: seq<Event>): View
    decreases |events|
  {
    if events == [] then v else Run(Step(v, events[0]), events[1..])
  }

  // ---------------------------------------------------------------- what each half does

  /** Every card of this id has the given values, and no other card has changed. */
  ghost predicate OnlyCardIs(before: seq<Post>, after: seq<Post>, id: string, at: Option<int>, status: string, version: int) {
    && |after| == |before|
    && forall i :: 0 <= i < |before| ==> after[i] == if before[i].id == id then Post(id, at, status, version) else before[i]
  }

  /** The card takes the new time, its old values are kept for the reply, and nothing else moves. */
  ghost predicate MoveBegins(v: View, w: View, id: string, at: int, k: nat)
    requires k < |v.posts|
  {
    && |w.posts| == |v.posts|
    && (forall i :: 0 <= i < |v.posts| ==>
          w.posts[i] == if v.posts[i].id == id then Post(id, Some(at), v.posts[i].status, v.posts[i].version) else v.posts[i])
    && w.moves == v.moves[v.nextMove := Move(id, at, v.posts[k].at, v.posts[k].status, v.posts[k].version)]
    && w.nextMove == v.nextMove + 1 && w.seq_ == v.seq_ && w.open == v.open && w.applied == v.applied
  }

  ghost predicate IsFirstCard(posts: seq<Post>, id: string, k: nat) {
    k < |posts| && posts[k].id == id && forall i :: 0 <= i < k ==> posts[i].id != id
  }

  // ---------------------------------------------------------------- the class

  class Calendar {
    var posts: seq<Post>
    var moves: map<nat, Move>
    var nextMove: nat
    var seqCurrent: nat
    var open: set<nat>
    ghost var applied: seq<nat>

    ghost function State(): View
      reads this
    {
      View(posts, moves, nextMove, seqCurrent, open, applied)
    }

    /** The part of `moveTo` before its request; `sent` says whether there is one. */
    method BeginMove(id: string, at: int) returns (sent: Option<nat>)
      modifies this
      ensures State() == Step(old(State()), Drop(id, at))
      ensures sent.Some? ==> sent.value == old(nextMove) && exists k: nat ::
        IsFirstCard(old(posts), id, k) && old(posts)[k].at != Some(at) && MoveBegins(old(State()), State(), id, at, k)
      ensures sent.None? ==> State() == old(State()) && forall k: nat :: IsFirstCard(old(posts), id, k) ==> old(posts)[k].at == Some(at)
    {
      var i := Find(posts, id);
      if i == |posts| {
        return None;
      }
      var post := posts[i];
      if post.at == Some(at) {
        return None;
      }
      moves := moves[nextMove := Move(id, at, post.at, post.status, post.version)];
      posts := MapId(posts, id, Dropped(at));
      sent := Some(nextMove);
      nextMove := nextMove + 1;
    }

    method EndMove(n: nat, reply: Reply)
      modifies this
      ensures State() == Step(old(State()), Settle(n, reply))
      ensures n in old(moves) && reply.Refused? ==>
        OnlyCardIs(old(posts), posts, old(moves)[n].id, old(moves)[n].at, old(moves)[n].status, old(moves)[n].version)
      ensures n in old(moves) && reply.Moved? ==> OnlyCardIs(old(posts), posts, old(moves)[n].id, reply.at, reply.status, reply.version)
      ensures n !in old(moves) ==> State() == old(State())
    {
      if n !in moves {
        return;
      }
      var before := moves[n];
      moves := moves - {n};
      if reply.Refused? {
        posts := MapId(posts, before.id, Restored(before));
        return;
      }
      posts := MapId(posts, before.id, Accepted(reply));
    }

    method BeginLoad() returns (mine: nat)
      modifies this
      ensures State() == Step(old(State()), Event.Load)
      ensures mine == seqCurrent == old(seqCurrent) + 1 && open == old(open) + {mine} && posts == old(posts) && applied == old(applied)
    {
      seqCurrent := seqCurrent + 1;
      mine := seqCurrent;
      open := open + {mine};
    }

    method EndLoad(mine: nat, items: Option<seq<Post>>)
      modifies this
      ensures State() == Step(old(State()), Respond(mine, items))
      ensures if mine in old(open) && mine == old(seqCurrent) && items.Some?
        then posts == items.value && applied == old(applied) + [mine]
        else posts == old(posts) && applied == old(applied)
      ensures open == old(open) - {mine} && moves == old(moves) && seqCurrent == old(seqCurrent)
    {
      if mine !in open {
        return;
      }
      open := open - {mine};
      if mine != seqCurrent {
        return;
      }
      if items.Some? {
        posts := items.value;
        applied := applied + [mine];
      }
    }
  }

  // ---------------------------------------------------------------- moves, one at a time per card

  /** The reply to a load is shown. */
  predicate Applies(v: View, mine: nat, items: Option<seq<Post>>) { mine in v.open && mine == v.seq_ && items.Some? }

  /** What the server has confirmed: accepted moves change it, and a load that is shown brings it anew. */
  function Confirm(confirmed: seq<Post>, v: View, e: Event): seq<Post> {
    match e
    case Settle(n, reply) => if n in v.moves && reply.Moved? then MapId(confirmed, v.moves[n].id, Accepted(reply)) else confirmed
    case Respond(mine, items) => if Applies(v, mine, items) then items.value else confirmed
    case _ => confirmed
  }

  function Confirmed(confirmed: seq<Post>, v: View, events: seq<Event>): seq<Post>
    decreases |events|
  {
    if events == [] then confirmed else Confirmed(Confirm(confirmed, v, events[0]), Step(v, events[0]), events[1..])
  }

  predicate InFlight(v: View, id: string) { exists n :: n in v.moves && v.moves[n].id == id }

  /** No card is moved again before its move settles, and no load is shown while a move is out. */
  ghost predicate Orderly(v: View, e: Event) {
    match e
    case Drop(id, _) => !InFlight(v, id)
    case Respond(mine, items) => Applies(v, mine, items) ==> v.moves == map[] && UniqueIds(items.value)
    case _ => true
  }

  ghost predicate OneAtATime(v: View, events: seq<Event>)
    decreases |events|
  {
    events == [] || (Orderly(v, events[0]) && OneAtATime(Step(v, events[0]), events[1..]))
  }

  ghost predicate UniqueIds(posts: seq<Post>) {
    forall i, j :: 0 <= i < j < |posts| ==> posts[i].id != posts[j].id
  }

  /** The card as confirmed, with the time of a move still out laid over it. */
  ghost predicate Shows(v: View, p: Post, c: Post) {
    && p.id == c.id
    && (!InFlight(v, c.id) ==> p == c)
    && (forall n :: n in v.moves && v.moves[n].id == c.id ==> p == c.(at := Some(v.moves[n].target)))
  }

  ghost predicate Remembers(m: Move, c: Post) {
    m.id == c.id ==> m.at == c.at && m.status == c.status && m.version == c.version
  }

  ghost predicate Consistent(v: View, confirmed: seq<Post>) {
    && |v.posts| == |confirmed| && UniqueIds(confirmed)
    && (forall i :: 0 <= i < |confirmed| ==> Shows(v, v.posts[i], confirmed[i]))
    && (forall n, i :: n in v.moves && 0 <= i < |confirmed| ==> Remembers(v.moves[n], confirmed[i]))
    && (forall n, m :: n in v.moves && m in v.moves && n != m ==> v.moves[n].id != v.moves[m].id)
    && (forall n :: n in v.moves ==> n < v.nextMove)
  }

  lemma DropStaysConsistent(v: View, confirmed: seq<Post>, id: string, at: int)
    requires Consistent(v, confirmed) && !InFlight(v, id)
    ensures Consistent(StartMove(v, id, at), confirmed)
  {
    var k := Find(v.posts, id);
    if k < |v.posts| && v.posts[k].at != Some(at) {
      var w := StartMove(v, id, at);
      assert Shows(v, v.posts[k], confirmed[k]);
      assert w.nextMove - 1 in w.moves && w.moves[w.nextMove - 1].id == id;
      forall i | 0 <= i < |confirmed| ensures Shows(w, w.posts[i], confirmed[i]) {
        assert Shows(v, v.posts[i], confirmed[i]);
        if confirmed[i].id != id && InFlight(v, confirmed[i].id) {
          var n :| n in v.moves && v.moves[n].id == confirmed[i].id;
          assert n in w.moves && w.moves[n] == v.moves[n];
        }
      }
      forall n, i | n in w.moves && 0 <= i < |confirmed| ensures Remembers(w.moves[n], confirmed[i]) {
        if n == v.nextMove {
          assert confirmed[i].id == id ==> i == k;
        }
      }
    }
  }

  lemma SettleStaysConsistent(v: View, confirmed: seq<Post>, n: nat, reply: Reply)
    requires Consistent(v, confirmed)
    ensures Consistent(FinishMove(v, n, reply), Confirm(confirmed, v, Settle(n, reply)))
  {
    if n in v.moves {
      var m, w, after := v.moves[n], FinishMove(v, n, reply), Confirm(confirmed, v, Settle(n, reply));
      assert !InFlight(w, m.id);
      forall i | 0 <= i < |after| ensures Shows(w, w.posts[i], after[i]) {
        assert Shows(v, v.posts[i], confirmed[i]) && Remembers(m, confirmed[i]);
        if confirmed[i].id != m.id && InFlight(v, confirmed[i].id) {
          var o :| o in v.moves && v.moves[o].id == confirmed[i].id;
          assert o in w.moves;
        }
      }
      forall o, i | o in w.moves && 0 <= i < |after| ensures Remembers(w.moves[o], after[i]) {
        assert Remembers(v.moves[o], confirmed[i]) && v.moves[o].id != m.id;
      }
    }
  }

  lemma LoadStaysConsistent(v: View, confirmed: seq<Post>)
    requires Consistent(v, confirmed)
    ensures Consistent(Step(v, Event.Load), confirmed)
  {
    var w := Step(v, Event.Load);
    forall i | 0 <= i < |confirmed| ensures Shows(w, w.posts[i], confirmed[i]) {
      assert Shows(v, v.posts[i], confirmed[i]);
      assert InFlight(w, confirmed[i].id) == InFlight(v, confirmed[i].id);
    }
  }

  lemma RespondStaysConsistent(v: View, confirmed: seq<Post>, mine: nat, items: Option<seq<Post>>)
    requires Consistent(v, confirmed) && Orderly(v, Respond(mine, items))
    ensures Consistent(Step(v, Respond(mine, items)), Confirm(confirmed, v, Respond(mine, items)))
  {
    var w, after := Step(v, Respond(mine, items)), Confirm(confirmed, v, Respond(mine, items));
    forall i | 0 <= i < |after| ensures Shows(w, w.posts[i], after[i]) {
      if !Applies(v, mine, items) {
        assert Shows(v, v.posts[i], confirmed[i]);
        assert InFlight(w, confirmed[i].id) == InFlight(v, confirmed[i].id);
      }
    }
  }

  lemma {:induction false} RunStaysConsistent(v: View, confirmed: seq<Post>, events: seq<Event>)
    requires Consistent(v, confirmed) && OneAtATime(v, events)
    ensures Consistent(Run(v, events), Confirmed(confirmed, v, events))
    decreases |events|
  {
    hide Consistent, Step, Confirm;
    if events != [] {
      var e := events[0];
      StepStaysConsistent(v, confirmed, e);
      RunStaysConsistent(Step(v, e), Confirm(confirmed, v, e), events[1..]);
    }
  }

  lemma StepStaysConsistent(v: View, confirmed: seq<Post>, e: Event)
    requires Consistent(v, confirmed) && Orderly(v, e)
    ensures Consistent(Step(v, e), Confirm(confirmed, v, e))
  {
    hide Consistent;
    match e
    case Drop(id, at) => DropStaysConsistent(v, confirmed, id, at);
    case Settle(n, reply) => SettleStaysConsistent(v, confirmed, n, reply);
    case Load => LoadStaysConsistent(v, confirmed);
    case Respond(mine, items) => RespondStaysConsistent(v, confirmed, mine, items);
  }

  /** The view before anything has happened to its cards. */
  function FirstView(posts: seq<Post>): View { View(posts, map[], 0, 0, {}, []) }

  /**
   * From the first view, any interleaving of moves of different cards and of loads shown
   * between moves shows, at every moment, the confirmed cards with the times still asked for
   * laid over them. Once all moves have settled it shows exactly the confirmed cards:
   * accepted cards have the server's values, refused ones their old ones, all others are
   * untouched.
   */
  lemma OptimisticIsConfirmed(posts: seq<Post>, events: seq<Event>)
    requires UniqueIds(posts) && OneAtATime(FirstView(posts), events)
    ensures var v, confirmed := Run(FirstView(posts), events), Confirmed(posts, FirstView(posts), events);
      && |v.posts| == |confirmed|
      && (forall i :: 0 <= i < |confirmed| ==> Shows(v, v.posts[i], confirmed[i]))
      && (v.moves == map[] ==> v.posts == confirmed)
  {
    RunStaysConsistent(FirstView(posts), posts, events);
    var v, confirmed := Run(FirstView(posts), events), Confirmed(posts, FirstView(posts), events);
    if v.moves == map[] {
      forall i | 0 <= i < |confirmed| ensures v.posts[i] == confirmed[i] {
        assert Shows(v, v.posts[i], confirmed[i]);
      }
    }
  }

  // ---------------------------------------------------------------- two moves of one card

  lemma OnlyThatCard(posts: seq<Post>, k: nat, f: Post -> Post)
    requires UniqueIds(posts) && k < |posts|
    ensures MapId(posts, posts[k].id, f) == posts[k := f(posts[k])]
    ensures Find(posts, posts[k].id) == k
  {
    forall i | 0 <= i < |posts| ensures posts[i].id == posts[k].id <==> i == k {
      assert i < k ==> posts[i].id != posts[k].id;
      assert k < i ==> posts[k].id != posts[i].id;
    }
  }

  lemma ChangedCard(posts: seq<Post>, k: nat, p: Post)
    requires UniqueIds(posts) && k < |posts| && p.id == posts[k].id
    ensures UniqueIds(posts[k := p])
  {
    var after := posts[k := p];
    forall i, j | 0 <= i < j < |after| ensures after[i].id != after[j].id {
      assert posts[i].id != posts[j].id;
    }
  }

  /** The card is moved to x and, before the reply, to y; `swapped`: the second reply comes first. */
  function TwoMoves(v: View, id: string, x: int, y: int, swapped: bool, r0: Reply, r1: Reply): seq<Event> {
    var a, b := Settle(v.nextMove, r0), Settle(v.nextMove + 1, r1);
    [Drop(id, x), Drop(id, y)] + if swapped then [b, a] else [a, b]
  }

  function Answered(p: Post, r: Reply): Post { if r.Moved? then Accepted(r)(p) else p }

  /** What the card shows at rest: the second move remembers the time the first one asked for. */
  function ShownAfter(p: Post, x: int, swapped: bool, r0: Reply, r1: Reply): Post {
    if swapped then (if r0.Moved? then Accepted(r0)(p) else p)
    else if r1.Moved? then Accepted(r1)(p) else p.(at := Some(x))
  }

  /** What the server holds, having performed the requests in order or in reverse. */
  function HeldAfter(p: Post, reversed: bool, r0: Reply, r1: Reply): Post {
    if reversed then Answered(Answered(p, r1), r0) else Answered(Answered(p, r0), r1)
  }

  lemma TwoMovesShow(v: View, k: nat, x: int, y: int, swapped: bool, r0: Reply, r1: Reply)
    requires v.moves == map[] && UniqueIds(v.posts) && k < |v.posts| && v.posts[k].at != Some(x) && x != y
    ensures var w := Run(v, TwoMoves(v, v.posts[k].id, x, y, swapped, r0, r1));
      w.moves == map[] && w.posts == v.posts[k := ShownAfter(v.posts[k], x, swapped, r0, r1)]
  {
    hide Step;
    var n, id := v.nextMove, v.posts[k].id;
    var events := TwoMoves(v, id, x, y, swapped, r0, r1);
    var a, b := if swapped then n + 1 else n, if swapped then n else n + 1;
    var r, s := if swapped then r1 else r0, if swapped then r0 else r1;
    RunFour(v, Drop(id, x), Drop(id, y), Settle(a, r), Settle(b, s));
    assert events == [Drop(id, x), Drop(id, y), Settle(a, r), Settle(b, s)];
    BothDropped(v, k, x, y);
    SettleBoth(Step(Step(v, Drop(id, x)), Drop(id, y)), k, n, swapped, r0, r1);
  }

  lemma RunFour(v: View, a: Event, b: Event, c: Event, d: Event)
    ensures Run(v, [a, b, c, d]) == Step(Step(Step(Step(v, a), b), c), d)
  {
    hide Step;
    assert [a, b, c, d][1..] == [b, c, d] && [b, c, d][1..] == [c, d] && [c, d][1..] == [d] && [d][1..] == [];
    assert Run(Step(Step(Step(v, a), b), c), [d]) == Step(Step(Step(Step(v, a), b), c), d);
    assert Run(Step(Step(v, a), b), [c, d]) == Run(Step(Step(Step(v, a), b), c), [d]);
  }

  lemma BothDropped(v: View, k: nat, x: int, y: int)
    requires v.moves == map[] && UniqueIds(v.posts) && k < |v.posts| && v.posts[k].at != Some(x) && x != y
    ensures var p, n := v.posts[k], v.nextMove; var w := Step(Step(v, Drop(p.id, x)), Drop(p.id, y));
      && w.posts == v.posts[k := p.(at := Some(y))] && UniqueIds(w.posts)
      && w.moves == map[n := Move(p.id, x, p.at, p.status, p.version), n + 1 := Move(p.id, y, Some(x), p.status, p.version)]
  {
    var p := v.posts[k];
    OnlyThatCard(v.posts, k, Dropped(x));
    var v1 := Step(v, Drop(p.id, x));
    assert v1.posts == v.posts[k := p.(at := Some(x))];
    ChangedCard(v.posts, k, p.(at := Some(x)));
    OnlyThatCard(v1.posts, k, Dropped(y));
    ChangedCard(v.posts, k, p.(at := Some(y)));
  }

  lemma SettleBoth(v: View, k: nat, n: nat, swapped: bool, r0: Reply, r1: Reply)
    requires UniqueIds(v.posts) && k < |v.posts| && v.moves.Keys == {n, n + 1}
    requires v.moves[n].id == v.moves[n + 1].id == v.posts[k].id
    ensures var a, b := Settle(n, r0), Settle(n + 1, r1);
      var w := if swapped then Step(Step(v, b), a) else Step(Step(v, a), b);
      var m := v.moves[if swapped then n else n + 1];
      w.moves == map[] && w.posts == v.posts[k := (if swapped then Settled(m, r0) else Settled(m, r1))(v.posts[k])]
  {
    var first, second := if swapped then n + 1 else n, if swapped then n else n + 1;
    var r, s := if swapped then r1 else r0, if swapped then r0 else r1;
    var f, g := Settled(v.moves[first], r), Settled(v.moves[second], s);
    OnlyThatCard(v.posts, k, f);
    var w := Step(v, Settle(first, r));
    assert w.posts == v.posts[k := f(v.posts[k])];
    ChangedCard(v.posts, k, f(v.posts[k]));
    OnlyThatCard(w.posts, k, g);
    assert g(f(v.posts[k])) == g(v.posts[k]);
    var u := Step(w, Settle(second, s));
    assert u.posts == v.posts[k := g(v.posts[k])];
    assert u.moves.Keys == {};
  }

  function Settled(m: Move, r: Reply): Post -> Post { if r.Moved? then Accepted(r) else Restored(m) }

  /**
   * A card moved twice before the first reply shows, at rest, what the server holds exactly
   * when the reply that comes last is accepted and the server performed it last (or refused
   * the other, or gave both the same values); or it is refused, and by itself puts back what
   * the server holds: the old card if the first move's reply comes last, the card at the
   * time first asked for if the second's does.
   */
  lemma TwoMovesOfOneCardIff(v: View, k: nat, x: int, y: int, swapped: bool, reversed: bool, r0: Reply, r1: Reply)
    requires v.moves == map[] && UniqueIds(v.posts) && k < |v.posts| && v.posts[k].at != Some(x) && x != y
    ensures var p := v.posts[k]; var last, earlier := if swapped then r0 else r1, if swapped then r1 else r0;
      Run(v, TwoMoves(v, p.id, x, y, swapped, r0, r1)).posts == v.posts[k := HeldAfter(p, reversed, r0, r1)] <==>
        if last.Moved? then swapped == reversed || earlier.Refused? || Answered(p, last) == Answered(p, earlier)
        else if swapped then earlier.Refused? || Answered(p, earlier) == p
        else earlier.Moved? && Answered(p, earlier) == p.(at := Some(x))
  {
    hide Run, TwoMoves;
    TwoMovesShow(v, k, x, y, swapped, r0, r1);
    var p := v.posts[k];
    var shown, held := v.posts[k := ShownAfter(p, x, swapped, r0, r1)], v.posts[k := HeldAfter(p, reversed, r0, r1)];
    assert shown[k] == ShownAfter(p, x, swapped, r0, r1) && held[k] == HeldAfter(p, reversed, r0, r1);
  }

  /** As the server gives each accepted move a new version: only an accepted last reply, or two refusals answered in reverse, end right. */
  lemma TwoMovesWithVersionsIff(v: View, k: nat, x: int, y: int, swapped: bool, r0: Reply, r1: Reply)
    requires v.moves == map[] && UniqueIds(v.posts) && k < |v.posts| && v.posts[k].at != Some(x) && x != y
    requires (r0.Moved? ==> r0.version != v.posts[k].version) && (r1.Moved? ==> r1.version != v.posts[k].version)
    ensures var p := v.posts[k]; var last, earlier := if swapped then r0 else r1, if swapped then r1 else r0;
      Run(v, TwoMoves(v, p.id, x, y, swapped, r0, r1)).posts == v.posts[k := HeldAfter(p, swapped, r0, r1)] <==>
        last.Moved? || (swapped && earlier.Refused?)
  {
    TwoMovesOfOneCardIff(v, k, x, y, swapped, swapped, r0, r1);
  }

  /** Both moves refused, first come first served: the card keeps the time first asked for, which was never saved. */
  lemma OverlappingMovesLoseTheOldTime(v: View, k: nat, x: int, y: int)
    requires v.moves == map[] && UniqueIds(v.posts) && k < |v.posts| && v.posts[k].at != Some(x) && x != y
    ensures var w := Run(v, TwoMoves(v, v.posts[k].id, x, y, false, Refused, Refused));
      w.moves == map[] && w.posts == v.posts[k := v.posts[k].(at := Some(x))]
  {
    TwoMovesShow(v, k, x, y, false, Refused, Refused);
  }

  // ---------------------------------------------------------------- loads

  ghost predicate LoadsInOrder(v: View) {
    && (forall i, j :: 0 <= i < j < |v.applied| ==> v.applied[i] < v.applied[j])
    && (forall i :: 0 <= i < |v.applied| ==> v.applied[i] <= v.seq_ && v.applied[i] !in v.open)
    && (forall n :: n in v.open ==> n <= v.seq_)
  }

  lemma LoadsStayInOrder(v: View, e: Event)
    requires LoadsInOrder(v)
    ensures LoadsInOrder(Step(v, e)) && v.applied <= Step(v, e).applied && v.seq_ <= Step(v, e).seq_
  {}

  lemma OldIsNotApplied(v: View, e: Event, n: nat)
    requires n < v.seq_
    ensures n in Step(v, e).applied ==> n in v.applied
  {}

  lemma {:induction false} RunKeepsLoadsInOrder(v: View, events: seq<Event>)
    requires LoadsInOrder(v)
    ensures LoadsInOrder(Run(v, events)) && v.applied <= Run(v, events).applied
    decreases |events|
  {
    hide LoadsInOrder, Step;
    if events != [] {
      LoadsStayInOrder(v, events[0]);
      RunKeepsLoadsInOrder(Step(v, events[0]), events[1..]);
    }
  }

  /** From the first view, loads are shown in strictly increasing order of request, whatever order replies come in. */
  lemma AppliedLoadsIncrease(posts: seq<Post>, events: seq<Event>)
    ensures var shown := Run(FirstView(posts), events).applied;
      forall i, j :: 0 <= i < j < |shown| ==> shown[i] < shown[j]
  {
    RunKeepsLoadsInOrder(FirstView(posts), events);
  }

  /** Once a newer load is out, no reply to an older one is ever shown. */
  lemma {:induction false} OldLoadsStayHidden(v: View, events: seq<Event>, n: nat)
    requires LoadsInOrder(v) && n < v.seq_
    ensures n in Run(v, events).applied ==> n in v.applied
    decreases |events|
  {
    hide LoadsInOrder, Step;
    if events != [] {
      LoadsStayInOrder(v, events[0]);
      OldIsNotApplied(v, events[0], n);
      OldLoadsStayHidden(Step(v, events[0]), events[1..], n);
    }
  }

  // ---------------------------------------------------------------- cells

  predicate HasTime(p: Post) { p.at.Some? }

  predicate NotLater(a: Post, b: Post) { HasTime(a) && HasTime(b) && a.at.value <= b.at.value }

  /** The cards one key collects. */
  function Keyed<K(==)>(keyOf: Post -> K, key: K): Post -> bool { (p: Post) => HasTime(p) && keyOf(p) == key }

  ghost predicate Buckets<K(!new)>(m: map<K, seq<Post>>, posts: seq<Post>, keyOf: Post -> K) {
    forall key :: (key in m <==> Filter(posts, Keyed(keyOf, key)) != []) && (key in m ==> m[key] == Filter(posts, Keyed(keyOf, key)))
  }

  /** Fill a map of lists, passing over cards without a time. */
  method Collect<K(==, !new)>(posts: seq<Post>, keyOf: Post -> K) returns (m: map<K, seq<Post>>)
    ensures Buckets(m, posts, keyOf)
  {
    m := map[];
    var n := 0;
    while n < |posts|
      invariant n <= |posts|
      invariant Buckets(m, posts[..n], keyOf)
    {
      var p := posts[n];
      ghost var before := m;
      if p.at.Some? {
        var key := keyOf(p);
        m := m[key := (if key in m then m[key] else []) + [p]];
      }
      forall key ensures Filter(posts[..n + 1], Keyed(keyOf, key))
        == Filter(posts[..n], Keyed(keyOf, key)) + (if HasTime(p) && keyOf(p) == key then [p] else [])
      {
        assert posts[..n + 1] == posts[..n] + [p];
        FilterAppend(posts[..n], [p], Keyed(keyOf, key));
      }
      n := n + 1;
    }
    assert posts[..n] == posts;
  }

  /** Every list stably sorted by time. */
  ghost predicate SortedBuckets<K(!new)>(m: map<K, seq<Post>>, posts: seq<Post>, keyOf: Post -> K) {
    forall key ::
      && (key in m <==> Filter(posts, Keyed(keyOf, key)) != [])
      && (key in m ==> StableSortOf(NotLater, Filter(posts, Keyed(keyOf, key)), m[key]))
  }

  method CollectSorted<K(==, !new)>(posts: seq<Post>, keyOf: Post -> K) returns (m: map<K, seq<Post>>)
    ensures SortedBuckets(m, posts, keyOf)
  {
    var raw := Collect(posts, keyOf);
    m := map key | key in raw :: Sort(NotLater, raw[key]);
    forall key | key in raw ensures StableSortOf(NotLater, Filter(posts, Keyed(keyOf, key)), m[key]) {
      FilterMembers(posts, Keyed(keyOf, key));
      SortIsStable(NotLater, raw[key]);
    }
  }

  function DayKey(z: Zone): Post -> int { (p: Post) => if HasTime(p) then UtcToZoned(z, p.at.value).day else 0 }

  function CellKey(z: Zone): Post -> (int, int) { (p: Post) => if HasTime(p) then Slots.CellOf(z, p.at.value) else (0, 0) }

  /** The cards of a list are those listed, by time. */
  ghost predicate IsListOf(list: seq<Post>, cards: set<Post>) {
    && (forall p :: p in list <==> p in cards)
    && (forall p :: p in list ==> p.at.Some?)
    && forall i, j :: 0 <= i < j < |list| ==> list[i].at.Some? && list[j].at.Some? && list[i].at.value <= list[j].at.value
  }

  lemma BucketIsList<K(!new)>(m: map<K, seq<Post>>, posts: seq<Post>, keyOf: Post -> K, key: K)
    requires SortedBuckets(m, posts, keyOf)
    ensures var cards := set p | p in posts && p.at.Some? && keyOf(p) == key;
      (key in m <==> cards != {}) && (key in m ==> IsListOf(m[key], cards))
  {
    var mine := Filter(posts, Keyed(keyOf, key));
    var cards := set p | p in posts && p.at.Some? && keyOf(p) == key;
    FilterMembers(posts, Keyed(keyOf, key));
    if mine != [] { assert mine[0] in cards; }
    if p :| p in cards { assert p in mine; }
    if key in m {
      SameMembers(m[key], mine);
      forall i, j | 0 <= i < j < |m[key]| ensures m[key][i].at.Some? && m[key][j].at.Some? && m[key][i].at.value <= m[key][j].at.value {
        assert NotLater(m[key][i], m[key][j]);
      }
    }
  }

  /** `groupPostsByDay` (components/content/shared.ts:103-116). */
  method GroupPostsByDay(posts: seq<Post>, z: Zone) returns (m: map<int, seq<Post>>)
    ensures SortedBuckets(m, posts, DayKey(z))
    ensures forall day: int ::
      var cards := set p | p in posts && p.at.Some? && UtcToZoned(z, p.at.value).day == day;
      (day in m <==> cards != {}) && (day in m ==> IsListOf(m[day], cards))
  {
    m := CollectSorted(posts, DayKey(z));
    forall day: int ensures
      var cards := set p | p in posts && p.at.Some? && UtcToZoned(z, p.at.value).day == day;
      (day in m <==> cards != {}) && (day in m ==> IsListOf(m[day], cards))
    {
      BucketIsList(m, posts, DayKey(z), day);
      assert (set p | p in posts && p.at.Some? && UtcToZoned(z, p.at.value).day == day)
        == set p | p in posts && p.at.Some? && DayKey(z)(p) == day;
    }
  }

  /** `byCell` of the week view. */
  method ByCell(posts: seq<Post>, z: Zone) returns (m: map<(int, int), seq<Post>>)
    ensures SortedBuckets(m, posts, CellKey(z))
    ensures forall day: int, hour: int ::
      var cards := set p | p in posts && p.at.Some? && UtcToZoned(z, p.at.value).day == day && UtcToZoned(z, p.at.value).minute / 60 == hour;
      ((day, hour) in m <==> cards != {}) && ((day, hour) in m ==> IsListOf(m[(day, hour)], cards))
  {
    m := CollectSorted(posts, CellKey(z));
    forall day: int, hour: int ensures
      var cards := set p | p in posts && p.at.Some? && UtcToZoned(z, p.at.value).day == day && UtcToZoned(z, p.at.value).minute / 60 == hour;
      ((day, hour) in m <==> cards != {}) && ((day, hour) in m ==> IsListOf(m[(day, hour)], cards))
    {
      BucketIsList(m, posts, CellKey(z), (day, hour));
      assert (set p | p in posts && p.at.Some? && UtcToZoned(z, p.at.value).day == day && UtcToZoned(z, p.at.value).minute / 60 == hour)
        == set p | p in posts && p.at.Some? && CellKey(z)(p) == (day, hour);
    }
  }

  predicate CardIn<K(==)>(m: map<K, seq<Post>>, key: K, id: string) {
    key in m && exists i :: 0 <= i < |m[key]| && m[key][i].id == id
  }

  /** A card with a time is in the bucket of its key and in no other. */
  lemma CardIsInItsBucket<K(!new)>(m: map<K, seq<Post>>, posts: seq<Post>, keyOf: Post -> K, k: nat, key: K)
    requires SortedBuckets(m, posts, keyOf) && UniqueIds(posts) && k < |posts| && HasTime(posts[k])
    ensures CardIn(m, key, posts[k].id) <==> key == keyOf(posts[k])
  {
    hide Filter, TiedWith, SortedBy;
    var mine := Filter(posts, Keyed(keyOf, key));
    FilterMembers(posts, Keyed(keyOf, key));
    if key in m {
      SameMembers(m[key], mine);
    }
    if key == keyOf(posts[k]) {
      assert posts[k] in mine;
      assert posts[k] in m[key];
    } else if key in m {
      forall i | 0 <= i < |m[key]| ensures m[key][i].id != posts[k].id {
        assert m[key][i] in mine;
        var j :| 0 <= j < |posts| && posts[j] == m[key][i];
        assert j < k || k < j;
      }
    }
  }

  /**
   * A card dropped on an hour cell is next shown in exactly that cell, across offset changes,
   * as long as the wall time asked for exists.
   */
  lemma DroppedCardIsInItsCell(posts: seq<Post>, k: nat, day: int, hour: int, z: Zone, m: map<(int, int), seq<Post>>, cell: (int, int))
    requires UniqueIds(posts) && k < |posts| && 0 <= hour < 24
    requires var naive := Naive(Slots.DropTime(posts[k].at, day, Some(hour), z));
      BoundedNear(z, naive) && WholeMinutesNear(z, naive) && OneChangeNear(z, naive) && Exists(z, naive)
    requires SortedBuckets(m, MapId(posts, posts[k].id, Dropped(Slots.DropInstant(posts[k].at, day, Some(hour), z))), CellKey(z))
    ensures CardIn(m, cell, posts[k].id) <==> cell == (day, hour)
  {
    var t := Slots.DropInstant(posts[k].at, day, Some(hour), z);
    Slots.DropLandsIff(posts[k].at, day, Some(hour), z);
    var moved := MapId(posts, posts[k].id, Dropped(t));
    CardIsInItsBucket(m, moved, CellKey(z), k, cell);
  }

  /** The same for a drop on a day of the month view. */
  lemma DroppedCardIsOnItsDay(posts: seq<Post>, k: nat, day: int, z: Zone, m: map<int, seq<Post>>, date: int)
    requires UniqueIds(posts) && k < |posts|
    requires var naive := Naive(Slots.DropTime(posts[k].at, day, None, z));
      BoundedNear(z, naive) && WholeMinutesNear(z, naive) && OneChangeNear(z, naive) && Exists(z, naive)
    requires SortedBuckets(m, MapId(posts, posts[k].id, Dropped(Slots.DropInstant(posts[k].at, day, None, z))), DayKey(z))
    ensures CardIn(m, date, posts[k].id) <==> date == day
  {
    var t := Slots.DropInstant(posts[k].at, day, None, z);
    Slots.DropLandsIff(posts[k].at, day, None, z);
    var moved := MapId(posts, posts[k].id, Dropped(t));
    CardIsInItsBucket(m, moved, DayKey(z), k, date);
  }
}
