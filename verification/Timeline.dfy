/**
 * The planner's timeline (components/content/timeline.ts:29-70, 139-143): posts laid out by
 * day and time, with consecutive stories of one series folded into one entry.
 */
module Timeline {
  import opened Lists
  import opened StableSorting
  import opened Zones

  datatype PostType = FeedImage | FeedVideo | Carousel | Reel | TrialReel | Story

  datatype TypeGroup = PostGroup | CarouselGroup | ReelsGroup | StoryGroup

  function GroupOf(t: PostType): TypeGroup {
    match t
    case FeedImage => PostGroup
    case FeedVideo => PostGroup
    case Carousel => CarouselGroup
    case Reel => ReelsGroup
    case TrialReel => ReelsGroup
    case Story => StoryGroup
  }

  /** `at` is the parsed scheduledAt, None when it is missing or no date. */
  datatype Card = Card(id: string, kind: PostType, at: Option<int>, seriesId: Option<string>, seriesIndex: Option<int>)

  datatype Entry =
    | PostEntry(time: int, at: int, post: Card)
    | SeriesEntry(time: int, endTime: int, at: int, posts: seq<Card>)

  datatype Counts = Counts(post: nat, carousel: nat, reels: nat, story: nat) {
    function Get(g: TypeGroup): nat {
      match g
      case PostGroup => post
      case CarouselGroup => carousel
      case ReelsGroup => reels
      case StoryGroup => story
    }

    function Bump(g: TypeGroup): (c: Counts)
      ensures forall h :: c.Get(h) == Get(h) + (if h == g then 1 else 0)
    {
      match g
      case PostGroup => this.(post := post + 1)
      case CarouselGroup => this.(carousel := carousel + 1)
      case ReelsGroup => this.(reels := reels + 1)
      case StoryGroup => this.(story := story + 1)
    }
  }

  const NO_COUNTS := Counts(0, 0, 0, 0)

  datatype TimelineDay = TimelineDay(date: int, entries: seq<Entry>, counts: Counts)

  predicate Dated(c: Card) { c.at.Some? }

  function IndexOf(c: Card): int { if c.seriesIndex.Some? then c.seriesIndex.value else 0 }

  /** `a.at - b.at || (a.seriesIndex ?? 0) - (b.seriesIndex ?? 0)`, not positive. */
  predicate NotAfter(a: Card, b: Card) {
    Dated(a) && Dated(b) && (a.at.value < b.at.value || (a.at == b.at && IndexOf(a) <= IndexOf(b)))
  }

  function SortedCards(posts: seq<Card>): seq<Card> { Sort(NotAfter, Filter(posts, Dated)) }

  function DayOfCard(z: Zone, c: Card): int { if Dated(c) then UtcToZoned(z, c.at.value).day else 0 }

  function MinuteOf(z: Zone, c: Card): int { if Dated(c) then UtcToZoned(z, c.at.value).minute else 0 }

  // ---------------------------------------------------------------- building

  predicate InSeries(c: Card) { c.kind == Story && c.seriesId.Some? && c.seriesId.value != "" }

  /** The series a further story could join this entry in; None for null. */
  function LastSeries(e: Entry): Option<string> {
    match e
    case SeriesEntry(_, _, _, posts) => if posts == [] then None else posts[0].seriesId
    case PostEntry(_, _, post) => if post.kind == Story then post.seriesId else None
  }

  predicate Joins(e: Entry, c: Card) { InSeries(c) && LastSeries(e) == c.seriesId }

  function PostsOf(e: Entry): seq<Card> {
    match e
    case PostEntry(_, _, post) => [post]
    case SeriesEntry(_, _, _, posts) => posts
  }

  function AddEntry(entries: seq<Entry>, c: Card, z: Zone): seq<Entry>
    requires Dated(c)
  {
    var n := |entries|;
    if n > 0 && Joins(entries[n - 1], c) then
      entries[..n - 1] + [SeriesEntry(entries[n - 1].time, MinuteOf(z, c), entries[n - 1].at, PostsOf(entries[n - 1]) + [c])]
    else entries + [PostEntry(MinuteOf(z, c), c.at.value, c)]
  }

  function IsDate(date: int): TimelineDay -> bool { (d: TimelineDay) => d.date == date }

  /** One round of the loop over the `days` map, kept in insertion order. */
  function AddCard(days: seq<TimelineDay>, c: Card, z: Zone): seq<TimelineDay>
    requires Dated(c)
  {
    var date := DayOfCard(z, c);
    var i := FirstHit(days, IsDate(date));
    var day := if i == |days| then TimelineDay(date, [], NO_COUNTS) else days[i];
    var next := TimelineDay(date, AddEntry(day.entries, c, z), day.counts.Bump(GroupOf(c.kind)));
    if i == |days| then days + [next] else days[i := next]
  }

  function AddCards(cards: seq<Card>, z: Zone): seq<TimelineDay>
    requires forall c :: c in cards ==> Dated(c)
  {
    if cards == [] then []
    else
      assert cards[|cards| - 1] in cards;
      AddCard(AddCards(cards[..|cards| - 1], z), cards[|cards| - 1], z)
  }

  predicate DateNotAfter(a: TimelineDay, b: TimelineDay) { a.date <= b.date }

  /** The post comes last in the first day of its date, or in a new one, and its entry ends at the post's time. */
  ghost predicate Adds(days: seq<TimelineDay>, post: Card, z: Zone, after: seq<TimelineDay>) {
    exists i :: 0 <= i < |after| && AddsAt(days, post, z, after, i)
  }

  ghost predicate AddsAt(days: seq<TimelineDay>, post: Card, z: Zone, after: seq<TimelineDay>, i: nat)
    requires i < |after|
  {
    && post.at.Some? && after[i].date == UtcToZoned(z, post.at.value).day
    && (forall k :: 0 <= k < i ==> after[k].date != after[i].date)
    && |after| == (if i < |days| then |days| else i + 1) && i <= |days|
    && (forall k :: 0 <= k < |days| && k != i ==> after[k] == days[k])
    && (i < |days| ==> days[i].date == after[i].date)
    && LastEntryIs(if i < |days| then days[i].entries else [], post, UtcToZoned(z, post.at.value).minute, after[i].entries)
  }

  ghost predicate LastEntryIs(before: seq<Entry>, post: Card, minute: int, after: seq<Entry>)
    requires post.at.Some?
  {
    && after != []
    && match after[|after| - 1]
       case PostEntry(time, at, p) => after == before + [after[|after| - 1]] && time == minute && at == post.at.value && p == post
       case SeriesEntry(time, endTime, at, posts) =>
         && before != [] && before[..|before| - 1] == after[..|after| - 1]
         && posts == PostsOf(before[|before| - 1]) + [post] && endTime == minute
         && time == before[|before| - 1].time && at == before[|before| - 1].at
  }

  method AddToDays(days: seq<TimelineDay>, post: Card, z: Zone) returns (after: seq<TimelineDay>)
    requires Dated(post)
    ensures after == AddCard(days, post, z)
    ensures Adds(days, post, z, after)
  {
    var w := UtcToZoned(z, post.at.value);
    after := days;
    var i := FirstHit(days, IsDate(w.day));
    if i == |days| {
      after := after + [TimelineDay(w.day, [], NO_COUNTS)];
    }
    var counts := after[i].counts.Bump(GroupOf(post.kind));
    var entries := after[i].entries;
    var k := |entries|;
    if InSeries(post) && k > 0 && LastSeries(entries[k - 1]) == post.seriesId {
      var last := entries[k - 1];
      var group := if last.SeriesEntry? then last.posts else [last.post];
      entries := entries[..k - 1] + [SeriesEntry(last.time, w.minute, last.at, group + [post])];
    } else {
      entries := entries + [PostEntry(w.minute, post.at.value, post)];
    }
    after := after[i := TimelineDay(w.day, entries, counts)];
    assert AddsAt(days, post, z, after, i) by {
      assert forall k :: 0 <= k < i ==> !IsDate(w.day)(days[k]);
    }
  }

  method BuildTimeline(posts: seq<Card>, z: Zone) returns (days: seq<TimelineDay>)
    ensures IsTimeline(days, SortedCards(posts), z)
    ensures ShowsPosts(days, posts, z)
  {
    hide AddCard, ShowsPosts, IsTimeline, DatesDiffer, HasAllDays, DayIsTimeline, Sort, Filter;
    var dated := Sort(NotAfter, Filter(posts, Dated));
    SortedCardsAreDated(posts);
    days := [];
    var n := 0;
    while n < |dated|
      invariant n <= |dated|
      invariant days == AddCards(dated[..n], z)
    {
      assert dated[..n + 1][..n] == dated[..n];
      assert dated[n] in dated;
      days := AddToDays(days, dated[n], z);
      n := n + 1;
    }
    assert dated[..n] == dated;
    AddedCards(dated, z);
    SortedDays(days, dated, z);
    days := Sort(DateNotAfter, days);
    TimelineShowsPosts(posts, z, days);
  }

  // ---------------------------------------------------------------- what a timeline is

  function Unfold(entries: seq<Entry>): seq<Card> {
    if entries == [] then [] else PostsOf(entries[0]) + Unfold(entries[1..])
  }

  function OnDay(z: Zone, date: int): Card -> bool { (c: Card) => DayOfCard(z, c) == date }

  function InGroup(g: TypeGroup): Card -> bool { (c: Card) => GroupOf(c.kind) == g }

  /** The entry is what its posts make it: one post alone, or two or more stories of one series. */
  ghost predicate WellMade(e: Entry, z: Zone) {
    match e
    case PostEntry(time, at, post) => Dated(post) && time == MinuteOf(z, post) && at == post.at.value
    case SeriesEntry(time, endTime, at, posts) =>
      && |posts| >= 2
      && (forall c :: c in posts ==> Dated(c) && InSeries(c) && c.seriesId == posts[0].seriesId)
      && time == MinuteOf(z, posts[0]) && at == posts[0].at.value && endTime == MinuteOf(z, posts[|posts| - 1])
  }

  /** The posts of e could be folded into the entry before it. */
  predicate Foldable(before: Entry, e: Entry) {
    PostsOf(e) != [] && Joins(before, PostsOf(e)[0])
  }

  ghost predicate FullyFolded(entries: seq<Entry>, z: Zone) {
    && (forall i :: 0 <= i < |entries| ==> WellMade(entries[i], z))
    && (forall i :: 0 < i < |entries| ==> !Foldable(entries[i - 1], entries[i]))
  }

  ghost predicate DayIsTimeline(d: TimelineDay, cards: seq<Card>, z: Zone) {
    var mine := Filter(cards, OnDay(z, d.date));
    && mine != []
    && Unfold(d.entries) == mine
    && FullyFolded(d.entries, z)
    && (forall g :: d.counts.Get(g) == |Filter(mine, InGroup(g))|)
  }

  ghost predicate HasAllDays(days: seq<TimelineDay>, cards: seq<Card>, z: Zone) {
    forall c :: c in cards ==> exists i :: 0 <= i < |days| && days[i].date == DayOfCard(z, c)
  }

  ghost predicate DatesDiffer(days: seq<TimelineDay>) {
    forall i, j :: 0 <= i < j < |days| ==> days[i].date != days[j].date
  }

  /**
   * One day for each date that occurs, in order of date. A day's entries unfold to exactly
   * its cards in posting order, no two neighbours could still be folded, and the counts
   * count its cards by group.
   */
  ghost predicate IsTimeline(days: seq<TimelineDay>, cards: seq<Card>, z: Zone) {
    && (forall i, j :: 0 <= i < j < |days| ==> days[i].date < days[j].date)
    && HasAllDays(days, cards, z)
    && (forall i :: 0 <= i < |days| ==> DayIsTimeline(days[i], cards, z))
  }

  // ---------------------------------------------------------------- what a reader sees

  /** The card is shown on this day: the wall clock of its instant is there. */
  ghost predicate StandsOn(p: Card, z: Zone, date: int) {
    p.at.Some? && UtcToZoned(z, p.at.value).day == date
  }

  ghost predicate StandsAt(p: Card, z: Zone, minute: int) {
    p.at.Some? && UtcToZoned(z, p.at.value).minute == minute
  }

  /** Stories of one series, which has a name. */
  ghost predicate OneSeries(p: Card, q: Card) {
    p.kind == Story && q.kind == Story && p.seriesId.Some? && p.seriesId != Some("") && p.seriesId == q.seriesId
  }

  /** One post at its time, or two and more stories of one series from the time of the first to that of the last. */
  ghost predicate EntryShows(e: Entry, z: Zone, date: int) {
    match e
    case PostEntry(time, at, post) => post.at == Some(at) && StandsOn(post, z, date) && StandsAt(post, z, time)
    case SeriesEntry(time, endTime, at, posts) =>
      && |posts| >= 2 && posts[0].at == Some(at)
      && StandsAt(posts[0], z, time) && StandsAt(posts[|posts| - 1], z, endTime)
      && forall p :: p in posts ==> StandsOn(p, z, date) && OneSeries(posts[0], p)
  }

  /** No post of b belongs to a series with a post of a. */
  ghost predicate KeptApart(a: Entry, b: Entry) {
    forall p, q :: p in PostsOf(a) && q in PostsOf(b) ==> !OneSeries(p, q)
  }

  /** The number of cards of the given kinds. */
  ghost function CountOf(cards: seq<Card>, kinds: set<PostType>): nat {
    if cards == [] then 0 else (if cards[0].kind in kinds then 1 else 0) + CountOf(cards[1..], kinds)
  }

  ghost predicate InPostingOrder(p: Card, q: Card) {
    p.at.Some? && q.at.Some? &&
    (p.at.value < q.at.value
     || (p.at == q.at && (if p.seriesIndex.Some? then p.seriesIndex.value else 0) <= (if q.seriesIndex.Some? then q.seriesIndex.value else 0)))
  }

  ghost predicate DayShows(d: TimelineDay, z: Zone) {
    var cards := Unfold(d.entries);
    && d.entries != []
    && (forall i :: 0 <= i < |d.entries| ==> EntryShows(d.entries[i], z, d.date))
    && (forall i, j :: 0 <= i < j < |cards| ==> InPostingOrder(cards[i], cards[j]))
    && (forall i :: 0 < i < |d.entries| ==> KeptApart(d.entries[i - 1], d.entries[i]))
    && d.counts == Counts(CountOf(cards, {FeedImage, FeedVideo}), CountOf(cards, {Carousel}), CountOf(cards, {Reel, TrialReel}), CountOf(cards, {Story}))
  }

  /**
   * The dates ascend; every dated post stands once, under the day its instant has on the
   * wall, in order of (instant, series index); runs of stories are folded, and the counts
   * are of the day's posts by type.
   */
  ghost predicate ShowsPosts(days: seq<TimelineDay>, posts: seq<Card>, z: Zone) {
    && (forall i, j :: 0 <= i < j < |days| ==> days[i].date < days[j].date)
    && (forall i :: 0 <= i < |days| ==> DayShows(days[i], z))
    && (forall p :: p in posts && p.at.Some? ==> exists i :: 0 <= i < |days| && days[i].date == UtcToZoned(z, p.at.value).day && p in Unfold(days[i].entries))
    && multiset(UnfoldDays(days)) == multiset(Filter(posts, Dated))
  }

  // ---------------------------------------------------------------- proof

  lemma SortedCardsAreDated(posts: seq<Card>)
    ensures forall c :: c in SortedCards(posts) ==> Dated(c)
    ensures TotalPreorderOn(NotAfter, Filter(posts, Dated))
  {
    FilterMembers(posts, Dated);
    SameMembers(SortedCards(posts), Filter(posts, Dated));
  }

  lemma {:induction false} UnfoldAppend(a: seq<Entry>, b: seq<Entry>)
    ensures Unfold(a + b) == Unfold(a) + Unfold(b)
  {
    if a == [] {
      assert a + b == b;
    } else {
      assert (a + b)[1..] == a[1..] + b;
      UnfoldAppend(a[1..], b);
    }
  }

  lemma UnfoldSnoc(entries: seq<Entry>, e: Entry)
    ensures Unfold(entries + [e]) == Unfold(entries) + PostsOf(e)
  {
    UnfoldAppend(entries, [e]);
    assert Unfold([e]) == PostsOf(e);
  }

  lemma AddedEntry(entries: seq<Entry>, c: Card, z: Zone)
    requires Dated(c) && FullyFolded(entries, z)
    ensures Unfold(AddEntry(entries, c, z)) == Unfold(entries) + [c]
    ensures FullyFolded(AddEntry(entries, c, z), z)
  {
    var n := |entries|;
    if n > 0 && Joins(entries[n - 1], c) {
      assert entries == entries[..n - 1] + [entries[n - 1]];
      JoinedEntry(entries[..n - 1], entries[n - 1], c, z);
    } else {
      var e := PostEntry(MinuteOf(z, c), c.at.value, c);
      UnfoldSnoc(entries, e);
      assert WellMade(e, z) && PostsOf(e) == [c];
    }
  }

  lemma JoinedEntry(entries: seq<Entry>, last: Entry, c: Card, z: Zone)
    requires Dated(c) && FullyFolded(entries + [last], z) && Joins(last, c)
    ensures var e := SeriesEntry(last.time, MinuteOf(z, c), last.at, PostsOf(last) + [c]);
      && Unfold(entries + [e]) == Unfold(entries + [last]) + [c]
      && FullyFolded(entries + [e], z)
  {
    hide WellMade, Unfold, Joins;
    var e := SeriesEntry(last.time, MinuteOf(z, c), last.at, PostsOf(last) + [c]);
    UnfoldSnoc(entries, last);
    UnfoldSnoc(entries, e);
    PrefixFolded(entries, last, z);
    GrownSeries(last, c, z);
    FoldedWith(entries, last, e, z);
  }

  lemma GrownSeries(last: Entry, c: Card, z: Zone)
    requires Dated(c) && WellMade(last, z) && Joins(last, c)
    ensures WellMade(SeriesEntry(last.time, MinuteOf(z, c), last.at, PostsOf(last) + [c]), z)
    ensures PostsOf(last) != [] && (PostsOf(last) + [c])[0] == PostsOf(last)[0]
  {
    var posts := PostsOf(last) + [c];
    forall p | p in posts ensures Dated(p) && InSeries(p) && p.seriesId == posts[0].seriesId {
      if p != c { assert p in PostsOf(last); }
    }
  }

  lemma AddedToDay(d: TimelineDay, cards: seq<Card>, c: Card, z: Zone)
    requires Dated(c) && DayOfCard(z, c) == d.date
    requires DayIsTimeline(d, cards, z) || (Filter(cards, OnDay(z, d.date)) == [] && d.entries == [] && d.counts == NO_COUNTS)
    ensures DayIsTimeline(TimelineDay(d.date, AddEntry(d.entries, c, z), d.counts.Bump(GroupOf(c.kind))), cards + [c], z)
  {
    var mine := Filter(cards, OnDay(z, d.date));
    FilterAppend(cards, [c], OnDay(z, d.date));
    AddedEntry(d.entries, c, z);
    forall g ensures |Filter(mine + [c], InGroup(g))| == |Filter(mine, InGroup(g))| + (if GroupOf(c.kind) == g then 1 else 0) {
      FilterAppend(mine, [c], InGroup(g));
    }
  }

  lemma OtherDay(d: TimelineDay, cards: seq<Card>, c: Card, z: Zone)
    requires DayOfCard(z, c) != d.date && DayIsTimeline(d, cards, z)
    ensures DayIsTimeline(d, cards + [c], z)
  {
    FilterAppend(cards, [c], OnDay(z, d.date));
    assert Filter(cards + [c], OnDay(z, d.date)) == Filter(cards, OnDay(z, d.date));
  }

  lemma NewDay(days: seq<TimelineDay>, cards: seq<Card>, c: Card, z: Zone)
    requires HasAllDays(days, cards, z) && FirstHit(days, IsDate(DayOfCard(z, c))) == |days|
    ensures Filter(cards, OnDay(z, DayOfCard(z, c))) == []
  {
    forall o | o in cards ensures !OnDay(z, DayOfCard(z, c))(o) {
      var i :| 0 <= i < |days| && days[i].date == DayOfCard(z, o);
      assert !IsDate(DayOfCard(z, c))(days[i]);
    }
    FilterNone(cards, OnDay(z, DayOfCard(z, c)));
  }

  lemma AddedCard(days: seq<TimelineDay>, cards: seq<Card>, c: Card, z: Zone)
    requires Dated(c) && DatesDiffer(days) && HasAllDays(days, cards, z)
    requires forall i :: 0 <= i < |days| ==> DayIsTimeline(days[i], cards, z)
    ensures var after := AddCard(days, c, z);
      && DatesDiffer(after) && HasAllDays(after, cards + [c], z)
      && (forall i :: 0 <= i < |after| ==> DayIsTimeline(after[i], cards + [c], z))
  {
    hide DayIsTimeline, AddEntry, DayOfCard;
    var date := DayOfCard(z, c);
    var at, after := FirstHit(days, IsDate(date)), AddCard(days, c, z);
    forall i, j | 0 <= i < j < |after| ensures after[i].date != after[j].date {
      if j == |days| { assert !IsDate(date)(days[i]); }
    }
    forall o | o in cards + [c] ensures exists i :: 0 <= i < |after| && after[i].date == DayOfCard(z, o) {
      if o in cards {
        var i :| 0 <= i < |days| && days[i].date == DayOfCard(z, o);
        assert after[i].date == days[i].date;
      } else {
        assert o == c && after[at].date == date;
      }
    }
    if at == |days| {
      NewDay(days, cards, c, z);
      AddedToDay(TimelineDay(date, [], NO_COUNTS), cards, c, z);
    } else {
      AddedToDay(days[at], cards, c, z);
    }
    forall i | 0 <= i < |days| && i != at ensures DayIsTimeline(days[i], cards + [c], z) {
      assert days[i].date != date by {
        if at == |days| { assert !IsDate(date)(days[i]); } else { assert days[at].date == date; }
      }
      OtherDay(days[i], cards, c, z);
    }
  }

  lemma {:induction false} AddedCards(cards: seq<Card>, z: Zone)
    requires forall c :: c in cards ==> Dated(c)
    ensures var days := AddCards(cards, z);
      && DatesDiffer(days) && HasAllDays(days, cards, z)
      && (forall i :: 0 <= i < |days| ==> DayIsTimeline(days[i], cards, z))
  {
    hide DayIsTimeline, AddCard;
    if cards != [] {
      var n := |cards| - 1;
      assert cards[n] in cards && cards == cards[..n] + [cards[n]];
      AddedCards(cards[..n], z);
      AddedCard(AddCards(cards[..n], z), cards[..n], cards[n], z);
    }
  }

  lemma SortedByDate(days: seq<TimelineDay>)
    ensures SortedBy(DateNotAfter, Sort(DateNotAfter, days))
  {
    SortIsStable(DateNotAfter, days);
  }

  lemma SortedDays(days: seq<TimelineDay>, cards: seq<Card>, z: Zone)
    requires DatesDiffer(days) && HasAllDays(days, cards, z)
    requires forall i :: 0 <= i < |days| ==> DayIsTimeline(days[i], cards, z)
    ensures IsTimeline(Sort(DateNotAfter, days), cards, z)
  {
    hide DayIsTimeline, DayOfCard, Sort, DatesDiffer;
    var list := Sort(DateNotAfter, days);
    SameMembers(days, list);
    SortedByDate(days);
    forall i | 0 <= i < |list| ensures DayIsTimeline(list[i], cards, z) {
      assert list[i] in days;
    }
    AllDaysKept(days, list, cards, z);
    forall i, j | 0 <= i < j < |list| ensures list[i].date < list[j].date {
      DifferentDates(days, list, i, j);
      assert DateNotAfter(list[i], list[j]);
    }
  }

  lemma AllDaysKept(days: seq<TimelineDay>, list: seq<TimelineDay>, cards: seq<Card>, z: Zone)
    requires HasAllDays(days, cards, z) && forall d :: d in days ==> d in list
    ensures HasAllDays(list, cards, z)
  {
    hide DayOfCard;
    forall c | c in cards ensures exists i :: 0 <= i < |list| && list[i].date == DayOfCard(z, c) {
      var i :| 0 <= i < |days| && days[i].date == DayOfCard(z, c);
      assert days[i] in list;
    }
  }

  lemma DifferentDates(days: seq<TimelineDay>, list: seq<TimelineDay>, i: nat, j: nat)
    requires DatesDiffer(days) && multiset(list) == multiset(days) && i < j < |list|
    ensures list[i].date != list[j].date
  {
    assert list[i] in multiset(list) && list[j] in multiset(list);
    if list[i] == list[j] {
      assert list == list[..j] + list[j..];
      assert list[i] in list[..j] && list[j] in list[j..];
      var p, q := TwoPositions(days, list[i]);
    } else {
      var p :| 0 <= p < |days| && days[p] == list[i];
      var q :| 0 <= q < |days| && days[q] == list[j];
      assert p < q || q < p;
    }
  }

  // ---------------------------------------------------------------- nothing lost, nothing moved

  function UnfoldDays(days: seq<TimelineDay>): seq<Card> {
    if days == [] then [] else Unfold(days[0].entries) + UnfoldDays(days[1..])
  }

  ghost predicate DaysAscend(cards: seq<Card>, z: Zone) {
    forall i, j :: 0 <= i < j < |cards| ==> DayOfCard(z, cards[i]) <= DayOfCard(z, cards[j])
  }

  lemma {:induction false} FilterAll(cards: seq<Card>, p: Card -> bool)
    requires forall c :: c in cards ==> p(c)
    ensures Filter(cards, p) == cards
  {
    if cards != [] {
      assert cards[0] in cards && cards == [cards[0]] + cards[1..];
      FilterAll(cards[1..], p);
    }
  }

  /** Cards in order of day start with those of their first day. */
  lemma FirstDay(cards: seq<Card>, date: int, z: Zone) returns (k: nat)
    requires DaysAscend(cards, z) && (forall c :: c in cards ==> date <= DayOfCard(z, c))
    ensures k <= |cards| && Filter(cards, OnDay(z, date)) == cards[..k]
    ensures forall c :: c in cards[k..] ==> date < DayOfCard(z, c)
    ensures forall d :: date < d ==> Filter(cards, OnDay(z, d)) == Filter(cards[k..], OnDay(z, d))
  {
    hide DayOfCard, Filter, DaysAscend;
    k := FirstHit(cards, Not(OnDay(z, date)));
    FirstRun(cards, date, k, z);
    assert cards == cards[..k] + cards[k..];
    ThatDay(cards[..k], cards[k..], date, z);
    forall d | date < d ensures Filter(cards, OnDay(z, d)) == Filter(cards[k..], OnDay(z, d)) {
      LaterDay(cards[..k], cards[k..], date, d, z);
    }
  }

  lemma FirstRun(cards: seq<Card>, date: int, k: nat, z: Zone)
    requires DaysAscend(cards, z) && (forall c :: c in cards ==> date <= DayOfCard(z, c))
    requires k == FirstHit(cards, Not(OnDay(z, date)))
    ensures forall c :: c in cards[..k] ==> DayOfCard(z, c) == date
    ensures forall c :: c in cards[k..] ==> date < DayOfCard(z, c)
  {
    hide DayOfCard;
    forall i | 0 <= i < k ensures DayOfCard(z, cards[i]) == date {
      assert !Not(OnDay(z, date))(cards[i]);
    }
    if k < |cards| {
      assert date < DayOfCard(z, cards[k]) by { assert cards[k] in cards && Not(OnDay(z, date))(cards[k]); }
      forall i | k <= i < |cards| ensures date < DayOfCard(z, cards[i]) {
        assert i > k ==> DayOfCard(z, cards[k]) <= DayOfCard(z, cards[i]);
      }
    }
  }

  lemma ThatDay(first: seq<Card>, rest: seq<Card>, date: int, z: Zone)
    requires forall c :: c in first ==> DayOfCard(z, c) == date
    requires forall c :: c in rest ==> date < DayOfCard(z, c)
    ensures Filter(first + rest, OnDay(z, date)) == first
  {
    hide DayOfCard, Filter;
    FilterAppend(first, rest, OnDay(z, date));
    FilterAll(first, OnDay(z, date));
    FilterNone(rest, OnDay(z, date));
  }

  lemma LaterDay(first: seq<Card>, rest: seq<Card>, date: int, d: int, z: Zone)
    requires date < d && forall c :: c in first ==> DayOfCard(z, c) == date
    ensures Filter(first + rest, OnDay(z, d)) == Filter(rest, OnDay(z, d))
  {
    hide DayOfCard, Filter;
    FilterAppend(first, rest, OnDay(z, d));
    FilterNone(first, OnDay(z, d));
  }

  /** The cards of each date in turn. */
  function ByDate(dates: seq<int>, cards: seq<Card>, z: Zone): seq<Card> {
    if dates == [] then [] else Filter(cards, OnDay(z, dates[0])) + ByDate(dates[1..], cards, z)
  }

  predicate Ascending(dates: seq<int>) {
    forall i, j :: 0 <= i < j < |dates| ==> dates[i] < dates[j]
  }

  lemma {:induction false} EarlierCardsDoNotMatter(dates: seq<int>, cards: seq<Card>, k: nat, z: Zone)
    requires k <= |cards|
    requires forall d :: d in dates ==> Filter(cards, OnDay(z, d)) == Filter(cards[k..], OnDay(z, d))
    ensures ByDate(dates, cards, z) == ByDate(dates, cards[k..], z)
  {
    hide Filter, DayOfCard;
    if dates != [] {
      EarlierCardsDoNotMatter(dates[1..], cards, k, z);
    }
  }

  lemma HasMember(cards: seq<Card>)
    requires cards != []
    ensures exists c :: c in cards
  {
    assert cards[0] in cards;
  }

  lemma {:induction false} ByDateIsAll(dates: seq<int>, cards: seq<Card>, z: Zone)
    requires Ascending(dates) && DaysAscend(cards, z)
    requires forall c :: c in cards ==> DayOfCard(z, c) in dates
    ensures ByDate(dates, cards, z) == cards
    decreases |dates|
  {
    hide Filter, DayOfCard;
    if dates == [] {
      if cards != [] { HasMember(cards); }
    } else {
      var k := FirstDay(cards, dates[0], z);
      forall c | c in cards[k..] ensures DayOfCard(z, c) in dates[1..] {
        assert c in cards;
      }
      ByDateIsAll(dates[1..], cards[k..], z);
      EarlierCardsDoNotMatter(dates[1..], cards, k, z);
      assert cards == cards[..k] + cards[k..];
    }
  }

  function Dates(days: seq<TimelineDay>): (dates: seq<int>)
    ensures |dates| == |days| && forall i :: 0 <= i < |days| ==> dates[i] == days[i].date
  {
    seq(|days|, i requires 0 <= i < |days| => days[i].date)
  }

  lemma {:induction false} DaysUnfold(days: seq<TimelineDay>, cards: seq<Card>, z: Zone)
    requires forall i :: 0 <= i < |days| ==> Unfold(days[i].entries) == Filter(cards, OnDay(z, days[i].date))
    ensures UnfoldDays(days) == ByDate(Dates(days), cards, z)
  {
    hide Filter, DayOfCard, Unfold;
    if days != [] {
      DaysUnfold(days[1..], cards, z);
      assert Dates(days)[1..] == Dates(days[1..]);
    }
  }

  lemma DayUnfolds(days: seq<TimelineDay>, cards: seq<Card>, z: Zone)
    requires IsTimeline(days, cards, z)
    ensures forall i :: 0 <= i < |days| ==> Unfold(days[i].entries) == Filter(cards, OnDay(z, days[i].date))
    ensures Ascending(Dates(days)) && forall c :: c in cards ==> DayOfCard(z, c) in Dates(days)
  {
    hide Filter, DayOfCard, Unfold, FullyFolded;
    forall i | 0 <= i < |days| ensures Unfold(days[i].entries) == Filter(cards, OnDay(z, days[i].date)) {
      assert DayIsTimeline(days[i], cards, z);
    }
    forall c | c in cards ensures DayOfCard(z, c) in Dates(days) {
      var i :| 0 <= i < |days| && days[i].date == DayOfCard(z, c);
      assert Dates(days)[i] == DayOfCard(z, c);
    }
  }

  lemma {:induction false} ByDateAscends(dates: seq<int>, cards: seq<Card>, z: Zone)
    requires Ascending(dates)
    ensures DaysAscend(ByDate(dates, cards, z), z)
    ensures forall c :: c in ByDate(dates, cards, z) ==> DayOfCard(z, c) in dates
  {
    hide Filter, DayOfCard;
    if dates != [] {
      var first, rest := Filter(cards, OnDay(z, dates[0])), ByDate(dates[1..], cards, z);
      ByDateAscends(dates[1..], cards, z);
      FilterMembers(cards, OnDay(z, dates[0]));
      forall c | c in rest ensures dates[0] < DayOfCard(z, c) {
        var i :| 0 <= i < |dates[1..]| && dates[1..][i] == DayOfCard(z, c);
        assert dates[0] < dates[i + 1];
      }
      FirstThenLater(first, rest, dates[0], z);
    }
  }

  lemma FirstThenLater(first: seq<Card>, rest: seq<Card>, date: int, z: Zone)
    requires (forall c :: c in first ==> DayOfCard(z, c) == date) && (forall c :: c in rest ==> date < DayOfCard(z, c)) && DaysAscend(rest, z)
    ensures DaysAscend(first + rest, z)
  {
    hide DayOfCard;
    var all := first + rest;
    forall i, j | 0 <= i < j < |all| ensures DayOfCard(z, all[i]) <= DayOfCard(z, all[j]) {
      if i < |first| {
        assert all[i] in first && (if j < |first| then all[j] in first else all[j] in rest);
      } else {
        assert all[i] == rest[i - |first|] && all[j] == rest[j - |first|];
      }
    }
  }

  /**
   * In any zone the timeline, unfolded, is exactly the dated posts in order of (instant,
   * series index), ties as they stood in the list, if and only if their dates on the wall
   * never go back in that order (as they do when clocks are set back over midnight).
   */
  lemma TimelineIsPostingOrderIff(posts: seq<Card>, z: Zone, days: seq<TimelineDay>)
    requires IsTimeline(days, SortedCards(posts), z)
    ensures StableSortOf(NotAfter, Filter(posts, Dated), UnfoldDays(days)) <==> DaysAscend(SortedCards(posts), z)
  {
    hide Filter, DayOfCard, Sort, StableSortOf, IsTimeline, UnfoldDays;
    var cards := SortedCards(posts);
    SortedCardsAreDated(posts);
    SortIsStable(NotAfter, Filter(posts, Dated));
    DayUnfolds(days, cards, z);
    DaysUnfold(days, cards, z);
    ByDateAscends(Dates(days), cards, z);
    if DaysAscend(cards, z) {
      ByDateIsAll(Dates(days), cards, z);
    } else if StableSortOf(NotAfter, Filter(posts, Dated), UnfoldDays(days)) {
      StableSortUnique(NotAfter, Filter(posts, Dated), UnfoldDays(days), cards);
    }
  }

  /** In a zone of one offset they never do. */
  lemma TimelineIsPostingOrder(posts: seq<Card>, z: Zone, offset: int, days: seq<TimelineDay>)
    requires Fixed(z, offset) && IsTimeline(days, SortedCards(posts), z)
    ensures StableSortOf(NotAfter, Filter(posts, Dated), UnfoldDays(days))
  {
    var cards := SortedCards(posts);
    SortedCardsAreDated(posts);
    SortIsStable(NotAfter, Filter(posts, Dated));
    forall i, j | 0 <= i < j < |cards| ensures DayOfCard(z, cards[i]) <= DayOfCard(z, cards[j]) {
      assert NotAfter(cards[i], cards[j]);
    }
    TimelineIsPostingOrderIff(posts, z, days);
  }

  // ---------------------------------------------------------------- in a reader's terms

  lemma {:induction false} CountIsFilter(cards: seq<Card>, kinds: set<PostType>, g: TypeGroup)
    requires forall k: PostType :: k in kinds <==> GroupOf(k) == g
    ensures CountOf(cards, kinds) == |Filter(cards, InGroup(g))|
  {
    if cards != [] {
      CountIsFilter(cards[1..], kinds, g);
    }
  }

  lemma CountsAreOfKinds(counts: Counts, cards: seq<Card>)
    requires forall g :: counts.Get(g) == |Filter(cards, InGroup(g))|
    ensures counts == Counts(CountOf(cards, {FeedImage, FeedVideo}), CountOf(cards, {Carousel}), CountOf(cards, {Reel, TrialReel}), CountOf(cards, {Story}))
  {
    CountIsFilter(cards, {FeedImage, FeedVideo}, PostGroup);
    CountIsFilter(cards, {Carousel}, CarouselGroup);
    CountIsFilter(cards, {Reel, TrialReel}, ReelsGroup);
    CountIsFilter(cards, {Story}, StoryGroup);
    assert counts.Get(PostGroup) == counts.post && counts.Get(CarouselGroup) == counts.carousel;
    assert counts.Get(ReelsGroup) == counts.reels && counts.Get(StoryGroup) == counts.story;
  }

  lemma {:induction false} UnfoldMembers(entries: seq<Entry>, i: nat, p: Card)
    requires i < |entries| && p in PostsOf(entries[i])
    ensures p in Unfold(entries)
  {
    if i > 0 {
      assert entries[1..][i - 1] == entries[i];
      UnfoldMembers(entries[1..], i - 1, p);
    }
  }

  lemma EntryIsShown(e: Entry, z: Zone, date: int)
    requires WellMade(e, z) && forall p :: p in PostsOf(e) ==> DayOfCard(z, p) == date
    ensures EntryShows(e, z, date)
  {
    if e.SeriesEntry? {
      forall p | p in e.posts ensures StandsOn(p, z, date) && OneSeries(e.posts[0], p) {
        assert p in PostsOf(e) && e.posts[0] in e.posts;
      }
    } else {
      assert e.post in PostsOf(e);
    }
  }

  lemma SeriesFolds(a: Entry, b: Entry, z: Zone, p: Card, q: Card)
    requires WellMade(a, z) && WellMade(b, z) && p in PostsOf(a) && q in PostsOf(b)
    ensures OneSeries(p, q) ==> Foldable(a, b)
  {
    if OneSeries(p, q) {
      assert LastSeries(a) == p.seriesId;
      if b.SeriesEntry? { assert b.posts[0] in b.posts; }
    }
  }

  lemma UnfoldedAreApart(a: Entry, b: Entry, z: Zone)
    requires WellMade(a, z) && WellMade(b, z) && !Foldable(a, b)
    ensures KeptApart(a, b)
  {
    hide WellMade, Foldable, OneSeries;
    forall p, q | p in PostsOf(a) && q in PostsOf(b) ensures !OneSeries(p, q) {
      SeriesFolds(a, b, z, p, q);
    }
  }

  lemma DayIsShown(d: TimelineDay, cards: seq<Card>, z: Zone)
    requires DayIsTimeline(d, cards, z) && SortedBy(NotAfter, cards)
    ensures DayShows(d, z)
  {
    hide DayOfCard, WellMade, EntryShows, KeptApart, CountOf, Foldable;
    var mine := Filter(cards, OnDay(z, d.date));
    FilterMembers(cards, OnDay(z, d.date));
    forall i | 0 <= i < |d.entries| ensures EntryShows(d.entries[i], z, d.date) {
      forall p | p in PostsOf(d.entries[i]) ensures DayOfCard(z, p) == d.date {
        UnfoldMembers(d.entries, i, p);
        assert OnDay(z, d.date)(p);
      }
      EntryIsShown(d.entries[i], z, d.date);
    }
    forall i | 0 < i < |d.entries| ensures KeptApart(d.entries[i - 1], d.entries[i]) {
      UnfoldedAreApart(d.entries[i - 1], d.entries[i], z);
    }
    FilterIsPairwise(NotAfter, cards, OnDay(z, d.date));
    forall i, j | 0 <= i < j < |mine| ensures InPostingOrder(mine[i], mine[j]) {
      assert NotAfter(mine[i], mine[j]);
    }
    CountsAreOfKinds(d.counts, mine);
  }

  lemma {:induction false} ByDateHolds(dates: seq<int>, cards: seq<Card>, z: Zone, c: Card)
    requires Ascending(dates)
    ensures multiset(ByDate(dates, cards, z))[c] == if DayOfCard(z, c) in dates then multiset(cards)[c] else 0
  {
    hide DayOfCard, Filter;
    if dates != [] {
      ByDateHolds(dates[1..], cards, z, c);
      FilterMultiplicity(cards, OnDay(z, dates[0]), c);
      assert DayOfCard(z, c) in dates <==> DayOfCard(z, c) == dates[0] || DayOfCard(z, c) in dates[1..];
      assert DayOfCard(z, c) == dates[0] ==> DayOfCard(z, c) !in dates[1..];
    }
  }

  lemma UnfoldIsAll(days: seq<TimelineDay>, cards: seq<Card>, z: Zone)
    requires IsTimeline(days, cards, z)
    ensures multiset(UnfoldDays(days)) == multiset(cards)
  {
    hide DayOfCard, IsTimeline, UnfoldDays, ByDate;
    DayUnfolds(days, cards, z);
    DaysUnfold(days, cards, z);
    forall c ensures multiset(ByDate(Dates(days), cards, z))[c] == multiset(cards)[c] {
      ByDateHolds(Dates(days), cards, z, c);
      if c !in cards { assert multiset(cards)[c] == 0; }
    }
  }

  /** What the timeline of some posts is, read off the posts and the wall clock. */
  lemma TimelineShowsPosts(posts: seq<Card>, z: Zone, days: seq<TimelineDay>)
    requires IsTimeline(days, SortedCards(posts), z)
    ensures ShowsPosts(days, posts, z)
  {
    hide DayIsTimeline, DayShows, Filter, Sort, Unfold, UnfoldDays;
    var cards := SortedCards(posts);
    SortedCardsAreDated(posts);
    SortIsStable(NotAfter, Filter(posts, Dated));
    forall i | 0 <= i < |days| ensures DayShows(days[i], z) {
      DayIsShown(days[i], cards, z);
    }
    forall p | p in posts && p.at.Some?
      ensures exists i :: 0 <= i < |days| && days[i].date == UtcToZoned(z, p.at.value).day && p in Unfold(days[i].entries)
    {
      PostIsOnItsDay(posts, z, days, p);
    }
    UnfoldIsAll(days, cards, z);
  }

  lemma PostIsOnItsDay(posts: seq<Card>, z: Zone, days: seq<TimelineDay>, p: Card)
    requires IsTimeline(days, SortedCards(posts), z) && p in posts && p.at.Some?
    ensures exists i :: 0 <= i < |days| && days[i].date == UtcToZoned(z, p.at.value).day && p in Unfold(days[i].entries)
  {
    hide Filter, Sort, Unfold, FullyFolded;
    var cards := SortedCards(posts);
    FilterMembers(posts, Dated);
    SameMembers(cards, Filter(posts, Dated));
    assert p in cards;
    var i :| 0 <= i < |days| && days[i].date == DayOfCard(z, p);
    assert DayIsTimeline(days[i], cards, z);
    FilterMembers(cards, OnDay(z, days[i].date));
    assert OnDay(z, days[i].date)(p);
  }

  // ---------------------------------------------------------------- one way to fold

  function AddEntries(cards: seq<Card>, z: Zone): seq<Entry>
    requires forall c :: c in cards ==> Dated(c)
  {
    if cards == [] then []
    else
      assert cards[|cards| - 1] in cards;
      AddEntry(AddEntries(cards[..|cards| - 1], z), cards[|cards| - 1], z)
  }

  lemma PrefixFolded(entries: seq<Entry>, last: Entry, z: Zone)
    requires FullyFolded(entries + [last], z)
    ensures FullyFolded(entries, z) && WellMade(last, z)
    ensures entries != [] ==> !Foldable(entries[|entries| - 1], last)
  {
    var whole := entries + [last];
    assert whole[|entries|] == last;
    forall i | 0 <= i < |entries| ensures WellMade(entries[i], z) && (i > 0 ==> !Foldable(entries[i - 1], entries[i])) {
      assert whole[i] == entries[i] && (i > 0 ==> whole[i - 1] == entries[i - 1]);
    }
    if entries != [] {
      assert whole[|entries| - 1] == entries[|entries| - 1];
      assert !Foldable(whole[|entries| - 1], whole[|entries|]);
    }
  }

  /** A series without its last story: a shorter series, or the first story alone. */
  function Shortened(e: Entry, z: Zone): Entry
    requires e.SeriesEntry? && |e.posts| >= 2
  {
    var rest := e.posts[..|e.posts| - 1];
    if |rest| == 1 then PostEntry(e.time, e.at, rest[0]) else SeriesEntry(e.time, MinuteOf(z, rest[|rest| - 1]), e.at, rest)
  }

  lemma ShortenedIsWellMade(e: Entry, z: Zone)
    requires WellMade(e, z) && e.SeriesEntry?
    ensures WellMade(Shortened(e, z), z)
    ensures PostsOf(Shortened(e, z)) != [] && PostsOf(Shortened(e, z))[0] == e.posts[0]
    ensures var c := e.posts[|e.posts| - 1];
      && Dated(c) && Joins(Shortened(e, z), c) && e.posts == PostsOf(Shortened(e, z)) + [c]
      && e.endTime == MinuteOf(z, c) && e.time == Shortened(e, z).time && e.at == Shortened(e, z).at
  {
    var s, c := Shortened(e, z), e.posts[|e.posts| - 1];
    assert c in e.posts && e.posts[0] in e.posts;
    forall p | p in PostsOf(s) ensures Dated(p) && InSeries(p) && p.seriesId == e.posts[0].seriesId {
      assert p in e.posts;
    }
  }

  lemma FoldedWith(entries: seq<Entry>, e: Entry, s: Entry, z: Zone)
    requires FullyFolded(entries + [e], z) && WellMade(s, z)
    requires PostsOf(e) != [] && PostsOf(s) != [] && PostsOf(s)[0] == PostsOf(e)[0]
    ensures FullyFolded(entries + [s], z)
  {
    PrefixFolded(entries, e, z);
    var whole := entries + [s];
    forall i | 0 <= i < |whole| ensures WellMade(whole[i], z) && (i > 0 ==> !Foldable(whole[i - 1], whole[i])) {
      if i < |entries| {
        assert whole[i] == entries[i] && (i > 0 ==> whole[i - 1] == entries[i - 1]);
      }
    }
  }

  lemma ShortenedIsFolded(entries: seq<Entry>, e: Entry, z: Zone)
    requires FullyFolded(entries + [e], z) && e.SeriesEntry?
    ensures |e.posts| >= 2 && Dated(e.posts[|e.posts| - 1])
    ensures FullyFolded(entries + [Shortened(e, z)], z)
    ensures Unfold(entries + [e]) == Unfold(entries + [Shortened(e, z)]) + [e.posts[|e.posts| - 1]]
    ensures AddEntry(entries + [Shortened(e, z)], e.posts[|e.posts| - 1], z) == entries + [e]
  {
    hide WellMade, FullyFolded, Unfold, Shortened, Joins, AddEntry;
    PrefixFolded(entries, e, z);
    AtLeastTwo(e, z);
    ShortenedIsWellMade(e, z);
    var s, c := Shortened(e, z), e.posts[|e.posts| - 1];
    FoldedWith(entries, e, s, z);
    UnfoldSnoc(entries, e);
    UnfoldSnoc(entries, s);
    assert Unfold(entries) + PostsOf(s) + [c] == Unfold(entries) + (PostsOf(s) + [c]);
    RejoinsShortened(entries, s, e, c, z);
  }

  lemma RejoinsShortened(entries: seq<Entry>, s: Entry, e: Entry, c: Card, z: Zone)
    requires e.SeriesEntry? && Dated(c) && Joins(s, c) && e.posts == PostsOf(s) + [c]
    requires e.endTime == MinuteOf(z, c) && e.time == s.time && e.at == s.at
    ensures AddEntry(entries + [s], c, z) == entries + [e]
  {
    hide Joins;
    assert (entries + [s])[..|entries|] == entries;
  }

  lemma AtLeastTwo(e: Entry, z: Zone)
    requires WellMade(e, z) && e.SeriesEntry?
    ensures |e.posts| >= 2
  {}

  /** Folding the cards of a full folding one by one builds it again. */
  lemma {:induction false} RefoldsToItself(entries: seq<Entry>, z: Zone)
    requires FullyFolded(entries, z)
    ensures forall c :: c in Unfold(entries) ==> Dated(c)
    ensures AddEntries(Unfold(entries), z) == entries
    decreases |Unfold(entries)|, |entries|
  {
    if entries != [] {
      var n := |entries| - 1;
      var init, last := entries[..n], entries[n];
      assert entries == init + [last];
      PrefixFolded(init, last, z);
      if last.PostEntry? {
        UnfoldSnoc(init, last);
        RefoldsToItself(init, z);
        LastStep(Unfold(init), last.post, z);
      } else {
        var c := last.posts[|last.posts| - 1];
        assert c in last.posts;
        ShortenedIsFolded(init, last, z);
        RefoldsToItself(init + [Shortened(last, z)], z);
        LastStep(Unfold(init + [Shortened(last, z)]), c, z);
      }
    }
  }

  lemma LastStep(cards: seq<Card>, c: Card, z: Zone)
    requires Dated(c) && (forall o :: o in cards ==> Dated(o))
    ensures forall o :: o in cards + [c] ==> Dated(o)
    ensures AddEntries(cards + [c], z) == AddEntry(AddEntries(cards, z), c, z)
  {
    assert (cards + [c])[..|cards|] == cards;
  }

  /** The entries of a day are the only full folding of its cards. */
  lemma FoldingIsUnique(a: seq<Entry>, b: seq<Entry>, z: Zone)
    requires FullyFolded(a, z) && FullyFolded(b, z) && Unfold(a) == Unfold(b)
    ensures a == b
  {
    RefoldsToItself(a, z);
    RefoldsToItself(b, z);
  }

  // ---------------------------------------------------------------- the "now" line

  function StartsAfter(now: int): Entry -> bool { (e: Entry) => e.at > now }

  function NowIndex(entries: seq<Entry>, now: int): nat { FirstHit(entries, StartsAfter(now)) }

  /** Where an entry's posts stand among the cards of the day. */
  lemma PostsInPlace(entries: seq<Entry>, i: nat)
    requires i < |entries|
    ensures Unfold(entries) == Unfold(entries[..i]) + (PostsOf(entries[i]) + Unfold(entries[i + 1..]))
  {
    var rest := entries[i..];
    assert rest[0] == entries[i] && rest[1..] == entries[i + 1..];
    assert Unfold(rest) == PostsOf(entries[i]) + Unfold(entries[i + 1..]);
    InPlace(entries, i);
  }

  lemma InPlace(entries: seq<Entry>, i: nat)
    requires i <= |entries|
    ensures Unfold(entries) == Unfold(entries[..i]) + Unfold(entries[i..])
  {
    hide Unfold;
    UnfoldAppend(entries[..i], entries[i..]);
    assert entries == entries[..i] + entries[i..];
  }

  lemma FirstPostOf(entries: seq<Entry>, z: Zone, i: nat)
    requires FullyFolded(entries, z) && i < |entries|
    ensures var k := |Unfold(entries[..i])|;
      k < |Unfold(entries)| && Dated(Unfold(entries)[k]) && Unfold(entries)[k].at.value == entries[i].at
      && k < |Unfold(entries[..i + 1])|
  {
    hide Unfold;
    PostsInPlace(entries, i);
    assert WellMade(entries[i], z) && PostsOf(entries[i]) != [] && PostsOf(entries[i])[0] in PostsOf(entries[i]);
    assert entries[..i + 1] == entries[..i] + [entries[i]];
    UnfoldSnoc(entries[..i], entries[i]);
  }

  lemma PrefixesGrow(entries: seq<Entry>, i: nat, j: nat)
    requires i <= j <= |entries|
    ensures |Unfold(entries[..i])| <= |Unfold(entries[..j])|
  {
    assert entries[..j] == entries[..i] + entries[i..j];
    UnfoldAppend(entries[..i], entries[i..j]);
  }

  lemma EntriesInOrder(entries: seq<Entry>, z: Zone, i: nat, j: nat)
    requires FullyFolded(entries, z) && SortedBy(NotAfter, Unfold(entries)) && i < j < |entries|
    ensures entries[i].at <= entries[j].at
  {
    hide Unfold, FullyFolded;
    FirstPostOf(entries, z, i);
    FirstPostOf(entries, z, j);
    PrefixesGrow(entries, i + 1, j);
    assert NotAfter(Unfold(entries)[|Unfold(entries[..i])|], Unfold(entries)[|Unfold(entries[..j])|]);
  }

  /** The line stands where the entries already under way end and those still ahead begin. */
  lemma NowLineSplitsTheDay(entries: seq<Entry>, z: Zone, now: int, i: nat)
    requires FullyFolded(entries, z) && SortedBy(NotAfter, Unfold(entries)) && i < |entries|
    ensures i < NowIndex(entries, now) <==> entries[i].at <= now
  {
    var k := NowIndex(entries, now);
    if i < k {
      assert !StartsAfter(now)(entries[i]);
    } else if k < i {
      assert StartsAfter(now)(entries[k]);
      EntriesInOrder(entries, z, k, i);
    }
  }
}
