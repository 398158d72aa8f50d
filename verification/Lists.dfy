/** Array methods the application leans on: filter, findIndex, slice. */
module Lists {
  datatype Option<+T> = None | Some(value: T)

  function Filter<T>(s: seq<T>, p: T -> bool): seq<T> {
    if s == [] then []
    else if p(s[0]) then [s[0]] + Filter(s[1..], p)
    else Filter(s[1..], p)
  }

  function Not<T>(p: T -> bool): T -> bool { x => !p(x) }

  /** The first position from i on where p holds; |s| when there is none. */
  function HitFrom<T>(s: seq<T>, p: T -> bool, i: nat): (r: nat)
    requires i <= |s|
    ensures i <= r <= |s| && (r < |s| ==> p(s[r]))
    ensures forall j :: i <= j < r ==> !p(s[j])
    decreases |s| - i
  {
    if i == |s| || p(s[i]) then i else HitFrom(s, p, i + 1)
  }

  ghost predicate IsFirst<T>(s: seq<T>, p: T -> bool, i: nat) {
    i < |s| && p(s[i]) && forall j :: 0 <= j < i ==> !p(s[j])
  }

  ghost predicate NoneMatches<T>(s: seq<T>, p: T -> bool) {
    forall i :: 0 <= i < |s| ==> !p(s[i])
  }

  /** `findIndex(p)`; |s| when nothing is found. */
  function FirstHit<T>(s: seq<T>, p: T -> bool): (i: nat)
    ensures i <= |s| && (i < |s| ==> p(s[i]))
    ensures forall j :: 0 <= j < i ==> !p(s[j])
  {
    HitFrom(s, p, 0)
  }

  /** At most `take` elements of s, from position `from` on. */
  function Slice<T>(s: seq<T>, from: nat, take: nat): (page: seq<T>)
    ensures |page| == if from >= |s| then 0 else if from + take <= |s| then take else |s| - from
    ensures forall i :: 0 <= i < |page| ==> page[i] == s[from + i]
  {
    var n := if from >= |s| then 0 else if from + take <= |s| then take else |s| - from;
    seq(n, i requires 0 <= i < n => s[from + i])
  }

  /** `s.slice(n)` */
  function From<T>(s: seq<T>, n: nat): (r: seq<T>)
    ensures |r| == if n <= |s| then |s| - n else 0
    ensures forall i :: 0 <= i < |r| ==> r[i] == s[n + i]
  {
    if n <= |s| then s[n..] else []
  }

  /** `s.slice(0, n)` */
  function Until<T>(s: seq<T>, n: nat): (r: seq<T>)
    ensures |r| == if n <= |s| then n else |s|
    ensures forall i :: 0 <= i < |r| ==> r[i] == s[i]
  {
    if n <= |s| then s[..n] else s
  }

  /** Three slices in a row take one slice. */
  lemma SliceSteps<T>(s: seq<T>, start: nat, skip: nat, take: nat)
    ensures Until(From(From(s, start), skip), take) == Slice(s, start + skip, take)
    ensures take >= |s| ==> From(From(s, start), skip) == Slice(s, start + skip, take)
  {}

  lemma SliceAll<T>(s: seq<T>, n: nat)
    requires n >= |s|
    ensures Slice(s, 0, n) == s
  {}

  lemma SlicesJoin<T>(s: seq<T>, from: nat, take: nat)
    ensures Slice(s, 0, from + take) == Slice(s, 0, from) + Slice(s, from, take)
  {}

  lemma {:induction false} FilterMembers<T>(s: seq<T>, p: T -> bool)
    ensures forall x :: x in Filter(s, p) <==> x in s && p(x)
    ensures multiset(Filter(s, p)) <= multiset(s)
  {
    if s != [] {
      assert s == [s[0]] + s[1..];
      FilterMembers(s[1..], p);
    }
  }

  lemma {:induction false} FilterNone<T>(s: seq<T>, p: T -> bool)
    requires forall x :: x in s ==> !p(x)
    ensures Filter(s, p) == []
  {
    if s != [] {
      assert s[0] in s;
      FilterNone(s[1..], p);
    }
  }

  lemma {:induction false} FilterMultiplicity<T>(s: seq<T>, p: T -> bool, x: T)
    ensures multiset(Filter(s, p))[x] == if p(x) then multiset(s)[x] else 0
  {
    if s != [] {
      assert s == [s[0]] + s[1..];
      FilterMultiplicity(s[1..], p, x);
    }
  }

  lemma RemoveAt<T>(s: seq<T>, k: nat)
    requires k < |s|
    ensures multiset(s[..k] + s[k + 1..]) == multiset(s) - multiset{s[k]}
  {
    assert s == s[..k] + [s[k]] + s[k + 1..];
  }

  lemma {:induction false} FilterAppend<T>(a: seq<T>, b: seq<T>, p: T -> bool)
    ensures Filter(a + b, p) == Filter(a, p) + Filter(b, p)
  {
    if a == [] {
      assert a + b == b;
    } else {
      assert (a + b)[1..] == a[1..] + b;
      FilterAppend(a[1..], b, p);
    }
  }

  lemma {:induction false} TwoPositions<T>(s: seq<T>, x: T) returns (p: nat, q: nat)
    requires multiset(s)[x] >= 2
    ensures p < q < |s| && s[p] == x && s[q] == x
  {
    assert s == [s[0]] + s[1..];
    if s[0] == x {
      assert x in multiset(s[1..]);
      var k :| 0 <= k < |s[1..]| && s[1..][k] == x;
      p, q := 0, k + 1;
    } else {
      p, q := TwoPositions(s[1..], x);
      p, q := p + 1, q + 1;
    }
  }

  ghost predicate Pairwise<T>(r: (T, T) -> bool, s: seq<T>) {
    forall i, j :: 0 <= i < j < |s| ==> r(s[i], s[j])
  }

  lemma {:induction false} FilterIsRelated<T>(r: (T, T) -> bool, h: T, s: seq<T>, p: T -> bool)
    requires forall i :: 0 <= i < |s| ==> r(h, s[i])
    ensures forall j :: 0 <= j < |Filter(s, p)| ==> r(h, Filter(s, p)[j])
  {
    if s != [] {
      FilterIsRelated(r, h, s[1..], p);
    }
  }

  lemma {:induction false} FilterIsPairwise<T>(r: (T, T) -> bool, s: seq<T>, p: T -> bool)
    requires Pairwise(r, s)
    ensures Pairwise(r, Filter(s, p))
  {
    if s != [] {
      FilterIsPairwise(r, s[1..], p);
      FilterIsRelated(r, s[0], s[1..], p);
    }
  }

  /** What is left when elements are filtered out, or one is removed, is still in pairwise relation. */
  lemma PartIsPairwise<T>(r: (T, T) -> bool, s: seq<T>, p: T -> bool, k: nat)
    requires Pairwise(r, s)
    ensures Pairwise(r, Filter(s, p))
    ensures k < |s| ==> Pairwise(r, s[..k] + s[k + 1..])
  {
    FilterIsPairwise(r, s, p);
    if k < |s| {
      var rest := s[..k] + s[k + 1..];
      forall i, j | 0 <= i < j < |rest| ensures r(rest[i], rest[j]) {
        var a, b := if i < k then i else i + 1, if j < k then j else j + 1;
        assert rest[i] == s[a] && rest[j] == s[b] && a < b;
      }
    }
  }

  lemma RemovedMembers<T>(s: seq<T>, k: nat)
    requires k < |s|
    ensures forall x :: x in s[..k] + s[k + 1..] ==> x in s
  {}

  /** r is s at the listed positions, which ascend. */
  ghost predicate PickedAt<T>(s: seq<T>, at: seq<nat>, r: seq<T>) {
    && |at| == |r|
    && (forall i, j :: 0 <= i < j < |at| ==> at[i] < at[j])
    && (forall i :: 0 <= i < |at| ==> at[i] < |s| && r[i] == s[at[i]])
  }

  /** r is what stays of s, in order, when every element on which p is not `wanted` goes. */
  ghost predicate Keeps<T>(s: seq<T>, p: T -> bool, wanted: bool, r: seq<T>) {
    exists at: seq<nat> :: PickedAt(s, at, r) && AreThoseOf(s, p, wanted, at)
  }

  ghost predicate AreThoseOf<T>(s: seq<T>, p: T -> bool, wanted: bool, at: seq<nat>) {
    forall k: nat :: k in at <==> k < |s| && p(s[k]) == wanted
  }

  function OneOn(at: seq<nat>): (r: seq<nat>)
    ensures |r| == |at| && forall i :: 0 <= i < |r| ==> r[i] == at[i] + 1
  {
    seq(|at|, i requires 0 <= i < |at| => at[i] + 1)
  }

  lemma OneOnMembers(at: seq<nat>, k: nat)
    ensures k in OneOn(at) <==> k > 0 && k - 1 in at
  {
    if k > 0 && k - 1 in at {
      var i :| 0 <= i < |at| && at[i] == k - 1;
      assert OneOn(at)[i] == k;
    }
  }

  lemma PickedOneOn<T>(x: T, s: seq<T>, at: seq<nat>, r: seq<T>)
    requires PickedAt(s, at, r)
    ensures PickedAt([x] + s, OneOn(at), r) && PickedAt([x] + s, [0] + OneOn(at), [x] + r)
  {}

  lemma ThoseOneOn<T>(x: T, s: seq<T>, p: T -> bool, wanted: bool, at: seq<nat>)
    requires AreThoseOf(s, p, wanted, at)
    ensures AreThoseOf([x] + s, p, wanted, if p(x) == wanted then [0] + OneOn(at) else OneOn(at))
  {
    forall k: nat ensures k in (if p(x) == wanted then [0] + OneOn(at) else OneOn(at)) <==> k < |[x] + s| && p(([x] + s)[k]) == wanted {
      OneOnMembers(at, k);
      assert k > 0 ==> (k - 1 in at <==> k - 1 < |s| && p(s[k - 1]) == wanted);
    }
  }

  lemma {:induction false} FilterPicks<T>(s: seq<T>, p: T -> bool, q: T -> bool, wanted: bool) returns (at: seq<nat>)
    requires forall x :: x in s ==> (q(x) <==> p(x) == wanted)
    ensures PickedAt(s, at, Filter(s, q)) && AreThoseOf(s, p, wanted, at)
  {
    hide PickedAt, AreThoseOf;
    at := [];
    if s == [] {
      NothingPicked(s, p, wanted);
    } else {
      assert s[0] in s && s == [s[0]] + s[1..];
      var rest := FilterPicks(s[1..], p, q, wanted);
      PickedOneOn(s[0], s[1..], rest, Filter(s[1..], q));
      ThoseOneOn(s[0], s[1..], p, wanted, rest);
      at := if p(s[0]) == wanted then [0] + OneOn(rest) else OneOn(rest);
    }
  }

  lemma NothingPicked<T>(s: seq<T>, p: T -> bool, wanted: bool)
    requires s == []
    ensures PickedAt(s, [], []) && AreThoseOf(s, p, wanted, [])
  {}

  lemma FilterKeeps<T>(s: seq<T>, p: T -> bool)
    ensures Keeps(s, p, true, Filter(s, p)) && Keeps(s, p, false, Filter(s, Not(p)))
    ensures |Filter(s, p)| + |Filter(s, Not(p))| == |s|
  {
    var _ := FilterPicks(s, p, p, true);
    var _ := FilterPicks(s, p, Not(p), false);
    FiltersShare(s, p);
  }

  lemma {:induction false} FiltersShare<T>(s: seq<T>, p: T -> bool)
    ensures |Filter(s, p)| + |Filter(s, Not(p))| == |s|
  {
    if s != [] {
      FiltersShare(s[1..], p);
    }
  }
}
