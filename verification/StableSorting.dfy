/**
 * The meaning of `Array.prototype.sort` (section 23.1.3.30 of ECMA-262, 2023 edition):
 * when the comparator is a total preorder on the elements, the result is the one
 * stable sorted rearrangement of the list.
 */
module StableSorting {

  /** The comparator is usable on this list: any two elements compare, consistently. */
  ghost predicate TotalPreorderOn<T(!new)>(le: (T, T) -> bool, s: seq<T>) {
    && (forall a, b :: a in s && b in s ==> le(a, b) || le(b, a))
    && (forall a, b, c :: a in s && b in s && c in s && le(a, b) && le(b, c) ==> le(a, c))
  }

  ghost predicate SortedBy<T>(le: (T, T) -> bool, s: seq<T>) {
    forall i, j :: 0 <= i < j < |s| ==> le(s[i], s[j])
  }

  predicate Tied<T>(le: (T, T) -> bool, a: T, b: T) {
    le(a, b) && le(b, a)
  }

  /** The elements of s the comparator cannot tell from x, in the order of s. */
  ghost function TiedWith<T>(le: (T, T) -> bool, x: T, s: seq<T>): seq<T> {
    if s == [] then []
    else if Tied(le, x, s[0]) then [s[0]] + TiedWith(le, x, s[1..])
    else TiedWith(le, x, s[1..])
  }

  /** r is a rearrangement of s, in order, with ties left as they stood in s. */
  ghost predicate StableSortOf<T>(le: (T, T) -> bool, s: seq<T>, r: seq<T>) {
    && multiset(r) == multiset(s)
    && SortedBy(le, r)
    && (forall x :: x in s ==> TiedWith(le, x, r) == TiedWith(le, x, s))
  }

  function Insert<T>(le: (T, T) -> bool, x: T, s: seq<T>): (r: seq<T>)
    ensures multiset(r) == multiset(s) + multiset{x}
  {
    if s == [] then [x]
    else if le(x, s[0]) then [x] + s
    else
      assert s == [s[0]] + s[1..];
      [s[0]] + Insert(le, x, s[1..])
  }

  function Sort<T>(le: (T, T) -> bool, s: seq<T>): (r: seq<T>)
    ensures multiset(r) == multiset(s)
  {
    if s == [] then []
    else
      assert s == [s[0]] + s[1..];
      Insert(le, s[0], Sort(le, s[1..]))
  }

  lemma SameMembers<T>(a: seq<T>, b: seq<T>)
    requires multiset(a) == multiset(b)
    ensures |a| == |b|
    ensures forall x :: x in a <==> x in b
  {
    assert |multiset(a)| == |a| && |multiset(b)| == |b|;
    forall x ensures x in a <==> x in b {
      assert x in a <==> x in multiset(a);
      assert x in b <==> x in multiset(b);
    }
  }

  lemma {:induction false} InsertSorted<T(!new)>(le: (T, T) -> bool, x: T, s: seq<T>)
    requires TotalPreorderOn(le, [x] + s) && SortedBy(le, s)
    ensures SortedBy(le, Insert(le, x, s))
  {
    if s == [] || le(x, s[0]) {
      forall i, j | 0 <= i < j < |[x] + s| ensures le(([x] + s)[i], ([x] + s)[j]) {
        if i == 0 && j > 1 {
          assert le(s[0], s[j - 1]);
          assert x in [x] + s && s[0] in [x] + s && s[j - 1] in [x] + s;
        }
      }
    } else {
      assert s[0] in [x] + s && x in [x] + s;
      forall a | a in [x] + s[1..] ensures a in [x] + s {
        if a != x { assert a in s[1..]; }
      }
      InsertSorted(le, x, s[1..]);
      var t := Insert(le, x, s[1..]);
      forall j | 0 <= j < |t| ensures le(s[0], t[j]) {
        assert t[j] in multiset(t);
        if t[j] != x {
          assert t[j] in multiset(s[1..]);
          var k :| 0 <= k < |s[1..]| && s[1..][k] == t[j];
          assert le(s[0], s[k + 1]);
        }
      }
    }
  }

  /** Inserting x leaves the ties of every member as if x stood in front. */
  lemma {:induction false} TiesWithout<T(!new)>(le: (T, T) -> bool, x: T, t: seq<T>, y: T, whole: seq<T>)
    requires TotalPreorderOn(le, whole) && y in whole && x in whole && (forall a :: a in t ==> a in whole)
    ensures TiedWith(le, y, Insert(le, x, t)) == TiedWith(le, y, [x] + t)
  {
    assert ([x] + t)[1..] == t;
    if t == [] || le(x, t[0]) {
    } else {
      TiesWithout(le, x, t[1..], y, whole);
      assert t[0] in t;
      assert ([x] + t[1..])[1..] == t[1..];
      assert Insert(le, x, t)[1..] == Insert(le, x, t[1..]);
      // y cannot be tied with both x and the strictly smaller t[0]
    }
  }

  /** What `[...list].sort(cmp)` returns for a consistent comparator. */
  lemma {:induction false} SortIsStable<T(!new)>(le: (T, T) -> bool, s: seq<T>)
    requires TotalPreorderOn(le, s)
    ensures StableSortOf(le, s, Sort(le, s))
  {
    if s != [] {
      var x, t := s[0], Sort(le, s[1..]);
      assert s == [x] + s[1..];
      SortIsStable(le, s[1..]);
      SameMembers(s[1..], t);
      forall a | a in [x] + t ensures a in s {
        if a != x { assert a in s[1..]; }
      }
      InsertSorted(le, x, t);
      forall y | y in s ensures TiedWith(le, y, Insert(le, x, t)) == TiedWith(le, y, s) {
        assert y in [x] + t by {
          if y != x { assert y in s[1..]; }
        }
        TiesWithout(le, x, t, y, s);
        assert ([x] + t)[1..] == t;
        TiesOfRest(le, y, s);
      }
    }
  }

  /** The ties of any member of s are kept by sorting the rest of s. */
  lemma {:induction false} TiesOfRest<T(!new)>(le: (T, T) -> bool, y: T, s: seq<T>)
    requires s != [] && TotalPreorderOn(le, s) && y in s
    requires StableSortOf(le, s[1..], Sort(le, s[1..]))
    ensures TiedWith(le, y, Sort(le, s[1..])) == TiedWith(le, y, s[1..])
  {
    var u, t := s[1..], Sort(le, s[1..]);
    SameMembers(u, t);
    if z :| z in u && Tied(le, y, z) {
      assert forall a :: a in u ==> a in s;
      TiesOfTied(le, y, z, u, s);
      TiesOfTied(le, y, z, t, s);
    } else {
      NoTies(le, y, u);
      NoTies(le, y, t);
    }
  }

  lemma {:induction false} TiesOfTied<T(!new)>(le: (T, T) -> bool, y: T, z: T, s: seq<T>, whole: seq<T>)
    requires TotalPreorderOn(le, whole) && y in whole && z in whole && Tied(le, y, z)
    requires forall a :: a in s ==> a in whole
    ensures TiedWith(le, y, s) == TiedWith(le, z, s)
  {
    if s != [] {
      assert s[0] in s;
      TiesOfTied(le, y, z, s[1..], whole);
    }
  }

  lemma {:induction false} NoTies<T>(le: (T, T) -> bool, y: T, s: seq<T>)
    requires forall a :: a in s ==> !Tied(le, y, a)
    ensures TiedWith(le, y, s) == []
  {
    if s != [] {
      assert s[0] in s;
      NoTies(le, y, s[1..]);
    }
  }

  /** There is only one stable sorted rearrangement, whatever algorithm found it. */
  lemma {:induction false} StableSortUnique<T(!new)>(le: (T, T) -> bool, s: seq<T>, a: seq<T>, b: seq<T>)
    requires TotalPreorderOn(le, s)
    requires StableSortOf(le, s, a) && StableSortOf(le, s, b)
    ensures a == b
  {
    SameMembers(s, a);
    SameMembers(s, b);
    forall x | x in s ensures TiedWith(le, x, a) == TiedWith(le, x, b) {}
    SameTiesSame(le, a, b, s);
  }

  lemma {:induction false} SameTiesSame<T(!new)>(le: (T, T) -> bool, a: seq<T>, b: seq<T>, whole: seq<T>)
    requires TotalPreorderOn(le, whole)
    requires forall x :: x in a || x in b ==> x in whole
    requires |a| == |b| && SortedBy(le, a) && SortedBy(le, b)
    requires forall x :: x in whole ==> TiedWith(le, x, a) == TiedWith(le, x, b)
    ensures a == b
  {
    if a != [] {
      var x, y := a[0], b[0];
      assert x in a && y in b;
      TiedIsMember(le, x, a, x);
      TiedIsMember(le, y, b, y);
      assert le(y, x) by {
        var k := TiedPosition(le, x, b);
        if k > 0 { assert le(b[0], b[k]); }
      }
      assert le(x, y) by {
        var k := TiedPosition(le, y, a);
        if k > 0 { assert le(a[0], a[k]); }
      }
      assert TiedWith(le, x, a)[0] == x;
      assert TiedWith(le, x, b)[0] == y;
      forall z | z in whole ensures TiedWith(le, z, a[1..]) == TiedWith(le, z, b[1..]) {
        assert TiedWith(le, z, a) == TiedWith(le, z, b);
        if Tied(le, z, x) {
          assert TiedWith(le, z, a[1..]) == TiedWith(le, z, a)[1..];
          assert TiedWith(le, z, b[1..]) == TiedWith(le, z, b)[1..];
        }
      }
      SameTiesSame(le, a[1..], b[1..], whole);
      assert a == [x] + a[1..] && b == [y] + b[1..];
    }
  }

  lemma {:induction false} TiedIsMember<T>(le: (T, T) -> bool, x: T, s: seq<T>, m: T)
    requires m in s && Tied(le, x, m)
    ensures TiedWith(le, x, s) != []
  {
    if s[0] != m {
      assert m in s[1..];
      TiedIsMember(le, x, s[1..], m);
    }
  }

  lemma {:induction false} TiedPosition<T>(le: (T, T) -> bool, x: T, s: seq<T>) returns (k: nat)
    requires TiedWith(le, x, s) != []
    ensures k < |s| && Tied(le, x, s[k])
  {
    if Tied(le, x, s[0]) {
      k := 0;
    } else {
      var j := TiedPosition(le, x, s[1..]);
      k := j + 1;
    }
  }
}
