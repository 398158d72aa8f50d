/**
 * `groupBy` and `aggregate` of the in-memory store (__tests__/helpers/memory-db.ts:835-875).
 */
module Grouping {
  import opened Lists
  import opened Rows
  import opened StableSorting

  const SEPARATOR := '|'

  /** `parts.join("|")` */
  function Join(parts: seq<string>): string {
    if parts == [] then []
    else if |parts| == 1 then parts[0]
    else parts[0] + [SEPARATOR] + Join(parts[1..])
  }

  /** What `join` prints for one value; numbers, booleans, dates and objects through String(). */
  function Part(show: Value -> string, v: Value): string {
    if Nullish(v) then [] else if v.Str? then v.s else show(v)
  }

  function Parts(show: Value -> string, r: Row, on: seq<string>): (p: seq<string>)
    ensures |p| == |on|
  {
    seq(|on|, i requires 0 <= i < |on| => Part(show, Column(r, on[i])))
  }

  function KeyText(show: Value -> string, r: Row, on: seq<string>): string {
    Join(Parts(show, r, on))
  }

  datatype Group = Group(key: string, columns: seq<Value>, sums: seq<int>, count: nat)

  function Columns(r: Row, on: seq<string>): seq<Value> {
    seq(|on|, i requires 0 <= i < |on| => Column(r, on[i]))
  }

  function Amounts(num: Numerals, r: Row, fields: seq<string>): (a: seq<int>)
    ensures |a| == |fields|
  {
    seq(|fields|, i requires 0 <= i < |fields| => NumberOrZero(num, Column(r, fields[i])))
  }

  function Plus(a: seq<int>, b: seq<int>): (c: seq<int>)
    requires |a| == |b|
    ensures |c| == |a|
  {
    seq(|a|, i requires 0 <= i < |a| => a[i] + b[i])
  }

  /** How the rows are read: grouping columns, summed columns, and the conversions they use. */
  datatype Query = Query(on: seq<string>, fields: seq<string>, num: Numerals, show: Value -> string)

  predicate HasKey(g: Group, key: string) { g.key == key }

  function WithKey(key: string): Group -> bool { (g: Group) => HasKey(g, key) }

  predicate Shaped(q: Query, groups: seq<Group>) {
    forall i :: 0 <= i < |groups| ==> |groups[i].sums| == |q.fields|
  }

  /** One round of the loop: the row joins the group of its key, or opens a new one at the end. */
  function AddRow(q: Query, groups: seq<Group>, r: Row): (after: seq<Group>)
    requires Shaped(q, groups)
    ensures Shaped(q, after)
  {
    var key := KeyText(q.show, r, q.on);
    var i := FirstHit(groups, WithKey(key));
    if i == |groups| then groups + [Group(key, Columns(r, q.on), Amounts(q.num, r, q.fields), 1)]
    else groups[i := groups[i].(sums := Plus(groups[i].sums, Amounts(q.num, r, q.fields)), count := groups[i].count + 1)]
  }

  function GroupRows(q: Query, rows: seq<Row>): (groups: seq<Group>)
    ensures Shaped(q, groups)
  {
    if rows == [] then [] else AddRow(q, GroupRows(q, rows[..|rows| - 1]), rows[|rows| - 1])
  }

  method GroupBy(q: Query, rows: seq<Row>) returns (groups: seq<Group>)
    ensures groups == GroupRows(q, rows)
    ensures (forall r :: r in rows ==> Plain(q, r)) ==> GroupsByColumns(q, rows, groups)
  {
    hide GroupsByColumns, Plain, KeyText, Columns;
    if forall r :: r in rows ==> Plain(q, r) {
      GroupsMeanColumns(q, rows);
    }
    groups := [];
    var n := 0;
    while n < |rows|
      invariant n <= |rows|
      invariant groups == GroupRows(q, rows[..n])
    {
      assert rows[..n + 1][..n] == rows[..n];
      var r := rows[n];
      var key := KeyText(q.show, r, q.on);
      var i := FirstHit(groups, WithKey(key));
      var group := if i == |groups|
        then Group(key, Columns(r, q.on), seq(|q.fields|, _ => 0), 0)
        else groups[i];
      group := group.(sums := Plus(group.sums, Amounts(q.num, r, q.fields)), count := group.count + 1);
      assert i == |groups| ==> group.sums == Amounts(q.num, r, q.fields);
      groups := if i == |groups| then groups + [group] else groups[i := group];
      n := n + 1;
    }
    assert rows[..n] == rows;
  }

  // ---------------------------------------------------------------- sums

  function Sum(num: Numerals, rows: seq<Row>, field: string): int {
    if rows == [] then 0 else Sum(num, rows[..|rows| - 1], field) + NumberOrZero(num, Column(rows[|rows| - 1], field))
  }

  /** `_sum` of `aggregate`: null over no rows. */
  function Aggregate(num: Numerals, rows: seq<Row>, field: string): Option<int> {
    if rows == [] then None else Some(Sum(num, rows, field))
  }

  function TotalSum(groups: seq<Group>, f: nat): int
    requires forall i :: 0 <= i < |groups| ==> f < |groups[i].sums|
  {
    if groups == [] then 0 else groups[0].sums[f] + TotalSum(groups[1..], f)
  }

  function TotalCount(groups: seq<Group>): nat {
    if groups == [] then 0 else groups[0].count + TotalCount(groups[1..])
  }

  lemma {:induction false} TotalOfReplaced(groups: seq<Group>, i: nat, g: Group, f: nat)
    requires i < |groups| && f < |g.sums| && (forall k :: 0 <= k < |groups| ==> f < |groups[k].sums|)
    ensures TotalSum(groups[i := g], f) == TotalSum(groups, f) - groups[i].sums[f] + g.sums[f]
    ensures TotalCount(groups[i := g]) == TotalCount(groups) - groups[i].count + g.count
  {
    if i == 0 {
      assert groups[i := g][1..] == groups[1..];
    } else {
      assert groups[i := g][1..] == groups[1..][i - 1 := g];
      TotalOfReplaced(groups[1..], i - 1, g, f);
    }
  }

  lemma {:induction false} TotalOfAppended(groups: seq<Group>, g: Group, f: nat)
    requires f < |g.sums| && (forall k :: 0 <= k < |groups| ==> f < |groups[k].sums|)
    ensures TotalSum(groups + [g], f) == TotalSum(groups, f) + g.sums[f]
    ensures TotalCount(groups + [g]) == TotalCount(groups) + g.count
  {
    if groups != [] {
      assert (groups + [g])[1..] == groups[1..] + [g];
      TotalOfAppended(groups[1..], g, f);
    }
  }

  /** Grouping conserves: over all groups the sums and counts are those of the rows. */
  lemma {:induction false} GroupsConserve(q: Query, rows: seq<Row>, f: nat)
    requires f < |q.fields|
    ensures TotalSum(GroupRows(q, rows), f) == Sum(q.num, rows, q.fields[f])
    ensures TotalCount(GroupRows(q, rows)) == |rows|
    ensures Aggregate(q.num, rows, q.fields[f]) == if rows == [] then None else Some(TotalSum(GroupRows(q, rows), f))
  {
    if rows != [] {
      var n := |rows| - 1;
      GroupsConserve(q, rows[..n], f);
      var groups, r := GroupRows(q, rows[..n]), rows[n];
      var key := KeyText(q.show, r, q.on);
      var i := FirstHit(groups, WithKey(key));
      if i == |groups| {
        TotalOfAppended(groups, Group(key, Columns(r, q.on), Amounts(q.num, r, q.fields), 1), f);
      } else {
        TotalOfReplaced(groups, i, AddRow(q, groups, r)[i], f);
      }
    }
  }

  lemma {:induction false} TotalsIgnoreOrder(a: seq<Group>, b: seq<Group>, f: nat)
    requires multiset(a) == multiset(b)
    requires (forall k :: 0 <= k < |a| ==> f < |a[k].sums|) && (forall k :: 0 <= k < |b| ==> f < |b[k].sums|)
    ensures TotalSum(a, f) == TotalSum(b, f) && TotalCount(a) == TotalCount(b)
  {
    SameMembers(a, b);
    if a != [] {
      assert a[0] in b;
      var k :| 0 <= k < |b| && b[k] == a[0];
      WithoutFirst(a, b, k);
      TotalsIgnoreOrder(a[1..], b[..k] + b[k + 1..], f);
      MoveToFront(b, k, f);
    }
  }

  lemma WithoutFirst(a: seq<Group>, b: seq<Group>, k: nat)
    requires a != [] && k < |b| && b[k] == a[0] && multiset(a) == multiset(b)
    ensures multiset(a[1..]) == multiset(b[..k] + b[k + 1..])
  {
    RemoveAt(a, 0);
    assert a[..0] + a[1..] == a[1..];
    RemoveAt(b, k);
  }

  lemma {:induction false} MoveToFront(b: seq<Group>, k: nat, f: nat)
    requires k < |b| && (forall i :: 0 <= i < |b| ==> f < |b[i].sums|)
    ensures TotalSum(b, f) == b[k].sums[f] + TotalSum(b[..k] + b[k + 1..], f)
    ensures TotalCount(b) == b[k].count + TotalCount(b[..k] + b[k + 1..])
  {
    if k == 0 {
      assert b[..0] + b[1..] == b[1..];
    } else {
      MoveToFront(b[1..], k - 1, f);
      assert (b[..k] + b[k + 1..])[1..] == b[1..][..k - 1] + b[1..][k..];
    }
  }

  /** Ordering the groups by any comparator changes neither total. */
  lemma OrderedGroupsConserve(q: Query, rows: seq<Row>, le: (Group, Group) -> bool, f: nat)
    requires f < |q.fields|
    ensures var list := Sort(le, GroupRows(q, rows));
      && (forall k :: 0 <= k < |list| ==> f < |list[k].sums|)
      && TotalSum(list, f) == Sum(q.num, rows, q.fields[f])
      && TotalCount(list) == |rows|
  {
    hide GroupRows, Sort, TotalSum, TotalCount;
    var groups, list := GroupRows(q, rows), Sort(le, GroupRows(q, rows));
    GroupsConserve(q, rows, f);
    SameMembers(groups, list);
    forall k | 0 <= k < |list| ensures f < |list[k].sums| {
      assert list[k] in groups;
    }
    TotalsIgnoreOrder(groups, list, f);
  }

  // ---------------------------------------------------------------- one group per key

  function InGroup(q: Query, key: string): Row -> bool {
    (r: Row) => KeyText(q.show, r, q.on) == key
  }

  /** Group i speaks for exactly the rows of its key. */
  ghost predicate Faithful(q: Query, rows: seq<Row>, g: Group) {
    var mine := Filter(rows, InGroup(q, g.key));
    && mine != []
    && g.count == |mine|
    && g.columns == Columns(mine[0], q.on)
    && |g.sums| == |q.fields|
    && (forall f :: 0 <= f < |q.fields| ==> g.sums[f] == Sum(q.num, mine, q.fields[f]))
  }

  ghost predicate KeysDiffer(groups: seq<Group>) {
    forall i, j :: 0 <= i < j < |groups| ==> groups[i].key != groups[j].key
  }

  ghost predicate Covers(q: Query, rows: seq<Row>, groups: seq<Group>) {
    forall r :: r in rows ==> exists i :: 0 <= i < |groups| && groups[i].key == KeyText(q.show, r, q.on)
  }

  lemma OneMoreRow(q: Query, rows: seq<Row>, r: Row, key: string)
    ensures Filter(rows + [r], InGroup(q, key))
      == Filter(rows, InGroup(q, key)) + (if KeyText(q.show, r, q.on) == key then [r] else [])
  {
    FilterAppend(rows, [r], InGroup(q, key));
  }

  lemma SumOfOneMore(num: Numerals, rows: seq<Row>, r: Row, field: string)
    ensures Sum(num, rows + [r], field) == Sum(num, rows, field) + NumberOrZero(num, Column(r, field))
  {
    assert (rows + [r])[..|rows|] == rows;
  }

  lemma GroupGrows(q: Query, rows: seq<Row>, r: Row, g: Group)
    requires Faithful(q, rows, g) && g.key == KeyText(q.show, r, q.on)
    ensures Faithful(q, rows + [r], g.(sums := Plus(g.sums, Amounts(q.num, r, q.fields)), count := g.count + 1))
  {
    OneMoreRow(q, rows, r, g.key);
    forall f | 0 <= f < |q.fields| ensures Sum(q.num, Filter(rows + [r], InGroup(q, g.key)), q.fields[f])
      == g.sums[f] + Amounts(q.num, r, q.fields)[f]
    {
      SumOfOneMore(q.num, Filter(rows, InGroup(q, g.key)), r, q.fields[f]);
    }
  }

  lemma GroupOpens(q: Query, rows: seq<Row>, r: Row)
    requires forall o :: o in rows ==> KeyText(q.show, o, q.on) != KeyText(q.show, r, q.on)
    ensures Faithful(q, rows + [r], Group(KeyText(q.show, r, q.on), Columns(r, q.on), Amounts(q.num, r, q.fields), 1))
  {
    var key := KeyText(q.show, r, q.on);
    OneMoreRow(q, rows, r, key);
    FilterNone(rows, InGroup(q, key));
    forall f | 0 <= f < |q.fields| ensures Sum(q.num, [r], q.fields[f]) == Amounts(q.num, r, q.fields)[f] {
      SumOfOneMore(q.num, [], r, q.fields[f]);
      assert [] + [r] == [r];
    }
    assert [] + [r] == [r];
  }

  /**
   * The groups are the distinct key texts, in order of first appearance, and each carries
   * the first row's columns and the sums and count of exactly its own rows.
   */
  lemma {:induction false} GroupsAreFaithful(q: Query, rows: seq<Row>)
    ensures var groups := GroupRows(q, rows);
      && KeysDiffer(groups) && Covers(q, rows, groups)
      && (forall i :: 0 <= i < |groups| ==> Faithful(q, rows, groups[i]))
  {
    if rows != [] {
      var n := |rows| - 1;
      GroupsAreFaithful(q, rows[..n]);
      assert rows == rows[..n] + [rows[n]];
      FaithfulStep(q, rows[..n], rows[n], GroupRows(q, rows[..n]));
    }
  }

  lemma FaithfulStep(q: Query, rows: seq<Row>, r: Row, groups: seq<Group>)
    requires Shaped(q, groups) && KeysDiffer(groups) && Covers(q, rows, groups)
    requires forall i :: 0 <= i < |groups| ==> Faithful(q, rows, groups[i])
    ensures var after := AddRow(q, groups, r);
      && KeysDiffer(after) && Covers(q, rows + [r], after)
      && (forall i :: 0 <= i < |after| ==> Faithful(q, rows + [r], after[i]))
  {
    var after := AddRow(q, groups, r);
    KeysStayDifferent(q, groups, r);
    CoversOneMore(q, rows, r, groups);
    forall i | 0 <= i < |after| ensures Faithful(q, rows + [r], after[i]) {
      FaithfulAt(q, rows, r, groups, i);
    }
  }

  lemma KeysStayDifferent(q: Query, groups: seq<Group>, r: Row)
    requires Shaped(q, groups) && KeysDiffer(groups)
    ensures KeysDiffer(AddRow(q, groups, r))
  {
    var key, after := KeyText(q.show, r, q.on), AddRow(q, groups, r);
    forall i, j | 0 <= i < j < |after| ensures after[i].key != after[j].key {
      if j == |groups| { assert !WithKey(key)(groups[i]); }
    }
  }

  lemma CoversOneMore(q: Query, rows: seq<Row>, r: Row, groups: seq<Group>)
    requires Shaped(q, groups) && Covers(q, rows, groups)
    ensures Covers(q, rows + [r], AddRow(q, groups, r))
  {
    var at, after := FirstHit(groups, WithKey(KeyText(q.show, r, q.on))), AddRow(q, groups, r);
    forall o | o in rows + [r] ensures exists i :: 0 <= i < |after| && after[i].key == KeyText(q.show, o, q.on) {
      if o in rows {
        var i :| 0 <= i < |groups| && groups[i].key == KeyText(q.show, o, q.on);
        assert after[i].key == groups[i].key;
      } else {
        assert o == r && after[at].key == KeyText(q.show, r, q.on);
      }
    }
  }

  lemma FaithfulAt(q: Query, rows: seq<Row>, r: Row, groups: seq<Group>, i: nat)
    requires Shaped(q, groups) && KeysDiffer(groups) && Covers(q, rows, groups)
    requires forall k :: 0 <= k < |groups| ==> Faithful(q, rows, groups[k])
    requires i < |AddRow(q, groups, r)|
    ensures Faithful(q, rows + [r], AddRow(q, groups, r)[i])
  {
    var key := KeyText(q.show, r, q.on);
    var at := FirstHit(groups, WithKey(key));
    if i == |groups| {
      forall o | o in rows ensures KeyText(q.show, o, q.on) != key {
        var k :| 0 <= k < |groups| && groups[k].key == KeyText(q.show, o, q.on);
        assert !WithKey(key)(groups[k]);
      }
      GroupOpens(q, rows, r);
    } else if i == at {
      GroupGrows(q, rows, r, groups[i]);
    } else {
      assert groups[i].key != key by {
        if at == |groups| { assert !WithKey(key)(groups[i]); } else { assert groups[at].key == key; }
      }
      OneMoreRow(q, rows, r, groups[i].key);
      assert Filter(rows + [r], InGroup(q, groups[i].key)) == Filter(rows, InGroup(q, groups[i].key));
      assert AddRow(q, groups, r)[i] == groups[i];
    }
  }

  // ---------------------------------------------------------------- key texts

  function Separators(s: string): nat {
    if s == [] then 0 else (if s[0] == SEPARATOR then 1 else 0) + Separators(s[1..])
  }

  function SeparatorsIn(parts: seq<string>): nat {
    if parts == [] then 0 else Separators(parts[0]) + SeparatorsIn(parts[1..])
  }

  lemma {:induction false} SeparatorsAdd(a: string, b: string)
    ensures Separators(a + b) == Separators(a) + Separators(b)
  {
    if a == [] {
      assert a + b == b;
    } else {
      assert (a + b)[1..] == a[1..] + b;
      SeparatorsAdd(a[1..], b);
    }
  }

  lemma {:induction false} SeparatorsOfJoin(parts: seq<string>)
    requires parts != []
    ensures Separators(Join(parts)) == |parts| - 1 + SeparatorsIn(parts)
  {
    if |parts| > 1 {
      SeparatorsOfJoin(parts[1..]);
      SeparatorsAdd(parts[0] + [SEPARATOR], Join(parts[1..]));
      SeparatorsAdd(parts[0], [SEPARATOR]);
    } else {
      assert SeparatorsIn(parts[1..]) == 0;
    }
  }

  /** Two texts split at their first separator the same way. */
  lemma {:induction false} FirstSplitUnique(a: string, x: string, b: string, y: string)
    requires Separators(a) == 0 && Separators(b) == 0
    requires a + [SEPARATOR] + x == b + [SEPARATOR] + y
    ensures a == b && x == y
  {
    var s, t := a + [SEPARATOR] + x, b + [SEPARATOR] + y;
    if a == [] || b == [] {
      assert s[0] == t[0];
      assert a == [] ==> s[0] == SEPARATOR && s[1..] == x;
      assert b == [] ==> t[0] == SEPARATOR && t[1..] == y;
    } else {
      assert s[1..] == a[1..] + [SEPARATOR] + x && t[1..] == b[1..] + [SEPARATOR] + y;
      assert a[0] == s[0] == t[0] == b[0];
      FirstSplitUnique(a[1..], x, b[1..], y);
      assert a == [a[0]] + a[1..] && b == [b[0]] + b[1..];
    }
  }

  lemma {:induction false} JoinInjective(p: seq<string>, q: seq<string>)
    requires |p| == |q| && SeparatorsIn(p) == 0 && Join(p) == Join(q)
    ensures p == q
  {
    if p != [] {
      SeparatorsOfJoin(p);
      SeparatorsOfJoin(q);
      if |p| > 1 {
        FirstSplitUnique(p[0], Join(p[1..]), q[0], Join(q[1..]));
        JoinInjective(p[1..], q[1..]);
        assert p == [p[0]] + p[1..] && q == [q[0]] + q[1..];
      }
    }
  }

  lemma {:induction false} SeparatorPosition(s: string) returns (k: nat)
    requires Separators(s) > 0
    ensures k < |s| && s[k] == SEPARATOR
  {
    if s[0] == SEPARATOR {
      k := 0;
    } else {
      k := SeparatorPosition(s[1..]);
      k := k + 1;
    }
  }

  lemma {:induction false} PartWithSeparator(parts: seq<string>) returns (i: nat)
    requires SeparatorsIn(parts) > 0
    ensures i < |parts| && Separators(parts[i]) > 0
  {
    if Separators(parts[0]) > 0 {
      i := 0;
    } else {
      i := PartWithSeparator(parts[1..]);
      i := i + 1;
    }
  }

  /** Moving a piece of text over the boundary of two neighbours does not show in the join. */
  lemma {:induction false} BoundaryIsInvisible(p: seq<string>, i: nat, a: string, b: string, c: string)
    requires i + 1 < |p|
    ensures Join(p[i := a + [SEPARATOR] + b][i + 1 := c]) == Join(p[i := a][i + 1 := b + [SEPARATOR] + c])
  {
    var x, y := p[i := a + [SEPARATOR] + b][i + 1 := c], p[i := a][i + 1 := b + [SEPARATOR] + c];
    if i == 0 {
      assert x[1..][0] == c && y[1..][0] == b + [SEPARATOR] + c;
      assert x[1..][1..] == y[1..][1..];
      var rest := if |p| == 2 then [] else [SEPARATOR] + Join(x[1..][1..]);
      assert Join(x[1..]) == c + rest;
      assert Join(y[1..]) == b + [SEPARATOR] + c + rest;
      assert Join(x) == a + [SEPARATOR] + b + [SEPARATOR] + c + rest;
    } else {
      BoundaryIsInvisible(p[1..], i - 1, a, b, c);
      assert x[1..] == p[1..][i - 1 := a + [SEPARATOR] + b][i := c];
      assert y[1..] == p[1..][i - 1 := a][i := b + [SEPARATOR] + c];
    }
  }

  lemma AmbiguousJoin(p: seq<string>) returns (q: seq<string>)
    requires |p| >= 2 && SeparatorsIn(p) > 0
    ensures |q| == |p| && Join(q) == Join(p) && q != p
  {
    var i := PartWithSeparator(p);
    var k := SeparatorPosition(p[i]);
    var u, v := p[i][..k], p[i][k + 1..];
    assert p[i] == u + [SEPARATOR] + v;
    if i + 1 < |p| {
      q := p[i := u][i + 1 := v + [SEPARATOR] + p[i + 1]];
      BoundaryIsInvisible(p, i, u, v, p[i + 1]);
      assert p[i := u + [SEPARATOR] + v][i + 1 := p[i + 1]] == p;
      assert |q[i]| < |p[i]|;
    } else {
      q := p[i - 1 := p[i - 1] + [SEPARATOR] + u][i := v];
      BoundaryIsInvisible(p, i - 1, p[i - 1], u, v);
      assert p[i - 1 := p[i - 1]][i := u + [SEPARATOR] + v] == p;
      assert |q[i]| < |p[i]|;
    }
  }

  /**
   * The key text stands for one tuple of parts exactly when no part holds the separator
   * (a single part always stands for itself).
   */
  lemma KeyTextIsFaithfulIff(p: seq<string>)
    requires |p| >= 2
    ensures (forall q: seq<string> :: |q| == |p| && Join(q) == Join(p) ==> q == p) <==> SeparatorsIn(p) == 0
  {
    if SeparatorsIn(p) == 0 {
      forall q: seq<string> | |q| == |p| && Join(q) == Join(p) ensures q == p {
        JoinInjective(p, q);
      }
    } else {
      var q := AmbiguousJoin(p);
    }
  }

  /** Rows fall into one group exactly when their shown tuples agree, null counting as empty text. */
  lemma SameGroupIff(q: Query, a: Row, b: Row)
    requires |q.on| <= 1 || SeparatorsIn(Parts(q.show, a, q.on)) == 0
    ensures KeyText(q.show, a, q.on) == KeyText(q.show, b, q.on) <==> Parts(q.show, a, q.on) == Parts(q.show, b, q.on)
  {
    var p, r := Parts(q.show, a, q.on), Parts(q.show, b, q.on);
    if |q.on| >= 2 {
      KeyTextIsFaithfulIff(p);
    } else if |q.on| == 1 && Join(p) == Join(r) {
      assert p == [p[0]] && r == [r[0]];
    }
  }

  // ---------------------------------------------------------------- groups in terms of columns

  /** What the key shows of a value: nothing of an absent one, a text itself, others as String() has them. */
  ghost function Shown(show: Value -> string, v: Value): string {
    match v
    case Undefined => ""
    case Null => ""
    case Str(s) => s
    case _ => show(v)
  }

  ghost predicate IsText(v: Value) { v in {Undefined, Null} || v.Str? }

  /** Texts are alike when they are equal, an absent one counting as empty; other values when they show alike. */
  ghost predicate Alike(show: Value -> string, x: Value, y: Value) {
    if IsText(x) && IsText(y) then x == y || (x in {Undefined, Null, Str("")} && y in {Undefined, Null, Str("")})
    else Shown(show, x) == Shown(show, y)
  }

  /** With two or more grouping columns: none of the row's shows the separator. */
  ghost predicate Plain(q: Query, r: Row) {
    |q.on| >= 2 ==> forall k :: k in q.on ==> '|' !in Shown(q.show, Column(r, k))
  }

  ghost predicate SameTuple(q: Query, a: Row, b: Row) {
    forall k :: k in q.on ==> Alike(q.show, Column(a, k), Column(b, k))
  }

  ghost function LikeRow(q: Query, a: Row): Row -> bool {
    (b: Row) => SameTuple(q, a, b)
  }

  ghost function TupleOf(q: Query, r: Row): seq<string> {
    seq(|q.on|, i requires 0 <= i < |q.on| => Shown(q.show, Column(r, q.on[i])))
  }

  /** g is the group of the rows like `first`, which is the first of them. */
  ghost predicate GroupOfRow(q: Query, rows: seq<Row>, first: Row, g: Group) {
    var mine := Filter(rows, LikeRow(q, first));
    && g.count == |mine|
    && |g.columns| == |q.on| && (forall k :: 0 <= k < |q.on| ==> g.columns[k] == Column(first, q.on[k]))
    && |g.sums| == |q.fields| && (forall f :: 0 <= f < |q.fields| ==> g.sums[f] == Sum(q.num, mine, q.fields[f]))
  }

  /**
   * The groups are those of the rows no earlier row is like, in the order of these: at[i]
   * is where the i-th of them stands. There are as many as there are different tuples.
   */
  ghost predicate GroupsByColumns(q: Query, rows: seq<Row>, groups: seq<Group>) {
    && |groups| == |set r | r in rows :: TupleOf(q, r)|
    && exists at: seq<nat> :: |at| == |groups| && AreFirsts(q, rows, at)
         && forall i :: 0 <= i < |at| ==> GroupOfRow(q, rows, rows[at[i]], groups[i])
  }

  /** The positions of the rows that no earlier row is like, in order. */
  ghost predicate AreFirsts(q: Query, rows: seq<Row>, at: seq<nat>) {
    && (forall i :: 0 <= i < |at| ==> at[i] < |rows|)
    && (forall i, j :: 0 <= i < j < |at| ==> at[i] < at[j])
    && (forall n: nat :: n in at <==> n < |rows| && forall m :: 0 <= m < n ==> !SameTuple(q, rows[m], rows[n]))
  }

  lemma NoSeparatorIff(s: string)
    ensures Separators(s) == 0 <==> '|' !in s
  {
    if Separators(s) > 0 {
      var k := SeparatorPosition(s);
    } else {
      NoSeparatorIn(s);
    }
  }

  lemma {:induction false} NoSeparatorIn(s: string)
    requires Separators(s) == 0
    ensures '|' !in s
  {
    if s != [] {
      NoSeparatorIn(s[1..]);
    }
  }

  lemma {:induction false} NoSeparatorsIn(parts: seq<string>)
    requires forall i :: 0 <= i < |parts| ==> '|' !in parts[i]
    ensures SeparatorsIn(parts) == 0
  {
    if parts != [] {
      NoSeparatorIff(parts[0]);
      NoSeparatorsIn(parts[1..]);
    }
  }

  lemma PartIsShown(show: Value -> string, x: Value, y: Value)
    ensures Part(show, x) == Shown(show, x)
    ensures Alike(show, x, y) <==> Shown(show, x) == Shown(show, y)
  {}

  /** Rows have one key exactly when their grouping columns are alike. */
  lemma SameKeyIff(q: Query, a: Row, b: Row)
    requires Plain(q, a)
    ensures KeyText(q.show, a, q.on) == KeyText(q.show, b, q.on) <==> SameTuple(q, a, b)
    ensures TupleOf(q, a) == TupleOf(q, b) <==> SameTuple(q, a, b)
  {
    hide Alike, Shown, Part, Join, KeyText;
    var p, r := Parts(q.show, a, q.on), Parts(q.show, b, q.on);
    forall i | 0 <= i < |q.on|
      ensures p[i] == TupleOf(q, a)[i] && r[i] == TupleOf(q, b)[i]
      ensures Alike(q.show, Column(a, q.on[i]), Column(b, q.on[i])) <==> p[i] == r[i]
      ensures |q.on| >= 2 ==> '|' !in p[i]
    {
      PartIsShown(q.show, Column(a, q.on[i]), Column(b, q.on[i]));
      PartIsShown(q.show, Column(b, q.on[i]), Column(a, q.on[i]));
    }
    if |q.on| >= 2 { NoSeparatorsIn(p); }
    SameGroupIff(q, a, b);
  }

  lemma FirstHitAppend<T>(s: seq<T>, x: T, p: T -> bool)
    ensures FirstHit(s, p) < |s| ==> FirstHit(s + [x], p) == FirstHit(s, p)
    ensures (forall o :: o in s ==> !p(o)) && p(x) ==> FirstHit(s + [x], p) == |s|
  {
    assert (s + [x])[|s|] == x && forall m :: 0 <= m < |s| ==> (s + [x])[m] == s[m];
  }

  lemma {:induction false} FirstOfFilter<T>(s: seq<T>, p: T -> bool)
    requires Filter(s, p) != []
    ensures FirstHit(s, p) < |s| && s[FirstHit(s, p)] == Filter(s, p)[0]
  {
    var k := FirstHit(s, p);
    if p(s[0]) {
      assert k == 0;
    } else {
      FirstOfFilter(s[1..], p);
      assert forall m :: 0 <= m < |s| - 1 ==> s[1..][m] == s[m + 1];
      assert p(s[FirstHit(s[1..], p) + 1]) && k == FirstHit(s[1..], p) + 1;
    }
  }

  lemma {:induction false} FilterAlike<T>(s: seq<T>, p: T -> bool, q: T -> bool)
    requires forall x :: x in s ==> p(x) == q(x)
    ensures Filter(s, p) == Filter(s, q)
  {
    if s != [] {
      assert s[0] in s;
      FilterAlike(s[1..], p, q);
    }
  }

  function FirstRow(q: Query, rows: seq<Row>, g: Group): nat { FirstHit(rows, InGroup(q, g.key)) }

  ghost predicate InAppearance(q: Query, rows: seq<Row>, groups: seq<Group>) {
    && (forall i :: 0 <= i < |groups| ==> FirstRow(q, rows, groups[i]) < |rows|)
    && (forall i, j :: 0 <= i < j < |groups| ==> FirstRow(q, rows, groups[i]) < FirstRow(q, rows, groups[j]))
  }

  lemma FaithfulStarts(q: Query, rows: seq<Row>, g: Group)
    requires Faithful(q, rows, g)
    ensures FirstRow(q, rows, g) < |rows| && g.columns == Columns(rows[FirstRow(q, rows, g)], q.on)
    ensures KeyText(q.show, rows[FirstRow(q, rows, g)], q.on) == g.key
  {
    hide Columns, KeyText;
    FirstOfFilter(rows, InGroup(q, g.key));
  }

  /** The groups stand in the order in which their first rows do. */
  lemma {:induction false} GroupsInAppearance(q: Query, rows: seq<Row>)
    ensures InAppearance(q, rows, GroupRows(q, rows))
  {
    hide KeyText, Faithful, Columns, Amounts, Plus;
    if rows != [] {
      var n := |rows| - 1;
      var init, r := rows[..n], rows[n];
      GroupsInAppearance(q, init);
      GroupsAreFaithful(q, init);
      assert rows == init + [r];
      AppearanceStep(q, init, r, GroupRows(q, init));
    }
  }

  lemma AppearanceStep(q: Query, rows: seq<Row>, r: Row, groups: seq<Group>)
    requires Shaped(q, groups) && Covers(q, rows, groups) && InAppearance(q, rows, groups)
    ensures InAppearance(q, rows + [r], AddRow(q, groups, r))
  {
    hide KeyText, Columns, Amounts, Plus;
    var key, after := KeyText(q.show, r, q.on), AddRow(q, groups, r);
    forall i | 0 <= i < |groups| ensures after[i].key == groups[i].key && FirstRow(q, rows + [r], after[i]) == FirstRow(q, rows, groups[i]) {
      FirstHitAppend(rows, r, InGroup(q, groups[i].key));
    }
    if |after| > |groups| {
      forall o | o in rows ensures !InGroup(q, key)(o) {
        var k :| 0 <= k < |groups| && groups[k].key == KeyText(q.show, o, q.on);
        assert !WithKey(key)(groups[k]);
      }
      FirstHitAppend(rows, r, InGroup(q, key));
    }
  }

  ghost function Starts(q: Query, rows: seq<Row>, groups: seq<Group>): (at: seq<nat>)
    ensures |at| == |groups|
  {
    seq(|groups|, i requires 0 <= i < |groups| => FirstRow(q, rows, groups[i]))
  }

  lemma GroupIsOfRow(q: Query, rows: seq<Row>, g: Group)
    requires (forall r :: r in rows ==> Plain(q, r)) && Faithful(q, rows, g)
    ensures FirstRow(q, rows, g) < |rows| && GroupOfRow(q, rows, rows[FirstRow(q, rows, g)], g)
  {
    hide Plain, SameTuple, KeyText;
    FaithfulStarts(q, rows, g);
    var first := rows[FirstRow(q, rows, g)];
    forall b | b in rows ensures LikeRow(q, first)(b) == InGroup(q, g.key)(b) {
      SameKeyIff(q, first, b);
    }
    FilterAlike(rows, LikeRow(q, first), InGroup(q, g.key));
  }

  /** No row before n is like row n exactly when row n is the first of its key. */
  lemma FirstOfItsKind(q: Query, rows: seq<Row>, n: nat)
    requires n < |rows| && forall r :: r in rows ==> Plain(q, r)
    ensures (forall m :: 0 <= m < n ==> !SameTuple(q, rows[m], rows[n])) <==> FirstHit(rows, InGroup(q, KeyText(q.show, rows[n], q.on))) == n
  {
    hide Plain, SameTuple, KeyText;
    var p := InGroup(q, KeyText(q.show, rows[n], q.on));
    forall m | 0 <= m < n ensures SameTuple(q, rows[m], rows[n]) <==> p(rows[m]) {
      SameKeyIff(q, rows[m], rows[n]);
    }
    assert p(rows[n]);
  }

  lemma StartsAreFirsts(q: Query, rows: seq<Row>, groups: seq<Group>, n: nat)
    requires (forall r :: r in rows ==> Plain(q, r)) && Covers(q, rows, groups) && InAppearance(q, rows, groups)
    ensures n in Starts(q, rows, groups) <==> n < |rows| && forall m :: 0 <= m < n ==> !SameTuple(q, rows[m], rows[n])
  {
    hide Plain, SameTuple, KeyText;
    var at := Starts(q, rows, groups);
    if n < |rows| {
      FirstOfItsKind(q, rows, n);
      var i :| 0 <= i < |groups| && groups[i].key == KeyText(q.show, rows[n], q.on);
      assert at[i] == FirstHit(rows, InGroup(q, KeyText(q.show, rows[n], q.on)));
    }
    if n in at {
      var i :| 0 <= i < |at| && at[i] == n;
      assert InGroup(q, groups[i].key)(rows[n]);
    }
  }

  lemma {:induction false} CountOfDistinct<T>(s: seq<T>, u: set<T>)
    requires (forall i, j :: 0 <= i < j < |s| ==> s[i] != s[j]) && (forall x :: x in s <==> x in u)
    ensures |s| == |u|
  {
    if s != [] {
      assert forall x :: x in s <==> x == s[0] || x in s[1..];
      CountOfDistinct(s[1..], u - {s[0]});
    } else {
      assert u == {};
    }
  }

  lemma StartsCountTuples(q: Query, rows: seq<Row>, at: seq<nat>)
    requires AreFirsts(q, rows, at) && forall r :: r in rows ==> Plain(q, r)
    ensures |at| == |set r | r in rows :: TupleOf(q, r)|
  {
    hide Plain, SameTuple, TupleOf;
    var tuples := seq(|at|, i requires 0 <= i < |at| => TupleOf(q, rows[at[i]]));
    forall i, j | 0 <= i < j < |tuples| ensures tuples[i] != tuples[j] {
      assert at[j] in at && !SameTuple(q, rows[at[i]], rows[at[j]]);
      SameKeyIff(q, rows[at[i]], rows[at[j]]);
    }
    forall n: nat | n < |rows| ensures TupleOf(q, rows[n]) in tuples {
      var i := StartOf(q, rows, at, n);
      SameKeyIff(q, rows[at[i]], rows[n]);
      assert tuples[i] == TupleOf(q, rows[n]);
    }
    var u := set r | r in rows :: TupleOf(q, r);
    forall x ensures x in tuples <==> x in u {
      if x in u {
        var r :| r in rows && TupleOf(q, r) == x;
        var n: nat :| n < |rows| && rows[n] == r;
      }
      if x in tuples {
        var i :| 0 <= i < |tuples| && tuples[i] == x;
        assert rows[at[i]] in rows;
      }
    }
    CountOfDistinct(tuples, u);
  }

  lemma GroupsMeanColumns(q: Query, rows: seq<Row>)
    requires forall r :: r in rows ==> Plain(q, r)
    ensures GroupsByColumns(q, rows, GroupRows(q, rows))
  {
    hide Plain, KeyText, Faithful, GroupOfRow, GroupRows, Covers, TupleOf, AreFirsts, InAppearance;
    var groups := GroupRows(q, rows);
    GroupsAreFaithful(q, rows);
    GroupsInAppearance(q, rows);
    var at := Starts(q, rows, groups);
    StartsAreAllFirsts(q, rows, groups);
    StartsInRange(q, rows, groups);
    forall i | 0 <= i < |at| ensures GroupOfRow(q, rows, rows[at[i]], groups[i]) {
      GroupIsOfRow(q, rows, groups[i]);
    }
    StartsCountTuples(q, rows, at);
  }

  lemma StartsInRange(q: Query, rows: seq<Row>, groups: seq<Group>)
    requires InAppearance(q, rows, groups)
    ensures forall i :: 0 <= i < |groups| ==> Starts(q, rows, groups)[i] < |rows|
  {}

  lemma StartsAreAllFirsts(q: Query, rows: seq<Row>, groups: seq<Group>)
    requires (forall r :: r in rows ==> Plain(q, r)) && Covers(q, rows, groups) && InAppearance(q, rows, groups)
    ensures AreFirsts(q, rows, Starts(q, rows, groups))
  {
    hide Plain, SameTuple, KeyText, Covers;
    forall n: nat ensures n in Starts(q, rows, groups) <==> n < |rows| && forall m :: 0 <= m < n ==> !SameTuple(q, rows[m], rows[n]) {
      StartsAreFirsts(q, rows, groups, n);
    }
  }

  /** The columns of the group are those of the row. */
  ghost predicate Holds(q: Query, g: Group, r: Row) {
    |g.columns| == |q.on| && forall k :: 0 <= k < |q.on| ==> Alike(q.show, g.columns[k], Column(r, q.on[k]))
  }

  ghost function HeldBy(q: Query, g: Group): Row -> bool {
    (r: Row) => Holds(q, g, r)
  }

  lemma HoldsIff(q: Query, rows: seq<Row>, first: Row, g: Group, r: Row)
    requires GroupOfRow(q, rows, first, g)
    ensures Holds(q, g, r) <==> SameTuple(q, first, r)
  {
    hide Alike;
    if Holds(q, g, r) {
      forall k | k in q.on ensures Alike(q.show, Column(first, k), Column(r, k)) {
        var i :| 0 <= i < |q.on| && q.on[i] == k;
        assert Alike(q.show, g.columns[i], Column(r, q.on[i]));
      }
    }
  }

  /** Every row is counted in exactly one group, the one whose columns it has. */
  lemma EachRowInOneGroup(q: Query, rows: seq<Row>, i: nat, r: Row)
    requires (forall o :: o in rows ==> Plain(q, o)) && r in rows
    ensures var groups := GroupRows(q, rows);
      && (exists j :: 0 <= j < |groups| && Holds(q, groups[j], r))
      && (i < |groups| ==> groups[i].count == |Filter(rows, HeldBy(q, groups[i]))|)
      && (forall j :: i < j < |groups| ==> !(Holds(q, groups[i], r) && Holds(q, groups[j], r)))
  {
    hide Plain, GroupRows, Holds, SameTuple, GroupOfRow, AreFirsts, TupleOf;
    var groups := GroupRows(q, rows);
    GroupsMeanColumns(q, rows);
    var at := FirstRows(q, rows, groups);
    var n: nat :| n < |rows| && rows[n] == r;
    var j := StartOf(q, rows, at, n);
    HoldsIff(q, rows, rows[at[j]], groups[j], r);
    if i < |groups| {
      forall o | o in rows ensures HeldBy(q, groups[i])(o) == LikeRow(q, rows[at[i]])(o) {
        HoldsIff(q, rows, rows[at[i]], groups[i], o);
      }
      FilterAlike(rows, HeldBy(q, groups[i]), LikeRow(q, rows[at[i]]));
      assert groups[i].count == |Filter(rows, LikeRow(q, rows[at[i]]))| by { CountOfRow(q, rows, rows[at[i]], groups[i]); }
      forall k | i < k < |groups| ensures !(Holds(q, groups[i], r) && Holds(q, groups[k], r)) {
        HoldsIff(q, rows, rows[at[i]], groups[i], r);
        HoldsIff(q, rows, rows[at[k]], groups[k], r);
        FirstsDiffer(q, rows, at, i, k);
        SameKeyIff(q, rows[at[i]], r);
        SameKeyIff(q, rows[at[k]], r);
        SameKeyIff(q, rows[at[i]], rows[at[k]]);
      }
    }
  }

  lemma FirstRows(q: Query, rows: seq<Row>, groups: seq<Group>) returns (at: seq<nat>)
    requires GroupsByColumns(q, rows, groups)
    ensures |at| == |groups| && AreFirsts(q, rows, at)
    ensures forall i :: 0 <= i < |at| ==> at[i] < |rows| && GroupOfRow(q, rows, rows[at[i]], groups[i])
  {
    at :| |at| == |groups| && AreFirsts(q, rows, at) && forall i :: 0 <= i < |at| ==> GroupOfRow(q, rows, rows[at[i]], groups[i]);
  }

  lemma CountOfRow(q: Query, rows: seq<Row>, first: Row, g: Group)
    requires GroupOfRow(q, rows, first, g)
    ensures g.count == |Filter(rows, LikeRow(q, first))|
  {}

  lemma FirstsDiffer(q: Query, rows: seq<Row>, at: seq<nat>, i: nat, k: nat)
    requires AreFirsts(q, rows, at) && i < k < |at|
    ensures !SameTuple(q, rows[at[i]], rows[at[k]])
  {
    hide SameTuple;
    assert at[k] in at;
  }

  lemma {:induction false} StartOf(q: Query, rows: seq<Row>, at: seq<nat>, n: nat) returns (i: nat)
    requires n < |rows| && AreFirsts(q, rows, at) && forall r :: r in rows ==> Plain(q, r)
    ensures i < |at| && at[i] < |rows| && SameTuple(q, rows[at[i]], rows[n])
    decreases n
  {
    hide Plain, SameTuple, KeyText;
    if n in at {
      i :| 0 <= i < |at| && at[i] == n;
      SameKeyIff(q, rows[n], rows[n]);
    } else {
      var m :| 0 <= m < n && SameTuple(q, rows[m], rows[n]);
      i := StartOf(q, rows, at, m);
      SameKeyIff(q, rows[m], rows[n]);
      SameKeyIff(q, rows[at[i]], rows[m]);
      SameKeyIff(q, rows[at[i]], rows[n]);
    }
  }
}
