/**
 * Cross-post targets: the picker's selection (components/content/cross-targets.tsx:73-92)
 * and the composer's reconciliation with the server (components/content/composer.tsx:150,
 * 359-374).
 */
module CrossPosting {
  import opened Lists

  datatype Network = Facebook | Threads | YouTube | Telegram

  const TARGET_NETWORKS := [Facebook, Threads, YouTube, Telegram]

  datatype Selection = Selection(facebook: seq<string>, threads: seq<string>, youtube: seq<string>, telegram: seq<string>) {
    function Get(n: Network): seq<string> {
      match n
      case Facebook => facebook
      case Threads => threads
      case YouTube => youtube
      case Telegram => telegram
    }

    function With(n: Network, list: seq<string>): (s: Selection)
      ensures forall m :: s.Get(m) == if m == n then list else Get(m)
    {
      match n
      case Facebook => this.(facebook := list)
      case Threads => this.(threads := list)
      case YouTube => this.(youtube := list)
      case Telegram => this.(telegram := list)
    }
  }

  const NOTHING := Selection([], [], [], [])

  lemma SameEverywhere(a: Selection, b: Selection)
    requires forall n :: a.Get(n) == b.Get(n)
    ensures a == b
  {
    assert a.Get(Facebook) == b.Get(Facebook) && a.Get(Threads) == b.Get(Threads);
    assert a.Get(YouTube) == b.Get(YouTube) && a.Get(Telegram) == b.Get(Telegram);
  }

  // ---------------------------------------------------------------- the "same" test

  /** `before.length === now.length && before.every((x) => now.includes(x))` */
  predicate Same(before: seq<string>, now: seq<string>) {
    |before| == |now| && forall i :: 0 <= i < |before| ==> before[i] in now
  }

  predicate NoRepeats(s: seq<string>) {
    forall i, j :: 0 <= i < j < |s| ==> s[i] != s[j]
  }

  function Members(s: seq<string>): set<string> { set x | x in s }

  lemma {:induction false} DistinctCount(s: seq<string>)
    ensures |Members(s)| <= |s|
    ensures NoRepeats(s) ==> |Members(s)| == |s|
  {
    if s != [] {
      var t := s[..|s| - 1];
      DistinctCount(t);
      assert s == t + [s[|s| - 1]];
      assert Members(s) == Members(t) + {s[|s| - 1]};
      if NoRepeats(s) {
        assert s[|s| - 1] !in Members(t);
      }
    }
  }

  /** Pigeonhole: on a list without repeats the test is equality of the two sets. */
  lemma SameIsSetEqualityIff(before: seq<string>, now: seq<string>)
    requires NoRepeats(before) && NoRepeats(now)
    ensures Same(before, now) <==> Members(before) == Members(now)
  {
    DistinctCount(before);
    DistinctCount(now);
    if Same(before, now) {
      forall x | x in Members(before) ensures x in Members(now) {
        var i :| 0 <= i < |before| && before[i] == x;
      }
      SubsetOfSameSize(Members(before), Members(now));
    } else if Members(before) == Members(now) {
      forall i | 0 <= i < |before| ensures before[i] in now {
        assert before[i] in Members(before);
      }
    }
  }

  lemma SubsetOfSameSize(a: set<string>, b: set<string>)
    requires a <= b && |a| == |b|
    ensures a == b
  {
    assert b == a + (b - a);
    assert |b| == |a| + |b - a|;
  }

  /** With a repeat the test passes over a difference. */
  lemma RepeatsFoolTheTest(x: string, y: string)
    requires x != y
    ensures Same([x, x], [x, y]) && Members([x, x]) != Members([x, y])
  {
    assert y in [x, y] && y !in [x, x];
    assert y in Members([x, y]) && y !in Members([x, x]);
  }

  // ---------------------------------------------------------------- the picker

  /** The chips that are on, besides Instagram, and the accounts chosen in each. */
  datatype Picker = Picker(networks: seq<Network>, value: Selection)

  function IsNot<T(==)>(x: T): T -> bool { (y: T) => y != x }

  /** `accounts` are those of the network; a blocked network does not pick its only account. */
  function ToggleNetwork(p: Picker, n: Network, accounts: seq<string>, blocked: bool): Picker {
    if n in p.networks then Picker(Filter(p.networks, IsNot(n)), p.value.With(n, []))
    else Picker(p.networks + [n], if |accounts| == 1 && !blocked then p.value.With(n, [accounts[0]]) else p.value)
  }

  function ToggleAccount(p: Picker, n: Network, id: string): Picker {
    var list := p.value.Get(n);
    p.(value := p.value.With(n, if id in list then Filter(list, IsNot(id)) else list + [id]))
  }

  predicate Distinct(s: Selection) {
    NoRepeats(s.facebook) && NoRepeats(s.threads) && NoRepeats(s.youtube) && NoRepeats(s.telegram)
  }

  lemma DistinctGet(s: Selection)
    ensures Distinct(s) <==> forall n :: NoRepeats(s.Get(n))
  {
    assert s.Get(Facebook) == s.facebook && s.Get(Threads) == s.threads;
    assert s.Get(YouTube) == s.youtube && s.Get(Telegram) == s.telegram;
  }

  /** No repeats anywhere, and nothing chosen in a network that is off. */
  ghost predicate PickerOk(p: Picker) {
    forall n :: NoRepeats(p.value.Get(n)) && (n !in p.networks ==> p.value.Get(n) == [])
  }

  lemma {:induction false} FilterKeepsNoRepeats(s: seq<string>, p: string -> bool)
    requires NoRepeats(s)
    ensures NoRepeats(Filter(s, p))
  {
    if s != [] {
      FilterKeepsNoRepeats(s[1..], p);
      FilterMembers(s[1..], p);
      var t := Filter(s[1..], p);
      forall i | 0 <= i < |t| ensures t[i] != s[0] {
        assert t[i] in t;
        var j :| 0 <= j < |s[1..]| && s[1..][j] == t[i];
        assert s[0] != s[j + 1];
      }
    }
  }

  lemma ToggleNetworkOk(p: Picker, n: Network, accounts: seq<string>, blocked: bool)
    requires PickerOk(p)
    ensures PickerOk(ToggleNetwork(p, n, accounts, blocked))
  {
    hide Filter;
    var q := ToggleNetwork(p, n, accounts, blocked);
    FilterMembers(p.networks, IsNot(n));
    forall m ensures NoRepeats(q.value.Get(m)) && (m !in q.networks ==> q.value.Get(m) == []) {
      if m != n {
        assert m in q.networks <==> m in p.networks;
        assert q.value.Get(m) == p.value.Get(m);
      }
    }
  }

  /** Only the accounts of a chip that is on are shown. */
  lemma ToggleAccountOk(p: Picker, n: Network, id: string)
    requires PickerOk(p) && n in p.networks
    ensures PickerOk(ToggleAccount(p, n, id))
    ensures ToggleAccount(p, n, id).value.Get(n) != p.value.Get(n)
  {
    FilterKeepsNoRepeats(p.value.Get(n), IsNot(id));
    FilterMembers(p.value.Get(n), IsNot(id));
  }

  /** A chip that goes off loses its accounts; one that goes on picks its only account; no other network changes. */
  lemma ToggleNetworkMeans(p: Picker, n: Network, accounts: seq<string>, blocked: bool, m: Network)
    ensures var q := ToggleNetwork(p, n, accounts, blocked);
      && (m in q.networks <==> if m == n then n !in p.networks else m in p.networks)
      && q.value.Get(m) ==
           if m != n then p.value.Get(m)
           else if n in p.networks then []
           else if |accounts| == 1 && !blocked then accounts
           else p.value.Get(m)
  {
    FilterMembers(p.networks, IsNot(n));
    assert |accounts| == 1 ==> accounts == [accounts[0]];
  }

  /** The account is taken back if it was chosen and chosen if it was not; every other choice stays. */
  lemma ToggleAccountMeans(p: Picker, n: Network, id: string, m: Network, other: string)
    ensures var q := ToggleAccount(p, n, id);
      && q.networks == p.networks
      && (m != n ==> q.value.Get(m) == p.value.Get(m))
      && (id in q.value.Get(n) <==> id !in p.value.Get(n))
      && (other != id ==> (other in q.value.Get(n) <==> other in p.value.Get(n)))
      && ToggleAccount(q, n, id).value.Get(n) == if id in p.value.Get(n) then q.value.Get(n) + [id] else p.value.Get(n)
  {
    var list := p.value.Get(n);
    FilterMembers(list, IsNot(id));
    if id !in list {
      FilterAppend(list, [id], IsNot(id));
      AllAreNot(list, id);
      assert Filter([id], IsNot(id)) == [];
    }
  }

  lemma {:induction false} AllAreNot(list: seq<string>, id: string)
    requires id !in list
    ensures Filter(list, IsNot(id)) == list
  {
    if list != [] {
      AllAreNot(list[1..], id);
    }
  }

  // ---------------------------------------------------------------- reconciliation

  /** A request is accepted, refused without effect, or committed with its reply lost. */
  datatype Answer = Accepted | Refused | Dropped

  /**
   * `remembered` is `crossSaved.current`; `acked` what the server last acknowledged for
   * this post and `actual` what it holds; `sent` the networks written to.
   */
  datatype Sync = Sync(remembered: Selection, acked: Selection, actual: Selection, sent: seq<Network>, problem: Option<Network>)

  function SaveFrom(s: Sync, cross: Selection, networks: seq<Network>, answers: Network -> Answer): Sync
    decreases |networks|
  {
    if networks == [] then s.(problem := None)
    else
      var n := networks[0];
      var list := cross.Get(n);
      if Same(s.remembered.Get(n), list) then SaveFrom(s, cross, networks[1..], answers)
      else match answers(n)
        case Refused => s.(sent := s.sent + [n], problem := Some(n))
        case Dropped => s.(actual := s.actual.With(n, list), sent := s.sent + [n], problem := Some(n))
        case Accepted =>
          SaveFrom(s.(remembered := s.remembered.With(n, list), acked := s.acked.With(n, list), actual := s.actual.With(n, list), sent := s.sent + [n]),
                   cross, networks[1..], answers)
  }

  /** `loaded`: an existing post whose targets could not be read remembers nothing and sends nothing. */
  function SaveCross(s: Sync, cross: Selection, loaded: bool, story: bool, answers: Network -> Answer): Sync {
    if !loaded || story then s.(problem := None) else SaveFrom(s, cross, TARGET_NETWORKS, answers)
  }

  /** An object whose lists are replaced in place; the module's EMPTY_CROSS is one. */
  class SelectionCell {
    var lists: Selection

    constructor (lists: Selection)
      ensures this.lists == lists
    {
      this.lists := lists;
    }
  }

  /** The composer's side of cross-posting, and the server's record of one post. */
  class CrossSaver {
    const crossSaved: SelectionCell
    ghost var acked: Selection
    ghost var actual: Selection

    ghost function State(sent: seq<Network>, problem: Option<Network>): Sync
      reads this, crossSaved
    {
      Sync(crossSaved.lists, acked, actual, sent, problem)
    }

    /** A composer for a new post: `useRef(EMPTY_CROSS)` keeps the constant itself. */
    constructor ForNewPost(emptyCross: SelectionCell)
      ensures crossSaved == emptyCross && acked == NOTHING && actual == NOTHING
    {
      crossSaved := emptyCross;
      acked, actual := NOTHING, NOTHING;
    }

    /** A composer for an existing post starts from an object of its own. */
    constructor ForExistingPost(targets: Selection)
      ensures fresh(crossSaved) && crossSaved.lists == targets && acked == targets && actual == targets
    {
      crossSaved := new SelectionCell(targets);
      acked, actual := targets, targets;
    }

    method Save(cross: Selection, loaded: bool, story: bool, answers: Network -> Answer) returns (problem: Option<Network>, ghost sent: seq<Network>)
      modifies this, crossSaved
      ensures State(sent, problem) == SaveCross(old(State([], None)), cross, loaded, story, answers)
    {
      problem := None;
      sent := [];
      if !loaded || story {
        return;
      }
      var k := 0;
      while k < |TARGET_NETWORKS|
        invariant k <= |TARGET_NETWORKS| && problem == None
        invariant SaveFrom(State(sent, None), cross, TARGET_NETWORKS[k..], answers)
          == SaveFrom(old(State([], None)), cross, TARGET_NETWORKS, answers)
      {
        var n := TARGET_NETWORKS[k];
        assert TARGET_NETWORKS[k..][0] == n && TARGET_NETWORKS[k..][1..] == TARGET_NETWORKS[k + 1..];
        if !Same(crossSaved.lists.Get(n), cross.Get(n)) {
          var answer := answers(n);
          sent := sent + [n];
          if answer != Refused {
            actual := actual.With(n, cross.Get(n));
          }
          if answer != Accepted {
            problem := Some(n);
            return;
          }
          acked := acked.With(n, cross.Get(n));
          crossSaved.lists := crossSaved.lists.With(n, cross.Get(n));
        }
        k := k + 1;
      }
    }
  }

  // ---------------------------------------------------------------- what reconciliation keeps

  ghost predicate Synced(s: Sync, cross: Selection, networks: seq<Network>) {
    forall n :: n in networks ==> Same(s.remembered.Get(n), cross.Get(n))
  }

  lemma {:induction false} UntouchedNetworks(s: Sync, cross: Selection, networks: seq<Network>, answers: Network -> Answer, n: Network)
    requires n !in networks
    ensures var t := SaveFrom(s, cross, networks, answers);
      t.remembered.Get(n) == s.remembered.Get(n) && t.acked.Get(n) == s.acked.Get(n) && t.actual.Get(n) == s.actual.Get(n)
    decreases |networks|
  {
    if networks != [] {
      var m := networks[0];
      if Same(s.remembered.Get(m), cross.Get(m)) {
        UntouchedNetworks(s, cross, networks[1..], answers, n);
      } else if answers(m) == Accepted {
        var list := cross.Get(m);
        UntouchedNetworks(s.(remembered := s.remembered.With(m, list), acked := s.acked.With(m, list), actual := s.actual.With(m, list), sent := s.sent + [m]),
                          cross, networks[1..], answers, n);
      }
    }
  }

  /** The remembered selection stays what the server last acknowledged, whatever fails. */
  lemma {:induction false} RememberedStaysAcknowledged(s: Sync, cross: Selection, networks: seq<Network>, answers: Network -> Answer)
    requires s.remembered == s.acked
    ensures var t := SaveFrom(s, cross, networks, answers);
      t.remembered == t.acked && (s.acked == s.actual && t.problem.None? ==> t.acked == t.actual)
    decreases |networks|
  {
    if networks != [] {
      var m := networks[0];
      if Same(s.remembered.Get(m), cross.Get(m)) {
        RememberedStaysAcknowledged(s, cross, networks[1..], answers);
      } else if answers(m) == Accepted {
        var list := cross.Get(m);
        RememberedStaysAcknowledged(s.(remembered := s.remembered.With(m, list), acked := s.acked.With(m, list), actual := s.actual.With(m, list), sent := s.sent + [m]),
                                    cross, networks[1..], answers);
      }
    }
  }

  ghost predicate DistinctNetworks(networks: seq<Network>) {
    forall i, j :: 0 <= i < j < |networks| ==> networks[i] != networks[j]
  }

  lemma SameIsReflexive(s: seq<string>)
    ensures Same(s, s)
  {}

  /**
   * No problem means every network matches; a problem at network k leaves the networks
   * before it matching, so saving the same selection again sends nothing to them.
   */
  lemma {:induction false} FailureLeavesSyncedPrefix(s: Sync, cross: Selection, networks: seq<Network>, answers: Network -> Answer)
    requires DistinctNetworks(networks)
    ensures var t := SaveFrom(s, cross, networks, answers);
      && (t.problem.None? ==> Synced(t, cross, networks))
      && (t.problem.Some? ==> exists k :: 0 <= k < |networks| && networks[k] == t.problem.value && Synced(t, cross, networks[..k]))
      && s.sent <= t.sent
    decreases |networks|
  {
    if networks != [] {
      var m, rest := networks[0], networks[1..];
      var list := cross.Get(m);
      if Same(s.remembered.Get(m), list) {
        FailureLeavesSyncedPrefix(s, cross, rest, answers);
        UntouchedNetworks(s, cross, rest, answers, m);
        PrefixGrows(SaveFrom(s, cross, rest, answers), cross, networks);
      } else if answers(m) == Accepted {
        var u := s.(remembered := s.remembered.With(m, list), acked := s.acked.With(m, list), actual := s.actual.With(m, list), sent := s.sent + [m]);
        FailureLeavesSyncedPrefix(u, cross, rest, answers);
        UntouchedNetworks(u, cross, rest, answers, m);
        SameIsReflexive(list);
        PrefixGrows(SaveFrom(u, cross, rest, answers), cross, networks);
      } else {
        assert Synced(SaveFrom(s, cross, networks, answers), cross, networks[..0]);
      }
    }
  }

  lemma PrefixGrows(t: Sync, cross: Selection, networks: seq<Network>)
    requires networks != [] && Same(t.remembered.Get(networks[0]), cross.Get(networks[0]))
    ensures Synced(t, cross, networks[1..]) ==> Synced(t, cross, networks)
    ensures forall k :: 0 <= k < |networks[1..]| && Synced(t, cross, networks[1..][..k]) ==> Synced(t, cross, networks[..k + 1])
  {
    forall n | n in networks ensures n == networks[0] || n in networks[1..] {}
    forall k | 0 <= k < |networks[1..]| && Synced(t, cross, networks[1..][..k]) ensures Synced(t, cross, networks[..k + 1]) {
      assert networks[..k + 1] == [networks[0]] + networks[1..][..k];
    }
  }

  /** Networks that match at the start are not written to. */
  lemma {:induction false} MatchingIsNotResent(s: Sync, cross: Selection, networks: seq<Network>, answers: Network -> Answer, n: Network)
    requires Same(s.remembered.Get(n), cross.Get(n)) && n !in s.sent
    ensures n !in SaveFrom(s, cross, networks, answers).sent
    decreases |networks|
  {
    if networks != [] {
      var m := networks[0];
      if Same(s.remembered.Get(m), cross.Get(m)) {
        MatchingIsNotResent(s, cross, networks[1..], answers, n);
      } else if answers(m) == Accepted {
        var list := cross.Get(m);
        MatchingIsNotResent(s.(remembered := s.remembered.With(m, list), acked := s.acked.With(m, list), actual := s.actual.With(m, list), sent := s.sent + [m]),
                            cross, networks[1..], answers, n);
      }
    }
  }

  /** A story, or a post whose targets could not be read, sends nothing and reports nothing. */
  lemma NothingIsSentIff(s: Sync, cross: Selection, loaded: bool, story: bool, answers: Network -> Answer)
    requires s.sent == []
    ensures SaveCross(s, cross, loaded, story, answers).sent == []
      <==> !loaded || story || forall n :: Same(s.remembered.Get(n), cross.Get(n))
    ensures !loaded || story ==> SaveCross(s, cross, loaded, story, answers) == s.(problem := None)
  {
    hide Same;
    TargetsAreDistinct();
    if loaded && !story {
      SentIff(s, cross, TARGET_NETWORKS, answers);
    }
  }

  lemma {:induction false} SentIff(s: Sync, cross: Selection, networks: seq<Network>, answers: Network -> Answer)
    ensures SaveFrom(s, cross, networks, answers).sent == s.sent <==> forall n :: n in networks ==> Same(s.remembered.Get(n), cross.Get(n))
    ensures |SaveFrom(s, cross, networks, answers).sent| >= |s.sent|
    decreases |networks|
  {
    hide Same;
    if networks != [] {
      var m, list := networks[0], cross.Get(networks[0]);
      assert m in networks && forall n :: n in networks <==> n == m || n in networks[1..];
      if Same(s.remembered.Get(m), list) {
        SentIff(s, cross, networks[1..], answers);
      } else if answers(m) == Accepted {
        SentIff(s.(remembered := s.remembered.With(m, list), acked := s.acked.With(m, list), actual := s.actual.With(m, list), sent := s.sent + [m]),
                cross, networks[1..], answers);
      }
    }
  }

  /** Saving the same selection again after a failure starts at the network that failed. */
  lemma RetrySkipsSyncedPrefix(s: Sync, cross: Selection, answers: Network -> Answer, again: Network -> Answer)
    requires SaveCross(s, cross, true, false, answers).problem.Some?
    ensures var t := SaveCross(s, cross, true, false, answers);
      exists k :: 0 <= k < |TARGET_NETWORKS| && TARGET_NETWORKS[k] == t.problem.value
        && forall n :: n in TARGET_NETWORKS[..k] ==> n !in SaveCross(t.(sent := []), cross, true, false, again).sent
  {
    hide SaveFrom, Same;
    var t := SaveCross(s, cross, true, false, answers);
    FailureLeavesSyncedPrefix(s, cross, TARGET_NETWORKS, answers);
    var k :| 0 <= k < |TARGET_NETWORKS| && TARGET_NETWORKS[k] == t.problem.value && Synced(t, cross, TARGET_NETWORKS[..k]);
    forall n | n in TARGET_NETWORKS[..k] ensures n !in SaveCross(t.(sent := []), cross, true, false, again).sent {
      MatchingIsNotResent(t.(sent := []), cross, TARGET_NETWORKS, again, n);
    }
  }

  /** A null result: for every network the server has acknowledged exactly the chosen accounts. */
  lemma NullResultMeansMatching(s: Sync, cross: Selection, answers: Network -> Answer, n: Network)
    requires s.remembered == s.acked && Distinct(s.remembered) && Distinct(cross)
    requires SaveCross(s, cross, true, false, answers).problem.None?
    ensures Members(SaveCross(s, cross, true, false, answers).acked.Get(n)) == Members(cross.Get(n))
  {
    var t := SaveCross(s, cross, true, false, answers);
    RememberedStaysAcknowledged(s, cross, TARGET_NETWORKS, answers);
    FailureLeavesSyncedPrefix(s, cross, TARGET_NETWORKS, answers);
    TargetsAreDistinct();
    StaysDistinct(s, cross, TARGET_NETWORKS, answers);
    DistinctGet(t.remembered);
    DistinctGet(cross);
    SameIsSetEqualityIff(t.remembered.Get(n), cross.Get(n));
  }

  lemma {:induction false} StaysDistinct(s: Sync, cross: Selection, networks: seq<Network>, answers: Network -> Answer)
    requires Distinct(s.remembered) && Distinct(cross)
    ensures Distinct(SaveFrom(s, cross, networks, answers).remembered)
    decreases |networks|
  {
    DistinctGet(s.remembered);
    DistinctGet(cross);
    if networks != [] {
      var m := networks[0];
      var list := cross.Get(m);
      if Same(s.remembered.Get(m), list) {
        StaysDistinct(s, cross, networks[1..], answers);
      } else if answers(m) == Accepted {
        DistinctGet(s.remembered.With(m, list));
        StaysDistinct(s.(remembered := s.remembered.With(m, list), acked := s.acked.With(m, list), actual := s.actual.With(m, list), sent := s.sent + [m]),
                      cross, networks[1..], answers);
      }
    }
  }

  // ---------------------------------------------------------------- runs of saves

  /** What one save does to one network: nothing unless it writes to it; then as the reply says. */
  lemma {:induction false} SaveEffect(s: Sync, cross: Selection, networks: seq<Network>, answers: Network -> Answer, n: Network)
    requires DistinctNetworks(networks) && n !in s.sent
    ensures var t := SaveFrom(s, cross, networks, answers);
      && t.actual.Get(n) == (if n in t.sent && answers(n) != Refused then cross.Get(n) else s.actual.Get(n))
      && t.acked.Get(n) == (if n in t.sent && answers(n) == Accepted then cross.Get(n) else s.acked.Get(n))
    decreases |networks|
  {
    if networks != [] {
      var m, rest := networks[0], networks[1..];
      var list := cross.Get(m);
      if Same(s.remembered.Get(m), list) {
        SaveEffect(s, cross, rest, answers, n);
      } else if answers(m) == Accepted {
        var u := s.(remembered := s.remembered.With(m, list), acked := s.acked.With(m, list), actual := s.actual.With(m, list), sent := s.sent + [m]);
        if m == n {
          assert n !in rest;
          UntouchedNetworks(u, cross, rest, answers, n);
          SentStays(u, cross, rest, answers, n);
        } else {
          SaveEffect(u, cross, rest, answers, n);
        }
      }
    }
  }

  lemma {:induction false} SentStays(s: Sync, cross: Selection, networks: seq<Network>, answers: Network -> Answer, n: Network)
    requires n in s.sent
    ensures n in SaveFrom(s, cross, networks, answers).sent
    decreases |networks|
  {
    if networks != [] {
      var m := networks[0];
      var list := cross.Get(m);
      if Same(s.remembered.Get(m), list) {
        SentStays(s, cross, networks[1..], answers, n);
      } else if answers(m) == Accepted {
        SentStays(s.(remembered := s.remembered.With(m, list), acked := s.acked.With(m, list), actual := s.actual.With(m, list), sent := s.sent + [m]),
                  cross, networks[1..], answers, n);
      }
    }
  }

  /** One save of a run: the selection and the replies it would get. */
  datatype SaveCall = SaveCall(cross: Selection, story: bool, answers: Network -> Answer)

  function AfterSave(s: Sync, c: SaveCall): Sync { SaveCross(s.(sent := []), c.cross, true, c.story, c.answers) }

  function AfterSaves(s: Sync, calls: seq<SaveCall>): Sync
    decreases |calls|
  {
    if calls == [] then s else AfterSaves(AfterSave(s, calls[0]), calls[1..])
  }

  /** The accounts of n in the last write whose reply was lost, if no accepted write came after it. */
  function LostWrite(s: Sync, calls: seq<SaveCall>, n: Network, lost: Option<seq<string>>): Option<seq<string>>
    decreases |calls|
  {
    if calls == [] then lost
    else
      var c, t := calls[0], AfterSave(s, calls[0]);
      LostWrite(t, calls[1..], n,
                if n !in t.sent || c.answers(n) == Refused then lost
                else if c.answers(n) == Accepted then None else Some(c.cross.Get(n)))
  }

  ghost predicate Tracks(s: Sync, n: Network, lost: Option<seq<string>>) {
    s.actual.Get(n) == if lost.None? then s.acked.Get(n) else lost.value
  }

  lemma TargetsAreDistinct()
    ensures DistinctNetworks(TARGET_NETWORKS)
    ensures forall n :: n in TARGET_NETWORKS
  {
    forall n ensures n in TARGET_NETWORKS {
      match n
      case Facebook => assert TARGET_NETWORKS[0] == n;
      case Threads => assert TARGET_NETWORKS[1] == n;
      case YouTube => assert TARGET_NETWORKS[2] == n;
      case Telegram => assert TARGET_NETWORKS[3] == n;
    }
  }

  lemma {:induction false} SavesTrack(s: Sync, calls: seq<SaveCall>, n: Network, lost: Option<seq<string>>)
    requires Tracks(s, n, lost) && s.remembered == s.acked
    ensures Tracks(AfterSaves(s, calls), n, LostWrite(s, calls, n, lost)) && AfterSaves(s, calls).remembered == AfterSaves(s, calls).acked
    decreases |calls|
  {
    hide SaveFrom;
    if calls != [] {
      var c, t := calls[0], AfterSave(s, calls[0]);
      TargetsAreDistinct();
      SaveEffect(s.(sent := []), c.cross, TARGET_NETWORKS, c.answers, n);
      RememberedStaysAcknowledged(s.(sent := []), c.cross, TARGET_NETWORKS, c.answers);
      SavesTrack(t, calls[1..], n,
                 if n !in t.sent || c.answers(n) == Refused then lost
                 else if c.answers(n) == Accepted then None else Some(c.cross.Get(n)));
    }
  }

  lemma {:induction false} SavesStayDistinct(s: Sync, calls: seq<SaveCall>)
    requires Distinct(s.remembered) && forall i :: 0 <= i < |calls| ==> Distinct(calls[i].cross)
    ensures Distinct(AfterSaves(s, calls).remembered)
    decreases |calls|
  {
    hide SaveFrom;
    if calls != [] {
      StaysDistinct(s.(sent := []), calls[0].cross, TARGET_NETWORKS, calls[0].answers);
      SavesStayDistinct(AfterSave(s, calls[0]), calls[1..]);
    }
  }

  lemma {:induction false} LastSave(s: Sync, calls: seq<SaveCall>, c: SaveCall)
    ensures AfterSaves(s, calls + [c]) == AfterSave(AfterSaves(s, calls), c)
    decreases |calls|
  {
    hide SaveCross;
    if calls == [] {
      assert calls + [c] == [c] && [c][1..] == [];
    } else {
      assert (calls + [c])[1..] == calls[1..] + [c];
      LastSave(AfterSave(s, calls[0]), calls[1..], c);
    }
  }

  /**
   * After any run of saves that ends with one reporting no problem, the server holds exactly
   * the chosen accounts of a network unless a write to it has lost its reply, no accepted
   * write has come after, and its accounts are others than the chosen ones.
   */
  lemma NullResultReachesServerIff(s: Sync, calls: seq<SaveCall>, last: SaveCall, n: Network)
    requires s.remembered == s.acked == s.actual && Distinct(s.remembered)
    requires (forall i :: 0 <= i < |calls| ==> Distinct(calls[i].cross)) && Distinct(last.cross)
    requires !last.story && AfterSaves(s, calls + [last]).problem.None?
    ensures var lost := LostWrite(s, calls + [last], n, None);
      Members(AfterSaves(s, calls + [last]).actual.Get(n)) == Members(last.cross.Get(n))
      <==> lost.None? || Members(lost.value) == Members(last.cross.Get(n))
  {
    hide SaveFrom, Same, NoRepeats, Members;
    SavesTrack(s, calls, n, None);
    SavesTrack(s, calls + [last], n, None);
    SavesStayDistinct(s, calls);
    LastSave(s, calls, last);
    NullResultMeansMatching(AfterSaves(s, calls).(sent := []), last.cross, last.answers, n);
  }

  /** A write loses its reply, the user takes the account back: nothing is sent, no problem is reported, and the server keeps the account. */
  lemma LostReplyThenTakenBack(account: string)
    ensures var chosen := NOTHING.With(Telegram, [account]); var s := Sync(NOTHING, NOTHING, NOTHING, [], None);
      var t := AfterSaves(s, [SaveCall(chosen, false, _ => Dropped), SaveCall(NOTHING, false, _ => Accepted)]);
      t.problem.None? && t.sent == [] && t.actual == chosen
  {
    var chosen, s := NOTHING.With(Telegram, [account]), Sync(NOTHING, NOTHING, NOTHING, [], None);
    var lose: Network -> Answer := _ => Dropped;
    var accept: Network -> Answer := _ => Accepted;
    var calls := [SaveCall(chosen, false, lose), SaveCall(NOTHING, false, accept)];
    assert TARGET_NETWORKS[1..] == [Threads, YouTube, Telegram] && [Threads, YouTube, Telegram][1..] == [YouTube, Telegram];
    assert [YouTube, Telegram][1..] == [Telegram];
    var t := Sync(NOTHING, NOTHING, chosen, [Telegram], Some(Telegram));
    assert SaveFrom(s, chosen, [Telegram], lose) == t;
    assert SaveFrom(s, chosen, [YouTube, Telegram], lose) == t;
    assert SaveFrom(s, chosen, [Threads, YouTube, Telegram], lose) == t;
    assert AfterSave(s, calls[0]) == t;
    NothingToSend(t.(sent := []), NOTHING, TARGET_NETWORKS, accept);
    assert calls[1..] == [calls[1]] && calls[1..][1..] == [];
    var u := AfterSave(t, calls[1]);
    assert AfterSaves(t, calls[1..]) == u;
  }

  // ---------------------------------------------------------------- the shared constant

  /** Every save that reports no problem leaves the server with exactly the chosen accounts. */
  ghost predicate SavesReachTheServer(shared: Selection) {
    forall cross, answers | Distinct(cross) ::
      var t := SaveCross(Sync(shared, NOTHING, NOTHING, [], None), cross, true, false, answers);
      t.problem.None? ==> forall n :: Members(t.actual.Get(n)) == Members(cross.Get(n))
  }

  /**
   * `shared` is what EMPTY_CROSS holds when a composer for a new post opens. Its saves are
   * reliable exactly when no earlier composer of the page has written to the constant.
   */
  lemma NewPostIsReliableIff(shared: Selection)
    requires Distinct(shared)
    ensures SavesReachTheServer(shared) <==> shared == NOTHING
  {
    hide SaveFrom, Same, NoRepeats, Members;
    var s := Sync(shared, NOTHING, NOTHING, [], None);
    if shared == NOTHING {
      forall cross, answers | Distinct(cross) && SaveCross(s, cross, true, false, answers).problem.None?
        ensures forall n :: Members(SaveCross(s, cross, true, false, answers).actual.Get(n)) == Members(cross.Get(n))
      {
        RememberedStaysAcknowledged(s, cross, TARGET_NETWORKS, answers);
        forall n ensures Members(SaveCross(s, cross, true, false, answers).actual.Get(n)) == Members(cross.Get(n)) {
          NullResultMeansMatching(s, cross, answers, n);
        }
      }
    } else if SavesReachTheServer(shared) {
      var ok: Network -> Answer := _ => Accepted;
      NothingToSend(s, shared, TARGET_NETWORKS, ok);
      assert SaveCross(s, shared, true, false, ok) == s.(problem := None);
      forall n ensures shared.Get(n) == NOTHING.Get(n) {
        assert Members(NOTHING.Get(n)) == Members(shared.Get(n));
        EmptyMembers(NOTHING.Get(n));
        EmptyMembers(shared.Get(n));
      }
      SameEverywhere(shared, NOTHING);
    }
  }

  lemma EmptyMembers(s: seq<string>)
    ensures Members(s) == {} <==> s == []
  {
    if s != [] {
      assert s[0] in Members(s);
    }
  }

  /**
   * Two new posts in one page session with the same accounts: the first save is accepted
   * and writes the constant; the second composer opens with that selection, sends nothing,
   * and reports no problem, while the server has no target for its post.
   */
  method SecondNewPostSendsNothing(emptyCross: SelectionCell, account: string)
    returns (first: CrossSaver, second: CrossSaver, p: Option<Network>, q: Option<Network>, ghost sent: seq<Network>, ghost resent: seq<Network>)
    requires emptyCross.lists == NOTHING
    modifies emptyCross
    ensures fresh(first) && fresh(second) && first.crossSaved == second.crossSaved == emptyCross
    ensures p.None? && sent == [Telegram] && first.actual == NOTHING.With(Telegram, [account])
    ensures emptyCross.lists == NOTHING.With(Telegram, [account])
    ensures q.None? && resent == [] && second.actual == NOTHING
  {
    first := new CrossSaver.ForNewPost(emptyCross);
    var chosen := NOTHING.With(Telegram, [account]);
    ghost var before := first.State([], None);
    p, sent := first.Save(chosen, true, false, _ => Accepted);
    AllAccepted(before, chosen, account);

    second := new CrossSaver.ForNewPost(emptyCross);
    var start := emptyCross.lists;
    ghost var reopened := second.State([], None);
    var ok: Network -> Answer := _ => Accepted;
    NothingToSend(reopened, start, TARGET_NETWORKS, ok);
    q, resent := second.Save(start, true, false, ok);
  }

  lemma AllAccepted(s: Sync, chosen: Selection, account: string)
    requires s == Sync(NOTHING, NOTHING, NOTHING, [], None) && chosen == NOTHING.With(Telegram, [account])
    ensures SaveCross(s, chosen, true, false, _ => Accepted) == Sync(chosen, chosen, chosen, [Telegram], None)
  {
    var ok: Network -> Answer := _ => Accepted;
    assert TARGET_NETWORKS[1..] == [Threads, YouTube, Telegram];
    assert [Threads, YouTube, Telegram][1..] == [YouTube, Telegram];
    assert [YouTube, Telegram][1..] == [Telegram];
    assert [Telegram][1..] == [];
    var t := Sync(chosen, chosen, chosen, [Telegram], None);
    assert SaveFrom(t, chosen, [], ok) == t;
    assert SaveFrom(s, chosen, [Telegram], ok) == t;
    assert SaveFrom(s, chosen, [YouTube, Telegram], ok) == t;
    assert SaveFrom(s, chosen, [Threads, YouTube, Telegram], ok) == t;
    assert SaveFrom(s, chosen, TARGET_NETWORKS, ok) == t;
  }

  lemma {:induction false} NothingToSend(s: Sync, cross: Selection, networks: seq<Network>, answers: Network -> Answer)
    requires s.remembered == cross
    ensures SaveFrom(s, cross, networks, answers) == s.(problem := None)
  {
    if networks != [] {
      SameIsReflexive(cross.Get(networks[0]));
      NothingToSend(s, cross, networks[1..], answers);
    }
  }
}
