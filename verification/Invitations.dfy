/**
 * Invitation acceptance and the workspace a user lands in (lib/workspace.ts:8-96). The two
 * unique keys, one membership per workspace and user, one invitation per workspace and
 * e-mail, are the keys of the maps.
 */
module Invitations {
  import opened Lists

  datatype Role = Owner | Admin | Member | Manager | Operator | Viewer

  datatype Status = Pending | Accepted | Revoked | Expired

  datatype Invitation = Invitation(role: Role, status: Status, expiresAt: int)

  datatype Membership = Membership(role: Role, createdAt: int)

  /** `owners[w]` is the user who created workspace w. */
  datatype Db = Db(members: map<(nat, nat), Membership>, invitations: map<(nat, string), Invitation>, owners: seq<nat>)

  // ---------------------------------------------------------------- accepting

  /** `where: { email, status: "PENDING", expiresAt: { gt: now } }`, for one workspace. */
  predicate Found(db: Db, email: string, now: int, w: nat) {
    (w, email) in db.invitations && db.invitations[(w, email)].status == Pending && db.invitations[(w, email)].expiresAt > now
  }

  /** What the query returns: each match once, in an order of the database's choosing. */
  ghost predicate Matches(db: Db, email: string, now: int, list: seq<nat>) {
    && (forall w :: w in list <==> Found(db, email, now, w))
    && (forall i, j :: 0 <= i < j < |list| ==> list[i] != list[j])
  }

  /** One transaction: the membership is upserted and the invitation marked. `at` stamps new rows. */
  function AcceptOne(db: Db, user: nat, email: string, w: nat, at: nat -> int): Db
    requires (w, email) in db.invitations
  {
    var inv := db.invitations[(w, email)];
    var member := if (w, user) in db.members then db.members[(w, user)].(role := inv.role) else Membership(inv.role, at(w));
    db.(members := db.members[(w, user) := member], invitations := db.invitations[(w, email) := inv.(status := Accepted)])
  }

  ghost predicate Invited(db: Db, email: string, list: seq<nat>) {
    forall w :: w in list ==> (w, email) in db.invitations
  }

  function AcceptList(db: Db, user: nat, email: string, list: seq<nat>, at: nat -> int): Db
    requires Invited(db, email, list)
    decreases |list|
  {
    if list == [] then db
    else
      assert forall w :: w in list[1..] ==> w in list;
      AcceptList(AcceptOne(db, user, email, list[0], at), user, email, list[1..], at)
  }

  /** The outcome, workspace by workspace: role and stamp of each membership, state of each invitation. */
  ghost predicate IsOutcome(db: Db, after: Db, user: nat, email: string, accepted: set<nat>, at: nat -> int) {
    && after.owners == db.owners
    && (forall w, u :: (w, u) in after.members <==> (w, u) in db.members || (u == user && w in accepted))
    && (forall w, u :: (w, u) in db.members && !(u == user && w in accepted) ==> after.members[(w, u)] == db.members[(w, u)])
    && (forall w :: w in accepted ==> Joined(db, after, user, email, w, at))
    && (forall w, e :: (w, e) in after.invitations <==> (w, e) in db.invitations)
    && (forall w, e :: (w, e) in db.invitations ==>
          after.invitations[(w, e)] == if e == email && w in accepted then db.invitations[(w, e)].(status := Accepted) else db.invitations[(w, e)])
  }

  ghost predicate Joined(db: Db, after: Db, user: nat, email: string, w: nat, at: nat -> int) {
    && (w, email) in db.invitations && (w, user) in after.members
    && after.members[(w, user)].role == db.invitations[(w, email)].role
    && after.members[(w, user)].createdAt == if (w, user) in db.members then db.members[(w, user)].createdAt else at(w)
  }

  function Set(list: seq<nat>): set<nat> { set w | w in list }

  lemma OneOutcome(db: Db, user: nat, email: string, w: nat, at: nat -> int)
    requires (w, email) in db.invitations
    ensures IsOutcome(db, AcceptOne(db, user, email, w, at), user, email, {w}, at)
  {}

  lemma Chained(a: Db, b: Db, c: Db, user: nat, email: string, s: set<nat>, t: set<nat>, at: nat -> int)
    requires IsOutcome(a, b, user, email, s, at) && IsOutcome(b, c, user, email, t, at)
    ensures IsOutcome(a, c, user, email, s + t, at)
  {
    forall w | w in s + t ensures Joined(a, c, user, email, w, at) {
      if w in t {
        assert Joined(b, c, user, email, w, at) && (w, email) in b.invitations;
        if w in s { assert Joined(a, b, user, email, w, at); }
      } else {
        assert Joined(a, b, user, email, w, at) && (w, user) in b.members;
      }
    }
  }

  lemma {:induction false} ListOutcome(db: Db, user: nat, email: string, list: seq<nat>, at: nat -> int)
    requires Invited(db, email, list)
    ensures IsOutcome(db, AcceptList(db, user, email, list, at), user, email, Set(list), at)
    decreases |list|
  {
    if list == [] {
      assert Set(list) == {};
    } else {
      var next := AcceptOne(db, user, email, list[0], at);
      assert forall w :: w in list[1..] ==> w in list;
      OneOutcome(db, user, email, list[0], at);
      ListOutcome(next, user, email, list[1..], at);
      Chained(db, next, AcceptList(next, user, email, list[1..], at), user, email, {list[0]}, Set(list[1..]), at);
      assert Set(list) == {list[0]} + Set(list[1..]);
    }
  }

  lemma OutcomeIsUnique(db: Db, a: Db, b: Db, user: nat, email: string, accepted: set<nat>, at: nat -> int)
    requires IsOutcome(db, a, user, email, accepted, at) && IsOutcome(db, b, user, email, accepted, at)
    ensures a == b
  {
    assert forall k :: k in a.members <==> k in b.members by {
      forall k ensures k in a.members <==> k in b.members { assert k == (k.0, k.1); }
    }
    forall k | k in a.members ensures a.members[k] == b.members[k] {
      assert k == (k.0, k.1);
      if k.1 == user && k.0 in accepted {
        assert Joined(db, a, user, email, k.0, at) && Joined(db, b, user, email, k.0, at);
      }
    }
    assert a.members == b.members;
    forall k ensures k in a.invitations <==> k in b.invitations { assert k == (k.0, k.1); }
    forall k | k in a.invitations ensures a.invitations[k] == b.invitations[k] { assert k == (k.0, k.1); }
    assert a.invitations == b.invitations;
  }

  /** The order in which the query lists the invitations makes no difference. */
  lemma OrderDoesNotMatter(db: Db, user: nat, email: string, one: seq<nat>, two: seq<nat>, at: nat -> int)
    requires Invited(db, email, one) && Invited(db, email, two) && Set(one) == Set(two)
    ensures AcceptList(db, user, email, one, at) == AcceptList(db, user, email, two, at)
  {
    ListOutcome(db, user, email, one, at);
    ListOutcome(db, user, email, two, at);
    OutcomeIsUnique(db, AcceptList(db, user, email, one, at), AcceptList(db, user, email, two, at), user, email, Set(one), at);
  }

  // ---------------------------------------------------------------- stopping and resuming

  /** Equal up to the time stamps of the membership rows. */
  ghost predicate SameAccess(a: Db, b: Db) {
    && a.owners == b.owners
    && (forall w, e :: (w, e) in a.invitations <==> (w, e) in b.invitations)
    && (forall w, e :: (w, e) in a.invitations && (w, e) in b.invitations ==> a.invitations[(w, e)] == b.invitations[(w, e)])
    && (forall w, u :: (w, u) in a.members <==> (w, u) in b.members)
    && (forall w, u :: (w, u) in a.members && (w, u) in b.members ==> a.members[(w, u)].role == b.members[(w, u)].role)
  }

  lemma StillFound(db: Db, mid: Db, user: nat, email: string, accepted: set<nat>, at: nat -> int, later: int, w: nat)
    requires IsOutcome(db, mid, user, email, accepted, at)
    ensures Found(mid, email, later, w) <==> Found(db, email, later, w) && w !in accepted
  {}

  /**
   * Stopping after any number of transactions and running again gives the access an
   * uninterrupted run would have given exactly when none of the invitations left over has
   * expired by then.
   */
  lemma ResumableIff(db: Db, user: nat, email: string, list: seq<nat>, k: nat, rest: seq<nat>, now: int, later: int, at: nat -> int, at': nat -> int)
    requires Matches(db, email, now, list) && k <= |list| && now <= later
    requires Invited(db, email, list[..k]) && Matches(AcceptList(db, user, email, list[..k], at), email, later, rest)
    ensures Invited(db, email, list) && Invited(AcceptList(db, user, email, list[..k], at), email, rest)
    ensures SameAccess(AcceptList(AcceptList(db, user, email, list[..k], at), user, email, rest, at'), AcceptList(db, user, email, list, at))
      <==> forall w :: w in list[k..] ==> (w, email) in db.invitations && db.invitations[(w, email)].expiresAt > later
  {
    hide Joined, IsOutcome, SameAccess;
    var mid := AcceptList(db, user, email, list[..k], at);
    var done, whole := AcceptList(mid, user, email, rest, at'), AcceptList(db, user, email, list, at);
    ListOutcome(db, user, email, list[..k], at);
    ListOutcome(mid, user, email, rest, at');
    ListOutcome(db, user, email, list, at);
    forall w ensures w in rest <==> w in list[k..] && Found(db, email, later, w) {
      StillFound(db, mid, user, email, Set(list[..k]), at, later, w);
      Split(list, k, w);
    }
    if forall w :: w in list[k..] ==> (w, email) in db.invitations && db.invitations[(w, email)].expiresAt > later {
      forall w ensures w in Set(list[..k]) || w in Set(rest) <==> w in Set(list) { Split(list, k, w); }
      TwoPartsSameAccess(db, mid, done, whole, user, email, Set(list[..k]), Set(rest), Set(list), at, at');
    } else {
      var w :| w in list[k..] && !((w, email) in db.invitations && db.invitations[(w, email)].expiresAt > later);
      Split(list, k, w);
      LeftPending(db, mid, done, whole, user, email, Set(list[..k]), Set(rest), Set(list), at, at', w);
    }
  }

  lemma LeftPending(db: Db, mid: Db, done: Db, whole: Db, user: nat, email: string,
                    s: set<nat>, t: set<nat>, all: set<nat>, at: nat -> int, at': nat -> int, w: nat)
    requires IsOutcome(db, mid, user, email, s, at) && IsOutcome(mid, done, user, email, t, at') && IsOutcome(db, whole, user, email, all, at)
    requires (w, email) in db.invitations && db.invitations[(w, email)].status == Pending
    requires w !in s && w !in t && w in all
    ensures !SameAccess(done, whole)
  {
    assert done.invitations[(w, email)] == mid.invitations[(w, email)] == db.invitations[(w, email)];
    assert whole.invitations[(w, email)].status == Accepted;
  }

  lemma Split(list: seq<nat>, k: nat, w: nat)
    requires k <= |list| && forall i, j :: 0 <= i < j < |list| ==> list[i] != list[j]
    ensures w in list <==> w in list[..k] || w in list[k..]
    ensures !(w in list[..k] && w in list[k..])
  {
    assert list == list[..k] + list[k..];
  }

  lemma TwoPartsSameAccess(db: Db, mid: Db, done: Db, whole: Db, user: nat, email: string,
                           s: set<nat>, t: set<nat>, all: set<nat>, at: nat -> int, at': nat -> int)
    requires IsOutcome(db, mid, user, email, s, at) && IsOutcome(mid, done, user, email, t, at') && IsOutcome(db, whole, user, email, all, at)
    requires (forall w :: w in s || w in t <==> w in all)
    ensures SameAccess(done, whole)
  {
    forall w, u | (w, u) in done.members && (w, u) in whole.members ensures done.members[(w, u)].role == whole.members[(w, u)].role {
      if u == user && w in all {
        assert Joined(db, whole, user, email, w, at);
        if w in t { assert Joined(mid, done, user, email, w, at'); } else { assert Joined(db, mid, user, email, w, at); }
      }
    }
  }

  /** Once all are accepted, a later run finds nothing and changes nothing. */
  lemma AgainChangesNothing(db: Db, user: nat, email: string, list: seq<nat>, now: int, later: int, at: nat -> int, again: seq<nat>)
    requires Matches(db, email, now, list) && now <= later
    requires Invited(db, email, list) && Matches(AcceptList(db, user, email, list, at), email, later, again)
    ensures again == []
  {
    var after := AcceptList(db, user, email, list, at);
    ListOutcome(db, user, email, list, at);
    forall w ensures !Found(after, email, later, w) {
      StillFound(db, after, user, email, Set(list), at, later, w);
    }
    EmptyOrNot(again);
  }

  lemma EmptyOrNot(list: seq<nat>)
    ensures list == [] || exists w :: w in list
  {
    if list != [] {
      assert list[0] in list;
    }
  }

  // ---------------------------------------------------------------- the workspace a user lands in

  ghost predicate HasMembership(db: Db, user: nat) { exists w: nat :: (w, user) in db.members }

  /** `orderBy: { createdAt: "asc" }`: on equal stamps any of them may come first. */
  ghost predicate IsEarliest(db: Db, user: nat, w: nat) {
    (w, user) in db.members && forall v :: (v, user) in db.members ==> db.members[(w, user)].createdAt <= db.members[(v, user)].createdAt
  }

  /** No other membership is as early. */
  ghost predicate OnlyEarliest(db: Db, user: nat, w: nat) {
    (w, user) in db.members && forall v :: (v, user) in db.members && v != w ==> db.members[(w, user)].createdAt < db.members[(v, user)].createdAt
  }

  ghost predicate Settled(db: Db, user: nat) { exists w :: OnlyEarliest(db, user, w) }

  /** Members and invitations are of workspaces that exist. */
  ghost predicate WellFormed(db: Db) {
    (forall w, u :: (w, u) in db.members ==> w < |db.owners|) && (forall w, e :: (w, e) in db.invitations ==> w < |db.owners|)
  }

  function CreateWorkspace(db: Db, user: nat, stamp: int): Db {
    db.(members := db.members[(|db.owners|, user) := Membership(Owner, stamp)], owners := db.owners + [user])
  }

  /** A workspace of the user's own is added, with the user as its owner and only member. */
  ghost predicate MadeFor(before: Db, after: Db, user: nat, stamp: int, w: nat) {
    && w == |before.owners| && after.owners == before.owners + [user] && after.invitations == before.invitations
    && after.members == before.members[(w, user) := Membership(Owner, stamp)]
  }

  /** `ensureWorkspaceForUser`; `pick` is the membership the database lists first, if there is one. */
  ghost function Ensure(db: Db, user: nat, email: string, list: seq<nat>, at: nat -> int, pick: nat, stamp: int): (r: (Db, nat))
    requires Invited(db, email, list)
  {
    var accepted := AcceptList(db, user, email, list, at);
    if HasMembership(accepted, user) then (accepted, pick) else (CreateWorkspace(accepted, user, stamp), |accepted.owners|)
  }

  class Workspaces {
    var db: Db
    const normalize: string -> string

    constructor (db: Db, normalize: string -> string)
      ensures this.db == db && this.normalize == normalize
    {
      this.db, this.normalize := db, normalize;
    }

    /** `failsAt`: the transaction that throws, if there is one; the rest are not tried. */
    method Accept(user: nat, email: Option<string>, list: seq<nat>, at: nat -> int, failsAt: nat) returns (ok: bool)
      requires email.Some? && email.value != "" ==> Invited(db, normalize(email.value), list)
      modifies this`db
      ensures email.None? || email.value == "" ==> db == old(db) && ok
      ensures email.Some? && email.value != "" ==>
        var done := if failsAt < |list| then list[..failsAt] else list;
        ok == (failsAt >= |list|) && Invited(old(db), normalize(email.value), done)
        && db == AcceptList(old(db), user, normalize(email.value), done, at)
    {
      if email.None? || email.value == "" {
        return true;
      }
      var normalized := normalize(email.value);
      var i := 0;
      assert list[..0] == [];
      while i < |list|
        invariant i <= |list| && i <= failsAt
        invariant Invited(old(db), normalized, list[..i]) && db == AcceptList(old(db), user, normalized, list[..i], at)
        invariant Invited(db, normalized, list)
      {
        if i == failsAt {
          return false;
        }
        AcceptLast(old(db), user, normalized, list[..i + 1], at);
        assert list[..i + 1][..i] == list[..i];
        db := AcceptOne(db, user, normalized, list[i], at);
        i := i + 1;
      }
      assert list[..i] == list;
      ok := true;
    }

    /** `found` is what `findFirst` answers after the invitations have been accepted. */
    method EnsureWorkspace(user: nat, email: Option<string>, list: seq<nat>, at: nat -> int, found: Option<nat>, stamp: int) returns (w: nat)
      requires email.None? || email.value == "" ==> list == []
      requires email.Some? ==> Invited(db, normalize(email.value), list)
      requires var e := if email.None? then "" else normalize(email.value);
        Invited(db, e, list) && (found.Some? <==> HasMembership(AcceptList(db, user, e, list, at), user))
      modifies this`db
      ensures var e := if email.None? then "" else normalize(email.value);
        Invited(old(db), e, list) && (db, w) == Ensure(old(db), user, e, list, at, if found.Some? then found.value else 0, stamp)
      ensures var e := if email.None? then "" else normalize(email.value); var accepted := AcceptList(old(db), user, e, list, at);
        if found.Some? then w == found.value && db == accepted else MadeFor(accepted, db, user, stamp, w)
    {
      var ok := Accept(user, email, list, at, |list|);
      assert list[..|list|] == list;
      if found.Some? {
        return found.value;
      }
      w := |db.owners|;
      db := CreateWorkspace(db, user, stamp);
    }
  }

  lemma {:induction false} AcceptLast(db: Db, user: nat, email: string, list: seq<nat>, at: nat -> int)
    requires list != [] && Invited(db, email, list)
    ensures var front := list[..|list| - 1];
      && Invited(db, email, front)
      && (list[|list| - 1], email) in AcceptList(db, user, email, front, at).invitations
      && AcceptList(db, user, email, list, at) == AcceptOne(AcceptList(db, user, email, front, at), user, email, list[|list| - 1], at)
    decreases |list|
  {
    var front, last := list[..|list| - 1], list[|list| - 1];
    assert last in list;
    assert forall w :: w in front ==> w in list;
    ListOutcome(db, user, email, front, at);
    if front == [] {
      assert list[1..] == [];
    } else {
      var next := AcceptOne(db, user, email, list[0], at);
      assert list[1..][..|list[1..]| - 1] == front[1..];
      assert forall w :: w in list[1..] ==> w in list;
      AcceptLast(next, user, email, list[1..], at);
    }
  }

  // ---------------------------------------------------------------- runs of logins

  /** A login of the user, with or without an e-mail, or anything else that happens in between. */
  datatype Event =
    | Login(email: Option<string>, list: seq<nat>, now: int, at: nat -> int, pick: nat, stamp: int)
    | Others(after: Db)

  /** Some membership of the user is older than the stamp. */
  ghost predicate NotFirst(db: Db, user: nat, stamp: int) {
    exists v :: (v, user) in db.members && db.members[(v, user)].createdAt < stamp
  }

  /** Rows made while the user is a member are younger than the user's first one. */
  ghost predicate Later(db: Db, user: nat, list: seq<nat>, at: nat -> int) {
    HasMembership(db, user) ==> forall w :: w in list && (w, user) !in db.members ==> NotFirst(db, user, at(w))
  }

  /** Others may invite, log in, and add the user to workspaces, but take none away. */
  ghost predicate OnlyAdds(db: Db, after: Db, user: nat) {
    && WellFormed(after) && db.owners <= after.owners
    && (forall w :: (w, user) in db.members ==> (w, user) in after.members && after.members[(w, user)].createdAt == db.members[(w, user)].createdAt)
    && (HasMembership(db, user) ==>
          forall w :: (w, user) in after.members && (w, user) !in db.members ==> NotFirst(db, user, after.members[(w, user)].createdAt))
  }

  function EmailOf(e: Event): string
    requires e.Login?
  {
    if e.email.None? then "" else e.email.value
  }

  ghost predicate Enabled(db: Db, user: nat, e: Event) {
    match e
    case Login(email, list, now, at, pick, _) =>
      && (if email.None? then list == [] else Matches(db, email.value, now, list)) && Later(db, user, list, at)
      && (HasMembership(AcceptList(db, user, EmailOf(e), list, at), user) ==> IsEarliest(AcceptList(db, user, EmailOf(e), list, at), user, pick))
    case Others(after) => OnlyAdds(db, after, user)
  }

  ghost function Outcome(db: Db, user: nat, e: Event): (Db, nat)
    requires e.Login? && Enabled(db, user, e)
  {
    Ensure(db, user, EmailOf(e), e.list, e.at, e.pick, e.stamp)
  }

  ghost function Next(db: Db, user: nat, e: Event): Db
    requires Enabled(db, user, e)
  {
    if e.Login? then Outcome(db, user, e).0 else e.after
  }

  ghost predicate IsRun(db: Db, user: nat, events: seq<Event>)
    decreases |events|
  {
    events == [] || (Enabled(db, user, events[0]) && IsRun(Next(db, user, events[0]), user, events[1..]))
  }

  /** What the logins of a run return. */
  ghost function Returned(db: Db, user: nat, events: seq<Event>): seq<nat>
    requires IsRun(db, user, events)
    decreases |events|
  {
    if events == [] then []
    else
      var e := events[0];
      (if e.Login? then [Outcome(db, user, e).1] else []) + Returned(Next(db, user, e), user, events[1..])
  }

  ghost function Last(db: Db, user: nat, events: seq<Event>): Db
    requires IsRun(db, user, events)
    decreases |events|
  {
    if events == [] then db else Last(Next(db, user, events[0]), user, events[1..])
  }

  /** How many workspaces the logins of a run create. */
  ghost function Created(db: Db, user: nat, events: seq<Event>): nat
    requires IsRun(db, user, events)
    decreases |events|
  {
    if events == [] then 0
    else
      var e := events[0];
      (if e.Login? && |Next(db, user, e).owners| > |db.owners| then 1 else 0) + Created(Next(db, user, e), user, events[1..])
  }

  /** One more event: what it does, returns and creates comes on top of the run. */
  lemma {:induction false} RunOneMore(db: Db, user: nat, events: seq<Event>, e: Event)
    requires IsRun(db, user, events) && Enabled(Last(db, user, events), user, e)
    ensures IsRun(db, user, events + [e])
    ensures var last := Last(db, user, events); var after := Next(last, user, e);
      && Last(db, user, events + [e]) == after
      && Returned(db, user, events + [e]) == Returned(db, user, events) + (if e.Login? then [Outcome(last, user, e).1] else [])
      && Created(db, user, events + [e]) == Created(db, user, events) + (if e.Login? && |after.owners| > |last.owners| then 1 else 0)
    decreases |events|
  {
    hide Next, Enabled, Outcome;
    if events == [] {
      assert events + [e] == [e] && [e][1..] == [];
    } else {
      assert (events + [e])[0] == events[0] && (events + [e])[1..] == events[1..] + [e];
      RunOneMore(Next(db, user, events[0]), user, events[1..], e);
    }
  }

  ghost predicate Home(db: Db, user: nat, w: nat) { WellFormed(db) && OnlyEarliest(db, user, w) }

  lemma AcceptedStamps(db: Db, accepted: Db, user: nat, email: string, list: seq<nat>, at: nat -> int)
    requires IsOutcome(db, accepted, user, email, Set(list), at) && WellFormed(db)
    ensures WellFormed(accepted) && accepted.owners == db.owners
    ensures forall v :: (v, user) in accepted.members <==> (v, user) in db.members || v in list
    ensures forall v :: (v, user) in accepted.members ==>
      accepted.members[(v, user)].createdAt == if (v, user) in db.members then db.members[(v, user)].createdAt else at(v)
  {
    forall v | (v, user) in accepted.members
      ensures accepted.members[(v, user)].createdAt == if (v, user) in db.members then db.members[(v, user)].createdAt else at(v)
    {
      if v in list { assert v in Set(list) && Joined(db, accepted, user, email, v, at); }
    }
    forall w, u | (w, u) in accepted.members ensures w < |db.owners| {
      if (w, u) !in db.members { assert Joined(db, accepted, user, email, w, at); }
    }
  }

  /** A stamp younger than some membership is younger than the only earliest one. */
  lemma YoungerThanFirst(db: Db, user: nat, w: nat, stamp: int)
    requires OnlyEarliest(db, user, w) && NotFirst(db, user, stamp)
    ensures db.members[(w, user)].createdAt < stamp
  {
    var v :| (v, user) in db.members && db.members[(v, user)].createdAt < stamp;
    assert v != w ==> db.members[(w, user)].createdAt < db.members[(v, user)].createdAt;
  }

  /** The earliest membership stays the earliest, and every login returns it. */
  lemma HomeStays(db: Db, user: nat, e: Event, w: nat)
    requires Home(db, user, w) && Enabled(db, user, e)
    ensures Home(Next(db, user, e), user, w)
    ensures e.Login? ==> Outcome(db, user, e).1 == w && Next(db, user, e).owners == db.owners
  {
    assert HasMembership(db, user);
    if e.Login? {
      ListOutcome(db, user, EmailOf(e), e.list, e.at);
      var accepted := AcceptList(db, user, EmailOf(e), e.list, e.at);
      AcceptedStamps(db, accepted, user, EmailOf(e), e.list, e.at);
      assert (w, user) in accepted.members;
      forall v | (v, user) in accepted.members && v != w ensures accepted.members[(w, user)].createdAt < accepted.members[(v, user)].createdAt {
        if (v, user) !in db.members { YoungerThanFirst(db, user, w, e.at(v)); }
      }
    } else {
      forall v | (v, user) in e.after.members && v != w ensures e.after.members[(w, user)].createdAt < e.after.members[(v, user)].createdAt {
        if (v, user) !in db.members { YoungerThanFirst(db, user, w, e.after.members[(v, user)].createdAt); }
      }
    }
  }

  lemma {:induction false} HomeForGood(db: Db, user: nat, events: seq<Event>, w: nat)
    requires Home(db, user, w) && IsRun(db, user, events)
    ensures Created(db, user, events) == 0 && Home(Last(db, user, events), user, w)
    ensures forall r :: r in Returned(db, user, events) ==> r == w
    decreases |events|
  {
    hide Home, Outcome, Enabled;
    if events != [] {
      HomeStays(db, user, events[0], w);
      HomeForGood(Next(db, user, events[0]), user, events[1..], w);
    }
  }

  /** In the first state of the run in which the user is a member, one membership is earliest. */
  ghost predicate SettledFirst(db: Db, user: nat, events: seq<Event>)
    requires IsRun(db, user, events)
    decreases |events|
  {
    if HasMembership(db, user) then Settled(db, user)
    else events == [] || SettledFirst(Next(db, user, events[0]), user, events[1..])
  }

  /** A login of a user without any membership that the invitations do not change either. */
  lemma LoginCreates(db: Db, user: nat, e: Event)
    requires WellFormed(db) && !HasMembership(db, user) && e.Login? && Enabled(db, user, e)
    ensures WellFormed(Next(db, user, e)) && HasMembership(Next(db, user, e), user)
    ensures |Next(db, user, e).owners| <= |db.owners| + 1
    ensures !HasMembership(AcceptList(db, user, EmailOf(e), e.list, e.at), user) ==>
      var w := Outcome(db, user, e).1;
      Next(db, user, e).owners == db.owners + [user] && w == |db.owners| && Next(db, user, e).members[(w, user)].role == Owner
    ensures forall w :: OnlyEarliest(Next(db, user, e), user, w) ==> Outcome(db, user, e).1 == w
  {
    ListOutcome(db, user, EmailOf(e), e.list, e.at);
    var accepted, next := AcceptList(db, user, EmailOf(e), e.list, e.at), Next(db, user, e);
    AcceptedStamps(db, accepted, user, EmailOf(e), e.list, e.at);
    if HasMembership(accepted, user) {
      assert next == accepted;
    } else {
      assert (|accepted.owners|, user) in next.members;
      forall v | (v, user) in next.members ensures v == |accepted.owners| {}
    }
  }

  /**
   * Over any sequence of logins, with anything else in between, the user gets at most one
   * workspace of their own, every login returns the same workspace, and the user is a member
   * of it; all this as long as the user's first memberships have one that is earliest.
   */
  lemma {:induction false} OneWorkspaceForGood(db: Db, user: nat, events: seq<Event>)
    requires WellFormed(db) && IsRun(db, user, events) && SettledFirst(db, user, events)
    ensures Created(db, user, events) <= 1
    ensures forall r, t :: r in Returned(db, user, events) && t in Returned(db, user, events) ==> r == t
    ensures forall r :: r in Returned(db, user, events) ==> (r, user) in Last(db, user, events).members
    decreases |events|
  {
    hide Outcome, Enabled, WellFormed, HasMembership, OnlyEarliest;
    if HasMembership(db, user) {
      var w :| OnlyEarliest(db, user, w);
      HomeForGood(db, user, events, w);
      HomeIsAMembership(Last(db, user, events), user, w);
    } else if events != [] {
      var e := events[0];
      if e.Login? {
        LoginCreates(db, user, e);
        assert SettledFirst(Next(db, user, e), user, events[1..]);
        var w :| OnlyEarliest(Next(db, user, e), user, w);
        HomeForGood(Next(db, user, e), user, events[1..], w);
        HomeIsAMembership(Last(db, user, events), user, w);
      } else {
        OthersKeepForm(db, user, e);
        OneWorkspaceForGood(Next(db, user, e), user, events[1..]);
      }
    }
  }

  lemma HomeIsAMembership(db: Db, user: nat, w: nat)
    requires Home(db, user, w)
    ensures (w, user) in db.members
  {}

  lemma OthersKeepForm(db: Db, user: nat, e: Event)
    requires e.Others? && Enabled(db, user, e)
    ensures WellFormed(Next(db, user, e))
  {}

  // ---------------------------------------------------------------- ties

  ghost predicate AlwaysTheSame(db: Db, user: nat) {
    forall events :: IsRun(db, user, events) ==>
      forall r, t :: r in Returned(db, user, events) && t in Returned(db, user, events) ==> r == t
  }

  lemma {:induction false} EarliestOf(db: Db, user: nat, s: set<nat>) returns (w: nat)
    requires s != {} && forall v :: v in s ==> (v, user) in db.members
    ensures w in s && forall v :: v in s ==> db.members[(w, user)].createdAt <= db.members[(v, user)].createdAt
    decreases s
  {
    var first :| first in s;
    var rest := s - {first};
    w := first;
    if rest != {} {
      var u := EarliestOf(db, user, rest);
      w := if db.members[(u, user)].createdAt < db.members[(first, user)].createdAt then u else first;
      forall v | v in s ensures db.members[(w, user)].createdAt <= db.members[(v, user)].createdAt {
        assert v == first || v in rest;
      }
    } else {
      assert s == {first};
    }
  }

  lemma EarliestExists(db: Db, user: nat) returns (w: nat)
    requires HasMembership(db, user)
    ensures IsEarliest(db, user, w)
  {
    var s := set k | k in db.members && k.1 == user :: k.0;
    var v :| (v, user) in db.members;
    assert (v, user).0 in s;
    w := EarliestOf(db, user, s);
    forall u | (u, user) in db.members ensures u in s { assert (u, user).0 in s; }
  }

  /** Two logins without an e-mail, the database listing v first and then w. */
  function TwoLogins(v: nat, w: nat): seq<Event> {
    [Login(None, [], 0, (x: nat) => 0, v, 0), Login(None, [], 0, (x: nat) => 0, w, 0)]
  }

  lemma PlainLogin(db: Db, user: nat, e: Event)
    requires e.Login? && e.email.None? && e.list == [] && IsEarliest(db, user, e.pick)
    ensures Enabled(db, user, e) && Outcome(db, user, e) == (db, e.pick)
  {
    assert HasMembership(db, user);
  }

  lemma TwoLoginsReturn(db: Db, user: nat, v: nat, w: nat)
    requires IsEarliest(db, user, v) && IsEarliest(db, user, w)
    ensures IsRun(db, user, TwoLogins(v, w)) && Returned(db, user, TwoLogins(v, w)) == [v, w]
  {
    hide Enabled, Outcome, IsEarliest;
    var events := TwoLogins(v, w);
    PlainLogin(db, user, events[0]);
    PlainLogin(db, user, events[1]);
    assert events[1..] == [events[1]] && events[1..][1..] == [];
    assert IsRun(db, user, []) && IsRun(db, user, events[1..]);
    assert Returned(db, user, events[1..]) == [w] + [];
    assert [v] + [w] == [v, w];
  }

  /**
   * From a state in which the user is a member, every run of logins returns one workspace
   * exactly when one membership is earliest.
   */
  lemma SameWorkspaceIff(db: Db, user: nat)
    requires WellFormed(db) && HasMembership(db, user)
    ensures AlwaysTheSame(db, user) <==> Settled(db, user)
  {
    hide IsRun, Returned, WellFormed;
    if Settled(db, user) {
      var w :| OnlyEarliest(db, user, w);
      forall events | IsRun(db, user, events)
        ensures forall r, t :: r in Returned(db, user, events) && t in Returned(db, user, events) ==> r == t
      {
        HomeForGood(db, user, events, w);
      }
    } else {
      var w := EarliestExists(db, user);
      assert !OnlyEarliest(db, user, w);
      var v :| (v, user) in db.members && v != w && db.members[(w, user)].createdAt >= db.members[(v, user)].createdAt;
      TwoLoginsReturn(db, user, v, w);
      assert v in [v, w] && w in [v, w];
    }
  }

  /** Two invitations accepted by one login within one tick of the clock: the next login may return the other workspace. */
  lemma SameTickTies(db: Db, user: nat, email: string, now: int, v: nat, w: nat, at: nat -> int)
    requires !HasMembership(db, user) && v != w && Matches(db, email, now, [v, w]) && at(v) == at(w)
    ensures var events := [Login(Some(email), [v, w], now, at, v, 0)] + TwoLogins(v, w);
      IsRun(db, user, events) && Returned(db, user, events) == [v, v, w]
  {
    var first := Login(Some(email), [v, w], now, at, v, 0);
    var events := [first] + TwoLogins(v, w);
    var after := AcceptList(db, user, email, [v, w], at);
    ListOutcome(db, user, email, [v, w], at);
    assert v in Set([v, w]) && w in Set([v, w]);
    assert Joined(db, after, user, email, v, at) && Joined(db, after, user, email, w, at);
    forall u | (u, user) in after.members ensures after.members[(u, user)].createdAt == at(v) {
      assert Joined(db, after, user, email, u, at);
    }
    assert IsEarliest(after, user, v) && IsEarliest(after, user, w);
    assert HasMembership(after, user);
    TwoLoginsReturn(after, user, v, w);
    assert events[0] == first && events[1..] == TwoLogins(v, w);
    assert Enabled(db, user, first) && Next(db, user, first) == after;
  }

  /** Accepting an invitation to one's own workspace overwrites the owner's role. */
  lemma AcceptingOverwritesTheRole(db: Db, user: nat, email: string, now: int, list: seq<nat>, w: nat, at: nat -> int)
    requires Matches(db, email, now, list) && w in list && (w, user) in db.members && db.members[(w, user)].role == Owner
    ensures Invited(db, email, list) && (w, user) in AcceptList(db, user, email, list, at).members
    ensures AcceptList(db, user, email, list, at).members[(w, user)].role == Owner <==> db.invitations[(w, email)].role == Owner
  {
    ListOutcome(db, user, email, list, at);
    assert w in Set(list);
    assert Joined(db, AcceptList(db, user, email, list, at), user, email, w, at);
  }
}
