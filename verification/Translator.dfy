/**
 * The layer that rewrites the rendered page for other locales and remembers the originals
 * (components/dom-translator.tsx). The page is a list of places that carry text: text
 * nodes and attributes, each with the path of elements from the body down to its owner.
 */
module Translator {
  import opened Lists

  datatype Locale = Uz | UzCyrl | Ru | En

  /** `translateText(text, ui, table)`; the tables are fixed. */
  type Translation = (Locale, string) -> string

  /** `if (ui === "uz") return text` (lib/i18n/dom-translate.ts:14). */
  ghost predicate UzbekIsIdentity(tr: Translation) {
    forall s :: tr(Uz, s) == s
  }

  /** An entry of textOriginal or attrOriginal. */
  datatype Memo = Memo(src: string, out: string)

  datatype Slot = Slot(path: seq<nat>, attribute: bool, shown: string, memo: Option<Memo>)

  /** Elements whose tag is skipped, and elements that opt out with everything below them. */
  datatype Marks = Marks(skipTags: set<nat>, optOuts: set<nat>)

  /** `skip(el)` for the element at the end of the path. */
  predicate Skip(m: Marks, path: seq<nat>) {
    path == [] || path[|path| - 1] in m.skipTags || exists i :: 0 <= i < |path| && path[i] in m.optOuts
  }

  /** What a walk of the whole body reaches. */
  predicate Translatable(m: Marks, s: Slot) { !Skip(m, s.path) }

  function IsElement(e: nat): nat -> bool { (x: nat) => x == e }

  /** What `walk(e)` reaches: nothing when e itself is skipped. */
  predicate UnderRoot(m: Marks, e: nat, s: Slot) {
    var k := FirstHit(s.path, IsElement(e));
    k < |s.path| && !Skip(m, s.path[..k + 1]) && Translatable(m, s)
  }

  /** `applyText`, and one round of `applyAttrs`, on a place that is not skipped. */
  function Apply(s: Slot, ui: Locale, tr: Translation): Slot {
    var src := if s.memo.Some? && s.memo.value.out == s.shown then s.memo.value.src else s.shown;
    var out := tr(ui, src);
    s.(shown := out, memo := Some(Memo(src, out)))
  }

  function ApplyWhere(slots: seq<Slot>, reached: nat -> bool, ui: Locale, tr: Translation): (r: seq<Slot>)
    ensures |r| == |slots|
    ensures forall i :: 0 <= i < |slots| ==> r[i] == if reached(i) then Apply(slots[i], ui, tr) else slots[i]
  {
    seq(|slots|, i requires 0 <= i < |slots| => if reached(i) then Apply(slots[i], ui, tr) else slots[i])
  }

  /** A mutation record: changed text, changed attributes of an element, an added element or text node. */
  datatype Record = CharacterData(slot: nat) | Attributes(element: nat) | AddedElement(element: nat) | AddedText(slot: nat)

  predicate Reaches(m: Marks, slots: seq<Slot>, r: Record, i: nat) {
    i < |slots| && Translatable(m, slots[i]) &&
    match r
    case CharacterData(k) => i == k
    case Attributes(e) => slots[i].attribute && slots[i].path[|slots[i].path| - 1] == e
    case AddedElement(e) => UnderRoot(m, e, slots[i])
    case AddedText(k) => i == k
  }

  function Everything(m: Marks, slots: seq<Slot>): nat -> bool {
    (i: nat) => i < |slots| && Translatable(m, slots[i])
  }

  function Reached(m: Marks, slots: seq<Slot>, r: Record): nat -> bool {
    (i: nat) => Reaches(m, slots, r, i)
  }

  /** `walk(document.body)` */
  function FullWalk(m: Marks, slots: seq<Slot>, ui: Locale, tr: Translation): (r: seq<Slot>)
    ensures |r| == |slots|
  {
    ApplyWhere(slots, Everything(m, slots), ui, tr)
  }

  /** The observer callback. */
  function Handle(m: Marks, slots: seq<Slot>, records: seq<Record>, ui: Locale, tr: Translation): (r: seq<Slot>)
    ensures |r| == |slots|
    decreases |records|
  {
    if records == [] then slots
    else Handle(m, ApplyWhere(slots, Reached(m, slots, records[0]), ui, tr), records[1..], ui, tr)
  }

  // ---------------------------------------------------------------- the class

  class DomTranslator {
    const tr: Translation
    var marks: Marks
    var slots: seq<Slot>

    constructor (tr: Translation, marks: Marks, slots: seq<Slot>)
      ensures this.tr == tr && this.marks == marks && this.slots == slots
    {
      this.tr, this.marks, this.slots := tr, marks, slots;
    }

    /** applyText / applyAttrs on one place. */
    method ApplySlot(i: nat, ui: Locale)
      requires i < |slots|
      modifies this`slots
      ensures slots == old(slots)[i := if Translatable(marks, old(slots)[i]) then Apply(old(slots)[i], ui, tr) else old(slots)[i]]
    {
      if Skip(marks, slots[i].path) {
        return;
      }
      var current := slots[i].shown;
      var known := slots[i].memo;
      var src := if known.Some? && known.value.out == current then known.value.src else current;
      var out := tr(ui, src);
      slots := slots[i := slots[i].(memo := Some(Memo(src, out)))];
      if out != current {
        slots := slots[i := slots[i].(shown := out)];
      }
    }

    method Walk(reached: nat -> bool, ui: Locale)
      requires forall i :: 0 <= i < |slots| && reached(i) ==> Translatable(marks, slots[i])
      modifies this`slots
      ensures slots == ApplyWhere(old(slots), reached, ui, tr)
    {
      var i := 0;
      while i < |slots|
        invariant i <= |slots| == |old(slots)|
        invariant forall k :: 0 <= k < i ==> slots[k] == if reached(k) then Apply(old(slots)[k], ui, tr) else old(slots)[k]
        invariant forall k :: i <= k < |slots| ==> slots[k] == old(slots)[k]
      {
        if reached(i) {
          ApplySlot(i, ui);
        }
        i := i + 1;
      }
    }

    /** The effect's first pass. */
    method Start(ui: Locale)
      modifies this`slots
      ensures slots == FullWalk(marks, old(slots), ui, tr)
    {
      Walk(Everything(marks, slots), ui);
    }

    method OnMutations(records: seq<Record>, ui: Locale)
      modifies this`slots
      ensures slots == Handle(marks, old(slots), records, ui, tr)
    {
      var n := 0;
      while n < |records|
        invariant n <= |records|
        invariant Handle(marks, slots, records[n..], ui, tr) == Handle(marks, old(slots), records, ui, tr)
      {
        Walk(Reached(marks, slots, records[n]), ui);
        n := n + 1;
      }
    }
  }

  // ---------------------------------------------------------------- what is translated

  /** The place belongs to an element of a tag that is not skipped, and nothing around it opts out. */
  ghost predicate Meant(m: Marks, s: Slot) {
    s.path != [] && s.path[|s.path| - 1] !in m.skipTags && forall e :: e in s.path ==> e !in m.optOuts
  }

  lemma TranslatableIsMeant(m: Marks, s: Slot)
    ensures Translatable(m, s) <==> Meant(m, s)
  {
    if Translatable(m, s) {
      forall e | e in s.path ensures e !in m.optOuts {
        var i :| 0 <= i < |s.path| && s.path[i] == e;
      }
    }
  }

  /** A walk from an element reaches what is meant to be translated in it, unless its own tag is skipped. */
  lemma UnderRootMeans(m: Marks, e: nat, s: Slot)
    ensures UnderRoot(m, e, s) <==> e in s.path && e !in m.skipTags && Meant(m, s)
  {
    hide Skip;
    TranslatableIsMeant(m, s);
    var k := FirstHit(s.path, IsElement(e));
    if e in s.path {
      var i :| 0 <= i < |s.path| && s.path[i] == e;
      assert IsElement(e)(s.path[i]) && k < |s.path| && s.path[k] == e;
      if Meant(m, s) { SkipInside(m, s.path, k); }
    }
  }

  /** What a mutation record makes the observer look at again. */
  lemma RecordReaches(m: Marks, slots: seq<Slot>, r: Record, i: nat)
    requires i < |slots|
    ensures Reaches(m, slots, r, i) <==> (Meant(m, slots[i]) && match r
                                          case CharacterData(k) => k == i
                                          case AddedText(k) => k == i
                                          case Attributes(e) => slots[i].attribute && slots[i].path[|slots[i].path| - 1] == e
                                          case AddedElement(e) => e in slots[i].path && e !in m.skipTags)
  {
    hide Skip;
    TranslatableIsMeant(m, slots[i]);
    if r.AddedElement? { UnderRootMeans(m, r.element, slots[i]); }
  }

  /** Where nothing opts out only the tag counts. */
  lemma SkipInside(m: Marks, path: seq<nat>, k: nat)
    requires k < |path| && forall e :: e in path ==> e !in m.optOuts
    ensures Skip(m, path[..k + 1]) <==> path[k] in m.skipTags
  {
    var prefix := path[..k + 1];
    forall i | 0 <= i < |prefix| ensures prefix[i] !in m.optOuts {
      assert prefix[i] == path[i] && path[i] in path;
    }
  }

  // ---------------------------------------------------------------- one place

  /** What the memo knows of a place whose last text from the app is `app`. */
  predicate Faithful(s: Slot, app: string) {
    if s.memo.None? || s.memo.value.out != s.shown then s.shown == app else s.memo.value.src == app
  }

  lemma ApplyShowsTheTranslation(s: Slot, app: string, ui: Locale, tr: Translation)
    requires Faithful(s, app)
    ensures Apply(s, ui, tr) == s.(shown := tr(ui, app), memo := Some(Memo(app, tr(ui, app))))
    ensures Faithful(Apply(s, ui, tr), app)
    ensures Apply(Apply(s, ui, tr), ui, tr) == Apply(s, ui, tr)
  {}

  function Written(s: Slot, text: string): Slot { s.(shown := text) }

  /** The app does not write exactly the text the layer put there, unless that was its own text. */
  predicate FreshWrite(s: Slot, text: string) {
    s.memo.Some? ==> text != s.memo.value.out || text == s.memo.value.src
  }

  /**
   * Every later pass, in whatever locale, shows the translation of what the app wrote
   * exactly when the write is fresh.
   */
  lemma WriteIsTranslatedIff(s: Slot, text: string, tr: Translation)
    requires UzbekIsIdentity(tr)
    ensures (forall ui :: Apply(Written(s, text), ui, tr).shown == tr(ui, text)) <==> FreshWrite(s, text)
  {
    if !FreshWrite(s, text) {
      assert Apply(Written(s, text), Uz, tr).shown == s.memo.value.src;
    }
  }

  // ---------------------------------------------------------------- runs

  /**
   * `app` is the last text the app wrote in each place; `ui` the locale of the running
   * effect, `loading` until its table has arrived; `records` wait for the observer.
   */
  datatype Page = Page(marks: Marks, slots: seq<Slot>, app: seq<string>, ui: Locale, loading: bool, observing: bool, records: seq<Record>)

  datatype Event =
    | Write(slot: nat, text: string)
    | AddText(path: seq<nat>, text: string)
    | AddAttribute(path: seq<nat>, text: string)
    | AddElement(element: nat, slots: seq<Slot>, marks: Marks)
    | Move(element: nat, paths: map<nat, seq<nat>>)
    | Switch(ui: Locale)
    | Loaded
    | Deliver

  predicate Enabled(p: Page, e: Event) {
    match e
    case Write(i, _) => i < |p.slots|
    case AddText(path, _) => path != []
    case AddAttribute(path, _) => path != []
    case AddElement(e, slots, marks) =>
      // new places lie under the new element and carry no memo; old paths do not meet new marks
      && (forall i :: 0 <= i < |slots| ==> slots[i].memo.None? && e in slots[i].path)
      && (forall i :: 0 <= i < |p.slots| ==> (Skip(marks, p.slots[i].path) <==> Skip(p.marks, p.slots[i].path)))
      && (forall r, i :: 0 <= i < |p.slots| && r in p.records ==> (Reaches(marks, p.slots, r, i) <==> Reaches(p.marks, p.slots, r, i)))
    case Move(e, paths) => forall i :: i in paths ==> i < |p.slots| && e in paths[i]
    case Loaded => p.loading
    case Deliver => p.observing && !p.loading
    case _ => true
  }

  function Observed(p: Page, r: Record): seq<Record> { if p.observing then p.records + [r] else p.records }

  function Shown(slots: seq<Slot>): (r: seq<string>)
    ensures |r| == |slots| && forall i :: 0 <= i < |slots| ==> r[i] == slots[i].shown
  {
    seq(|slots|, i requires 0 <= i < |slots| => slots[i].shown)
  }

  function Moved(slots: seq<Slot>, paths: map<nat, seq<nat>>): (r: seq<Slot>)
    ensures |r| == |slots|
    ensures forall i :: 0 <= i < |slots| ==> r[i] == if i in paths then slots[i].(path := paths[i]) else slots[i]
  {
    seq(|slots|, i requires 0 <= i < |slots| => if i in paths then slots[i].(path := paths[i]) else slots[i])
  }

  function Step(p: Page, e: Event, tr: Translation): Page
    requires Enabled(p, e)
  {
    match e
    case Write(i, text) =>
      p.(slots := p.slots[i := Written(p.slots[i], text)],
         app := if i < |p.app| then p.app[i := text] else p.app,
         records := Observed(p, if p.slots[i].attribute && p.slots[i].path != [] then Attributes(p.slots[i].path[|p.slots[i].path| - 1]) else CharacterData(i)))
    case AddText(path, text) =>
      p.(slots := p.slots + [Slot(path, false, text, None)], app := p.app + [text], records := Observed(p, AddedText(|p.slots|)))
    case AddAttribute(path, text) =>
      p.(slots := p.slots + [Slot(path, true, text, None)], app := p.app + [text], records := Observed(p, Attributes(path[|path| - 1])))
    case Move(e, paths) => p.(slots := Moved(p.slots, paths), records := Observed(p, AddedElement(e)))
    case AddElement(e, slots, marks) =>
      p.(marks := marks, slots := p.slots + slots, app := p.app + Shown(slots), records := Observed(p, AddedElement(e)))
    case Switch(ui) => p.(ui := ui, loading := true, observing := false, records := [])
    case Loaded => p.(slots := FullWalk(p.marks, p.slots, p.ui, tr), loading := false, observing := p.ui != Uz, records := [])
    case Deliver => p.(slots := Handle(p.marks, p.slots, p.records, p.ui, tr), records := [])
  }

  /**
   * Writes are fresh, a walk from an added or moved element reaches all that a full walk
   * would, and nothing is moved from where it is translated to where it is not.
   */
  ghost predicate Good(p: Page, e: Event) {
    match e
    case Write(i, text) => i < |p.slots| ==> FreshWrite(p.slots[i], text)
    case AddElement(e, slots, marks) => e in marks.skipTags ==> forall i :: 0 <= i < |slots| ==> !Meant(marks, slots[i])
    case Move(e, paths) => forall i :: i in paths && i < |p.slots| ==>
      if Meant(p.marks, p.slots[i].(path := paths[i])) then e !in p.marks.skipTags else !Meant(p.marks, p.slots[i])
    case _ => true
  }

  ghost predicate IsRun(p: Page, events: seq<Event>, tr: Translation)
    decreases |events|
  {
    events == [] || (Enabled(p, events[0]) && Good(p, events[0]) && IsRun(Step(p, events[0], tr), events[1..], tr))
  }

  function After(p: Page, events: seq<Event>, tr: Translation): Page
    requires IsRun(p, events, tr)
    decreases |events|
  {
    if events == [] then p else After(Step(p, events[0], tr), events[1..], tr)
  }

  predicate Pending(p: Page, i: nat) {
    exists n :: 0 <= n < |p.records| && Reaches(p.marks, p.slots, p.records[n], i)
  }

  /** Place i: skipped and as the app wrote it; or up to date, or about to be. */
  ghost predicate PlaceOk(p: Page, i: nat, tr: Translation)
    requires i < |p.slots| == |p.app|
  {
    && Faithful(p.slots[i], p.app[i])
    && (!Translatable(p.marks, p.slots[i]) ==> p.slots[i].shown == p.app[i] && p.slots[i].memo.None?)
    && (Translatable(p.marks, p.slots[i]) && !p.loading ==> p.slots[i].shown == tr(p.ui, p.app[i]) || Pending(p, i))
  }

  ghost predicate PageOk(p: Page, tr: Translation) {
    && |p.slots| == |p.app|
    && p.observing == (!p.loading && p.ui != Uz)
    && (!p.observing ==> p.records == [])
    && (forall i :: 0 <= i < |p.slots| ==> PlaceOk(p, i, tr))
  }

  lemma FullWalkOk(p: Page, tr: Translation)
    requires PageOk(p, tr) && p.loading
    ensures PageOk(Step(p, Loaded, tr), tr)
  {
    var q := Step(p, Loaded, tr);
    forall i | 0 <= i < |q.slots| ensures PlaceOk(q, i, tr) {
      assert PlaceOk(p, i, tr);
      ApplyShowsTheTranslation(p.slots[i], p.app[i], p.ui, tr);
    }
  }

  lemma WriteOk(p: Page, i: nat, text: string, tr: Translation)
    requires PageOk(p, tr) && i < |p.slots| && FreshWrite(p.slots[i], text) && UzbekIsIdentity(tr)
    ensures PageOk(Step(p, Write(i, text), tr), tr)
  {
    var q := Step(p, Write(i, text), tr);
    forall k | 0 <= k < |q.slots| ensures PlaceOk(q, k, tr) {
      assert PlaceOk(p, k, tr);
      if k == i {
        if Translatable(q.marks, q.slots[k]) && q.observing {
          assert Reaches(q.marks, q.slots, q.records[|p.records|], k);
        }
      } else if Pending(p, k) {
        var n :| 0 <= n < |p.records| && Reaches(p.marks, p.slots, p.records[n], k);
        assert Reaches(q.marks, q.slots, q.records[n], k);
      }
    }
  }

  lemma AddTextOk(p: Page, path: seq<nat>, text: string, tr: Translation)
    requires PageOk(p, tr) && path != [] && UzbekIsIdentity(tr)
    ensures PageOk(Step(p, AddText(path, text), tr), tr)
  {
    var q := Step(p, AddText(path, text), tr);
    forall k | 0 <= k < |q.slots| ensures PlaceOk(q, k, tr) {
      if k == |p.slots| {
        if Translatable(q.marks, q.slots[k]) && q.observing {
          assert Reaches(q.marks, q.slots, q.records[|p.records|], k);
        }
      } else {
        assert PlaceOk(p, k, tr);
        if Pending(p, k) {
          var n :| 0 <= n < |p.records| && Reaches(p.marks, p.slots, p.records[n], k);
          assert Reaches(q.marks, q.slots, q.records[n], k);
        }
      }
    }
  }

  lemma AddAttributeOk(p: Page, path: seq<nat>, text: string, tr: Translation)
    requires PageOk(p, tr) && path != [] && UzbekIsIdentity(tr)
    ensures PageOk(Step(p, AddAttribute(path, text), tr), tr)
  {
    var q := Step(p, AddAttribute(path, text), tr);
    forall k | 0 <= k < |q.slots| ensures PlaceOk(q, k, tr) {
      if k == |p.slots| {
        if Translatable(q.marks, q.slots[k]) && q.observing {
          assert Reaches(q.marks, q.slots, q.records[|p.records|], k);
        }
      } else {
        assert PlaceOk(p, k, tr);
        if Pending(p, k) {
          var n :| 0 <= n < |p.records| && Reaches(p.marks, p.slots, p.records[n], k);
          assert Reaches(q.marks, q.slots, q.records[n], k);
        }
      }
    }
  }

  lemma MoveOk(p: Page, e: Event, tr: Translation)
    requires PageOk(p, tr) && e.Move? && Enabled(p, e) && Good(p, e) && UzbekIsIdentity(tr)
    ensures PageOk(Step(p, e, tr), tr)
  {
    hide UnderRoot, Skip, Meant;
    var q := Step(p, e, tr);
    forall k | 0 <= k < |q.slots| ensures PlaceOk(q, k, tr) {
      assert PlaceOk(p, k, tr);
      if k in e.paths {
        TranslatableIsMeant(p.marks, p.slots[k]);
        TranslatableIsMeant(q.marks, q.slots[k]);
        UnderRootMeans(q.marks, e.element, q.slots[k]);
        if Translatable(q.marks, q.slots[k]) && q.observing {
          assert Reaches(q.marks, q.slots, q.records[|p.records|], k);
        }
      } else if Pending(p, k) {
        var n :| 0 <= n < |p.records| && Reaches(p.marks, p.slots, p.records[n], k);
        assert Reaches(q.marks, q.slots, q.records[n], k);
      }
    }
  }

  lemma AddElementOk(p: Page, e: Event, tr: Translation)
    requires PageOk(p, tr) && e.AddElement? && Enabled(p, e) && Good(p, e) && UzbekIsIdentity(tr)
    ensures PageOk(Step(p, e, tr), tr)
  {
    var q := Step(p, e, tr);
    forall k | 0 <= k < |q.slots| ensures PlaceOk(q, k, tr) {
      if k < |p.slots| {
        assert PlaceOk(p, k, tr);
        if Pending(p, k) {
          var n :| 0 <= n < |p.records| && Reaches(p.marks, p.slots, p.records[n], k);
          assert p.records[n] in p.records;
          assert Reaches(q.marks, p.slots, p.records[n], k);
          assert Reaches(q.marks, q.slots, q.records[n], k);
        }
      } else {
        assert q.slots[k] == e.slots[k - |p.slots|];
        TranslatableIsMeant(q.marks, q.slots[k]);
        UnderRootMeans(q.marks, e.element, q.slots[k]);
        if Translatable(q.marks, q.slots[k]) && q.observing {
          assert Reaches(q.marks, q.slots, q.records[|p.records|], k);
        }
      }
    }
  }

  /** Handling records touches each place it reaches exactly as one pass would. */
  lemma {:induction false} HandleOk(m: Marks, slots: seq<Slot>, app: seq<string>, records: seq<Record>, ui: Locale, tr: Translation)
    requires |slots| == |app| && (forall i :: 0 <= i < |slots| ==> Faithful(slots[i], app[i]))
    ensures var after := Handle(m, slots, records, ui, tr);
      |after| == |slots| && forall i :: 0 <= i < |slots| ==>
        after[i] == if exists n :: 0 <= n < |records| && Reaches(m, slots, records[n], i) then Apply(slots[i], ui, tr) else slots[i]
    decreases |records|
  {
    if records != [] {
      var next := ApplyWhere(slots, Reached(m, slots, records[0]), ui, tr);
      forall i | 0 <= i < |slots| ensures Faithful(next[i], app[i]) && Apply(next[i], ui, tr) == Apply(slots[i], ui, tr) {
        ApplyShowsTheTranslation(slots[i], app[i], ui, tr);
      }
      HandleOk(m, next, app, records[1..], ui, tr);
      var after := Handle(m, slots, records, ui, tr);
      forall i | 0 <= i < |slots| ensures
        after[i] == if exists n :: 0 <= n < |records| && Reaches(m, slots, records[n], i) then Apply(slots[i], ui, tr) else slots[i]
      {
        SameReach(m, slots, next, i, records);
      }
    }
  }

  lemma SameReach(m: Marks, slots: seq<Slot>, next: seq<Slot>, i: nat, records: seq<Record>)
    requires |next| == |slots| && i < |slots| && records != []
    requires next[i].path == slots[i].path && next[i].attribute == slots[i].attribute
    ensures (exists n :: 0 <= n < |records| && Reaches(m, slots, records[n], i))
      <==> Reaches(m, slots, records[0], i) || exists n :: 0 <= n < |records[1..]| && Reaches(m, next, records[1..][n], i)
  {
    forall r ensures Reaches(m, slots, r, i) == Reaches(m, next, r, i) {}
    if n :| 0 <= n < |records| && Reaches(m, slots, records[n], i) {
      if n > 0 { assert Reaches(m, next, records[1..][n - 1], i); }
    }
    if n :| 0 <= n < |records[1..]| && Reaches(m, next, records[1..][n], i) {
      assert Reaches(m, slots, records[n + 1], i);
    }
  }

  lemma DeliverOk(p: Page, tr: Translation)
    requires PageOk(p, tr) && p.observing
    ensures PageOk(Step(p, Deliver, tr), tr)
  {
    var q := Step(p, Deliver, tr);
    forall i | 0 <= i < |p.slots| ensures Faithful(p.slots[i], p.app[i]) { assert PlaceOk(p, i, tr); }
    HandleOk(p.marks, p.slots, p.app, p.records, p.ui, tr);
    forall i | 0 <= i < |q.slots| ensures PlaceOk(q, i, tr) {
      assert PlaceOk(p, i, tr);
      ApplyShowsTheTranslation(p.slots[i], p.app[i], p.ui, tr);
    }
  }

  lemma StepOk(p: Page, e: Event, tr: Translation)
    requires PageOk(p, tr) && UzbekIsIdentity(tr) && Enabled(p, e) && Good(p, e)
    ensures PageOk(Step(p, e, tr), tr)
  {
    match e
    case Write(i, text) => WriteOk(p, i, text, tr);
    case AddText(path, text) => AddTextOk(p, path, text, tr);
    case AddAttribute(path, text) => AddAttributeOk(p, path, text, tr);
    case AddElement(_, _, _) => AddElementOk(p, e, tr);
    case Move(_, _) => MoveOk(p, e, tr);
    case Switch(ui) =>
      var q := Step(p, e, tr);
      forall i | 0 <= i < |q.slots| ensures PlaceOk(q, i, tr) { assert PlaceOk(p, i, tr); }
    case Loaded => FullWalkOk(p, tr);
    case Deliver => DeliverOk(p, tr);
  }

  /** Nothing is under way: the table is loaded and no record waits. */
  predicate Quiet(p: Page) { !p.loading && p.records == [] }

  lemma {:induction false} RunOk(p: Page, events: seq<Event>, tr: Translation)
    requires PageOk(p, tr) && UzbekIsIdentity(tr) && IsRun(p, events, tr)
    ensures PageOk(After(p, events, tr), tr)
    decreases |events|
  {
    hide PageOk, Step, Enabled, Good;
    if events != [] {
      StepOk(p, events[0], tr);
      RunOk(Step(p, events[0], tr), events[1..], tr);
    }
  }

  /** What the events alone say: the locale last chosen; then the texts last written, and the marks last given. */
  function LastLocale(ui: Locale, events: seq<Event>): Locale
    decreases |events|
  {
    if events == [] then ui else LastLocale(if events[0].Switch? then events[0].ui else ui, events[1..])
  }

  function LastTexts(texts: seq<string>, events: seq<Event>): seq<string>
    decreases |events|
  {
    if events == [] then texts
    else LastTexts(match events[0]
                   case Write(i, text) => if i < |texts| then texts[i := text] else texts
                   case AddText(_, text) => texts + [text]
                   case AddAttribute(_, text) => texts + [text]
                   case AddElement(_, slots, _) => texts + Shown(slots)
                   case _ => texts, events[1..])
  }

  function LastMarks(marks: Marks, events: seq<Event>): Marks
    decreases |events|
  {
    if events == [] then marks else LastMarks(if events[0].AddElement? then events[0].marks else marks, events[1..])
  }

  lemma {:induction false} RunFollows(p: Page, events: seq<Event>, tr: Translation)
    requires IsRun(p, events, tr)
    ensures var q := After(p, events, tr);
      q.ui == LastLocale(p.ui, events) && q.app == LastTexts(p.app, events) && q.marks == LastMarks(p.marks, events)
    decreases |events|
  {
    hide Enabled, Good;
    if events != [] {
      RunFollows(Step(p, events[0], tr), events[1..], tr);
    }
  }

  /** The page as the app has rendered it, before the first table has arrived. */
  function FirstPage(marks: Marks, slots: seq<Slot>, ui: Locale): Page {
    Page(marks, slots, Shown(slots), ui, true, false, [])
  }

  /**
   * From the page as rendered, over any interleaving of app writes, added and moved content,
   * locale switches and passes, the page at rest shows in every place meant for it the
   * translation of the last text the app wrote, and everywhere else that text itself; in
   * Uzbek it shows exactly what the app wrote.
   */
  lemma PageShowsTranslations(marks: Marks, slots: seq<Slot>, ui: Locale, events: seq<Event>, tr: Translation)
    requires UzbekIsIdentity(tr) && forall i :: 0 <= i < |slots| ==> slots[i].memo.None?
    requires IsRun(FirstPage(marks, slots, ui), events, tr)
    ensures var q := After(FirstPage(marks, slots, ui), events, tr);
      && |q.slots| == |q.app| && q.app == LastTexts(Shown(slots), events)
      && q.ui == LastLocale(ui, events) && q.marks == LastMarks(marks, events)
      && (Quiet(q) ==> forall i :: 0 <= i < |q.slots| ==>
            q.slots[i].shown == if Meant(q.marks, q.slots[i]) then tr(q.ui, q.app[i]) else q.app[i])
      && (Quiet(q) && q.ui == Uz ==> forall i :: 0 <= i < |q.slots| ==> q.slots[i].shown == q.app[i])
  {
    hide IsRun, After, Translatable, Meant;
    var p := FirstPage(marks, slots, ui);
    RunOk(p, events, tr);
    RunFollows(p, events, tr);
    var q := After(p, events, tr);
    if Quiet(q) {
      forall i | 0 <= i < |q.slots| ensures q.slots[i].shown == if Meant(q.marks, q.slots[i]) then tr(q.ui, q.app[i]) else q.app[i] {
        assert PlaceOk(q, i, tr);
        TranslatableIsMeant(q.marks, q.slots[i]);
      }
    }
  }

  /** Handling the waiting records gives the same page as a fresh walk of the whole body. */
  lemma RecordsDoAsFullWalk(p: Page, tr: Translation)
    requires PageOk(p, tr) && p.observing
    ensures Shown(Handle(p.marks, p.slots, p.records, p.ui, tr)) == Shown(FullWalk(p.marks, p.slots, p.ui, tr))
  {
    var a, b := Step(p, Deliver, tr), FullWalk(p.marks, p.slots, p.ui, tr);
    DeliverOk(p, tr);
    forall i | 0 <= i < |p.slots| ensures Faithful(p.slots[i], p.app[i]) { assert PlaceOk(p, i, tr); }
    HandleOk(p.marks, p.slots, p.app, p.records, p.ui, tr);
    forall i | 0 <= i < |p.slots| ensures a.slots[i].shown == b[i].shown {
      assert PlaceOk(a, i, tr) && PlaceOk(p, i, tr);
      ApplyShowsTheTranslation(p.slots[i], p.app[i], p.ui, tr);
    }
  }

  /** In every page a run reaches, whenever the observer is called. */
  lemma IncrementalEqualsFull(marks: Marks, slots: seq<Slot>, ui: Locale, events: seq<Event>, tr: Translation)
    requires UzbekIsIdentity(tr) && forall i :: 0 <= i < |slots| ==> slots[i].memo.None?
    requires IsRun(FirstPage(marks, slots, ui), events, tr)
    ensures var q := After(FirstPage(marks, slots, ui), events, tr);
      q.observing ==> Shown(Handle(q.marks, q.slots, q.records, q.ui, tr)) == Shown(FullWalk(q.marks, q.slots, q.ui, tr))
  {
    hide IsRun, After, Handle, FullWalk;
    RunOk(FirstPage(marks, slots, ui), events, tr);
    var q := After(FirstPage(marks, slots, ui), events, tr);
    if q.observing { RecordsDoAsFullWalk(q, tr); }
  }

  /** The place of a new element is meant to be translated, but the element's own tag is skipped. */
  ghost predicate PassedOver(m: Marks, element: nat, s: Slot) {
    Meant(m, s) && element in m.skipTags
  }

  lemma AddedPlaceDiffers(p: Page, e: Event, tr: Translation, i: nat)
    requires PageOk(p, tr) && Quiet(p) && p.observing && e.AddElement? && Enabled(p, e)
    requires i < |p.slots| + |e.slots|
    ensures var q := Step(p, e, tr); var s := q.slots[i];
      Handle(q.marks, q.slots, q.records, q.ui, tr)[i].shown == FullWalk(q.marks, q.slots, q.ui, tr)[i].shown
      <==> (i >= |p.slots| && PassedOver(q.marks, e.element, s) ==> tr(p.ui, s.shown) == s.shown)
  {
    hide UnderRoot, Skip, Handle, Meant;
    var q := Step(p, e, tr);
    TranslatableIsMeant(q.marks, q.slots[i]);
    UnderRootMeans(q.marks, e.element, q.slots[i]);
    forall k | 0 <= k < |q.slots| ensures Faithful(q.slots[k], q.app[k]) {
      if k < |p.slots| { assert PlaceOk(p, k, tr); } else { assert q.slots[k] == e.slots[k - |p.slots|]; }
    }
    HandleOk(q.marks, q.slots, q.app, q.records, q.ui, tr);
    ApplyShowsTheTranslation(q.slots[i], q.app[i], q.ui, tr);
    assert q.records == [AddedElement(e.element)];
    assert (exists n :: 0 <= n < |q.records| && Reaches(q.marks, q.slots, q.records[n], i)) <==> Reaches(q.marks, q.slots, q.records[0], i);
    if i < |p.slots| {
      assert PlaceOk(p, i, tr) && q.slots[i] == p.slots[i];
    } else {
      assert q.slots[i] == e.slots[i - |p.slots|];
    }
  }

  /**
   * An added element with a skipped tag is passed over whole, while a full walk goes on
   * into it and only passes over text directly inside skipped tags. On a page at rest the
   * two agree about new content exactly when every place passed over carries text the
   * translation leaves alone.
   */
  lemma AddedElementAgreesIff(p: Page, e: Event, tr: Translation)
    requires PageOk(p, tr) && Quiet(p) && p.observing && e.AddElement? && Enabled(p, e)
    ensures var q := Step(p, e, tr);
      Shown(Handle(q.marks, q.slots, q.records, q.ui, tr)) == Shown(FullWalk(q.marks, q.slots, q.ui, tr))
      <==> forall i :: 0 <= i < |e.slots| && PassedOver(e.marks, e.element, e.slots[i]) ==> tr(p.ui, e.slots[i].shown) == e.slots[i].shown
  {
    hide Handle, FullWalk, PassedOver, Enabled, PageOk;
    var q := Step(p, e, tr);
    var a, b := Handle(q.marks, q.slots, q.records, q.ui, tr), FullWalk(q.marks, q.slots, q.ui, tr);
    if Shown(a) == Shown(b) {
      forall i | 0 <= i < |e.slots| && PassedOver(e.marks, e.element, e.slots[i]) ensures tr(p.ui, e.slots[i].shown) == e.slots[i].shown {
        var k := |p.slots| + i;
        assert q.slots[k] == e.slots[i] && Shown(a)[k] == Shown(b)[k];
        AddedPlaceDiffers(p, e, tr, k);
      }
    } else {
      var k :| 0 <= k < |q.slots| && Shown(a)[k] != Shown(b)[k];
      AddedPlaceDiffers(p, e, tr, k);
      if k >= |p.slots| { assert q.slots[k] == e.slots[k - |p.slots|]; }
    }
  }

  /** Bold text inside a preformatted block: a full walk translates it, adding the block does not. */
  lemma BoldInsidePreformatted(pre: nat, bold: nat, text: string)
    requires pre != 0 && bold != 0 && bold != pre
    ensures var m, inside, s := Marks({pre}, {}), Slot([0, pre], false, text, None), Slot([0, pre, bold], false, text, None);
      && Translatable(m, s) && !UnderRoot(m, pre, s) && PassedOver(m, pre, s)
      && !Translatable(m, inside)
  {
    var m, s := Marks({pre}, {}), Slot([0, pre, bold], false, text, None);
    assert s.path[2] == bold;
    TranslatableIsMeant(m, s);
    UnderRootMeans(m, pre, s);
  }
}
