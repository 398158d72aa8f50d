/**
 * `appendHashtags` (components/content/ai-caption-panel.tsx:33-39): a scanner for the tags a
 * caption has and a printer for those it lacks. The Unicode tables are parameters.
 */
module Hashtags {
  import opened Lists

  /** `[\p{L}\p{N}_]`, what trim() removes, and toLowerCase(). */
  datatype Alphabet = Alphabet(isWord: char -> bool, isSpace: char -> bool, lower: string -> string)

  ghost predicate Sound(a: Alphabet) {
    && !a.isWord('#') && !a.isSpace('#') && a.isSpace(' ') && a.isSpace('\n')
    && forall c :: a.isSpace(c) ==> !a.isWord(c)
  }

  // ---------------------------------------------------------------- the code

  function WordLength(a: Alphabet, s: string): (n: nat)
    ensures n <= |s| && (forall i :: 0 <= i < n ==> a.isWord(s[i])) && (n < |s| ==> !a.isWord(s[n]))
  {
    if s == [] || !a.isWord(s[0]) then 0 else 1 + WordLength(a, s[1..])
  }

  /** `caption.match(/#[\p{L}\p{N}_]+/gu)`, each match without its `#`. */
  function Scan(a: Alphabet, s: string): seq<string>
    decreases |s|
  {
    if s == [] then []
    else
      var n := WordLength(a, s[1..]);
      if s[0] == '#' && n > 0 then [s[1..][..n]] + Scan(a, s[1..][n..]) else Scan(a, s[1..])
  }

  function Lowered(a: Alphabet, tags: seq<string>): set<string> { set t | t in tags :: a.lower(t) }

  function Lacks(a: Alphabet, caption: string): string -> bool {
    (t: string) => a.lower(t) !in Lowered(a, Scan(a, caption))
  }

  function Fresh(a: Alphabet, caption: string, tags: seq<string>): seq<string> { Filter(tags, Lacks(a, caption)) }

  /** `fresh.map((t) => "#" + t).join(" ")` */
  function Print(tags: seq<string>): (r: string)
    ensures tags != [] ==> r != [] && r[0] == '#'
  {
    if tags == [] then "" else if |tags| == 1 then "#" + tags[0] else "#" + tags[0] + " " + Print(tags[1..])
  }

  function TrimEnd(a: Alphabet, s: string): (r: string)
    ensures r <= s && forall i :: |r| <= i < |s| ==> a.isSpace(s[i])
    ensures r != [] ==> !a.isSpace(r[|r| - 1])
  {
    if s == [] || !a.isSpace(s[|s| - 1]) then s else TrimEnd(a, s[..|s| - 1])
  }

  predicate Blank(a: Alphabet, s: string) { forall c :: c in s ==> a.isSpace(c) }

  function AppendHashtags(a: Alphabet, caption: string, tags: seq<string>): string {
    var missing := Fresh(a, caption, tags);
    if missing == [] then caption
    else TrimEnd(a, caption) + (if Blank(a, caption) then "" else "\n\n") + Print(missing)
  }

  // ---------------------------------------------------------------- what is printed

  /** Each further tag stands behind a space and its `#`. */
  lemma {:induction false} PrintOneMore(tags: seq<string>, t: string)
    ensures Print(tags + [t]) == if tags == [] then "#" + t else Print(tags) + " #" + t
  {
    if tags == [] {
      assert tags + [t] == [t];
    } else {
      assert (tags + [t])[1..] == tags[1..] + [t];
      PrintOneMore(tags[1..], t);
      if |tags| == 1 {
        assert Print(tags + [t]) == "#" + tags[0] + " " + ("#" + t);
      } else {
        assert "#" + tags[0] + " " + (Print(tags[1..]) + " #" + t) == ("#" + tags[0] + " " + Print(tags[1..])) + " #" + t;
      }
    }
  }

  /**
   * The caption comes back as it is when no tag is missing; else the missing ones follow it,
   * without the space it ended in and after an empty line, or stand alone for a blank one.
   */
  lemma AppendedText(a: Alphabet, caption: string, tags: seq<string>, k: nat)
    requires k <= |caption| && (forall i :: k <= i < |caption| ==> a.isSpace(caption[i])) && (k > 0 ==> !a.isSpace(caption[k - 1]))
    ensures var missing := Fresh(a, caption, tags);
      AppendHashtags(a, caption, tags)
        == if missing == [] then caption else if k == 0 then Print(missing) else caption[..k] + "\n\n" + Print(missing)
  {
    hide Print, Fresh;
    var kept := TrimEnd(a, caption);
    assert |kept| == k && kept == caption[..k];
    if k > 0 {
      assert caption[k - 1] in caption && !Blank(a, caption);
    } else {
      assert Blank(a, caption);
    }
  }

  // ---------------------------------------------------------------- scanning

  /** A tag the scanner can read back. */
  predicate IsTag(a: Alphabet, t: string) { t != [] && forall c :: c in t ==> a.isWord(c) }

  predicate AllTags(a: Alphabet, tags: seq<string>) { forall t :: t in tags ==> IsTag(a, t) }

  lemma {:induction false} ScanFindsTags(a: Alphabet, s: string)
    ensures AllTags(a, Scan(a, s))
    decreases |s|
  {
    if s != [] {
      var n := WordLength(a, s[1..]);
      if s[0] == '#' && n > 0 { ScanFindsTags(a, s[1..][n..]); } else { ScanFindsTags(a, s[1..]); }
    }
  }

  lemma {:induction false} WordLengthAppend(a: Alphabet, s: string, t: string)
    requires t == [] || !a.isWord(t[0])
    ensures WordLength(a, s + t) == WordLength(a, s)
  {
    if s == [] {
      assert s + t == t;
    } else {
      assert (s + t)[1..] == s[1..] + t;
      WordLengthAppend(a, s[1..], t);
    }
  }

  lemma Regroup(x: seq<string>, y: seq<string>, z: seq<string>)
    ensures x + (y + z) == x + y + z
  {}

  /** Text that does not begin in the middle of a word is scanned on its own. */
  lemma {:induction false} ScanAppend(a: Alphabet, s: string, t: string)
    requires t == [] || !a.isWord(t[0])
    ensures Scan(a, s + t) == Scan(a, s) + Scan(a, t)
    decreases |s|
  {
    hide WordLength;
    if s == [] {
      assert s + t == t;
    } else {
      var rest := s[1..];
      assert (s + t)[1..] == rest + t;
      WordLengthAppend(a, rest, t);
      var n := WordLength(a, rest);
      if s[0] == '#' && n > 0 {
        assert (rest + t)[..n] == rest[..n] && (rest + t)[n..] == rest[n..] + t;
        ScanAppend(a, rest[n..], t);
        Regroup([rest[..n]], Scan(a, rest[n..]), Scan(a, t));
      } else {
        ScanAppend(a, rest, t);
      }
    }
  }

  lemma {:induction false} ScanWithoutHash(a: Alphabet, s: string)
    requires '#' !in s
    ensures Scan(a, s) == []
  {
    if s != [] {
      ScanWithoutHash(a, s[1..]);
    }
  }

  lemma TrimEndKeepsTags(a: Alphabet, s: string)
    requires Sound(a)
    ensures Scan(a, TrimEnd(a, s)) == Scan(a, s)
  {
    var r := TrimEnd(a, s);
    assert s == r + s[|r|..];
    ScanAppend(a, r, s[|r|..]);
    ScanWithoutHash(a, s[|r|..]);
  }

  lemma {:induction false} WholeWord(a: Alphabet, t: string)
    requires forall c :: c in t ==> a.isWord(c)
    ensures WordLength(a, t) == |t|
  {
    if t != [] {
      WholeWord(a, t[1..]);
    }
  }

  lemma ScanOneTag(a: Alphabet, t: string)
    requires IsTag(a, t)
    ensures Scan(a, "#" + t) == [t]
  {
    assert ("#" + t)[1..] == t;
    WholeWord(a, t);
    assert t[..|t|] == t && t[|t|..] == [];
    assert Scan(a, []) == [];
  }

  /** What scanning finds in the printed tags one by one: a word tag itself, or the words inside any other text. */
  function ScanEach(a: Alphabet, tags: seq<string>): seq<string> {
    if tags == [] then [] else Scan(a, "#" + tags[0]) + ScanEach(a, tags[1..])
  }

  lemma {:induction false} ScanPrintEach(a: Alphabet, tags: seq<string>)
    requires Sound(a)
    ensures Scan(a, Print(tags)) == ScanEach(a, tags)
  {
    hide Scan;
    if tags == [] {
      ScanWithoutHash(a, []);
    } else if |tags| == 1 {
      assert ScanEach(a, tags[1..]) == [];
    } else {
      ScanTwo(a, "#" + tags[0], Print(tags[1..]));
      ScanPrintEach(a, tags[1..]);
    }
  }

  lemma ScanTwo(a: Alphabet, first: string, rest: string)
    requires Sound(a) && (rest == "" || rest[0] == '#')
    ensures Scan(a, first + " " + rest) == Scan(a, first) + Scan(a, rest)
  {
    hide Scan;
    assert first + " " + rest == first + (" " + rest);
    ScanAppend(a, first, " " + rest);
    ScanWithoutHash(a, " ");
    ScanAppend(a, " ", rest);
    assert [] + Scan(a, rest) == Scan(a, rest);
  }

  lemma {:induction false} ScanEachMembers(a: Alphabet, tags: seq<string>)
    ensures forall m :: m in ScanEach(a, tags) <==> exists u :: u in tags && m in Scan(a, "#" + u)
  {
    hide Scan;
    if tags != [] {
      ScanEachMembers(a, tags[1..]);
      assert tags == [tags[0]] + tags[1..];
    }
  }

  lemma {:induction false} ScanEachOfTags(a: Alphabet, tags: seq<string>)
    requires AllTags(a, tags)
    ensures ScanEach(a, tags) == tags
  {
    hide Scan;
    if tags != [] {
      ScanOneTag(a, tags[0]);
      ScanEachOfTags(a, tags[1..]);
    }
  }

  /** Scanning printed word tags gives them back. */
  lemma ScanPrint(a: Alphabet, tags: seq<string>)
    requires Sound(a) && AllTags(a, tags)
    ensures Scan(a, Print(tags)) == tags
  {
    ScanPrintEach(a, tags);
    ScanEachOfTags(a, tags);
  }

  // ---------------------------------------------------------------- appending

  /** For any tags: what the caption had, then what scanning finds in the ones it lacked. */
  lemma AppendedScan(a: Alphabet, caption: string, tags: seq<string>)
    requires Sound(a)
    ensures Scan(a, AppendHashtags(a, caption, tags)) == Scan(a, caption) + ScanEach(a, Fresh(a, caption, tags))
    ensures TrimEnd(a, caption) <= AppendHashtags(a, caption, tags)
  {
    hide Scan, Print, TrimEnd, Blank, Filter;
    var missing := Fresh(a, caption, tags);
    if missing == [] {
      assert Scan(a, caption) + [] == Scan(a, caption);
    } else {
      var front, gap, printed := TrimEnd(a, caption), if Blank(a, caption) then "" else "\n\n", Print(missing);
      ScanPrintEach(a, missing);
      TrimEndKeepsTags(a, caption);
      ScanWithoutHash(a, gap);
      ScanAppend(a, gap, printed);
      ScanAppend(a, front, gap + printed);
      assert front + gap + printed == front + (gap + printed);
      assert [] + ScanEach(a, missing) == ScanEach(a, missing);
    }
  }

  /**
   * The tags of the result are the caption's own followed by exactly the ones it lacked, and
   * the caption, up to its trailing space, stays in front.
   */
  lemma AppendedTags(a: Alphabet, caption: string, tags: seq<string>)
    requires Sound(a) && AllTags(a, tags)
    ensures Scan(a, AppendHashtags(a, caption, tags)) == Scan(a, caption) + Fresh(a, caption, tags)
    ensures TrimEnd(a, caption) <= AppendHashtags(a, caption, tags)
  {
    hide Scan, Filter;
    AppendedScan(a, caption, tags);
    FilterMembers(tags, Lacks(a, caption));
    ScanEachOfTags(a, Fresh(a, caption, tags));
  }

  /** Every requested tag is among the result's, in some letter case, and none it had is lost. */
  lemma RequestedTagsArePresent(a: Alphabet, caption: string, tags: seq<string>, t: string)
    requires Sound(a) && AllTags(a, tags)
    ensures var after := Lowered(a, Scan(a, AppendHashtags(a, caption, tags)));
      after == Lowered(a, Scan(a, caption)) + Lowered(a, tags)
    ensures t in tags ==> !Lacks(a, AppendHashtags(a, caption, tags))(t)
  {
    AppendedTags(a, caption, tags);
    FilterMembers(tags, Lacks(a, caption));
    var own, missing := Scan(a, caption), Fresh(a, caption, tags);
    forall x | x in Lowered(a, tags) ensures x in Lowered(a, own + missing) {
      var u :| u in tags && a.lower(u) == x;
      if u in missing { assert u in own + missing; } else { var v :| v in own && a.lower(v) == x; assert v in own + missing; }
    }
    forall x | x in Lowered(a, own) ensures x in Lowered(a, own + missing) {
      var u :| u in own && a.lower(u) == x;
      assert u in own + missing;
    }
    assert t in tags ==> a.lower(t) in Lowered(a, tags);
  }

  lemma {:induction false} NothingFresh(a: Alphabet, caption: string, tags: seq<string>)
    ensures Fresh(a, caption, tags) == [] <==> forall t :: t in tags ==> !Lacks(a, caption)(t)
  {
    FilterMembers(tags, Lacks(a, caption));
    if Fresh(a, caption, tags) != [] {
      assert Fresh(a, caption, tags)[0] in Fresh(a, caption, tags);
    }
  }

  /** Something printed is never the text it is appended to. */
  lemma AppendingChanges(a: Alphabet, caption: string, tags: seq<string>)
    requires Sound(a) && Fresh(a, caption, tags) != []
    ensures AppendHashtags(a, caption, tags) != caption
  {
    var front, printed := TrimEnd(a, caption), Print(Fresh(a, caption, tags));
    var gap := if Blank(a, caption) then "" else "\n\n";
    var after := front + gap + printed;
    assert after[|front| + |gap|] == printed[0] == '#';
    assert |after| == |caption| ==> a.isSpace(caption[|front| + |gap|]);
  }

  // ---------------------------------------------------------------- appending twice

  /** Printed with its `#` the text is found again, up to letter case. Every word tag is. */
  predicate ReadsBack(a: Alphabet, u: string) { a.lower(u) in Lowered(a, Scan(a, "#" + u)) }

  /** Each tag reads back, or shares its lower case with a tag of the list that does. */
  predicate Readable(a: Alphabet, tags: seq<string>) {
    forall t :: t in tags ==> ReadsBackAs(a, tags, a.lower(t))
  }

  predicate ReadsBackAs(a: Alphabet, tags: seq<string>, lowered: string) {
    exists u :: u in tags && a.lower(u) == lowered && ReadsBack(a, u)
  }

  ghost predicate Idempotent(a: Alphabet, tags: seq<string>) {
    forall caption :: AppendHashtags(a, AppendHashtags(a, caption, tags), tags) == AppendHashtags(a, caption, tags)
  }

  lemma NothingFreshTwice(a: Alphabet, caption: string, tags: seq<string>)
    requires Sound(a)
    ensures AppendHashtags(a, AppendHashtags(a, caption, tags), tags) == AppendHashtags(a, caption, tags)
      <==> forall t :: t in tags ==> !Lacks(a, AppendHashtags(a, caption, tags))(t)
  {
    hide Scan, Filter, Print, TrimEnd, Blank;
    var once := AppendHashtags(a, caption, tags);
    NothingFresh(a, once, tags);
    if Fresh(a, once, tags) != [] {
      AppendingChanges(a, once, tags);
    }
  }

  lemma ReadableTwice(a: Alphabet, caption: string, tags: seq<string>, t: string)
    requires Sound(a) && Readable(a, tags) && t in tags
    ensures !Lacks(a, AppendHashtags(a, caption, tags))(t)
  {
    hide Scan, Filter, AppendHashtags;
    AppendedScan(a, caption, tags);
    var missing, once := Fresh(a, caption, tags), Scan(a, AppendHashtags(a, caption, tags));
    FilterMembers(tags, Lacks(a, caption));
    ScanEachMembers(a, missing);
    assert ReadsBackAs(a, tags, a.lower(t));
    var u :| u in tags && a.lower(u) == a.lower(t) && ReadsBack(a, u);
    if u in missing {
      var m :| m in Scan(a, "#" + u) && a.lower(m) == a.lower(u);
      assert m in ScanEach(a, missing) && m in once;
    } else {
      var m :| m in Scan(a, caption) && a.lower(m) == a.lower(u);
      assert m in once;
    }
  }

  function UnlikeTag(a: Alphabet, t: string): string -> bool { (m: string) => a.lower(m) != a.lower(t) }

  /** A caption with a word for every tag but those in the letters of t. */
  function CaptionWithout(a: Alphabet, tags: seq<string>, t: string): string {
    Print(Filter(Scan(a, AppendHashtags(a, "", tags)), UnlikeTag(a, t)))
  }

  lemma CaptionLacksOnly(a: Alphabet, tags: seq<string>, t: string, u: string)
    requires Sound(a) && u in tags && Idempotent(a, tags)
    ensures Lacks(a, CaptionWithout(a, tags, t))(u) <==> a.lower(u) == a.lower(t)
  {
    hide Scan, Filter, AppendHashtags;
    var once := Scan(a, AppendHashtags(a, "", tags));
    var words := Filter(once, UnlikeTag(a, t));
    NothingFreshTwice(a, "", tags);
    FilterMembers(once, UnlikeTag(a, t));
    ScanFindsTags(a, AppendHashtags(a, "", tags));
    ScanPrint(a, words);
    assert !Lacks(a, AppendHashtags(a, "", tags))(u);
    var m :| m in once && a.lower(m) == a.lower(u);
    if a.lower(u) != a.lower(t) {
      assert m in words;
    }
  }

  lemma IdempotentIsReadable(a: Alphabet, tags: seq<string>, t: string)
    requires Sound(a) && t in tags && Idempotent(a, tags)
    ensures ReadsBackAs(a, tags, a.lower(t))
  {
    hide Scan, Filter, AppendHashtags, CaptionWithout;
    var c := CaptionWithout(a, tags, t);
    forall u | u in tags ensures Lacks(a, c)(u) <==> a.lower(u) == a.lower(t) { CaptionLacksOnly(a, tags, t, u); }
    NothingFreshTwice(a, c, tags);
    AppendedScan(a, c, tags);
    var missing := Fresh(a, c, tags);
    FilterMembers(tags, Lacks(a, c));
    ScanEachMembers(a, missing);
    assert !Lacks(a, AppendHashtags(a, c, tags))(t) && Lacks(a, c)(t);
    var m :| m in Scan(a, AppendHashtags(a, c, tags)) && a.lower(m) == a.lower(t);
    assert m in ScanEach(a, missing);
    var u :| u in missing && m in Scan(a, "#" + u);
    assert a.lower(u) == a.lower(t) && ReadsBack(a, u);
  }

  /** Appending again changes nothing, whatever the caption, exactly when the list is readable. */
  lemma IdempotentIff(a: Alphabet, tags: seq<string>)
    requires Sound(a)
    ensures Idempotent(a, tags) <==> Readable(a, tags)
  {
    hide Scan, AppendHashtags, ReadsBackAs;
    if Readable(a, tags) {
      forall caption ensures AppendHashtags(a, AppendHashtags(a, caption, tags), tags) == AppendHashtags(a, caption, tags) {
        forall t | t in tags ensures !Lacks(a, AppendHashtags(a, caption, tags))(t) { ReadableTwice(a, caption, tags, t); }
        NothingFreshTwice(a, caption, tags);
      }
    }
    if Idempotent(a, tags) {
      forall t | t in tags ensures ReadsBackAs(a, tags, a.lower(t)) { IdempotentIsReadable(a, tags, t); }
    }
  }

  lemma WordTagsReadBack(a: Alphabet, u: string)
    requires IsTag(a, u)
    ensures ReadsBack(a, u)
  {
    ScanOneTag(a, u);
    assert u in [u];
  }

  /** For tags of word characters appending is idempotent, with any letter-case table. */
  lemma WordTagsAreIdempotent(a: Alphabet, tags: seq<string>)
    requires Sound(a) && AllTags(a, tags)
    ensures Idempotent(a, tags)
  {
    forall t | t in tags ensures ReadsBackAs(a, tags, a.lower(t)) {
      WordTagsReadBack(a, t);
    }
    IdempotentIff(a, tags);
  }

  /** Where no word has the lower case of a tag that is not one, nothing else is idempotent. */
  lemma OnlyWordTagsAreIdempotent(a: Alphabet, tags: seq<string>)
    requires Sound(a) && forall t, w :: t in tags && IsTag(a, w) && a.lower(w) == a.lower(t) ==> IsTag(a, t)
    ensures Idempotent(a, tags) <==> AllTags(a, tags)
  {
    hide Scan, AppendHashtags;
    IdempotentIff(a, tags);
    if AllTags(a, tags) {
      WordTagsAreIdempotent(a, tags);
    } else if Readable(a, tags) {
      forall t | t in tags ensures IsTag(a, t) {
        assert ReadsBackAs(a, tags, a.lower(t));
        var u :| u in tags && a.lower(u) == a.lower(t) && ReadsBack(a, u);
        var m :| m in Scan(a, "#" + u) && a.lower(m) == a.lower(u);
        ScanFindsTags(a, "#" + u);
      }
    }
  }

  /**
   * A capital I with a dot is a word, its lower case (an i and a combining dot) is not. The
   * two together are idempotent; the second alone, of which only the i is read, is not.
   */
  lemma DottedCapital(a: Alphabet, big: char, dot: char)
    requires Sound(a) && a.isWord(big) && a.isWord('i') && !a.isWord(dot)
    requires a.lower([big]) == a.lower("i" + [dot]) == "i" + [dot] && a.lower("i") == "i"
    ensures var small := "i" + [dot];
      && Idempotent(a, [[big], small]) && !AllTags(a, [[big], small])
      && !Idempotent(a, [small])
  {
    hide AppendHashtags, Idempotent, Scan;
    var small := "i" + [dot];
    BrokenTag(a, "i", dot);
    WordTagsReadBack(a, [big]);
    PairReads(a, [big], small);
    IdempotentIff(a, [[big], small]);
    assert small[1] == dot && small in [[big], small];
    assert small in [small];
    IdempotentIff(a, [small]);
  }

  /** Of a word followed by another character only the word is read. */
  lemma BrokenTag(a: Alphabet, word: string, c: char)
    requires Sound(a) && IsTag(a, word) && !a.isWord(c)
    ensures Scan(a, "#" + (word + [c])) == [word]
  {
    assert "#" + (word + [c]) == ("#" + word) + [c];
    ScanAppend(a, "#" + word, [c]);
    ScanOneTag(a, word);
    assert [c][1..] == [];
    assert Scan(a, [c]) == [];
  }

  lemma PairReads(a: Alphabet, u: string, t: string)
    requires ReadsBack(a, u) && a.lower(t) == a.lower(u)
    ensures Readable(a, [u, t])
  {
    assert u in [u, t];
    assert ReadsBackAs(a, [u, t], a.lower(u));
  }
}
