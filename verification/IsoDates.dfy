/**
 * Date texts: what `toISOString().slice(0, 10)` prints for midnight UTC of a day, what
 * `Date.parse` reads back, and the date helpers built on the two
 * (components/content/timeline.ts:72-89, 145-148).
 */
module IsoDates {
  import opened CivilDates
  import opened Lists
  import opened Text

  /** Time values end 100,000,000 days either side of 1970 (section 21.4.1.1 of ECMA-262). */
  predicate InTimeRange(n: int) { -100_000_000 <= n <= 100_000_000 }

  predicate FourDigitYear(n: int) { 0 <= CivilOf(n).year <= 9999 }

  lemma PowersOfTen()
    ensures Pow10(2) == 100 && Pow10(4) == 10_000 && Pow10(6) == 1_000_000
  {
    assert Pow10(1) == 10;
    assert Pow10(3) == 1000;
    assert Pow10(5) == 100_000;
  }

  lemma YearBounds(n: int)
    ensures InTimeRange(n) ==> -1_000_000 < CivilOf(n).year < 1_000_000
    ensures FourDigitYear(n) ==> InTimeRange(n)
  {
    var y := YearOf(n);
    YearContains(n);
    MeanYear(y);
  }

  /** "-MM-DD" */
  function MonthDayText(c: Civil): (s: string)
    requires Valid(c)
    ensures |s| == 6
  {
    PowersOfTen();
    "-" + Digits(c.month, 2) + "-" + Digits(c.day, 2)
  }

  /** The first ten characters of the ISO text of day n; None is the RangeError of toISOString. */
  function IsoText(n: int): (r: Option<string>)
    ensures r.Some? <==> -100_000_000 <= n <= 100_000_000
  {
    if !InTimeRange(n) then None
    else
      DayRoundTrip(n);
      YearBounds(n);
      PowersOfTen();
      var c := CivilOf(n);
      if 0 <= c.year <= 9999 then Some(Digits(c.year, 4) + MonthDayText(c))
      else Some(((if c.year < 0 then "-" else "+") + Digits(if c.year < 0 then -c.year else c.year, 6) + MonthDayText(c))[..10])
  }

  predicate DateShape(s: string) {
    |s| == 10 && AllDigits(s[..4]) && s[4] == '-' && AllDigits(s[5..7]) && s[7] == '-' && AllDigits(s[8..])
  }

  function CivilText(s: string): Civil
    requires DateShape(s)
  {
    Civil(Value(s[..4]), Value(s[5..7]), Value(s[8..]))
  }

  // ---------------------------------------------------------------- reading

  predicate ShortYear(s: string) { |s| >= 4 && AllDigits(s[..4]) }

  /** A sign and six digits; -000000 is no year. */
  predicate LongYear(s: string) {
    |s| >= 7 && (s[0] == '+' || s[0] == '-') && AllDigits(s[1..7]) && !(s[0] == '-' && Value(s[1..7]) == 0)
  }

  /** What may follow a year: nothing, "-MM" or "-MM-DD"; what is not given is 1. */
  function MonthDay(rest: string): Option<(int, int)> {
    if rest == "" then Some((1, 1))
    else if |rest| == 3 && rest[0] == '-' && AllDigits(rest[1..]) then Some((Value(rest[1..]), 1))
    else if |rest| == 6 && rest[0] == '-' && AllDigits(rest[1..3]) && rest[3] == '-' && AllDigits(rest[4..])
    then Some((Value(rest[1..3]), Value(rest[4..])))
    else None
  }

  function CivilFrom(year: int, rest: string): Option<Civil> {
    var md := MonthDay(rest);
    if md.None? then None else Some(Civil(year, md.value.0, md.value.1))
  }

  function Signed(sign: char, year: int): int { if sign == '-' then -year else year }

  /** The date forms of section 21.4.1.32 of ECMA-262: YYYY and a sign with YYYYYY, with or without -MM and -MM-DD. */
  function CivilIn(s: string): Option<Civil> {
    if ShortYear(s) then CivilFrom(Value(s[..4]), s[4..])
    else if LongYear(s) then CivilFrom(Signed(s[0], Value(s[1..7])), s[7..])
    else None
  }

  /** The day `Date.parse(s + "T00:00:00Z")` stands for; None is NaN, as for every text of no such form. */
  function ParseIso(s: string): Option<int> {
    var c := CivilIn(s);
    if c.Some? && Valid(c.value) && InTimeRange(DayOf(c.value)) then Some(DayOf(c.value)) else None
  }

  lemma PlainDateReads(s: string)
    requires DateShape(s)
    ensures CivilIn(s) == Some(CivilText(s))
    ensures ParseIso(s) == if Valid(CivilText(s)) then Some(DayOf(CivilText(s))) else None
  {
    assert s[4..][1..3] == s[5..7] && s[4..][4..] == s[8..];
    if Valid(CivilText(s)) {
      PowersOfTen();
      ValueRoundTrip(s[..4]);
      CivilRoundTrip(CivilText(s));
      YearBounds(DayOf(CivilText(s)));
    }
  }

  /** A month or day that is left out is the first. */
  lemma LeftOutIsFirst(s: string)
    requires (|s| in {4, 7} && AllDigits(s[..4])) || (|s| in {7, 10} && s[0] in {'+', '-'} && AllDigits(s[1..7]))
    ensures ParseIso(s + "-01") == ParseIso(s)
  {
    hide Valid, DayOf, InTimeRange, Value;
    var t, y := s + "-01", if AllDigits(s[..4]) then 4 else 7;
    MonthDayLeftOut(s[y..]);
    assert t[..y] == s[..y] && t[y..] == s[y..] + "-01";
    assert y == 7 ==> t[1..7] == s[1..7];
  }

  lemma MonthDayLeftOut(rest: string)
    requires |rest| in {0, 3}
    ensures MonthDay(rest + "-01") == MonthDay(rest)
  {
    var t := rest + "-01";
    ReadsOne();
    if rest == "" {
      assert t[1..] == "01";
    } else {
      assert t[1..3] == rest[1..] && t[4..] == "01" && t[0] == rest[0];
    }
  }

  lemma ReadsOne()
    ensures AllDigits("01") && Value("01") == 1
  {
    assert "01"[..1] == "0" && "0"[..0] == "";
  }

  lemma TextOfCivil(c: Civil)
    requires Valid(c) && 0 <= c.year <= 9999
    ensures c.year < Pow10(4)
    ensures var s := Digits(c.year, 4) + MonthDayText(c); DateShape(s) && CivilText(s) == c
  {
    PowersOfTen();
    var s := Digits(c.year, 4) + MonthDayText(c);
    assert s[..4] == Digits(c.year, 4);
    assert s[5..7] == Digits(c.month, 2);
    assert s[8..] == Digits(c.day, 2);
    DigitsRoundTrip(c.year, 4);
    DigitsRoundTrip(c.month, 2);
    DigitsRoundTrip(c.day, 2);
  }

  /** In the years 0 to 9999 the text is YYYY-MM-DD. */
  lemma PlainText(n: int)
    requires FourDigitYear(n)
    ensures IsoText(n).Some?
    ensures var s, c := IsoText(n).value, CivilOf(n);
      && |s| == 10 && s[4] == '-' && s[7] == '-' && AllDigits(s[..4]) && AllDigits(s[5..7]) && AllDigits(s[8..])
      && Value(s[..4]) == c.year && Value(s[5..7]) == c.month && Value(s[8..]) == c.day
  {
    YearBounds(n);
    DayRoundTrip(n);
    TextOfCivil(CivilOf(n));
  }

  /** The text reads as day n. */
  predicate IsDate(s: Option<string>, n: int) {
    s.Some? && ParseIso(s.value) == Some(n)
  }

  /** Days whose first ten characters tell them: in the years 0 to 9999, or the first of a month. */
  predicate PrintsWhole(n: int) {
    FourDigitYear(n) || (InTimeRange(n) && CivilOf(n).day == 1)
  }

  lemma LongYearReads(c: Civil)
    requires Valid(c) && c.year != 0 && -1_000_000 < c.year < 1_000_000
    ensures (if c.year < 0 then -c.year else c.year) < Pow10(6)
    ensures var s := ((if c.year < 0 then "-" else "+") + Digits(if c.year < 0 then -c.year else c.year, 6) + MonthDayText(c))[..10];
      !ShortYear(s) && CivilIn(s) == Some(Civil(c.year, c.month, 1))
  {
    hide Digits, Value, AllDigits;
    PowersOfTen();
    var sign, y := if c.year < 0 then '-' else '+', if c.year < 0 then -c.year else c.year;
    var year, month := Digits(y, 6), Digits(c.month, 2);
    assert MonthDayText(c) == "-" + month + ("-" + Digits(c.day, 2));
    TenCharacters(sign, year, month, "-" + Digits(c.day, 2));
    DigitsRoundTrip(y, 6);
    DigitsRoundTrip(c.month, 2);
    var s := ([sign] + year + MonthDayText(c))[..10];
    assert [sign] + year + ("-" + month + ("-" + Digits(c.day, 2))) == [sign] + year + MonthDayText(c);
    SignIsNoDigit(s);
    assert CivilFrom(c.year, s[7..]) == Some(Civil(c.year, c.month, 1));
  }

  lemma TenCharacters(sign: char, year: string, month: string, rest: string)
    requires |year| == 6 && |month| == 2
    ensures var s := ([sign] + year + ("-" + month + rest));
      |s| >= 10 && var t := s[..10]; t[0] == sign && t[1..7] == year && t[7..] == "-" + month && t[7..][1..] == month
  {
    var t := ([sign] + year + ("-" + month + rest))[..10];
    assert t == [sign] + year + ("-" + month);
  }

  lemma SignIsNoDigit(s: string)
    requires |s| >= 4 && (s[0] == '-' || s[0] == '+')
    ensures !ShortYear(s)
  {
    assert s[..4][0] == s[0] && !IsDigit(s[0]);
  }

  /**
   * A day prints as a text that reads back as that day exactly in the years 0 to 9999 and
   * on the first of a month: with six digits for the year, ten characters end at the month.
   */
  lemma IsoRoundTripIff(n: int)
    ensures IsDate(IsoText(n), n) <==> PrintsWhole(n)
  {
    DayRoundTrip(n);
    YearBounds(n);
    PowersOfTen();
    var c := CivilOf(n);
    if FourDigitYear(n) {
      TextOfCivil(c);
      PlainDateReads(IsoText(n).value);
    } else if InTimeRange(n) {
      hide CivilIn;
      LongYearReads(c);
      FirstOfMonth(c);
    }
  }

  lemma FirstOfMonth(c: Civil)
    requires Valid(c)
    ensures var first := Civil(c.year, c.month, 1); Valid(first) && (DayOf(first) == DayOf(c) <==> c.day == 1)
  {}

  /** Read and printed again a text comes back exactly when it has ten characters and no needless sign. */
  lemma ParseRoundTripIff(s: string)
    requires ParseIso(s).Some?
    ensures IsoText(ParseIso(s).value) == Some(s) <==> |s| == 10 && (ShortYear(s) || !FourDigitYear(ParseIso(s).value))
  {
    var n, c := ParseIso(s).value, CivilIn(s).value;
    CivilRoundTrip(c);
    YearBounds(n);
    PowersOfTen();
    if |s| == 10 {
      if ShortYear(s) { ShortTextPrints(s); } else { LongTextPrints(s); }
    } else if FourDigitYear(n) {
      assert |IsoText(n).value| == 10;
    }
  }

  lemma ShortTextPrints(s: string)
    requires ParseIso(s).Some? && |s| == 10 && ShortYear(s)
    ensures DateShape(s) && FourDigitYear(ParseIso(s).value) && IsoText(ParseIso(s).value) == Some(s)
  {
    hide Digits, Value, DayOf, CivilOf, Pow10;
    assert |s[4..]| == 6 && s[4..][0] == s[4] && s[4..][3] == s[7];
    assert s[4..][1..3] == s[5..7] && s[4..][4..] == s[8..];
    var c := CivilText(s);
    PlainDateReads(s);
    PowersOfTen();
    ValueRoundTrip(s[..4]);
    ValueRoundTrip(s[5..7]);
    ValueRoundTrip(s[8..]);
    CivilRoundTrip(c);
    assert s == s[..4] + "-" + s[5..7] + "-" + s[8..];
    assert s == Digits(c.year, 4) + MonthDayText(c);
  }

  lemma LongTextPrints(s: string)
    requires ParseIso(s).Some? && |s| == 10 && !ShortYear(s)
    ensures IsoText(ParseIso(s).value) == Some(s) <==> !FourDigitYear(ParseIso(s).value)
  {
    hide Digits, Value, DayOf, CivilOf, Pow10;
    var n, c := ParseIso(s).value, CivilIn(s).value;
    PowersOfTen();
    CivilRoundTrip(c);
    YearBounds(n);
    if FourDigitYear(n) {
      var t := IsoText(n).value;
      assert t[..4] == Digits(c.year, 4) && ShortYear(t);
    } else {
      ValueRoundTrip(s[1..7]);
      assert |s[7..]| == 3 && s[7..][1..] == s[8..];
      ValueRoundTrip(s[8..]);
      assert s == [s[0]] + s[1..7] + "-" + s[8..];
      assert c.day == 1 && c.month == Value(s[8..]);
      var whole := (if c.year < 0 then "-" else "+") + Digits(if c.year < 0 then -c.year else c.year, 6) + MonthDayText(c);
      assert whole[..10] == s;
    }
  }

  lemma TextOrder(a: Civil, b: Civil)
    requires Valid(a) && Valid(b) && 0 <= a.year <= 9999 && 0 <= b.year <= 9999
    ensures a.year < Pow10(4) && b.year < Pow10(4)
    ensures Less(Digits(a.year, 4) + MonthDayText(a), Digits(b.year, 4) + MonthDayText(b)) <==> Before(a, b)
  {
    PowersOfTen();
    if a.year != b.year {
      DigitsDiffer(a.year, b.year, 4);
      LessBySameLengthPrefix(Digits(a.year, 4), Digits(b.year, 4), MonthDayText(a), MonthDayText(b));
      DigitsOrder(a.year, b.year, 4);
    } else {
      LessUnderPrefix(Digits(a.year, 4), MonthDayText(a), MonthDayText(b));
      MonthDayOrder(a, b);
    }
  }

  lemma MonthDayOrder(a: Civil, b: Civil)
    requires Valid(a) && Valid(b)
    ensures Less(MonthDayText(a), MonthDayText(b)) <==> a.month < b.month || (a.month == b.month && a.day < b.day)
  {
    PowersOfTen();
    var x, y := Digits(a.month, 2), Digits(b.month, 2);
    var u, v := "-" + Digits(a.day, 2), "-" + Digits(b.day, 2);
    assert MonthDayText(a) == "-" + (x + u) && MonthDayText(b) == "-" + (y + v);
    LessUnderPrefix("-", x + u, y + v);
    if a.month != b.month {
      DigitsDiffer(a.month, b.month, 2);
      LessBySameLengthPrefix(x, y, u, v);
      DigitsOrder(a.month, b.month, 2);
    } else {
      LessUnderPrefix(x, u, v);
      LessUnderPrefix("-", Digits(a.day, 2), Digits(b.day, 2));
      DigitsOrder(a.day, b.day, 2);
    }
  }

  /** Plain dates sort as texts exactly as their days do. */
  lemma IsoOrder(n: int, m: int)
    requires FourDigitYear(n) && FourDigitYear(m)
    ensures IsoText(n).Some? && IsoText(m).Some?
    ensures Less(IsoText(n).value, IsoText(m).value) <==> n < m
  {
    DayRoundTrip(n);
    DayRoundTrip(m);
    YearBounds(n);
    YearBounds(m);
    TextOrder(CivilOf(n), CivilOf(m));
    DayOrder(CivilOf(n), CivilOf(m));
  }

  // ---------------------------------------------------------------- adding and ranging

  /** None is the RangeError of an invalid date. */
  function AddDays(iso: string, k: int): Option<string> {
    var n := ParseIso(iso);
    if n.None? then None else IsoText(n.value + k)
  }

  /** Adding days to a date gives a text that reads as the date that far away exactly when that day prints whole. */
  lemma AddDaysIff(iso: string, n: int, k: int)
    requires ParseIso(iso) == Some(n)
    ensures IsDate(AddDays(iso, k), n + k) <==> PrintsWhole(n + k)
  {
    hide ParseIso, IsoText, PrintsWhole;
    IsoRoundTripIff(n + k);
    assert AddDays(iso, k) == IsoText(n + k);
  }

  lemma AddDaysComposes(iso: string, n: int, a: int, b: int, mid: string)
    requires ParseIso(iso) == Some(n) && PrintsWhole(n + a) && AddDays(iso, a) == Some(mid)
    ensures AddDays(mid, b) == AddDays(iso, a + b)
    ensures AddDays(mid, -a) == Some(iso) <==> |iso| == 10 && (ShortYear(iso) || !FourDigitYear(n))
  {
    hide ParseIso, IsoText, PrintsWhole, ShortYear, FourDigitYear;
    IsoRoundTripIff(n + a);
    ParseRoundTripIff(iso);
    assert AddDays(iso, a) == IsoText(n + a);
    assert n + a + b == n + (a + b) && n + a + -a == n;
  }

  /** `Math.round((next - prev) / day) - 1`, on midnights. */
  function EmptyRun(prev: int, next: int): int { next - prev - 1 }

  /** The texts of k days from n on. */
  function Texts(n: int, k: nat): (out: seq<Option<string>>)
    ensures |out| == k
  {
    if k == 0 then [] else Texts(n, k - 1) + [IsoText(n + k - 1)]
  }

  /** Every date from `from` to `to`; a text that does not read is a NaN bound, and the loop does not start. */
  method DateRange(from: string, to: string) returns (out: seq<Option<string>>)
    ensures var first, last := ParseIso(from), ParseIso(to);
      out == if first.None? || last.None? || last.value < first.value then []
             else Texts(first.value, EmptyRun(first.value, last.value) + 2)
  {
    hide ParseIso, IsoText;
    out := [];
    var first, last := ParseIso(from), ParseIso(to);
    if first.None? || last.None? {
      return;
    }
    var t := first.value;
    while t <= last.value
      invariant first.value <= t && (t <= last.value + 1 || t == first.value)
      invariant out == Texts(first.value, t - first.value)
    {
      out := out + [IsoText(t)];
      t := t + 1;
    }
  }

  /**
   * The i-th text of the range reads as the first day plus i exactly when that day prints
   * whole; between four-digit years all do, so the range is consecutive.
   */
  lemma {:induction false} RangeIsConsecutive(n: int, k: nat, i: nat)
    requires i < k
    ensures IsDate(Texts(n, k)[i], n + i) <==> PrintsWhole(n + i)
    decreases k
  {
    hide ParseIso, IsoText, PrintsWhole;
    if i == k - 1 {
      IsoRoundTripIff(n + i);
    } else {
      RangeIsConsecutive(n, k - 1, i);
    }
  }

  lemma YearsBetween(n: int, t: int, m: int)
    requires n <= t <= m && FourDigitYear(n) && FourDigitYear(m)
    ensures FourDigitYear(t)
  {
    YearContains(n);
    YearContains(t);
    YearContains(m);
    if YearOf(t) < YearOf(n) { YearsIncrease(YearOf(t), YearOf(n)); }
    if YearOf(m) < YearOf(t) { YearsIncrease(YearOf(m), YearOf(t)); }
  }

  /** From one four-digit year to another the range lists the day of each position, both bounds among them. */
  lemma RangeOfPlainDates(n: int, m: int, i: nat)
    requires FourDigitYear(n) && FourDigitYear(m) && n <= m && i < EmptyRun(n, m) + 2
    ensures IsDate(Texts(n, EmptyRun(n, m) + 2)[i], n + i)
    ensures n + (EmptyRun(n, m) + 1) == m
  {
    hide IsDate, Texts, FourDigitYear;
    YearsBetween(n, n + i, m);
    RangeIsConsecutive(n, EmptyRun(n, m) + 2, i);
  }

  /** Past the year 9999 the text is cut at the month: the first of a month is told, the next day is not. */
  lemma FirstsOutliveFourDigits()
    ensures var n := DayOf(Civil(9999, 12, 31)); var last := IsoText(n);
      IsDate(last, n) && IsDate(AddDays(last.value, 1), n + 1) && !IsDate(AddDays(last.value, 2), n + 2)
  {
    hide IsoText, CivilOf, ParseIso;
    var a, b, c := Civil(9999, 12, 31), Civil(10000, 1, 1), Civil(10000, 1, 2);
    CivilRoundTrip(a);
    CivilRoundTrip(b);
    CivilRoundTrip(c);
    MonthTable(false);
    var n := DayOf(a);
    assert DayOf(b) == n + 1 && DayOf(c) == n + 2;
    IsoRoundTripIff(n);
    AddDaysIff(IsoText(n).value, n, 1);
    AddDaysIff(IsoText(n).value, n, 2);
  }
}
