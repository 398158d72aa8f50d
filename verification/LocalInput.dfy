/**
 * The text of a `datetime-local` input and the instant it stands for
 * (components/content/shared.ts:508-518, lib/content/time.ts:43-59).
 */
module LocalInput {
  import opened CivilDates
  import opened IsoDates
  import opened Lists
  import opened Text
  import opened Zones

  /** The formatter's year: years before 1 are counted back from 1 BC. */
  function ShownYear(year: int): nat {
    if year >= 1 then year else 1 - year
  }

  /** `${year}-${pad(month)}-${pad(day)}`: the year is not padded. */
  function DateText(day: int): string {
    DayRoundTrip(day);
    NatText(ShownYear(CivilOf(day).year)) + MonthDayText(CivilOf(day))
  }

  function TimeText(minute: int): (s: string)
    requires MinuteOfDay(minute)
    ensures |s| == 5
  {
    PowersOfTen();
    Digits(minute / 60, 2) + ":" + Digits(minute % 60, 2)
  }

  function ToLocalInput(at: Option<int>, z: Zone): string {
    if at.None? then ""
    else
      SplitWall(Wall(z, at.value));
      var w := UtcToZoned(z, at.value);
      DateText(w.day) + "T" + TimeText(w.minute)
  }

  /** /^(\d{4}-\d{2}-\d{2})T(\d{2}:\d{2})/ */
  predicate InputShape(s: string) {
    |s| >= 16 && DateShape(s[..10]) && s[10] == 'T' && AllDigits(s[11..13]) && s[13] == ':' && AllDigits(s[14..16])
  }

  /** Midnight of `Date.UTC(y, m - 1, d)`: two-digit years are moved, months and days carry over. */
  function UtcDay(y: int, m: int, d: int): int {
    var year := FullYear(y);
    DayOf(Civil(year + (m - 1) / 12, (m - 1) % 12 + 1, 1)) + d - 1
  }

  function FromLocalInput(s: string, z: Zone): Option<int> {
    if !InputShape(s) then None
    else
      var c := CivilText(s[..10]);
      Some(InstantOf(z, UtcDay(c.year, c.month, c.day) * DAY + Value(s[11..13]) * HOUR + Value(s[14..16]) * MINUTE))
  }

  // ---------------------------------------------------------------- numerals of four digits

  lemma {:induction false} NatTextLength(n: nat, w: nat)
    requires w >= 1
    ensures n < Pow10(w) <==> |NatText(n)| <= w
    decreases w
  {
    if n >= 10 {
      if w == 1 {
        assert |NatText(n)| == |NatText(n / 10)| + 1;
      } else {
        NatTextLength(n / 10, w - 1);
      }
    }
  }

  lemma {:induction false} NatTextIsDigits(n: nat, w: nat)
    requires w >= 1 && n < Pow10(w) && (w > 1 ==> Pow10(w - 1) <= n)
    ensures NatText(n) == Digits(n, w)
    decreases w
  {
    if w > 1 {
      NatTextIsDigits(n / 10, w - 1);
    } else {
      assert Digits(n / 10, 0) == [];
      assert n / 10 == 0 && n % 10 == n;
    }
  }

  lemma FourDigits(y: nat)
    ensures |NatText(y)| == 4 <==> 1000 <= y <= 9999
    ensures 1000 <= y <= 9999 ==> y < Pow10(4) && NatText(y) == Digits(y, 4)
  {
    PowersOfTen();
    assert Pow10(3) == 1000;
    NatTextLength(y, 4);
    NatTextLength(y, 3);
    if 1000 <= y <= 9999 { NatTextIsDigits(y, 4); }
  }

  // ---------------------------------------------------------------- round trips

  lemma UtcDayOfCivil(c: Civil)
    requires Valid(c) && !(0 <= c.year <= 99)
    ensures UtcDay(c.year, c.month, c.day) == DayOf(c)
  {
    assert (c.month - 1) / 12 == 0 && (c.month - 1) % 12 == c.month - 1;
  }

  lemma TimeReads(date: string, minute: int)
    requires |date| == 10 && MinuteOfDay(minute)
    ensures var s := date + "T" + TimeText(minute);
      && s[..10] == date && s[10] == 'T' && AllDigits(s[11..13]) && s[13] == ':' && AllDigits(s[14..16])
      && Value(s[11..13]) == minute / 60 && Value(s[14..16]) == minute % 60
  {
    hide Digits, Value, AllDigits;
    PowersOfTen();
    HourAndMinute(minute);
    var h, m := Digits(minute / 60, 2), Digits(minute % 60, 2);
    SixteenCharacters(date, h, m);
    DigitsRoundTrip(minute / 60, 2);
    DigitsRoundTrip(minute % 60, 2);
  }

  lemma HourAndMinute(minute: int)
    requires MinuteOfDay(minute)
    ensures 0 <= minute / 60 < 24 && 0 <= minute % 60 < 60
  {}

  lemma SixteenCharacters(date: string, h: string, m: string)
    requires |date| == 10 && |h| == 2 && |m| == 2
    ensures var s := date + "T" + (h + ":" + m);
      |s| == 16 && s[..10] == date && s[10] == 'T' && s[11..13] == h && s[13] == ':' && s[14..16] == m
  {}

  /** A printed date of four digits reads as the civil date it shows. */
  lemma DateReads(day: int)
    requires 1000 <= ShownYear(CivilOf(day).year) <= 9999
    ensures |DateText(day)| == 10 && DateShape(DateText(day))
    ensures CivilText(DateText(day)) == Civil(ShownYear(CivilOf(day).year), CivilOf(day).month, CivilOf(day).day)
  {
    DayRoundTrip(day);
    var c := CivilOf(day);
    var y := ShownYear(c.year);
    FourDigits(y);
    PowersOfTen();
    var s := DateText(day);
    assert s == Digits(y, 4) + "-" + Digits(c.month, 2) + "-" + Digits(c.day, 2);
    assert s[..4] == Digits(y, 4) && s[5..7] == Digits(c.month, 2) && s[8..] == Digits(c.day, 2);
    DigitsRoundTrip(y, 4);
    DigitsRoundTrip(c.month, 2);
    DigitsRoundTrip(c.day, 2);
  }

  /** A year of any other length does not fit the pattern. */
  lemma OtherYearsDoNotFit(day: int, rest: string)
    requires !(1000 <= ShownYear(CivilOf(day).year) <= 9999)
    ensures !InputShape(DateText(day) + rest)
  {
    DayRoundTrip(day);
    var y := NatText(ShownYear(CivilOf(day).year));
    FourDigits(ShownYear(CivilOf(day).year));
    var s := DateText(day) + rest;
    if |s| >= 16 {
      if |y| < 4 {
        assert s[..10][..4][|y|] == '-';
      } else {
        assert s[..10][4] == y[4] && IsDigit(y[4]);
      }
    }
  }

  lemma NaiveOfParts(day: int, minute: int)
    requires MinuteOfDay(minute)
    ensures day * DAY + minute / 60 * HOUR + minute % 60 * MINUTE == Naive(Zoned(day, minute))
  {
    var h, m := minute / 60, minute % 60;
    assert minute == 60 * h + m;
  }

  /**
   * An instant comes back from its input text, to the minute, exactly when its year has
   * four digits.
   */
  lemma LocalInputRoundTripIff(t: int, z: Zone, offset: int)
    requires Fixed(z, offset) && offset % MINUTE == 0
    ensures FromLocalInput(ToLocalInput(Some(t), z), z) == Some(t - t % MINUTE)
            <==> 1000 <= CivilOf(UtcToZoned(z, t).day).year <= 9999
  {
    hide NatText, DateShape, CivilText, CivilOf, TimeText, Value, DayOf, MonthDayText, FullYear;
    SplitWall(Wall(z, t));
    var w := UtcToZoned(z, t);
    var c := CivilOf(w.day);
    DayRoundTrip(w.day);
    var text := ToLocalInput(Some(t), z);
    if 1000 <= ShownYear(c.year) <= 9999 {
      DateReads(w.day);
      TimeReads(DateText(w.day), w.minute);
      var shown := Civil(ShownYear(c.year), c.month, c.day);
      var day := UtcDay(shown.year, shown.month, shown.day);
      NaiveOfParts(day, w.minute);
      assert FromLocalInput(text, z) == Some(InstantOf(z, Naive(Zoned(day, w.minute))));
      FixedZoneIsCalm(z, offset, Naive(Zoned(day, w.minute)));
      FixedZoneIsCalm(z, offset, Naive(w));
      FixedRoundTrip(z, offset, t);
      if c.year >= 1 {
        UtcDayOfCivil(c);
      } else {
        LaterYear(c, ShownYear(c.year));
      }
    } else {
      OtherYearsDoNotFit(w.day, "T" + TimeText(w.minute));
      assert text == DateText(w.day) + ("T" + TimeText(w.minute));
    }
  }

  /** No time is the empty text, and a text that is no date and time is no time. */
  lemma NoTimeRoundTrip(z: Zone)
    ensures ToLocalInput(None, z) == "" && FromLocalInput("", z) == None
  {}

  /** The day before the year 1 is shown in the year 1, of the other era. */
  lemma YearBeforeOne(n: int)
    requires n == DayOf(Civil(0, 12, 31))
    ensures DateText(n) == "1-12-31"
  {
    hide DayOf, CivilOf, Digits;
    CivilRoundTrip(Civil(0, 12, 31));
    TwoDigits(12);
    TwoDigits(31);
    assert NatText(1) == "1";
    assert MonthDayText(Civil(0, 12, 31)) == "-12-31";
  }

  lemma TwoDigits(n: nat)
    requires n < 100
    ensures n < Pow10(2) && Digits(n, 2) == [DigitChar(n / 10), DigitChar(n % 10)]
  {
    PowersOfTen();
    assert Digits(n / 10, 1) == Digits(n / 100, 0) + [DigitChar(n / 10 % 10)];
    assert Digits(n / 100, 0) == [];
  }

  /** Seconds, a zone or anything else after the minutes is not looked at. */
  lemma TrailingTextIsIgnored(s: string, rest: string, z: Zone)
    requires |s| >= 16
    ensures FromLocalInput(s + rest, z) == FromLocalInput(s, z)
  {
    hide DateShape, CivilText, UtcDay, Value;
    var t := s + rest;
    assert t[..10] == s[..10] && t[11..13] == s[11..13] && t[14..16] == s[14..16] && t[10] == s[10] && t[13] == s[13];
  }

  /** Months past the twelfth and days past the last carry over, as `Date.UTC` does. */
  lemma UtcDayCarries(y: int, m: int, d: int)
    requires y >= 100
    ensures UtcDay(y, m + 12, d) == UtcDay(y + 1, m, d) && UtcDay(y, m, d + 1) == UtcDay(y, m, d) + 1
  {
    assert (m + 11) / 12 == (m - 1) / 12 + 1 && (m + 11) % 12 == (m - 1) % 12;
  }

  /** The same month and day of a year long after is another day. */
  lemma LaterYear(c: Civil, y: int)
    requires Valid(c) && c.year < 1 && 1000 <= y
    ensures UtcDay(y, c.month, c.day) > DayOf(c)
  {
    DayWithinYear(c);
    YearsIncrease(c.year, y);
    var first := Civil(y, c.month, 1);
    assert (c.month - 1) / 12 == 0 && (c.month - 1) % 12 == c.month - 1;
    DayWithinYear(first);
  }

  /** A complete input text with a real date and time comes back from its instant. */
  lemma InputTextRoundTrip(s: string, z: Zone, offset: int)
    requires Fixed(z, offset) && offset % MINUTE == 0
    requires |s| == 16 && InputShape(s) && Valid(CivilText(s[..10])) && CivilText(s[..10]).year >= 1000
    requires Value(s[11..13]) < 24 && Value(s[14..16]) < 60
    ensures FromLocalInput(s, z).Some? && ToLocalInput(FromLocalInput(s, z), z) == s
  {
    hide NatText, DateShape, CivilOf, TimeText, Value, DayOf, MonthDayText, FullYear, DateText, UtcDay;
    var c := CivilText(s[..10]);
    var h, m := Value(s[11..13]), Value(s[14..16]);
    var w := Zoned(DayOf(c), 60 * h + m);
    CivilRoundTrip(c);
    UtcDayOfCivil(c);
    NaiveOfParts(w.day, w.minute);
    assert w.minute / 60 == h && w.minute % 60 == m;
    FixedZoneIsCalm(z, offset, Naive(w));
    SplitNaive(w, 0);
    TextsAgree(s, c, h, m);
  }

  lemma TextsAgree(s: string, c: Civil, h: nat, m: nat)
    requires |s| == 16 && InputShape(s) && Valid(c) && c == CivilText(s[..10]) && 1000 <= c.year && CivilOf(DayOf(c)) == c
    requires h == Value(s[11..13]) < 24 && m == Value(s[14..16]) < 60
    ensures DateText(DayOf(c)) + "T" + TimeText(60 * h + m) == s
  {
    hide DayOf, CivilOf, Digits, Value, NatText, Pow10;
    PowersOfTen();
    ValueRoundTrip(s[..10][..4]);
    ValueRoundTrip(s[..10][5..7]);
    ValueRoundTrip(s[..10][8..]);
    ValueRoundTrip(s[11..13]);
    ValueRoundTrip(s[14..16]);
    FourDigits(c.year);
    assert s[..10] == s[..10][..4] + "-" + s[..10][5..7] + "-" + s[..10][8..];
    assert DateText(DayOf(c)) == s[..10];
    assert (60 * h + m) / 60 == h && (60 * h + m) % 60 == m;
    assert TimeText(60 * h + m) == s[11..13] + ":" + s[14..16];
    assert s == s[..10] + "T" + (s[11..13] + ":" + s[14..16]);
  }
}
