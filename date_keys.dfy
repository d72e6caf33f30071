/** The bucket keys of /api/logs/stats: "YYYY-MM-DD HH:00" per hour and "YYYY-MM-DD" per day. */
module DateKeys {

  import opened Strings

  /**
   * An instant read in the server's local time zone, as Date's getFullYear, getMonth (0 for January),
   * getDate and getHours give it.
   */
  datatype LocalTime = LocalTime(fullYear: int, month: int, date: int, hours: int)

  /** The ranges the Date getters keep to. */
  predicate InRange(t: LocalTime)
  {
    0 <= t.month < 12 && 1 <= t.date <= 31 && 0 <= t.hours < 24
  }

  /** The hour key, built the way the handler concatenates it: the day key, a space, the hour and ":00". */
  function HourKey(t: LocalTime): (r: string)
    ensures DayKey(t) + " " <= r
    ensures r[|r| - 3..] == ":00"
  {
    HourShape(IntToString(t.fullYear), PadStart2(IntToString(t.month + 1)), PadStart2(IntToString(t.date)),
              PadStart2(IntToString(t.hours)));
    IntToString(t.fullYear) + "-"
    + PadStart2(IntToString(t.month + 1)) + "-"
    + PadStart2(IntToString(t.date)) + " "
    + PadStart2(IntToString(t.hours)) + ":00"
  }

  /** The day key, built the way the handler concatenates it: the year, '-', then the month and day. */
  function DayKey(t: LocalTime): (r: string)
    ensures IntToString(t.fullYear) + "-" <= r
  {
    DayShape(IntToString(t.fullYear), PadStart2(IntToString(t.month + 1)), PadStart2(IntToString(t.date)));
    IntToString(t.fullYear) + "-"
    + PadStart2(IntToString(t.month + 1)) + "-"
    + PadStart2(IntToString(t.date))
  }

  /** The shape of an hour key over any year, month, day and hour strings. */
  lemma HourShape(y: string, m: string, d: string, h: string)
    ensures y + "-" + m + "-" + d + " " <= y + "-" + m + "-" + d + " " + h + ":00"
    ensures var r := y + "-" + m + "-" + d + " " + h + ":00"; r[|r| - 3..] == ":00"
  {
    var p := y + "-" + m + "-" + d + " ";
    assert (p + h + ":00")[..|p|] == p;
  }

  /** The shape of a day key over any year, month and day strings. */
  lemma DayShape(y: string, m: string, d: string)
    ensures y + "-" <= y + "-" + m + "-" + d
  {
    assert (y + "-" + m + "-" + d)[..|y + "-"|] == y + "-";
  }

  /** Two zero-padded decimal digits. */
  function TwoDigits(n: nat): string
    requires n < 100
  {
    [DigitChar(n / 10), DigitChar(n % 10)]
  }

  /**
   * Within the getters' ranges the keys have a fixed layout: the year, then the month (counted from 1),
   * the day and the hour each as exactly two digits; the hour key is the day key followed by " HH:00".
   */
  lemma KeyLayout(t: LocalTime)
    requires InRange(t)
    ensures DayKey(t) == IntToString(t.fullYear) + "-" + TwoDigits(t.month + 1) + "-" + TwoDigits(t.date)
    ensures HourKey(t) == DayKey(t) + " " + TwoDigits(t.hours) + ":00"
  {
    PadStart2TwoDigits(t.month + 1);
    PadStart2TwoDigits(t.date);
    PadStart2TwoDigits(t.hours);
  }

  lemma TwoDigitsInjective(a: nat, b: nat)
    requires a < 100 && b < 100 && TwoDigits(a) == TwoDigits(b)
    ensures a == b
  {
    assert DigitValue(TwoDigits(a)[0]) == a / 10;
    assert DigitValue(TwoDigits(a)[1]) == a % 10;
  }

  /** What follows the year in a day key: "-MM-DD". */
  function DaySuffix(t: LocalTime): string
  {
    "-" + PadStart2(IntToString(t.month + 1)) + "-" + PadStart2(IntToString(t.date))
  }

  /** A day key is the year followed by its suffix. */
  lemma DayKeySplit(t: LocalTime)
    ensures DayKey(t) == IntToString(t.fullYear) + DaySuffix(t)
  {
    AppendFour(IntToString(t.fullYear), "-", PadStart2(IntToString(t.month + 1)), "-", PadStart2(IntToString(t.date)));
  }

  lemma AppendFour(x: string, a: string, b: string, c: string, d: string)
    ensures x + a + b + c + d == x + (a + b + c + d)
  {
  }

  lemma AppendThree(x: string, a: string, b: string, c: string)
    ensures x + a + b + c == x + (a + b + c)
  {
  }

  /** The suffix is six characters holding the month at 1..3 and the day at 4..6. */
  lemma DaySuffixParts(t: LocalTime)
    requires InRange(t)
    ensures |DaySuffix(t)| == 6
    ensures DaySuffix(t)[1..3] == TwoDigits(t.month + 1) && DaySuffix(t)[4..] == TwoDigits(t.date)
  {
    PadStart2TwoDigits(t.month + 1);
    PadStart2TwoDigits(t.date);
    Framed(PadStart2(IntToString(t.month + 1)), PadStart2(IntToString(t.date)));
  }

  /** "-" + m + "-" + d with two-character m and d holds m at 1..3 and d at 4..6. */
  lemma Framed(m: string, d: string)
    requires |m| == 2 && |d| == 2
    ensures |"-" + m + "-" + d| == 6
    ensures ("-" + m + "-" + d)[1..3] == m && ("-" + m + "-" + d)[4..] == d
  {
    assert ("-" + m + "-" + d)[1..3] == m;
    assert ("-" + m + "-" + d)[4..] == d;
  }

  /** Two concatenations with tails of equal length that are equal have equal heads and equal tails. */
  lemma SameSplit(a: string, s: string, b: string, t: string)
    requires a + s == b + t && |s| == |t|
    ensures a == b && s == t
  {
    assert a == (a + s)[..|a|];
    assert b == (b + t)[..|b|];
    assert s == (a + s)[|a|..];
    assert t == (b + t)[|b|..];
  }

  /** Equal day keys have equal years and equal suffixes. */
  lemma SameDayKeyParts(t: LocalTime, u: LocalTime)
    requires InRange(t) && InRange(u) && DayKey(t) == DayKey(u)
    ensures IntToString(t.fullYear) == IntToString(u.fullYear) && DaySuffix(t) == DaySuffix(u)
  {
    DayKeySplit(t);
    DayKeySplit(u);
    DaySuffixParts(t);
    DaySuffixParts(u);
    SameSplit(IntToString(t.fullYear), DaySuffix(t), IntToString(u.fullYear), DaySuffix(u));
  }

  /** Different days get different day keys, so a day bucket holds exactly the entries of one day. */
  lemma DayKeyInjective(t: LocalTime, u: LocalTime)
    requires InRange(t) && InRange(u) && DayKey(t) == DayKey(u)
    ensures t.fullYear == u.fullYear && t.month == u.month && t.date == u.date
  {
    SameDayKeyParts(t, u);
    DaySuffixParts(t);
    DaySuffixParts(u);
    TwoDigitsInjective(t.month + 1, u.month + 1);
    TwoDigitsInjective(t.date, u.date);
    IntToStringInjective(t.fullYear, u.fullYear);
  }

  /** What follows the day in an hour key: " HH:00". */
  function HourSuffix(t: LocalTime): string
  {
    " " + PadStart2(IntToString(t.hours)) + ":00"
  }

  /** An hour key is the day key followed by its suffix. */
  lemma HourKeySplit(t: LocalTime)
    ensures HourKey(t) == DayKey(t) + HourSuffix(t)
  {
    AppendThree(DayKey(t), " ", PadStart2(IntToString(t.hours)), ":00");
  }

  /** The suffix is six characters holding the hour at 1..3. */
  lemma HourSuffixParts(t: LocalTime)
    requires InRange(t)
    ensures |HourSuffix(t)| == 6 && HourSuffix(t)[1..3] == TwoDigits(t.hours)
  {
    PadStart2TwoDigits(t.hours);
  }

  /** Different hours get different hour keys. */
  lemma HourKeyInjective(t: LocalTime, u: LocalTime)
    requires InRange(t) && InRange(u) && HourKey(t) == HourKey(u)
    ensures t == u
  {
    HourKeySplit(t);
    HourKeySplit(u);
    HourSuffixParts(t);
    HourSuffixParts(u);
    SameSplit(DayKey(t), HourSuffix(t), DayKey(u), HourSuffix(u));
    TwoDigitsInjective(t.hours, u.hours);
    DayKeyInjective(t, u);
  }

  /** Entries in the same hour bucket are in the same day bucket. */
  lemma SameHourSameDay(t: LocalTime, u: LocalTime)
    requires InRange(t) && InRange(u) && HourKey(t) == HourKey(u)
    ensures DayKey(t) == DayKey(u)
  {
    HourKeyInjective(t, u);
  }
}
