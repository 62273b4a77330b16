/**
 * The part of Python's `datetime` the handler relies on: proleptic Gregorian
 * dates between 0001-01-01 and 9999-12-31, `strptime(s, "%Y-%m-%d")`,
 * `date + timedelta(days=k)` and `date.isoformat()`.
 */
module Calendar {
  import opened Optional
  import opened Decimal

  datatype Date = Date(year: int, month: int, day: int)

  const MaxYear := 9999
  const LastDate := Date(MaxYear, 12, 31)

  predicate IsLeapYear(y: int)
  {
    y % 4 == 0 && (y % 100 != 0 || y % 400 == 0)
  }

  function DaysInMonth(y: int, m: int): (n: int)
    requires 1 <= m <= 12
    ensures 28 <= n <= 31
  {
    if m == 2 then (if IsLeapYear(y) then 29 else 28)
    else if m == 4 || m == 6 || m == 9 || m == 11 then 30
    else 31
  }

  function YearLength(y: int): (n: int)
  {
    if IsLeapYear(y) then 366 else 365
  }

  /** A date the `date` type can hold (MINYEAR = 1, MAXYEAR = 9999). */
  predicate IsValid(d: Date)
  {
    1 <= d.year <= MaxYear && 1 <= d.month <= 12 && 1 <= d.day <= DaysInMonth(d.year, d.month)
  }

  /** Strict chronological order, compared field by field. */
  predicate Before(a: Date, b: Date)
  {
    a.year < b.year
    || (a.year == b.year && a.month < b.month)
    || (a.year == b.year && a.month == b.month && a.day < b.day)
  }

  /** Days in the months of year `y` before month `m`, as Python's table has them. */
  function DaysBeforeMonth(y: int, m: int): (n: int)
    requires 1 <= m <= 12
  {
    var table := [0, 31, 59, 90, 120, 151, 181, 212, 243, 273, 304, 334];
    table[m - 1] + (if m > 2 && IsLeapYear(y) then 1 else 0)
  }

  /** Days in the years before year `y`. */
  function DaysBeforeYear(y: int): (n: int)
    requires y >= 1
  {
    var p := y - 1;
    p * 365 + p / 4 - p / 100 + p / 400
  }

  /** `date.toordinal()`: 0001-01-01 is day 1. Adding a timedelta of k days adds k to it. */
  function Ordinal(d: Date): (n: int)
    requires IsValid(d)
  {
    DaysBeforeYear(d.year) + DaysBeforeMonth(d.year, d.month) + d.day
  }

  lemma DaysBeforeNextYear(y: int)
    requires y >= 1
    ensures DaysBeforeYear(y + 1) == DaysBeforeYear(y) + YearLength(y)
  {
    var p := y - 1;
    assert (p + 1) / 4 == p / 4 + (if y % 4 == 0 then 1 else 0);
    assert (p + 1) / 100 == p / 100 + (if y % 100 == 0 then 1 else 0);
    assert (p + 1) / 400 == p / 400 + (if y % 400 == 0 then 1 else 0);
  }

  /** Each year has at least 365 days, so the days before year `y2` exceed those before `y1` by at least that much per year. */
  lemma {:induction false} DaysBeforeYearGrows(y1: int, y2: int)
    requires 1 <= y1 <= y2
    ensures DaysBeforeYear(y1) + 365 * (y2 - y1) <= DaysBeforeYear(y2)
    decreases y2 - y1
  {
    if y1 < y2 {
      DaysBeforeNextYear(y1);
      DaysBeforeYearGrows(y1 + 1, y2);
    }
  }

  /** A date's day of the year is at most the length of its year, and equal only on 31 December. */
  lemma DayOfYearBound(d: Date)
    requires IsValid(d)
    ensures DaysBeforeMonth(d.year, d.month) + d.day <= YearLength(d.year)
    ensures DaysBeforeMonth(d.year, d.month) + d.day == YearLength(d.year) <==> d.month == 12 && d.day == 31
  {
  }

  /** No date the type can hold comes after 9999-12-31. */
  lemma OrdinalAtMostLast(d: Date)
    requires IsValid(d)
    ensures Ordinal(d) <= Ordinal(LastDate)
    ensures Ordinal(d) == Ordinal(LastDate) <==> d == LastDate
  {
    DayOfYearBound(d);
    DaysBeforeNextYear(d.year);
    if d.year < MaxYear {
      DaysBeforeYearGrows(d.year + 1, MaxYear);
    }
  }

  /**
   * The next calendar day, or None past 9999-12-31 (where Python raises
   * OverflowError). Its partner is the ordinal: the next day is exactly one
   * day later, and it comes strictly after `d`.
   */
  function NextDay(d: Date): (r: Option<Date>)
    requires IsValid(d)
    ensures r.None? <==> d == LastDate
    ensures r.Some? ==> IsValid(r.value) && Before(d, r.value)
    ensures r.Some? ==> Ordinal(r.value) == Ordinal(d) + 1
  {
    if d.day < DaysInMonth(d.year, d.month) then
      Some(d.(day := d.day + 1))
    else if d.month < 12 then
      Some(Date(d.year, d.month + 1, 1))
    else if d.year < MaxYear then
      DaysBeforeNextYear(d.year);
      Some(Date(d.year + 1, 1, 1))
    else
      None
  }

  /** `d + timedelta(days=k)`: None (OverflowError) exactly when the result would pass 9999-12-31. */
  function AddDays(d: Date, k: nat): (r: Option<Date>)
    requires IsValid(d)
    ensures r.None? <==> Ordinal(d) + k > Ordinal(LastDate)
    ensures r.Some? ==> IsValid(r.value) && Ordinal(r.value) == Ordinal(d) + k
    ensures r.Some? && k > 0 ==> Before(d, r.value)
  {
    if k == 0 then
      OrdinalAtMostLast(d);
      Some(d)
    else
      match AddDays(d, k - 1)
      case None => None
      case Some(e) =>
        OrdinalAtMostLast(e);
        NextDay(e)
  }

  // ---- strptime(s, "%Y-%m-%d") ----

  /** The `%m` directive: `1[0-2]|0[1-9]|[1-9]`. */
  function MonthField(t: string): (r: Option<int>)
    ensures r.Some? ==> 1 <= r.value <= 12
  {
    if |t| == 1 && '1' <= t[0] <= '9' then Some(DigitValue(t[0]))
    else if |t| == 2 && t[0] == '1' && '0' <= t[1] <= '2' then Some(10 + DigitValue(t[1]))
    else if |t| == 2 && t[0] == '0' && '1' <= t[1] <= '9' then Some(DigitValue(t[1]))
    else None
  }

  /** The `%d` directive: `3[01]|[12]\d|0[1-9]|[1-9]| [1-9]` (a space-padded day is accepted). */
  function DayField(t: string): (r: Option<int>)
    ensures r.Some? ==> 1 <= r.value <= 31
  {
    if |t| == 1 && '1' <= t[0] <= '9' then Some(DigitValue(t[0]))
    else if |t| == 2 && t[0] == '3' && (t[1] == '0' || t[1] == '1') then Some(30 + DigitValue(t[1]))
    else if |t| == 2 && (t[0] == '1' || t[0] == '2') && IsDigit(t[1]) then Some(10 * DigitValue(t[0]) + DigitValue(t[1]))
    else if |t| == 2 && (t[0] == '0' || t[0] == ' ') && '1' <= t[1] <= '9' then Some(DigitValue(t[1]))
    else None
  }

  /**
   * `datetime.strptime(s, "%Y-%m-%d").date()`, None where Python raises
   * ValueError: four year digits, a dash, the month field, a dash and the day
   * field must make up the whole text, and the date must exist. Month and day
   * fields hold no dash, so the month ends at the first dash after the year.
   */
  function ParseDate(s: string): (r: Option<Date>)
    ensures r.Some? ==> IsValid(r.value)
  {
    if |s| < 8 || !AllDigits(s[..4]) || s[4] != '-' then None
    else
      var rest := s[5..];
      var cut := if rest[1] == '-' then 1 else if rest[2] == '-' then 2 else 0;
      if cut == 0 then None
      else
        match (MonthField(rest[..cut]), DayField(rest[cut + 1..]))
        case (Some(m), Some(d)) =>
          var y := DigitsValue(s[..4]);
          assert Pow10(4) == 10000;
          if 1 <= y && d <= DaysInMonth(y, m) then Some(Date(y, m, d)) else None
        case _ => None
  }

  // ---- date.isoformat() ----

  function Pad2(n: nat): (s: string)
    requires n < 100
    ensures |s| == 2 && AllDigits(s)
  {
    [DigitChar(n / 10), DigitChar(n % 10)]
  }

  function Pad4(n: nat): (s: string)
    requires n < 10000
    ensures |s| == 4 && AllDigits(s)
  {
    Pad2(n / 100) + Pad2(n % 100)
  }

  /** `date.isoformat()`: `YYYY-MM-DD`, zero-padded. */
  function IsoFormat(d: Date): (s: string)
    requires IsValid(d)
    ensures |s| == 10 && s[4] == '-' && s[7] == '-'
    ensures AllDigits(s[..4]) && DigitsValue(s[..4]) == d.year
    ensures AllDigits(s[5..7]) && DigitsValue(s[5..7]) == d.month
    ensures AllDigits(s[8..]) && DigitsValue(s[8..]) == d.day
  {
    Pad4Value(d.year);
    Pad2Value(d.month);
    Pad2Value(d.day);
    var t := Pad4(d.year) + "-" + Pad2(d.month) + "-" + Pad2(d.day);
    assert t[..4] == Pad4(d.year) && t[5..7] == Pad2(d.month) && t[8..] == Pad2(d.day);
    t
  }

  lemma Pad2Value(n: nat)
    requires n < 100
    ensures DigitsValue(Pad2(n)) == n
  {
    var s := Pad2(n);
    assert s[..1][..0] == [];
    assert DigitsValue(s[..1]) == DigitValue(s[0]);
  }

  lemma Pad4Value(n: nat)
    requires n < 10000
    ensures DigitsValue(Pad4(n)) == n
  {
    var s := Pad4(n);
    Pad2Value(n / 100);
    assert s[..3][..2] == Pad2(n / 100);
    assert s[..3] == s[..3][..2] + [s[2]];
  }

  /** Reading back the text `isoformat` writes gives the same date. */
  lemma {:induction false} ParseIsoFormat(d: Date)
    requires IsValid(d)
    ensures ParseDate(IsoFormat(d)) == Some(d)
  {
    ParseDateSpelling(d, Pad2(d.month), Pad2(d.day));
  }

  /** Distinct dates have distinct ISO texts. */
  lemma IsoFormatInjective(a: Date, b: Date)
    requires IsValid(a) && IsValid(b)
    requires IsoFormat(a) == IsoFormat(b)
    ensures a == b
  {
    ParseIsoFormat(a);
    ParseIsoFormat(b);
  }

  // ---- which texts strptime reads as which date ----

  /** A text `%m` reads as month m: two digits, or one digit for months 1 to 9. */
  predicate MonthSpelling(m: int, t: string)
  {
    1 <= m <= 12 && (t == Pad2(m) || (m < 10 && t == [DigitChar(m)]))
  }

  /** A text `%d` reads as day d: two digits, or for days 1 to 9 one digit, alone or after a space. */
  predicate DaySpelling(d: int, t: string)
  {
    1 <= d <= 31 && (t == Pad2(d) || (d < 10 && (t == [DigitChar(d)] || t == [' ', DigitChar(d)])))
  }

  /** The `%m` field reads exactly its spellings, each as its month. */
  lemma MonthFieldSpelling(m: int, t: string)
    ensures MonthField(t) == Some(m) <==> MonthSpelling(m, t)
  {
    if MonthField(t) == Some(m) {
      if |t| == 1 {
        assert t == [DigitChar(m)];
      } else {
        assert t == [t[0], t[1]] && Pad2(m) == [DigitChar(m / 10), DigitChar(m % 10)];
      }
    }
  }

  /** The `%d` field reads exactly its spellings, each as its day. */
  lemma DayFieldSpelling(d: int, t: string)
    ensures DayField(t) == Some(d) <==> DaySpelling(d, t)
  {
    if DayField(t) == Some(d) {
      if |t| == 1 {
        assert t == [DigitChar(d)];
      } else if t[0] == ' ' {
        assert t == [' ', DigitChar(d)];
      } else {
        assert t == [t[0], t[1]] && Pad2(d) == [DigitChar(d / 10), DigitChar(d % 10)];
      }
    }
  }

  /**
   * Every text `strptime(s, "%Y-%m-%d")` accepts is four year digits, a dash,
   * a spelling of the month, a dash and a spelling of the day, and it
   * denotes that year, month and day.
   */
  lemma ParsedDateSpelling(s: string)
    requires ParseDate(s).Some?
    ensures var date := ParseDate(s).value;
      exists mt, dt :: MonthSpelling(date.month, mt) && DaySpelling(date.day, dt)
                       && s == Pad4(date.year) + "-" + mt + "-" + dt
  {
    var date := ParseDate(s).value;
    var rest := s[5..];
    var cut := if rest[1] == '-' then 1 else 2;
    var mt, dt := rest[..cut], rest[cut + 1..];
    MonthFieldSpelling(date.month, mt);
    DayFieldSpelling(date.day, dt);
    assert Pow10(4) == 10000;
    Pad4Value(date.year);
    DigitsValueInjective(s[..4], Pad4(date.year));
    assert rest == mt + "-" + dt;
    assert s == s[..4] + "-" + rest;
  }

  /**
   * Conversely, every such text is accepted and denotes its date: besides the
   * ISO form, one-digit months and days and a space-padded day.
   */
  lemma ParseDateSpelling(date: Date, mt: string, dt: string)
    requires IsValid(date)
    requires MonthSpelling(date.month, mt) && DaySpelling(date.day, dt)
    ensures ParseDate(Pad4(date.year) + "-" + mt + "-" + dt) == Some(date)
  {
    var s := Pad4(date.year) + "-" + mt + "-" + dt;
    MonthFieldSpelling(date.month, mt);
    DayFieldSpelling(date.day, dt);
    Pad4Value(date.year);
    assert s[..4] == Pad4(date.year);
    var rest := s[5..];
    assert rest == mt + "-" + dt;
    if |mt| == 2 {
      assert mt[1] == DigitChar(date.month % 10);
    }
    assert rest[..|mt|] == mt && rest[|mt| + 1..] == dt;
  }
}
