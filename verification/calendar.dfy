/** Proleptic-Gregorian calendar dates at midnight, as the loader reads them
    (`%m/%d/%Y`), prints them (`%Y-%m-%d`, `%Y-%m`) and subtracts them
    (whole days). */
module Calendar {
  import opened Wrappers
  import opened Text

  datatype Date = Date(year: int, month: int, day: int)

  predicate IsLeapYear(y: int)
  {
    y % 4 == 0 && (y % 100 != 0 || y % 400 == 0)
  }

  function DaysInYear(y: int): int
  {
    if IsLeapYear(y) then 366 else 365
  }

  /** Length of month `m` of year `y` (only meaningful for 1 <= m <= 12). */
  function DaysInMonth(y: int, m: int): (n: int)
    ensures 28 <= n <= 31
  {
    if m == 2 then (if IsLeapYear(y) then 29 else 28)
    else if m == 4 || m == 6 || m == 9 || m == 11 then 30
    else 31
  }

  predicate IsValid(d: Date)
  {
    1 <= d.month <= 12 && 1 <= d.day <= DaysInMonth(d.year, d.month)
  }

  /** Days in the years before `y`, counted from 0001-01-01. Dafny's `/` is
      floor division for a positive divisor, so this holds for every year. */
  function DaysBeforeYear(y: int): int
  {
    var p := y - 1;
    365 * p + p / 4 - p / 100 + p / 400
  }

  /** Days in the months of year `y` before month `m`. */
  function DaysBeforeMonth(y: int, m: int): int
    decreases m
  {
    if m <= 1 then 0 else DaysBeforeMonth(y, m - 1) + DaysInMonth(y, m - 1)
  }

  /** Day number of a date, 0001-01-01 being day 1 (Python's `toordinal`). */
  function Ordinal(d: Date): int
  {
    DaysBeforeYear(d.year) + DaysBeforeMonth(d.year, d.month) + d.day
  }

  /** Whole days from `a` to `b` (`(b - a).days` of two midnights). */
  function DaysBetween(a: Date, b: Date): int
  {
    Ordinal(b) - Ordinal(a)
  }

  /** Strict calendar order: by year, then month, then day. */
  predicate Before(a: Date, b: Date)
  {
    a.year < b.year ||
    (a.year == b.year && (a.month < b.month || (a.month == b.month && a.day < b.day)))
  }

  function NextDay(d: Date): Date
  {
    if d.day < DaysInMonth(d.year, d.month) then Date(d.year, d.month, d.day + 1)
    else if d.month < 12 then Date(d.year, d.month + 1, 1)
    else Date(d.year + 1, 1, 1)
  }

  function PrevDay(d: Date): Date
  {
    if d.day > 1 then Date(d.year, d.month, d.day - 1)
    else if d.month > 1 then Date(d.year, d.month - 1, DaysInMonth(d.year, d.month - 1))
    else Date(d.year - 1, 12, 31)
  }

  /** The date `k` days after `d` (before it when `k` is negative). */
  function AddDays(d: Date, k: int): Date
    decreases if k >= 0 then k else -k
  {
    if k == 0 then d
    else if k > 0 then AddDays(NextDay(d), k - 1)
    else AddDays(PrevDay(d), k + 1)
  }

  // ---------------------------------------------------------------------
  // Ordinal arithmetic
  // ---------------------------------------------------------------------

  /** Stepping across a multiple of `k` adds one to the quotient. */
  lemma DivStep(y: int, k: int)
    requires k > 0
    ensures y / k - (y - 1) / k == (if y % k == 0 then 1 else 0)
  {
    var q, r := (y - 1) / k, (y - 1) % k;
    assert y - 1 == k * q + r && 0 <= r < k;
    if r == k - 1 {
      assert y == k * (q + 1);
      DivUnique(y, k, q + 1, 0);
    } else {
      assert y == k * q + (r + 1);
      DivUnique(y, k, q, r + 1);
    }
  }

  lemma DivUnique(y: int, k: int, q: int, r: int)
    requires k > 0 && 0 <= r < k && y == k * q + r
    ensures y / k == q && y % k == r
  {
    var q', r' := y / k, y % k;
    assert y == k * q' + r' && 0 <= r' < k;
    assert k * (q' - q) == r - r' by {
      assert k * (q' - q) == k * q' - k * q;
    }
    if q' > q {
      MulAtLeast(k, q' - q);
    } else if q' < q {
      assert k * (q - q') == r' - r by {
        assert k * (q - q') == k * q - k * q';
      }
      MulAtLeast(k, q - q');
    }
  }

  lemma {:induction false} MulAtLeast(k: int, a: int)
    requires k > 0 && a >= 1
    ensures k * a >= k
    decreases a
  {
    if a > 1 {
      MulAtLeast(k, a - 1);
      assert k * a == k * (a - 1) + k;
    }
  }

  /** Each year contributes its own length to the day count. */
  lemma YearLength(y: int)
    ensures DaysBeforeYear(y + 1) == DaysBeforeYear(y) + DaysInYear(y)
  {
    DivStep(y, 4);
    DivStep(y, 100);
    DivStep(y, 400);
    assert y % 100 == 0 ==> y % 4 == 0 by {
      if y % 100 == 0 {
        DivUnique(y, 4, 25 * (y / 100), 0);
      }
    }
    assert y % 400 == 0 ==> y % 100 == 0 by {
      if y % 400 == 0 {
        DivUnique(y, 100, 4 * (y / 400), 0);
      }
    }
  }

  /** The twelve months fill the year exactly. */
  lemma MonthsFillYear(y: int)
    ensures DaysBeforeMonth(y, 12) + DaysInMonth(y, 12) == DaysInYear(y)
  {
    assert DaysBeforeMonth(y, 1) == 0;
    assert DaysBeforeMonth(y, 2) == 31;
    assert DaysBeforeMonth(y, 3) == 31 + DaysInMonth(y, 2);
    assert DaysBeforeMonth(y, 4) == 62 + DaysInMonth(y, 2);
    assert DaysBeforeMonth(y, 5) == 92 + DaysInMonth(y, 2);
    assert DaysBeforeMonth(y, 6) == 123 + DaysInMonth(y, 2);
    assert DaysBeforeMonth(y, 7) == 153 + DaysInMonth(y, 2);
    assert DaysBeforeMonth(y, 8) == 184 + DaysInMonth(y, 2);
    assert DaysBeforeMonth(y, 9) == 215 + DaysInMonth(y, 2);
    assert DaysBeforeMonth(y, 10) == 245 + DaysInMonth(y, 2);
    assert DaysBeforeMonth(y, 11) == 276 + DaysInMonth(y, 2);
    assert DaysBeforeMonth(y, 12) == 306 + DaysInMonth(y, 2);
  }

  lemma {:induction false} MonthsBefore(y: int, m1: int, m2: int)
    requires 1 <= m1 < m2
    ensures DaysBeforeMonth(y, m1) + DaysInMonth(y, m1) <= DaysBeforeMonth(y, m2)
    decreases m2 - m1
  {
    if m1 + 1 < m2 {
      MonthsBefore(y, m1 + 1, m2);
    }
  }

  lemma {:induction false} YearsBefore(y1: int, y2: int)
    requires y1 < y2
    ensures DaysBeforeYear(y1) + DaysInYear(y1) <= DaysBeforeYear(y2)
    decreases y2 - y1
  {
    YearLength(y1);
    if y1 + 1 < y2 {
      YearsBefore(y1 + 1, y2);
      YearLength(y1 + 1);
    }
  }

  /** A valid date lies inside its own year's span of day numbers. */
  lemma OrdinalInYear(d: Date)
    requires IsValid(d)
    ensures DaysBeforeYear(d.year) < Ordinal(d) <= DaysBeforeYear(d.year) + DaysInYear(d.year)
  {
    MonthsFillYear(d.year);
    if d.month < 12 {
      MonthsBefore(d.year, d.month, 12);
    }
  }

  /** Day numbers follow calendar order. */
  lemma OrdinalMonotone(a: Date, b: Date)
    requires IsValid(a) && IsValid(b) && Before(a, b)
    ensures Ordinal(a) < Ordinal(b)
  {
    OrdinalInYear(a);
    OrdinalInYear(b);
    if a.year < b.year {
      YearsBefore(a.year, b.year);
    } else if a.month < b.month {
      MonthsBefore(a.year, a.month, b.month);
    }
  }

  /** Comparing day numbers is comparing dates, and equal day numbers mean
      the same date. */
  lemma OrdinalOrder(a: Date, b: Date)
    requires IsValid(a) && IsValid(b)
    ensures Ordinal(a) < Ordinal(b) <==> Before(a, b)
    ensures Ordinal(a) == Ordinal(b) <==> a == b
  {
    if Before(a, b) {
      OrdinalMonotone(a, b);
    } else if Before(b, a) {
      OrdinalMonotone(b, a);
    }
  }

  lemma NextDayStep(d: Date)
    requires IsValid(d)
    ensures IsValid(NextDay(d)) && Ordinal(NextDay(d)) == Ordinal(d) + 1
  {
    if d.day == DaysInMonth(d.year, d.month) {
      if d.month == 12 {
        YearLength(d.year);
        MonthsFillYear(d.year);
      }
    }
  }

  lemma PrevDayStep(d: Date)
    requires IsValid(d)
    ensures IsValid(PrevDay(d)) && Ordinal(PrevDay(d)) == Ordinal(d) - 1
  {
    if d.day == 1 && d.month == 1 {
      YearLength(d.year - 1);
      MonthsFillYear(d.year - 1);
    }
  }

  /** Shifting by `k` days moves the day number by exactly `k`. */
  lemma {:induction false} AddDaysOrdinal(d: Date, k: int)
    requires IsValid(d)
    ensures IsValid(AddDays(d, k)) && Ordinal(AddDays(d, k)) == Ordinal(d) + k
    decreases if k >= 0 then k else -k
  {
    if k > 0 {
      NextDayStep(d);
      AddDaysOrdinal(NextDay(d), k - 1);
    } else if k < 0 {
      PrevDayStep(d);
      AddDaysOrdinal(PrevDay(d), k + 1);
    }
  }

  /** A day difference always leads back: `a + (b - a) == b`. */
  lemma DaysBetweenRoundTrip(a: Date, b: Date)
    requires IsValid(a) && IsValid(b)
    ensures AddDays(a, DaysBetween(a, b)) == b
    ensures DaysBetween(a, AddDays(a, DaysBetween(a, b))) == DaysBetween(a, b)
  {
    AddDaysOrdinal(a, DaysBetween(a, b));
    OrdinalOrder(AddDays(a, DaysBetween(a, b)), b);
  }

  /** Shifting by `k` days and measuring gives back `k`. */
  lemma AddDaysRoundTrip(a: Date, k: int)
    requires IsValid(a)
    ensures DaysBetween(a, AddDays(a, k)) == k
  {
    AddDaysOrdinal(a, k);
  }

  // ---------------------------------------------------------------------
  // Range of a timestamp
  // ---------------------------------------------------------------------

  /** First and last midnight a nanosecond timestamp can hold
      (1677-09-21 00:12:43 to 2262-04-11 23:47:16). */
  const FirstSupported := Date(1677, 9, 22)
  const LastSupported := Date(2262, 4, 11)

  /** A calendar date the loader can hold as a timestamp; any other date is
      out of bounds and is coerced to missing. */
  predicate Supported(d: Date)
  {
    IsValid(d) && !Before(d, FirstSupported) && !Before(LastSupported, d)
  }

  /** The supported dates are those whose day number lies in the range. */
  lemma SupportedRange(d: Date)
    requires IsValid(d)
    ensures Supported(d) <==> Ordinal(FirstSupported) <= Ordinal(d) <= Ordinal(LastSupported)
  {
    OrdinalOrder(d, FirstSupported);
    OrdinalOrder(LastSupported, d);
  }

  lemma SupportedYears(d: Date)
    requires Supported(d)
    ensures 1677 <= d.year <= 2262
  {
  }

  // ---------------------------------------------------------------------
  // Range of a time difference
  // ---------------------------------------------------------------------

  const NanosPerDay := 86_400_000_000_000

  /** A difference of `days` whole days can be held by a pandas
      `Timedelta`, which counts nanoseconds in a signed 64-bit integer;
      subtracting two timestamps further apart raises `OverflowError`. */
  predicate SpanFits(days: int)
  {
    -0x8000_0000_0000_0000 <= days * NanosPerDay <= 0x7FFF_FFFF_FFFF_FFFF
  }

  /** The widest difference a `Timedelta` holds, in whole days. */
  const MaxSpanDays := 106751

  /** A whole-day difference fits exactly when it is at most
      `MaxSpanDays` days either way. */
  lemma SpanFitsRange(days: int)
    ensures SpanFits(days) <==> -MaxSpanDays <= days <= MaxSpanDays
  {
    if days > MaxSpanDays {
      assert (days - (MaxSpanDays + 1)) * NanosPerDay >= 0;
    } else if days < -MaxSpanDays {
      assert (-MaxSpanDays - 1 - days) * NanosPerDay >= 0;
    }
  }

  /** Two dates a timestamp can hold may still be too far apart to be
      subtracted: 1700-01-01 and 2000-01-01 are 109572 days apart. */
  lemma SupportedSpanCanOverflow()
    ensures Supported(Date(1700, 1, 1)) && Supported(Date(2000, 1, 1))
    ensures DaysBetween(Date(1700, 1, 1), Date(2000, 1, 1)) == 109572
    ensures !SpanFits(DaysBetween(Date(1700, 1, 1), Date(2000, 1, 1)))
  {
    SpanFitsRange(109572);
  }

  // ---------------------------------------------------------------------
  // Text forms
  // ---------------------------------------------------------------------

  /** `%Y-%m-%d`. */
  function FormatIso(d: Date): (r: string)
    requires Supported(d)
    ensures |r| == 10 && r[4] == '-' && r[7] == '-'
  {
    SupportedYears(d);
    Pad(d.year, 4) + "-" + Pad(d.month, 2) + "-" + Pad(d.day, 2)
  }

  /** The three fields of the day label are the zero-padded year, month
      and day, so the label can be read back. */
  lemma FormatIsoFields(d: Date)
    requires Supported(d)
    ensures var r := FormatIso(d);
      AllDigits(r[..4]) && AllDigits(r[5..7]) && AllDigits(r[8..]) &&
      Value(r[..4]) == d.year && Value(r[5..7]) == d.month && Value(r[8..]) == d.day
  {
    SupportedYears(d);
    ValuePad(d.year, 4);
    ValuePad(d.month, 2);
    ValuePad(d.day, 2);
    var r := FormatIso(d);
    assert r[..4] == Pad(d.year, 4) && r[5..7] == Pad(d.month, 2) && r[8..] == Pad(d.day, 2);
  }

  /** `%Y-%m`, the month bucket (a monthly period printed as text). */
  function FormatMonth(d: Date): (r: string)
    requires Supported(d)
    ensures |r| == 7 && r[4] == '-'
  {
    SupportedYears(d);
    Pad(d.year, 4) + "-" + Pad(d.month, 2)
  }

  /** The two fields of the month bucket are the zero-padded year and
      month. */
  lemma FormatMonthFields(d: Date)
    requires Supported(d)
    ensures var r := FormatMonth(d);
      AllDigits(r[..4]) && AllDigits(r[5..]) && Value(r[..4]) == d.year && Value(r[5..]) == d.month
  {
    SupportedYears(d);
    ValuePad(d.year, 4);
    ValuePad(d.month, 2);
    var r := FormatMonth(d);
    assert r[..4] == Pad(d.year, 4) && r[5..] == Pad(d.month, 2);
  }

  /** The month bucket is the first seven characters of the day label. */
  lemma MonthIsIsoPrefix(d: Date)
    requires Supported(d)
    ensures FormatMonth(d) == FormatIso(d)[..7]
  {
  }

  /** Two supported dates print the same day label only if they are the
      same date. */
  lemma FormatIsoInjective(a: Date, b: Date)
    requires Supported(a) && Supported(b) && FormatIso(a) == FormatIso(b)
    ensures a == b
  {
    FormatIsoFields(a);
    FormatIsoFields(b);
    var r := FormatIso(a);
    assert r[..4] == FormatIso(b)[..4];
  }

  // ---------------------------------------------------------------------
  // Reading `%m/%d/%Y`
  // ---------------------------------------------------------------------

  /** Position of the first `c` in `s`. */
  function IndexOf(s: string, c: char): (r: Option<nat>)
    ensures r.Some? ==> r.value < |s| && s[r.value] == c && forall i :: 0 <= i < r.value ==> s[i] != c
    ensures r.None? ==> forall i :: 0 <= i < |s| ==> s[i] != c
  {
    if s == [] then None
    else if s[0] == c then Some(0)
    else match IndexOf(s[1..], c)
      case None => None
      case Some(i) => Some(i + 1)
  }

  /** `%m`: `1[0-2]|0[1-9]|[1-9]`. */
  function MonthField(f: string): (r: Option<int>)
    ensures r.Some? ==> 1 <= r.value <= 12
  {
    if (|f| == 1 || |f| == 2) && AllDigits(f) && 1 <= Value(f) <= 12 then Some(Value(f))
    else None
  }

  /** `%d`: `3[01]|[12]\d|0[1-9]|[1-9]| [1-9]`. */
  function DayField(f: string): (r: Option<int>)
    ensures r.Some? ==> 1 <= r.value <= 31
  {
    if |f| == 2 && f[0] == ' ' && IsDigit(f[1]) && f[1] != '0' then Some(DigitValue(f[1]))
    else if (|f| == 1 || |f| == 2) && AllDigits(f) && 1 <= Value(f) <= 31 then Some(Value(f))
    else None
  }

  /** `%Y`: exactly four digits. */
  function YearField(f: string): (r: Option<int>)
    ensures r.Some? ==> 0 <= r.value <= 9999
  {
    if |f| == 4 && AllDigits(f) then Some(Value(f)) else None
  }

  /** Reads a whole cell as `%m/%d/%Y`. Text that does not match, a date
      the calendar does not have (02/30) and a date a timestamp cannot hold
      all give `None`, the missing marker. */
  function ParseMdy(s: string): (r: Option<Date>)
    ensures r.Some? ==> Supported(r.value)
  {
    match IndexOf(s, '/')
    case None => None
    case Some(i) =>
      var rest := s[i + 1..];
      match IndexOf(rest, '/')
      case None => None
      case Some(j) =>
        var m, d, y := MonthField(s[..i]), DayField(rest[..j]), YearField(rest[j + 1..]);
        if m.Some? && d.Some? && y.Some? && Supported(Date(y.value, m.value, d.value))
        then Some(Date(y.value, m.value, d.value))
        else None
  }

  /** `%m/%d/%Y` with zero padding, as a spreadsheet exports it. */
  function FormatMdy(d: Date): (r: string)
    requires Supported(d)
    ensures |r| == 10
  {
    SupportedYears(d);
    Pad(d.month, 2) + "/" + Pad(d.day, 2) + "/" + Pad(d.year, 4)
  }

  lemma DigitsHaveNoSlash(s: string)
    requires AllDigits(s)
    ensures IndexOf(s, '/').None?
  {
    assert forall i :: 0 <= i < |s| ==> s[i] != '/' by {
      forall i | 0 <= i < |s| ensures s[i] != '/' {
        assert IsDigit(s[i]);
      }
    }
  }

  lemma IndexAfterDigits(a: string, b: string)
    requires AllDigits(a)
    ensures IndexOf(a + "/" + b, '/') == Some(|a|)
  {
    var s := a + "/" + b;
    assert s[|a|] == '/';
    var r := IndexOf(s, '/');
    assert forall i :: 0 <= i < |a| ==> s[i] == a[i] && IsDigit(a[i]);
    if r.None? {
      assert false;
    }
  }

  /** Every supported date survives being written and read back. */
  lemma ParseFormatMdy(d: Date)
    requires Supported(d)
    ensures ParseMdy(FormatMdy(d)) == Some(d)
  {
    SupportedYears(d);
    var mm, dd, yyyy := Pad(d.month, 2), Pad(d.day, 2), Pad(d.year, 4);
    ValuePad(d.month, 2);
    ValuePad(d.day, 2);
    ValuePad(d.year, 4);
    ParseDigitFields(mm, dd, yyyy);
    assert MonthField(mm) == Some(d.month);
    assert dd[0] != ' ' by {
      assert IsDigit(dd[0]);
    }
    assert DayField(dd) == Some(d.day);
    assert YearField(yyyy) == Some(d.year);
  }

  /** How a cell made of three digit fields is read. */
  lemma ParseDigitFields(a: string, b: string, c: string)
    requires AllDigits(a) && AllDigits(b) && AllDigits(c)
    ensures ParseMdy(a + "/" + b + "/" + c) ==
      (var m, d, y := MonthField(a), DayField(b), YearField(c);
       if m.Some? && d.Some? && y.Some? && Supported(Date(y.value, m.value, d.value))
       then Some(Date(y.value, m.value, d.value)) else None)
  {
    var s := a + "/" + b + "/" + c;
    assert s == a + "/" + (b + "/" + c);
    IndexAfterDigits(a, b + "/" + c);
    var rest := s[|a| + 1..];
    assert rest == b + "/" + c;
    IndexAfterDigits(b, c);
    assert s[..|a|] == a && rest[..|b|] == b && rest[|b| + 1..] == c;
  }

  /** What the cell 02/30/2023 gives: February has no 30th day. */
  lemma ImpossibleDateIsMissing()
    ensures ParseMdy("02/30/2023") == None
  {
    assert MonthField("02") == Some(2) by {
      assert "02"[..1] == "0";
    }
    assert DayField("30") == Some(30) by {
      assert "30"[..1] == "3";
    }
    assert YearField("2023").Some?;
    assert !Supported(Date(YearField("2023").value, 2, 30));
    assert "02/30/2023" == "02" + "/" + "30" + "/" + "2023";
    ParseDigitFields("02", "30", "2023");
  }

  /** Single-digit month and day are accepted: 1/5/2023 is 5 January 2023. */
  lemma ShortFieldsAccepted()
    ensures ParseMdy("1/5/2023") == Some(Date(2023, 1, 5))
  {
    assert MonthField("1") == Some(1);
    assert DayField("5") == Some(5);
    assert YearField("2023") == Some(2023) by {
      assert "2023"[..3] == "202";
      assert "202"[..2] == "20";
      assert "20"[..1] == "2";
    }
    assert Supported(Date(2023, 1, 5));
    assert "1/5/2023" == "1" + "/" + "5" + "/" + "2023";
    ParseDigitFields("1", "5", "2023");
  }
}
