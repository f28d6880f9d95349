/** Calendar dates as the diary back end writes and reads them: the
    `strftime` texts used as day and month keys, the ISO text SQLite stores
    for a `date` value, and the year and month SQLite reads back from a
    stored text (`extract('year', …)`, `extract('month', …)`). */
module Calendar {
  import opened Strings

  datatype Date = Date(year: int, month: int, day: int)

  predicate IsLeapYear(year: int) {
    (year % 4 == 0 && year % 100 != 0) || year % 400 == 0
  }

  function DaysInMonth(year: int, month: int): int {
    if month == 2 then (if IsLeapYear(year) then 29 else 28)
    else if month == 4 || month == 6 || month == 9 || month == 11 then 30
    else 31
  }

  /** The dates Python's `datetime.date` can represent. */
  predicate ValidDate(d: Date) {
    1 <= d.year <= 9999 && 1 <= d.month <= 12 && 1 <= d.day <= DaysInMonth(d.year, d.month)
  }

  /** Calendar order on dates. */
  predicate DateLe(a: Date, b: Date) {
    a.year < b.year || (a.year == b.year && (a.month < b.month || (a.month == b.month && a.day <= b.day)))
  }

  /** `d.strftime('%Y-%m-%d')`; also the text SQLite stores for `d`. */
  function IsoDate(d: Date): string
    requires ValidDate(d)
  {
    ZeroPad(d.year, 4) + "-" + ZeroPad(d.month, 2) + "-" + ZeroPad(d.day, 2)
  }

  /** `d.strftime('%Y-%m')` */
  function YearMonthKey(d: Date): string
    requires ValidDate(d)
  {
    ZeroPad(d.year, 4) + "-" + ZeroPad(d.month, 2)
  }

  /** `d.strftime('%Y-%m-')`: the prefix of every day key of d's month. */
  function MonthPrefix(d: Date): string
    requires ValidDate(d)
  {
    YearMonthKey(d) + "-"
  }

  lemma PaddedLengths(d: Date)
    requires ValidDate(d)
    ensures |ZeroPad(d.year, 4)| == 4 && |ZeroPad(d.month, 2)| == 2 && |ZeroPad(d.day, 2)| == 2
  {
    assert Pow10(4) == 10000 && Pow10(2) == 100;
    ZeroPadLength(d.year, 4);
    ZeroPadLength(d.month, 2);
    ZeroPadLength(d.day, 2);
  }

  /** Day keys have ten characters and month keys seven, so a `'%Y-%m'`
      month key is never equal to a stored first-of-month date. */
  lemma KeyLengths(d: Date)
    requires ValidDate(d)
    ensures |IsoDate(d)| == 10 && |YearMonthKey(d)| == 7
    ensures IsoDate(d) == MonthPrefix(d) + ZeroPad(d.day, 2)
  {
    PaddedLengths(d);
  }

  /** A month key and a month prefix are made of digits and dashes only. */
  lemma KeysAreDigitsAndDashes(d: Date)
    requires ValidDate(d)
    ensures forall i :: 0 <= i < |YearMonthKey(d)| ==> IsDigit(YearMonthKey(d)[i]) || YearMonthKey(d)[i] == '-'
    ensures forall i :: 0 <= i < |MonthPrefix(d)| ==> IsDigit(MonthPrefix(d)[i]) || MonthPrefix(d)[i] == '-'
  {
    var y, m := ZeroPad(d.year, 4), ZeroPad(d.month, 2);
    assert YearMonthKey(d) == y + "-" + m;
    forall i | 0 <= i < |YearMonthKey(d)| ensures IsDigit(YearMonthKey(d)[i]) || YearMonthKey(d)[i] == '-' {
      if i < |y| {
        assert YearMonthKey(d)[i] == y[i];
      } else if i > |y| {
        assert YearMonthKey(d)[i] == m[i - |y| - 1];
      }
    }
    assert MonthPrefix(d) == YearMonthKey(d) + "-";
    forall i | 0 <= i < |MonthPrefix(d)| ensures IsDigit(MonthPrefix(d)[i]) || MonthPrefix(d)[i] == '-' {
      if i < |YearMonthKey(d)| {
        assert MonthPrefix(d)[i] == YearMonthKey(d)[i];
      }
    }
  }

  /** The shape of a stored `YYYY-MM-DD` text: ten characters, with a
      dash at positions 4 and 7 and nowhere else. */
  predicate IsoDateShape(s: string) {
    |s| == 10 && forall i :: 0 <= i < |s| ==> (s[i] == '-' <==> i == 4 || i == 7)
  }

  lemma IsoDateShaped(d: Date)
    requires ValidDate(d)
    ensures IsoDateShape(IsoDate(d))
  {
    PaddedLengths(d);
    var s := IsoDate(d);
    var y, m, dd := ZeroPad(d.year, 4), ZeroPad(d.month, 2), ZeroPad(d.day, 2);
    assert s == y + "-" + m + "-" + dd;
    forall i | 0 <= i < 10
      ensures s[i] == '-' <==> i == 4 || i == 7
    {
      if i < 4 {
        assert s[i] == y[i];
      } else if 4 < i < 7 {
        assert s[i] == m[i - 5];
      } else if i > 7 {
        assert s[i] == dd[i - 8];
      }
    }
  }

  /** `CAST(strftime('%Y', s) AS INTEGER)` and `… '%m' …` for a stored
      text in the `YYYY-MM-DD` form; any other text gives NULL. SQLite
      reads any day from 1 to 31 and goes through the Julian day, so a day
      past the end of its month lands in the next month (`"2024-02-31"` is
      2 March); December has 31 days, so the year never changes. */
  function DateParts(s: string): (r: Option<(int, int)>)
    ensures r.Some? ==> 0 <= r.value.0 <= 9999 && 1 <= r.value.1 <= 12
  {
    if |s| == 10 && AllDigits(s[..4]) && s[4] == '-' && AllDigits(s[5..7]) && s[7] == '-'
      && AllDigits(s[8..]) && 1 <= DecimalValue(s[5..7]) <= 12 && 1 <= DecimalValue(s[8..]) <= 31
    then
      DecimalBound(s[..4]);
      var year, month := DecimalValue(s[..4]), DecimalValue(s[5..7]);
      Some((year, if DecimalValue(s[8..]) > DaysInMonth(year, month) then month + 1 else month))
    else None
  }

  lemma {:induction false} DecimalBound(s: string)
    requires AllDigits(s)
    ensures DecimalValue(s) < Pow10(|s|)
    decreases |s|
  {
    if |s| > 0 {
      DecimalBound(s[..|s| - 1]);
    }
  }

  /** What SQLite reads back from a `YYYY-MM-DD` text with a day from 1 to
      31: its year, and its month, or the next one when the day is past the
      end of the month. */
  lemma DatePartsOfDayText(year: nat, month: nat, day: nat)
    requires year <= 9999 && 1 <= month <= 12 && 1 <= day <= 31
    ensures DateParts(ZeroPad(year, 4) + "-" + ZeroPad(month, 2) + "-" + ZeroPad(day, 2))
      == Some((year, if day <= DaysInMonth(year, month) then month else month + 1))
  {
    var s := ZeroPad(year, 4) + "-" + ZeroPad(month, 2) + "-" + ZeroPad(day, 2);
    DayTextFields(year, month, day);
    assert DecimalValue(s[..4]) == year && DecimalValue(s[5..7]) == month && DecimalValue(s[8..]) == day;
  }

  /** The fields of a `YYYY-MM-DD` text, each read back as its number. */
  lemma DayTextFields(year: nat, month: nat, day: nat)
    requires year <= 9999 && 1 <= month <= 12 && 1 <= day <= 31
    ensures var s := ZeroPad(year, 4) + "-" + ZeroPad(month, 2) + "-" + ZeroPad(day, 2);
      |s| == 10 && s[4] == '-' && s[7] == '-'
      && s[..4] == ZeroPad(year, 4) && s[5..7] == ZeroPad(month, 2) && s[8..] == ZeroPad(day, 2)
      && DecimalValue(s[..4]) == year && DecimalValue(s[5..7]) == month && DecimalValue(s[8..]) == day
  {
    assert Pow10(4) == 10000 && Pow10(2) == 100;
    ZeroPadLength(year, 4);
    ZeroPadLength(month, 2);
    ZeroPadLength(day, 2);
    DashedFields(ZeroPad(year, 4), ZeroPad(month, 2), ZeroPad(day, 2));
    DecimalValueOfZeroPad(year, 4);
    DecimalValueOfZeroPad(month, 2);
    DecimalValueOfZeroPad(day, 2);
  }

  lemma DashedFields(y: string, m: string, d: string)
    requires |y| == 4 && |m| == 2 && |d| == 2
    ensures var s := y + "-" + m + "-" + d;
      |s| == 10 && s[4] == '-' && s[7] == '-' && s[..4] == y && s[5..7] == m && s[8..] == d
  {
  }

  /** What SQLite reads back from a stored date is the date's year and month. */
  lemma DatePartsOfIsoDate(d: Date)
    requires ValidDate(d)
    ensures DateParts(IsoDate(d)) == Some((d.year, d.month))
  {
    DatePartsOfDayText(d.year, d.month, d.day);
  }

  /** A day text past the end of its month is read in the next month: the
      thirty-first of February or of April is a day of March or of May. */
  lemma DayOverflowNextMonth(year: nat)
    requires year <= 9999
    ensures DateParts(ZeroPad(year, 4) + "-02-31") == Some((year as int, 3))
    ensures DateParts(ZeroPad(year, 4) + "-04-31") == Some((year as int, 5))
  {
    var y := ZeroPad(year, 4);
    assert ZeroPad(31, 2) == "31";
    assert y + "-02-31" == y + "-" + ZeroPad(2, 2) + "-" + ZeroPad(31, 2) by {
      assert ZeroPad(2, 2) == "02";
    }
    assert y + "-04-31" == y + "-" + ZeroPad(4, 2) + "-" + ZeroPad(31, 2) by {
      assert ZeroPad(4, 2) == "04";
    }
    DatePartsOfDayText(year, 2, 31);
    DatePartsOfDayText(year, 4, 31);
  }

  /** Different dates are stored as different texts. */
  lemma IsoDateInjective(a: Date, b: Date)
    requires ValidDate(a) && ValidDate(b) && IsoDate(a) == IsoDate(b)
    ensures a == b
  {
    PaddedLengths(a);
    PaddedLengths(b);
    var s := IsoDate(a);
    assert s[..4] == ZeroPad(a.year, 4) == ZeroPad(b.year, 4);
    assert s[5..7] == ZeroPad(a.month, 2) == ZeroPad(b.month, 2);
    assert s[8..] == ZeroPad(a.day, 2) == ZeroPad(b.day, 2);
    ZeroPadInjective(a.year, b.year, 4);
    ZeroPadInjective(a.month, b.month, 2);
    ZeroPadInjective(a.day, b.day, 2);
  }

  /** A day key starts with a month's `'%Y-%m'` key exactly when the day lies
      in that month. */
  lemma DayInMonthKey(d: Date, m: Date)
    requires ValidDate(d) && ValidDate(m)
    ensures StartsWith(IsoDate(d), YearMonthKey(m)) <==> d.year == m.year && d.month == m.month
  {
    PaddedLengths(d);
    PaddedLengths(m);
    var s, k := IsoDate(d), YearMonthKey(m);
    if StartsWith(s, k) {
      assert s[..4] == k[..4] && s[5..7] == k[5..7];
      assert s[..4] == ZeroPad(d.year, 4) && k[..4] == ZeroPad(m.year, 4);
      assert s[5..7] == ZeroPad(d.month, 2) && k[5..7] == ZeroPad(m.month, 2);
      ZeroPadInjective(d.year, m.year, 4);
      ZeroPadInjective(d.month, m.month, 2);
    }
    if d.year == m.year && d.month == m.month {
      assert s[..7] == k;
    }
  }
}
