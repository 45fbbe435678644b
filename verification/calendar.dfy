/**
 * Civil (proleptic Gregorian) dates, one-day steps across month and year
 * boundaries, `Date.setDate(getDate() + n)` as a shift by `n` days, and the
 * `YYYY-MM-DD` string a date is keyed by.
 */
module Calendar {
  import opened Text

  datatype Date = Date(year: int, month: int, day: int)

  predicate IsLeapYear(y: int) {
    y % 4 == 0 && (y % 100 != 0 || y % 400 == 0)
  }

  function DaysInMonth(y: int, m: int): (n: int)
    requires 1 <= m <= 12
    ensures 28 <= n <= 31
    ensures n == 29 <==> m == 2 && IsLeapYear(y)
    ensures n == 31 <==> m in {1, 3, 5, 7, 8, 10, 12}
    ensures n == 30 <==> m in {4, 6, 9, 11}
  {
    if m == 2 then (if IsLeapYear(y) then 29 else 28)
    else if m == 4 || m == 6 || m == 9 || m == 11 then 30
    else 31
  }

  predicate ValidDate(d: Date) {
    1 <= d.month <= 12 && 1 <= d.day <= DaysInMonth(d.year, d.month)
  }

  /** Calendar order: by year, then month, then day. */
  predicate Before(a: Date, b: Date) {
    a.year < b.year ||
    (a.year == b.year && (a.month < b.month || (a.month == b.month && a.day < b.day)))
  }

  /** The day after `d`: the next valid date, with no valid date in between. */
  function NextDay(d: Date): (r: Date)
    requires ValidDate(d)
    ensures ValidDate(r) && Before(d, r)
    ensures forall e :: ValidDate(e) && Before(d, e) ==> !Before(e, r)
  {
    if d.day < DaysInMonth(d.year, d.month) then Date(d.year, d.month, d.day + 1)
    else if d.month < 12 then Date(d.year, d.month + 1, 1)
    else Date(d.year + 1, 1, 1)
  }

  /** The day before `d`: the previous valid date, with no valid date in between. */
  function PrevDay(d: Date): (r: Date)
    requires ValidDate(d)
    ensures ValidDate(r) && Before(r, d)
    ensures forall e :: ValidDate(e) && Before(e, d) ==> !Before(r, e)
  {
    if d.day > 1 then Date(d.year, d.month, d.day - 1)
    else if d.month > 1 then Date(d.year, d.month - 1, DaysInMonth(d.year, d.month - 1))
    else Date(d.year - 1, 12, 31)
  }

  /** Stepping forward then back (or back then forward) returns to the same date. */
  lemma {:induction false} PrevNextInverse(d: Date)
    requires ValidDate(d)
    ensures PrevDay(NextDay(d)) == d
    ensures NextDay(PrevDay(d)) == d
  {
    var n := NextDay(d);
    var p := PrevDay(n);
    assert !Before(p, d) && !Before(d, p);
    var q := PrevDay(d);
    var m := NextDay(q);
    assert !Before(m, d) && !Before(d, m);
  }

  /**
   * `date.setDate(date.getDate() + n)`: the date `n` days later (earlier when
   * `n` is negative), the overflow of the day of month carried into the
   * month and the year.
   */
  function Shift(d: Date, n: int): (r: Date)
    requires ValidDate(d)
    ensures ValidDate(r)
    ensures n > 0 ==> Before(d, r)
    ensures n < 0 ==> Before(r, d)
    decreases if n >= 0 then n else -n
  {
    if n == 0 then d
    else if n > 0 then Shift(NextDay(d), n - 1)
    else Shift(PrevDay(d), n + 1)
  }

  lemma ShiftOne(d: Date)
    requires ValidDate(d)
    ensures Shift(d, 1) == NextDay(d) && Shift(d, -1) == PrevDay(d)
  {
  }

  /** Shifting from the next day by `n` is shifting from `d` by `n + 1`, for any sign of `n`. */
  lemma {:induction false} ShiftFromNext(d: Date, n: int)
    requires ValidDate(d)
    ensures Shift(NextDay(d), n) == Shift(d, n + 1)
  {
    if n < 0 {
      PrevNextInverse(d);
    }
  }

  lemma {:induction false} ShiftFromPrev(d: Date, n: int)
    requires ValidDate(d)
    ensures Shift(PrevDay(d), n) == Shift(d, n - 1)
  {
    if n > 0 {
      PrevNextInverse(d);
    }
  }

  /** Two shifts add up: moving `a` days and then `b` days is moving `a + b` days. */
  lemma {:induction false} ShiftAdditive(d: Date, a: int, b: int)
    requires ValidDate(d)
    ensures Shift(Shift(d, a), b) == Shift(d, a + b)
    decreases if a >= 0 then a else -a
  {
    if a > 0 {
      ShiftAdditive(NextDay(d), a - 1, b);
      ShiftFromNext(d, a - 1 + b);
    } else if a < 0 {
      ShiftAdditive(PrevDay(d), a + 1, b);
      ShiftFromPrev(d, a + 1 + b);
    }
  }

  /** `changeDay(n)` followed by `changeDay(-n)` returns to the original date. */
  lemma ShiftRoundTrip(d: Date, n: int)
    requires ValidDate(d)
    ensures Shift(Shift(d, n), -n) == d
  {
    ShiftAdditive(d, n, -n);
  }

  /**
   * The year part of `toISOString()`: four digits for years 0..9999,
   * otherwise a sign and at least six digits.
   */
  function YearString(y: int): (s: string)
    ensures 0 <= y <= 9999 ==> |s| == 4 && IsDigits(s) && Value(s) == y
    ensures !(0 <= y <= 9999) ==> |s| >= 7 && s[0] == (if y < 0 then '-' else '+')
    ensures !(0 <= y <= 9999) ==> forall i :: 1 <= i < |s| ==> IsDigit(s[i])
  {
    var magnitude := if y < 0 then -y else y;
    ValueOfNatToString(magnitude);
    if 0 <= y <= 9999 then
      ValueZeroPadded(NatToString(y), 4);
      NatToStringBelow10000(y);
      PadStart(NatToString(y), 4, '0')
    else
      ValueZeroPadded(NatToString(magnitude), 6);
      (if y < 0 then "-" else "+") + PadStart(NatToString(magnitude), 6, '0')
  }

  lemma NatToStringBelow10000(n: nat)
    requires n <= 9999
    ensures |NatToString(n)| <= 4
  {
    if n >= 10 {
      NatToStringBelow10000(n / 10);
      if n >= 1000 { assert n / 10 >= 100; }
      assert |NatToString(n / 10)| <= 3 by { NatToStringBelow1000(n / 10); }
    }
  }

  lemma NatToStringBelow1000(n: nat)
    requires n <= 999
    ensures |NatToString(n)| <= 3
  {
    if n >= 10 {
      NatToStringBelow100(n / 10);
    }
  }

  /** Different years never render to the same year string. */
  lemma {:induction false} YearStringInjective(a: int, b: int)
    requires YearString(a) == YearString(b)
    ensures a == b
  {
    if !(0 <= a <= 9999) && !(0 <= b <= 9999) {
      var s := YearString(a);
      var ma: nat := if a < 0 then -a else a;
      var mb: nat := if b < 0 then -b else b;
      var pa := PadStart(NatToString(ma), 6, '0');
      var pb := PadStart(NatToString(mb), 6, '0');
      assert s[1..] == pa && s[1..] == pb;
      ValueOfNatToString(ma);
      ValueOfNatToString(mb);
      ValueZeroPadded(NatToString(ma), 6);
      ValueZeroPadded(NatToString(mb), 6);
    }
  }

  /** `date.toISOString().split('T')[0]`, read as the calendar date itself. */
  function IsoDate(d: Date): (s: string)
    requires ValidDate(d)
    ensures |s| >= 10
  {
    YearString(d.year) + "-" + Pad2(d.month) + "-" + Pad2(d.day)
  }

  /**
   * For the years 0..9999 the date string is exactly `YYYY-MM-DD`: ten
   * characters, dashes at positions 4 and 7, and three digit fields that read
   * back as the year, the month and the day.
   */
  lemma IsoDateFields(d: Date)
    requires ValidDate(d) && 0 <= d.year <= 9999
    ensures var s := IsoDate(d);
      && |s| == 10 && s[4] == '-' && s[7] == '-'
      && IsDigits(s[..4]) && Value(s[..4]) == d.year
      && IsDigits(s[5..7]) && Value(s[5..7]) == d.month
      && IsDigits(s[8..]) && Value(s[8..]) == d.day
  {
    DashJoin(YearString(d.year), Pad2(d.month), Pad2(d.day));
  }

  /** The parts of `y-m-d` with a four-character `y` and two-character `m` and `d` sit at fixed positions. */
  lemma DashJoin(y: string, m: string, dd: string)
    requires |y| == 4 && |m| == 2 && |dd| == 2
    ensures var s := y + "-" + m + "-" + dd;
      && |s| == 10 && s[..4] == y && s[4] == '-' && s[5..7] == m && s[7] == '-' && s[8..] == dd
  {
    var s := y + "-" + m + "-" + dd;
    assert s[..4] == y;
    assert s[5..7] == m;
    assert s[8..] == dd;
  }

  /** Distinct dates have distinct `YYYY-MM-DD` strings, so a date string keys exactly one day. */
  lemma {:induction false} IsoDateInjective(a: Date, b: Date)
    requires ValidDate(a) && ValidDate(b)
    requires IsoDate(a) == IsoDate(b)
    ensures a == b
  {
    var ya, yb := YearString(a.year), YearString(b.year);
    var ma, mb := Pad2(a.month), Pad2(b.month);
    SplitSuffix(ya + "-" + ma + "-", Pad2(a.day), yb + "-" + mb + "-", Pad2(b.day));
    SplitSuffix(ya + "-" + ma, "-", yb + "-" + mb, "-");
    SplitSuffix(ya + "-", ma, yb + "-", mb);
    SplitSuffix(ya, "-", yb, "-");
    YearStringInjective(a.year, b.year);
  }

  /** Equal concatenations with equally long tails have equal heads and tails. */
  lemma SplitSuffix(x1: string, t1: string, x2: string, t2: string)
    requires x1 + t1 == x2 + t2 && |t1| == |t2|
    ensures x1 == x2 && t1 == t2
  {
    assert x1 == (x1 + t1)[..|x1|];
    assert x2 == (x2 + t2)[..|x2|];
    assert t1 == (x1 + t1)[|x1|..];
    assert t2 == (x2 + t2)[|x2|..];
  }
}
