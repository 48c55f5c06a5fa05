/** UTC timestamps as ISO 8601 text: comparing the texts compares the instants. */
module Timestamps {
  import opened DecimalText
  import opened Decimal
  import opened Ordering

  datatype Timestamp = Timestamp(year: nat, month: nat, day: nat, hour: nat, minute: nat, second: nat, micro: nat)

  // ---------------------------------------------------------------- the calendar

  predicate IsLeap(year: nat) {
    year % 4 == 0 && (year % 100 != 0 || year % 400 == 0)
  }

  function DaysIn(year: nat, month: nat): nat {
    if month == 2 then (if IsLeap(year) then 29 else 28)
    else if month == 4 || month == 6 || month == 9 || month == 11 then 30
    else 31
  }

  predicate Valid(t: Timestamp) {
    && 1 <= t.year <= 9999 && 1 <= t.month <= 12 && 1 <= t.day <= DaysIn(t.year, t.month)
    && t.hour < 24 && t.minute < 60 && t.second < 60 && t.micro < 1000000
  }

  function DaysBeforeMonth(year: nat, month: nat): nat {
    if month <= 1 then 0 else DaysBeforeMonth(year, month - 1) + DaysIn(year, month - 1)
  }

  function DaysBeforeYear(year: nat): nat {
    if year <= 1 then 0 else DaysBeforeYear(year - 1) + (if IsLeap(year - 1) then 366 else 365)
  }

  function DayNumber(t: Timestamp): nat {
    DaysBeforeYear(t.year) + DaysBeforeMonth(t.year, t.month) + t.day
  }

  function MicroOfDay(t: Timestamp): nat {
    ((t.hour * 60 + t.minute) * 60 + t.second) * 1000000 + t.micro
  }

  /** Microseconds on the proleptic Gregorian calendar. */
  function Instant(t: Timestamp): nat {
    DayNumber(t) * 86400000000 + MicroOfDay(t)
  }

  lemma {:induction false} MonthsAdd(year: nat, m: nat, n: nat)
    requires 1 <= m < n
    ensures DaysBeforeMonth(year, m) + DaysIn(year, m) <= DaysBeforeMonth(year, n)
    decreases n
  {
    if m < n - 1 { MonthsAdd(year, m, n - 1); }
  }

  lemma YearHasItsMonths(year: nat)
    ensures DaysBeforeMonth(year, 13) == if IsLeap(year) then 366 else 365
  {
    hide IsLeap;
    assert DaysBeforeMonth(year, 2) == 31;
    assert DaysBeforeMonth(year, 4) == DaysBeforeMonth(year, 2) + DaysIn(year, 2) + 31;
    assert DaysBeforeMonth(year, 6) == DaysBeforeMonth(year, 4) + 30 + 31;
    assert DaysBeforeMonth(year, 8) == DaysBeforeMonth(year, 6) + 30 + 31;
    assert DaysBeforeMonth(year, 10) == DaysBeforeMonth(year, 8) + 31 + 30;
    assert DaysBeforeMonth(year, 12) == DaysBeforeMonth(year, 10) + 31 + 30;
  }

  lemma {:induction false} YearsAdd(y: nat, z: nat)
    requires 1 <= y < z
    ensures DaysBeforeYear(y) + (if IsLeap(y) then 366 else 365) <= DaysBeforeYear(z)
    decreases z
  {
    hide IsLeap;
    if y < z - 1 { YearsAdd(y, z - 1); }
  }

  /** The Gregorian calendar: a leap year every four years, but only one in four at the hundreds. */
  lemma {:induction false} YearsElapsed(year: nat)
    requires year >= 1
    ensures var n := year - 1; DaysBeforeYear(year) == 365 * n + n / 4 - n / 100 + n / 400
  {
    if year > 1 { YearsElapsed(year - 1); LeapCounts(year - 1); }
  }

  lemma LeapCounts(n: nat)
    requires n >= 1
    ensures var m := n - 1;
            n / 4 - n / 100 + n / 400 == m / 4 - m / 100 + m / 400 + (if IsLeap(n) then 1 else 0)
  {
    Quotients(n);
    Multiples(n);
  }

  lemma Quotients(n: nat)
    requires n >= 1
    ensures n / 4 == (n - 1) / 4 + (if n % 4 == 0 then 1 else 0)
    ensures n / 100 == (n - 1) / 100 + (if n % 100 == 0 then 1 else 0)
    ensures n / 400 == (n - 1) / 400 + (if n % 400 == 0 then 1 else 0)
  {
  }

  lemma Multiples(n: nat)
    ensures n % 400 == 0 ==> n % 100 == 0
    ensures n % 100 == 0 ==> n % 4 == 0
  {
    if n % 400 == 0 {
      var k := 4 * (n / 400);
      assert n == 100 * k;
    }
    if n % 100 == 0 {
      var k := 25 * (n / 100);
      assert n == 4 * k;
    }
  }

  /** The days of a year that have gone by when a month begins. */
  lemma MonthsElapsed(year: nat, month: nat)
    requires 1 <= month <= 12
    ensures DaysBeforeMonth(year, month) ==
            [0, 31, 59, 90, 120, 151, 181, 212, 243, 273, 304, 334][month - 1]
            + (if month > 2 && IsLeap(year) then 1 else 0)
  {
    hide IsLeap;
    if month > 1 { MonthsElapsed(year, month - 1); }
  }

  predicate DateBefore(a: Timestamp, b: Timestamp) {
    a.year < b.year || (a.year == b.year && (a.month < b.month || (a.month == b.month && a.day < b.day)))
  }

  lemma DateBeforeIsSmaller(a: Timestamp, b: Timestamp)
    requires Valid(a) && Valid(b) && DateBefore(a, b)
    ensures DayNumber(a) < DayNumber(b)
  {
    hide IsLeap, DaysBeforeMonth, DaysBeforeYear;
    if a.year < b.year {
      MonthsAdd(a.year, a.month, 13);
      YearHasItsMonths(a.year);
      YearsAdd(a.year, b.year);
    } else if a.month < b.month {
      MonthsAdd(a.year, a.month, b.month);
    }
  }

  predicate TimeBefore(a: Timestamp, b: Timestamp) {
    a.hour < b.hour || (a.hour == b.hour && (a.minute < b.minute || (a.minute == b.minute
      && (a.second < b.second || (a.second == b.second && a.micro < b.micro)))))
  }

  predicate FieldsBefore(a: Timestamp, b: Timestamp) {
    DateBefore(a, b) || (a.year == b.year && a.month == b.month && a.day == b.day && TimeBefore(a, b))
  }

  /** Comparing fields from the year down compares instants. */
  lemma FieldsBeforeIsEarlier(a: Timestamp, b: Timestamp)
    requires Valid(a) && Valid(b)
    ensures FieldsBefore(a, b) <==> Instant(a) < Instant(b)
  {
    hide DaysBeforeMonth, DaysBeforeYear, IsLeap, DaysIn;
    if DateBefore(a, b) { DateBeforeIsSmaller(a, b); }
    if DateBefore(b, a) { DateBeforeIsSmaller(b, a); }
    assert MicroOfDay(a) < 86400000000 && MicroOfDay(b) < 86400000000;
    assert TimeBefore(a, b) <==> MicroOfDay(a) < MicroOfDay(b);
  }

  // ---------------------------------------------------------------- text

  /** Python's order on strings. */
  predicate TextLess(a: string, b: string) {
    Less(CodePoints(a), CodePoints(b))
  }

  function Date(t: Timestamp, rest: string): string {
    Digits(t.year, 4) + ("-" + (Digits(t.month, 2) + ("-" + (Digits(t.day, 2) + ("T" + rest)))))
  }

  function Time(t: Timestamp, rest: string): string {
    Digits(t.hour, 2) + (":" + (Digits(t.minute, 2) + (":" + (Digits(t.second, 2) + rest))))
  }

  function Fraction(t: Timestamp): string {
    if t.micro == 0 then "+00:00" else "." + (Digits(t.micro, 6) + "+00:00")
  }

  /** datetime.isoformat() of a UTC timestamp: no fraction when there are no microseconds. */
  function IsoFormat(t: Timestamp): string {
    Date(t, Time(t, Fraction(t)))
  }

  lemma LessSame(c: char, a: string, b: string)
    ensures TextLess([c] + a, [c] + b) <==> TextLess(a, b)
  {
    assert CodePoints([c] + a)[1..] == CodePoints(a) && CodePoints([c] + b)[1..] == CodePoints(b);
  }

  lemma LessFirst(c: char, d: char, a: string, b: string)
    requires c != d
    ensures TextLess([c] + a, [d] + b) <==> c < d
  {
    assert CodePoints([c] + a)[0] == c as int && CodePoints([d] + b)[0] == d as int;
  }

  /** Numerals of the same width compare as numbers, then by what follows. */
  lemma {:induction false} DigitsOrder(m: nat, n: nat, width: nat, r: string, r': string)
    requires m < Shifted(1, width) && n < Shifted(1, width)
    ensures TextLess(Digits(m, width) + r, Digits(n, width) + r') <==> m < n || (m == n && TextLess(r, r'))
    decreases width
  {
    hide TextLess, Scaleb;
    if width == 0 {
      assert "" + r == r && "" + r' == r';
    } else {
      var c, d := DigitChar(m % 10), DigitChar(n % 10);
      assert Digits(m, width) + r == Digits(m / 10, width - 1) + ([c] + r);
      assert Digits(n, width) + r' == Digits(n / 10, width - 1) + ([d] + r');
      DigitsOrder(m / 10, n / 10, width - 1, [c] + r, [d] + r');
      if c == d { LessSame(c, r, r'); } else { LessFirst(c, d, r, r'); }
    }
  }

  lemma Widths()
    ensures Shifted(1, 2) == 100 && Shifted(1, 4) == 10000 && Shifted(1, 6) == 1000000
  {
    hide Scaleb;
  }

  lemma DateOrder(a: Timestamp, b: Timestamp, r: string, r': string)
    requires Valid(a) && Valid(b)
    ensures TextLess(Date(a, r), Date(b, r')) <==>
            DateBefore(a, b) || (a.year == b.year && a.month == b.month && a.day == b.day && TextLess(r, r'))
  {
    hide TextLess, Digits, Shifted, IsLeap;
    Widths();
    var d, d' := Digits(a.day, 2) + ("T" + r), Digits(b.day, 2) + ("T" + r');
    var m, m' := Digits(a.month, 2) + ("-" + d), Digits(b.month, 2) + ("-" + d');
    DigitsOrder(a.year, b.year, 4, "-" + m, "-" + m'); LessSame('-', m, m');
    DigitsOrder(a.month, b.month, 2, "-" + d, "-" + d'); LessSame('-', d, d');
    DigitsOrder(a.day, b.day, 2, "T" + r, "T" + r'); LessSame('T', r, r');
  }

  /** The clock time, down to the second. */
  lemma TimeOrder(a: Timestamp, b: Timestamp, r: string, r': string)
    requires Valid(a) && Valid(b)
    ensures TextLess(Time(a, r), Time(b, r')) <==>
            TimeBefore(a.(micro := 0), b.(micro := 0))
            || (a.hour == b.hour && a.minute == b.minute && a.second == b.second && TextLess(r, r'))
  {
    hide TextLess, Digits, Shifted, IsLeap, DaysIn;
    Widths();
    var s, s' := Digits(a.second, 2) + r, Digits(b.second, 2) + r';
    var m, m' := Digits(a.minute, 2) + (":" + s), Digits(b.minute, 2) + (":" + s');
    DigitsOrder(a.hour, b.hour, 2, ":" + m, ":" + m'); LessSame(':', m, m');
    DigitsOrder(a.minute, b.minute, 2, ":" + s, ":" + s'); LessSame(':', s, s');
    DigitsOrder(a.second, b.second, 2, r, r');
  }

  /** A missing fraction comes before every fraction, because a plus sign comes before a point. */
  lemma FractionOrder(a: Timestamp, b: Timestamp)
    requires Valid(a) && Valid(b)
    ensures TextLess(Fraction(a), Fraction(b)) <==> a.micro < b.micro
  {
    hide TextLess, Digits, Shifted, IsLeap, DaysIn;
    Widths();
    var f, f' := Digits(a.micro, 6) + "+00:00", Digits(b.micro, 6) + "+00:00";
    DigitsOrder(a.micro, b.micro, 6, "+00:00", "+00:00");
    NotLess("+00:00");
    LessSame('.', f, f');
    assert "+00:00" == ['+'] + "00:00";
    LessFirst('+', '.', "00:00", f'); LessFirst('.', '+', f, "00:00");
  }

  lemma NotLess(s: string)
    ensures !TextLess(s, s)
  {
    LessIrreflexive(CodePoints(s));
  }

  /** Comparing the texts of two UTC timestamps compares their instants. */
  lemma IsoOrderIsTimeOrder(a: Timestamp, b: Timestamp)
    requires Valid(a) && Valid(b)
    ensures TextLess(IsoFormat(a), IsoFormat(b)) <==> Instant(a) < Instant(b)
  {
    hide TextLess, Digits, Shifted, Instant, IsLeap, DaysIn, Date, Time, Fraction;
    DateOrder(a, b, Time(a, Fraction(a)), Time(b, Fraction(b)));
    TimeOrder(a, b, Fraction(a), Fraction(b));
    FractionOrder(a, b);
    FieldsBeforeIsEarlier(a, b);
  }

  /** A numeral of this width, padded with zeros. */
  ghost predicate IsNumeral(s: string, n: int) {
    (forall i :: 0 <= i < |s| ==> IsDigit(s[i])) && ReadDigits(s) == n
  }

  lemma DigitsAreNumeral(n: nat, width: nat)
    requires n < Shifted(1, width)
    ensures |Digits(n, width)| == width && IsNumeral(Digits(n, width), n)
  {
    ReadDigitsAppended("", n, width);
    assert "" + Digits(n, width) == Digits(n, width);
    DigitsAreDigits(n, width);
    ShiftedNothing(width);
    hide Digits, Shifted;
    assert ReadDigits("") == 0;
  }

  lemma {:induction false} ShiftedNothing(width: nat)
    ensures Shifted(0, width) == 0
  {
    ScalebOrder(0.0, 0.0, width);
  }

  lemma {:induction false} DigitsAreDigits(n: nat, width: nat)
    ensures forall i :: 0 <= i < width ==> IsDigit(Digits(n, width)[i])
  {
    if width > 0 { DigitsAreDigits(n / 10, width - 1); }
  }

  /** Year, month and day, hour, minute and second as numerals of fixed width with these characters
      between them. */
  ghost predicate StartsAs(s: string, t: Timestamp) {
    && |s| >= 19
    && IsNumeral(s[..4], t.year) && s[4] == '-' && IsNumeral(s[5..7], t.month) && s[7] == '-'
    && IsNumeral(s[8..10], t.day) && s[10] == 'T' && IsNumeral(s[11..13], t.hour) && s[13] == ':'
    && IsNumeral(s[14..16], t.minute) && s[16] == ':' && IsNumeral(s[17..19], t.second)
  }

  lemma DateTimeStarts(t: Timestamp, rest: string)
    requires Valid(t)
    ensures var s := Date(t, Time(t, rest)); StartsAs(s, t) && s[19..] == rest
  {
    hide Digits, IsNumeral, Shifted, IsLeap;
    Widths();
    DigitsAreNumeral(t.year, 4); DigitsAreNumeral(t.month, 2); DigitsAreNumeral(t.day, 2);
    DigitsAreNumeral(t.hour, 2); DigitsAreNumeral(t.minute, 2); DigitsAreNumeral(t.second, 2);
    var s := Date(t, Time(t, rest));
    assert s[..4] == Digits(t.year, 4) && s[5..7] == Digits(t.month, 2) && s[8..10] == Digits(t.day, 2);
    assert s[11..13] == Digits(t.hour, 2) && s[14..16] == Digits(t.minute, 2) && s[17..19] == Digits(t.second, 2);
  }

  /** What isoformat writes, place by place: a fraction of six digits only when there are microseconds. */
  lemma IsoFormatReads(t: Timestamp)
    requires Valid(t)
    ensures var s := IsoFormat(t);
            && StartsAs(s, t)
            && (t.micro == 0 ==> s[19..] == "+00:00")
            && (t.micro > 0 ==> |s| == 32 && s[19] == '.' && IsNumeral(s[20..26], t.micro) && s[26..] == "+00:00")
  {
    hide Digits, IsNumeral, Shifted, IsLeap, Date, Time, StartsAs;
    Widths();
    DateTimeStarts(t, Fraction(t));
    AtLeast19(IsoFormat(t), t);
    DigitsAreNumeral(t.micro, 6);
    if t.micro > 0 {
      var s, f := IsoFormat(t), Fraction(t);
      assert f[1..7] == Digits(t.micro, 6) && f[7..] == "+00:00";
      assert s == s[..19] + f;
      assert s[20..26] == f[1..7] && s[26..] == f[7..];
    }
  }

  lemma AtLeast19(s: string, t: Timestamp)
    ensures StartsAs(s, t) ==> |s| >= 19
  {
  }

  function ZuluFraction(t: Timestamp): string {
    if t.micro == 0 then "Z" else "." + (Digits(t.micro, 6) + "Z")
  }

  /** A timestamp with the suffix Z, as the command line writes it: no fraction when there are no
      microseconds. */
  function Zulu(t: Timestamp): string {
    Date(t, Time(t, ZuluFraction(t)))
  }

  /** The same with a Z for the offset. */
  lemma ZuluReads(t: Timestamp)
    requires Valid(t)
    ensures var s := Zulu(t);
            && StartsAs(s, t)
            && (t.micro == 0 ==> s[19..] == "Z")
            && (t.micro > 0 ==> |s| == 27 && s[19] == '.' && IsNumeral(s[20..26], t.micro) && s[26] == 'Z')
  {
    hide Digits, IsNumeral, Shifted, IsLeap, Date, Time, StartsAs;
    Widths();
    DateTimeStarts(t, ZuluFraction(t));
    AtLeast19(Zulu(t), t);
    DigitsAreNumeral(t.micro, 6);
    if t.micro > 0 {
      var s, f := Zulu(t), ZuluFraction(t);
      assert f[1..7] == Digits(t.micro, 6) && f[7..] == "Z";
      assert s == s[..19] + f;
      assert s[20..26] == f[1..7] && s[26..] == f[7..];
    }
  }

  /** Compared with a cutoff written with Z, an event of the cutoff's own instant counts as earlier, and
      where the cutoff has no fraction so does every event of its second. */
  lemma ZuluCutoff(e: Timestamp, cut: Timestamp)
    requires Valid(e) && Valid(cut)
    ensures !TextLess(IsoFormat(e), Zulu(cut)) <==> Instant(e) >= Instant(cut) + (if cut.micro == 0 then 1000000 else 1)
  {
    hide TextLess, Digits, Shifted, IsLeap, DaysIn, Date, Time, Instant, Fraction, ZuluFraction;
    DateOrder(e, cut, Time(e, Fraction(e)), Time(cut, ZuluFraction(cut)));
    TimeOrder(e, cut, Fraction(e), ZuluFraction(cut));
    ZuluFractionOrder(e, cut);
    FieldsBeforeIsEarlier(e.(micro := 0), cut.(micro := 0)); FieldsBeforeIsEarlier(cut.(micro := 0), e.(micro := 0));
    SecondsApart(e); SecondsApart(cut);
    WholeSecondsApart(Instant(e.(micro := 0)), Instant(cut.(micro := 0)), e.micro, cut.micro);
  }

  lemma WholeSecondsApart(x: nat, y: nat, m: nat, n: nat)
    requires x % 1000000 == 0 && y % 1000000 == 0 && m < 1000000 && n < 1000000
    ensures y < x || (x == y && n > 0 && m > n) <==> x + m >= y + n + (if n == 0 then 1000000 else 1)
  {
  }

  /** Z comes after a plus sign and after a point. */
  lemma ZuluFractionOrder(e: Timestamp, cut: Timestamp)
    requires Valid(e) && Valid(cut)
    ensures TextLess(Fraction(e), ZuluFraction(cut)) <==> cut.micro == 0 || e.micro <= cut.micro
  {
    hide TextLess, Digits, Shifted, IsLeap, DaysIn;
    Widths();
    assert "Z" == ['Z'] + "" && "+00:00" == ['+'] + "00:00";
    var f, g := Digits(e.micro, 6) + "+00:00", Digits(cut.micro, 6) + "Z";
    LessFirst('+', 'Z', "00:00", ""); LessFirst('.', 'Z', f, ""); LessFirst('+', '.', "00:00", g);
    DigitsOrder(e.micro, cut.micro, 6, "+00:00", "Z");
    LessSame('.', f, g);
  }

  lemma SecondsApart(t: Timestamp)
    requires Valid(t)
    ensures Instant(t) == Instant(t.(micro := 0)) + t.micro && Instant(t.(micro := 0)) % 1000000 == 0
  {
    hide IsLeap, DaysIn, DaysBeforeYear, DaysBeforeMonth;
    WholeSeconds(t.(micro := 0));
  }

  lemma WholeSeconds(t: Timestamp)
    requires t.micro == 0
    ensures Instant(t) % 1000000 == 0
  {
    hide DayNumber;
    assert Instant(t) == (DayNumber(t) * 86400 + (t.hour * 60 + t.minute) * 60 + t.second) * 1000000;
  }
}
