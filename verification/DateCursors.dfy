/**
 Date cursors as text: a year of at least four digits, the month and the day.
 Texts are read back only when the year has exactly four digits.
 */
module DateCursors {
  import opened Prelude
  import opened Trimming
  import opened DecimalText
  import opened CursorRange
  import opened CursorTasks
  import opened CursorOrder

  datatype Day = Day(year: nat, month: nat, day: nat)

  predicate IsLeap(year: nat) { year % 4 == 0 && (year % 100 != 0 || year % 400 == 0) }

  function DaysIn(year: nat, month: nat): nat {
    if month == 2 then (if IsLeap(year) then 29 else 28)
    else if month == 4 || month == 6 || month == 9 || month == 11 then 30
    else 31
  }

  predicate IsDay(x: Day) { 1 <= x.month <= 12 && 1 <= x.day <= DaysIn(x.year, x.month) }

  /** Earlier in time. */
  predicate Earlier(x: Day, y: Day) {
    x.year < y.year || (x.year == y.year && (x.month < y.month || (x.month == y.month && x.day < y.day)))
  }

  // ----- counting days -----

  function YearLength(year: nat): nat { if IsLeap(year) then 366 else 365 }

  function YearStart(year: nat): nat { if year == 0 then 0 else YearStart(year - 1) + YearLength(year - 1) }

  function MonthStart(year: nat, month: nat): nat {
    if month <= 1 then 0 else MonthStart(year, month - 1) + DaysIn(year, month - 1)
  }

  function DayNumber(x: Day): nat { YearStart(x.year) + MonthStart(x.year, x.month) + x.day }

  /** How many of the first `n` years are multiples of `k`, the year 0 among them. */
  function Multiples(n: nat, k: nat): nat
    requires k > 0
  {
    (n + k - 1) / k
  }

  lemma MultiplesMore(n: nat, k: nat)
    requires k > 0
    ensures Multiples(n + 1, k) == Multiples(n, k) + if n % k == 0 then 1 else 0
  {
    var q, r := n / k, n % k;
    assert n == q * k + r;
    assert (q + 1) * k == q * k + k && (q + 2) * k == q * k + 2 * k;
    DivisionIs(n + k, k, q + 1);
    DivisionIs(n + k - 1, k, if r == 0 then q else q + 1);
  }

  lemma TimesSum(a: int, b: int, c: int)
    ensures (a + b) * c == a * c + b * c
  {
  }

  lemma MultiplesAhead(n: nat, k: nat, m: nat)
    requires k > 0
    ensures Multiples(n + m * k, k) == Multiples(n, k) + m
  {
    var x := n + k - 1;
    var q, r, y := x / k, x % k, m * k;
    assert x == q * k + r;
    TimesSum(q, m, k);
    TimesSum(q + m, 1, k);
    DivisionIs(x + y, k, q + m);
  }

  /**
   The number of days before a year: 365 each, one more for every fourth, less the
   centuries, plus every fourth century.
   */
  lemma {:induction false} YearStartIs(year: nat)
    ensures YearStart(year) == 365 * year + Multiples(year, 4) - Multiples(year, 100) + Multiples(year, 400)
  {
    hide Multiples;
    if year == 0 {
      NoMultiples(4);
      NoMultiples(100);
      NoMultiples(400);
    } else {
      YearStartIs(year - 1);
      MultiplesMore(year - 1, 4);
      MultiplesMore(year - 1, 100);
      MultiplesMore(year - 1, 400);
      LeapIs(year - 1);
    }
  }

  lemma NoMultiples(k: nat)
    requires k > 0
    ensures Multiples(0, k) == 0
  {
    DivisionIs(k - 1, k, 0);
  }

  /** Multiples of `m * k` are multiples of `k`. */
  lemma MultipleOf(n: nat, m: nat, k: nat)
    requires m * k > 0 && n % (m * k) == 0
    ensures n % k == 0
  {
    var q := n / (m * k);
    assert n == q * (m * k);
    assert q * (m * k) == (q * m) * k;
    assert (q * m + 1) * k == q * m * k + k;
    DivisionIs(n, k, q * m);
  }

  lemma LeapIs(year: nat)
    ensures YearLength(year) == 365 + (if year % 4 == 0 then 1 else 0) - (if year % 100 == 0 then 1 else 0)
                                    + (if year % 400 == 0 then 1 else 0)
  {
    if year % 100 == 0 {
      MultipleOf(year, 25, 4);
    }
    if year % 400 == 0 {
      MultipleOf(year, 4, 100);
    }
  }

  /** So 400 years have 146097 days, wherever they begin. */
  lemma CycleOfYears(year: nat)
    ensures YearStart(year + 400) == YearStart(year) + 146_097
  {
    hide Multiples, YearStart;
    YearStartIs(year);
    YearStartIs(year + 400);
    MultiplesAhead(year, 4, 100);
    MultiplesAhead(year, 100, 4);
    MultiplesAhead(year, 400, 1);
  }

  /** The day after. */
  function DayAfter(x: Day): Day {
    if x.day < DaysIn(x.year, x.month) then x.(day := x.day + 1)
    else if x.month < 12 then Day(x.year, x.month + 1, 1)
    else Day(x.year + 1, 1, 1)
  }

  lemma MonthLengths(year: nat)
    ensures DaysIn(year, 2) == YearLength(year) - 337
    ensures forall m | m in {1, 3, 5, 7, 8, 10, 12} :: DaysIn(year, m) == 31
    ensures forall m | m in {4, 6, 9, 11} :: DaysIn(year, m) == 30
  {
  }

  lemma MonthsFillTheYear(year: nat)
    ensures MonthStart(year, 12) + 31 == YearLength(year)
  {
    hide DaysIn;
    assert MonthStart(year, 2) == DaysIn(year, 1);
    assert MonthStart(year, 3) == DaysIn(year, 1) + DaysIn(year, 2);
    assert MonthStart(year, 5) == MonthStart(year, 3) + DaysIn(year, 3) + DaysIn(year, 4);
    assert MonthStart(year, 7) == MonthStart(year, 5) + DaysIn(year, 5) + DaysIn(year, 6);
    assert MonthStart(year, 9) == MonthStart(year, 7) + DaysIn(year, 7) + DaysIn(year, 8);
    assert MonthStart(year, 11) == MonthStart(year, 9) + DaysIn(year, 9) + DaysIn(year, 10);
    MonthLengths(year);
  }

  /** Days are numbered without a gap: the day after is a day and has the next number. */
  lemma NextDayNumber(x: Day)
    requires IsDay(x)
    ensures IsDay(DayAfter(x)) && DayNumber(DayAfter(x)) == DayNumber(x) + 1
  {
    MonthsFillTheYear(x.year);
    assert MonthStart(x.year + 1, 1) == 0;
  }

  lemma {:induction false} YearsGrow(a: nat, b: nat)
    requires a < b
    ensures YearStart(a) + YearLength(a) <= YearStart(b)
    decreases b
  {
    if a < b - 1 {
      YearsGrow(a, b - 1);
    }
  }

  lemma {:induction false} MonthsGrow(year: nat, m: nat, n: nat)
    requires 1 <= m < n
    ensures MonthStart(year, m) + DaysIn(year, m) <= MonthStart(year, n)
    decreases n
  {
    if m < n - 1 {
      MonthsGrow(year, m, n - 1);
    }
  }

  lemma YearHoldsMonths(year: nat)
    ensures MonthStart(year, 12) + DaysIn(year, 12) == YearLength(year)
  {
    hide IsLeap;
    assert MonthStart(year, 2) == 31;
    assert MonthStart(year, 3) == 31 + DaysIn(year, 2);
    assert MonthStart(year, 4) == MonthStart(year, 3) + 31;
    assert MonthStart(year, 5) == MonthStart(year, 3) + 61;
    assert MonthStart(year, 6) == MonthStart(year, 3) + 92;
    assert MonthStart(year, 7) == MonthStart(year, 3) + 122;
    assert MonthStart(year, 8) == MonthStart(year, 3) + 153;
    assert MonthStart(year, 9) == MonthStart(year, 3) + 184;
    assert MonthStart(year, 10) == MonthStart(year, 3) + 214;
    assert MonthStart(year, 11) == MonthStart(year, 3) + 245;
  }

  /** Later days have larger numbers. */
  lemma DaysGrow(x: Day, y: Day)
    requires IsDay(x) && IsDay(y) && Earlier(x, y)
    ensures DayNumber(x) < DayNumber(y)
  {
    hide DaysIn, YearLength, MonthStart, YearStart;
    if x.year < y.year {
      YearsGrow(x.year, y.year);
      YearHoldsMonths(x.year);
      if x.month < 12 {
        MonthsGrow(x.year, x.month, 12);
      }
    } else if x.month < y.month {
      MonthsGrow(x.year, x.month, y.month);
    }
  }

  // ----- text -----

  /** Exactly `width` digits. */
  function Fixed(n: nat, width: nat): (s: string)
    ensures |s| == width && forall i | 0 <= i < width :: '0' <= s[i] <= '9'
  {
    if width == 0 then "" else Fixed(n / 10, width - 1) + [(48 + n % 10) as char]
  }

  /** The digits a year is written with: four, or as many as it has. */
  function Width(year: nat): (w: nat)
    ensures w >= 4
  {
    if year < 10_000 then 4 else 1 + Width(year / 10)
  }

  function DateText(x: Day): string {
    Fixed(x.year, Width(x.year)) + MonthAndDay(x)
  }

  lemma {:induction false} WidthBounds(year: nat)
    ensures year < Pow10(Width(year))
    ensures Width(year) > 4 ==> Pow10(Width(year) - 1) <= year
  {
    if year >= 10_000 {
      WidthBounds(year / 10);
      assert Pow10(Width(year)) == 10 * Pow10(Width(year) - 1);
      if Width(year / 10) > 4 {
        assert Pow10(Width(year) - 1) == 10 * Pow10(Width(year / 10) - 1);
      } else {
        FourDigits();
      }
    } else {
      FourDigits();
    }
  }

  lemma FourDigits()
    ensures Pow10(4) == 10_000
  {
    assert Pow10(1) == 10 && Pow10(2) == 100 && Pow10(3) == 1000;
  }

  lemma {:induction false} WidthGrows(a: nat, b: nat)
    requires a <= b
    ensures Width(a) <= Width(b)
    decreases b
  {
    if a >= 10_000 {
      WidthGrows(a / 10, b / 10);
    }
  }

  /** Numbers of the same width compare as numbers, and then by what follows. */
  lemma {:induction false} FixedCompares(a: nat, b: nat, width: nat, s: string, t: string)
    requires a < Pow10(width) && b < Pow10(width)
    ensures CompareText(Fixed(a, width) + s, Fixed(b, width) + t)
         == if a < b then -1 else if a > b then 1 else CompareText(s, t)
    decreases width
  {
    if width == 0 {
      assert Fixed(a, 0) + s == s && Fixed(b, 0) + t == t;
    } else {
      var x, y := [(48 + a % 10) as char], [(48 + b % 10) as char];
      assert Fixed(a, width) + s == Fixed(a / 10, width - 1) + (x + s);
      assert Fixed(b, width) + t == Fixed(b / 10, width - 1) + (y + t);
      FixedCompares(a / 10, b / 10, width - 1, x + s, y + t);
      assert (x + s)[1..] == s && (y + t)[1..] == t;
    }
  }

  /** The number without its last digits. */
  function Leading(n: nat, drop: nat): nat { if drop == 0 then n else Leading(n / 10, drop - 1) }

  lemma {:induction false} LeadingIsShorter(n: nat, width: nat, drop: nat)
    requires n < Pow10(width + drop)
    ensures Leading(n, drop) < Pow10(width)
    decreases drop
  {
    if drop > 0 {
      assert Pow10(width + drop) == 10 * Pow10(width + drop - 1);
      LeadingIsShorter(n / 10, width, drop - 1);
    }
  }

  /** The digits of a number are its first digits and its last ones. */
  lemma {:induction false} FixedSplits(n: nat, width: nat, drop: nat)
    ensures Fixed(n, width + drop) == Fixed(Leading(n, drop), width) + Fixed(n, drop)
    decreases drop
  {
    if drop > 0 {
      FixedSplits(n / 10, width, drop - 1);
      var last := [(48 + n % 10) as char];
      assert Fixed(n, width + drop) == Fixed(n / 10, width + drop - 1) + last;
      assert Fixed(n, drop) == Fixed(n / 10, drop - 1) + last;
    }
  }

  /** A number with a dash behind it against the first digits of a wider one. */
  lemma WiderCompares(a: nat, b: nat, width: nat, more: nat, s: string, t: string)
    requires a < Pow10(width) && b < Pow10(width + more) && more >= 1
    ensures CompareText(Fixed(a, width) + ("-" + s), Fixed(b, width + more) + t) == if a <= Leading(b, more)
        then -1 else 1
  {
    hide Fixed, Leading, Pow10;
    var rest := Fixed(b, more);
    FixedSplits(b, width, more);
    LeadingIsShorter(b, width, more);
    assert Fixed(b, width + more) + t == Fixed(Leading(b, more), width) + (rest + t);
    FixedCompares(a, Leading(b, more), width, "-" + s, rest + t);
    assert (rest + t)[0] == rest[0] && ("-" + s)[0] == '-';
  }

  // ----- the order of date cursors -----

  /**
   What the library promises about date texts: days of the years 0 to 9999 are
   read as their number, from some epoch on, and what can be read has a dash
   behind its fourth byte.
   */
  ghost predicate ReadsDates(lib: Library, epoch: int) {
    && (forall x: Day | IsDay(x) && x.year <= 9999 :: lib.date.parse(DateText(x)) == Some(DayNumber(x) - epoch))
    && (forall s | lib.date.parse(s).Some? :: |TrimSpace(s)| > 4 && TrimSpace(s)[4] == '-')
  }

  lemma DateIsTrim(x: Day)
    ensures TrimSpace(DateText(x)) == DateText(x)
  {
    hide TrimSpace, Fixed, Width;
    VisibleIsTrim(DateText(x));
  }

  lemma WideIsFiveDigits(year: nat)
    ensures year >= 10_000 <==> Width(year) >= 5
  {
  }

  /** A date is readable exactly when its year has four digits. */
  lemma ReadableIff(x: Day, lib: Library, epoch: int)
    requires ReadsDates(lib, epoch) && IsDay(x)
    ensures Readable(Date, DateText(x), lib) <==> x.year <= 9999
  {
    hide TrimSpace, Fixed, Width, IsDay;
    DateIsTrim(x);
    WideIsFiveDigits(x.year);
    if x.year > 9999 {
      assert DateText(x)[4] == Fixed(x.year, Width(x.year))[4];
    }
  }

  function MonthAndDay(x: Day): string { "-" + (Fixed(x.month, 2) + ("-" + Fixed(x.day, 2))) }

  lemma TailCompares(x: Day, y: Day)
    requires IsDay(x) && IsDay(y)
    ensures CompareText(MonthAndDay(x), MonthAndDay(y)) < 0 <==>
        x.month < y.month || (x.month == y.month && x.day < y.day)
  {
    hide Fixed;
    assert Pow10(1) == 10 && Pow10(2) == 100;
    var u, v := "-" + Fixed(x.day, 2), "-" + Fixed(y.day, 2);
    var s, t := "-" + (Fixed(x.month, 2) + u), "-" + (Fixed(y.month, 2) + v);
    assert s[1..] == Fixed(x.month, 2) + u && t[1..] == Fixed(y.month, 2) + v;
    FixedCompares(x.month, y.month, 2, u, v);
    assert u[1..] == Fixed(x.day, 2) + "" && v[1..] == Fixed(y.day, 2) + "";
    FixedCompares(x.day, y.day, 2, "", "");
  }

  /** The condition on two years under which text order is time order. */
  predicate YearsInOrder(a: nat, b: nat) {
    Width(a) == Width(b) || (Width(a) < Width(b) && a <= Leading(b, Width(b) - Width(a)))
  }

  lemma TextsInOrderIff(x: Day, y: Day)
    requires IsDay(x) && IsDay(y) && Earlier(x, y)
    ensures CompareText(DateText(x), DateText(y)) < 0 <==> YearsInOrder(x.year, y.year)
  {
    hide Fixed, Width, Leading, Pow10, IsDay;
    WidthBounds(x.year);
    WidthBounds(y.year);
    WidthGrows(x.year, y.year);
    if Width(x.year) == Width(y.year) {
      FixedCompares(x.year, y.year, Width(x.year), MonthAndDay(x), MonthAndDay(y));
      TailCompares(x, y);
    } else {
      var more, tail := Width(y.year) - Width(x.year), Fixed(x.month, 2) + ("-" + Fixed(x.day, 2));
      WiderCompares(x.year, y.year, Width(x.year), more, tail, MonthAndDay(y));
    }
  }

  lemma ReadDatesCompare(x: Day, y: Day, lib: Library, epoch: int)
    requires ReadsDates(lib, epoch) && IsDay(x) && IsDay(y) && Earlier(x, y) && y.year <= 9999
    ensures Compare(Date, DateText(x), DateText(y), lib) < 0
  {
    hide IsDay, DateText, DayNumber, CompareText, TrimSpace;
    DaysGrow(x, y);
  }

  lemma UnreadDatesCompare(x: Day, y: Day, lib: Library, epoch: int)
    requires ReadsDates(lib, epoch) && IsDay(x) && IsDay(y) && y.year > 9999
    ensures Compare(Date, DateText(x), DateText(y), lib) == CompareText(DateText(x), DateText(y))
  {
    hide IsDay, DateText, CompareText, TrimSpace, ReadsDates;
    ReadableIff(y, lib, epoch);
    DateIsTrim(x);
    DateIsTrim(y);
  }

  /**
   Date cursors compare in the order of time if and only if their years are
   written with equally many digits, or the earlier year is no larger than the
   first digits of the later one.
   */
  lemma DatesInOrderIff(x: Day, y: Day, lib: Library, epoch: int)
    requires ReadsDates(lib, epoch) && IsDay(x) && IsDay(y) && Earlier(x, y)
    ensures Compare(Date, DateText(x), DateText(y), lib) < 0 <==> YearsInOrder(x.year, y.year)
  {
    hide IsDay, DateText, Compare, ReadsDates, Leading;
    if y.year <= 9999 {
      ReadDatesCompare(x, y, lib, epoch);
    } else {
      UnreadDatesCompare(x, y, lib, epoch);
      TextsInOrderIff(x, y);
    }
  }

  /** In particular within the years 0 to 9999 always ... */
  lemma FourDigitYearsAreInOrder(a: nat, b: nat)
    requires a <= b <= 9999
    ensures YearsInOrder(a, b)
  {
  }

  /** ... and never between the years 2000 to 9999 and the years 10000 to 19999. */
  lemma LateYearsAreNot(a: nat, b: nat)
    requires 2000 <= a <= 9999 && 10_000 <= b <= 19_999
    ensures !YearsInOrder(a, b)
  {
    assert Width(b / 10) == 4 && Width(b) == 5;
    assert Leading(b, 1) == Leading(b / 10, 0) == b / 10;
  }
}
