/** The calendar and the layout behind the timestamps, against what is known of them from elsewhere: the Gregorian
    rule counted out, the lengths of the months, dated anchors, and the text of one instant letter by letter. */
module Calendar {
  import opened Timestamp
  import D = Decimal

  /** How many of the years before `y`, from year 0 on, are multiples of `n`. */
  function MultiplesBelow(y: nat, n: nat): nat
    requires n > 0
  {
    (y + n - 1) / n
  }

  lemma OneMoreMultiple(y: nat, n: nat)
    requires n > 0
    ensures MultiplesBelow(y + 1, n) == MultiplesBelow(y, n) + if y % n == 0 then 1 else 0
  {
    var q, r := y / n, y % n;
    assert y == q * n + r;
    if r == 0 {
      QuotientIs(y + n - 1, n, q, n - 1);
      QuotientIs(y + n, n, q + 1, 0);
    } else {
      QuotientIs(y + n - 1, n, q + 1, r - 1);
      QuotientIs(y + n, n, q + 1, r);
    }
  }

  lemma QuotientIs(a: nat, n: nat, q: nat, r: nat)
    requires n > 0 && r < n && a == q * n + r
    ensures a / n == q
  {
    var p, s := a / n, a % n;
    assert a == p * n + s;
    assert p < q ==> (p + 1) * n <= q * n;
    assert p > q ==> (q + 1) * n <= p * n;
  }

  lemma MultiplesNest(y: nat)
    ensures y % 100 == 0 ==> y % 4 == 0
    ensures y % 400 == 0 ==> y % 100 == 0
  {
    QuotientIs(y, 4, y / 4, y % 4);
    if y % 100 == 0 {
      QuotientIs(y, 4, 25 * (y / 100), 0);
    }
    if y % 400 == 0 {
      QuotientIs(y, 100, 4 * (y / 400), 0);
    }
  }

  lemma LeapIsGregorian(y: nat)
    ensures (if IsLeap(y) then 1 else 0)
         == (if y % 4 == 0 then 1 else 0) - (if y % 100 == 0 then 1 else 0) + (if y % 400 == 0 then 1 else 0)
  {
    MultiplesNest(y);
  }

  /** The first of January of year `y` lies 365 days for each year, and one more for each multiple of 4 that is not
      one of 100 unless it is one of 400, after that of year 0. */
  lemma {:induction false} YearStartIs(y: nat)
    ensures YearStart(y) == 365 * y + MultiplesBelow(y, 4) - MultiplesBelow(y, 100) + MultiplesBelow(y, 400)
  {
    if y > 0 {
      YearStartIs(y - 1);
      LeapIsGregorian(y - 1);
      OneMoreMultiple(y - 1, 4);
      OneMoreMultiple(y - 1, 100);
      OneMoreMultiple(y - 1, 400);
      hide MultiplesBelow, IsLeap;
    }
  }

  lemma SkipMultiples(y: nat, n: nat, k: nat)
    requires n > 0
    ensures MultiplesBelow(y + k * n, n) == MultiplesBelow(y, n) + k
    ensures (y + k * n) % n == y % n
  {
    var q, r := (y + n - 1) / n, (y + n - 1) % n;
    assert y + n - 1 == q * n + r;
    assert y + k * n + n - 1 == (q + k) * n + r;
    QuotientIs(y + k * n + n - 1, n, q + k, r);
    var p, t := y / n, y % n;
    assert y == p * n + t;
    assert y + k * n == (p + k) * n + t;
    QuotientIs(y + k * n, n, p + k, t);
  }

  /** The calendar repeats every 400 years, which are 146,097 days. */
  lemma FourHundredYears(y: nat)
    ensures YearStart(y + 400) == YearStart(y) + 146_097
    ensures IsLeap(y + 400) == IsLeap(y)
  {
    YearStartIs(y);
    YearStartIs(y + 400);
    SkipMultiples(y, 4, 100);
    SkipMultiples(y, 100, 4);
    SkipMultiples(y, 400, 1);
    hide MultiplesBelow, YearStart;
  }

  /** Thirty days have September, April, June and November; all the rest have thirty-one, but for February. */
  lemma MonthLengths(y: nat, m: nat)
    requires 1 <= m <= 12
    ensures MonthLength(y, m) == 30 <==> m in {4, 6, 9, 11}
    ensures MonthLength(y, m) == 31 <==> m in {1, 3, 5, 7, 8, 10, 12}
    ensures m == 2 ==> MonthLength(y, m) == YearLength(y) - 337
  {
  }

  lemma {:induction false} MonthStarts(y: nat)
    ensures MonthStart(y, 3) == MonthLength(y, 2) + 31
    ensures MonthStart(y, 12) == MonthLength(y, 2) + 306
  {
    assert MonthStart(y, 2) == 31;
    assert MonthStart(y, 5) == MonthStart(y, 3) + 61;
    assert MonthStart(y, 7) == MonthStart(y, 5) + 61;
    assert MonthStart(y, 9) == MonthStart(y, 7) + 62;
    assert MonthStart(y, 11) == MonthStart(y, 9) + 61;
  }

  lemma MonthStartsAtFebruary(y: nat)
    ensures MonthStart(y, 1) == 0 && MonthStart(y, 2) == 31
  {
    assert MonthStart(y, 1) == 0;
  }

  /** The Unix epoch is day 719,528. */
  lemma EpochDay()
    ensures DayNumber(1970, 1, 1) == 719_528
  {
    YearStartIs(1970);
    MonthStartsAtFebruary(1970);
    hide YearStart, MonthStart;
  }

  /** The leap day of 2000 is day 730,544, and the first of March follows it. */
  lemma MillenniumDay()
    ensures DayNumber(2000, 2, 29) == 730_544 && DayNumber(2000, 3, 1) == 730_545
  {
    YearStartIs(2000);
    MonthStarts(2000);
    MonthStartsAtFebruary(2000);
    hide YearStart, MonthStart;
  }

  /** In century years that are no multiple of 400 the first of March follows the twenty-eighth of February. */
  lemma CenturyDay(y: nat)
    requires y % 100 == 0 && y % 400 != 0
    ensures DayNumber(y, 3, 1) == DayNumber(y, 2, 28) + 1
  {
    MonthStarts(y);
    MonthStartsAtFebruary(y);
    hide YearStart, MonthStart;
  }

  /** The last day of 9999 is day 3,652,424. */
  lemma LastDay()
    ensures DayNumber(9999, 12, 31) == 3_652_424
  {
    YearStartIs(9999);
    MonthStarts(9999);
    hide YearStart, MonthStart;
  }

  /** The instant of the Unix epoch. */
  lemma EpochIs()
    ensures Instant(Civil(1970, 1, 1, 0, 0, 0, 0)) == 62_167_219_200 * NanosPerSecond
  {
    EpochDay();
    hide DayNumber;
  }

  lemma TwoDigits(n: nat)
    requires n < 100
    ensures D.Pow10(2) == 100 && D.Padded(n, 2) == [D.Digit(n / 10), D.Digit(n % 10)]
  {
    assert D.Pow10(1) == 10;
    assert D.Padded(n / 10, 1) == D.Padded(n / 10 / 10, 0) + [D.Digit(n / 10 % 10)];
  }

  lemma FourDigits(n: nat)
    requires n < 10_000
    ensures D.Pow10(4) == 10_000 && D.Pow10(2) == 100
    ensures D.Padded(n, 4) == D.Padded(n / 100, 2) + D.Padded(n % 100, 2)
  {
    Widths();
    assert D.Pow10(3) == 1000;
    TwoDigits(n / 100);
    TwoDigits(n % 100);
    assert D.Padded(n, 4) == D.Padded(n / 10, 3) + [D.Digit(n % 10)];
    assert D.Padded(n / 10, 3) == D.Padded(n / 10 / 10, 2) + [D.Digit(n / 10 % 10)];
    assert n / 10 / 10 == n / 100 && n / 10 % 10 == n % 100 / 10 && n % 10 == n % 100 % 10;
  }

  lemma NineDigits()
    ensures D.Pow10(9) == 1_000_000_000 && D.Padded(123_456_789, 9) == "123456789"
  {
    Widths();
    assert D.Pow10(3) == 1000;
    assert D.Pow10(5) == 100_000 && D.Pow10(6) == 1_000_000 && D.Pow10(7) == 10_000_000 && D.Pow10(8) == 100_000_000;
    assert D.Padded(1, 1) == "1";
    assert D.Padded(12, 2) == "12";
    assert D.Padded(123, 3) == "123";
    assert D.Padded(1234, 4) == "1234";
    assert D.Padded(12_345, 5) == "12345";
    assert D.Padded(123_456, 6) == "123456";
    assert D.Padded(1_234_567, 7) == "1234567";
    assert D.Padded(12_345_678, 8) == "12345678";
  }

  /** The layout, letter by letter. */
  lemma LayoutIs()
    ensures Text(Civil(2024, 2, 29, 23, 5, 7, 123_456_789)) == "2024-02-29T23:05:07.123456789Z"
  {
    hide DateText, ClockText, NanoText, D.Padded, D.Pow10;
    var c := Civil(2024, 2, 29, 23, 5, 7, 123_456_789);
    ClockIs(c);
    DateIs(c, "23:05:07.123456789Z");
    assert "2024-02-29T" + "23:05:07.123456789Z" == "2024-02-29T23:05:07.123456789Z";
  }

  lemma ClockParts()
    ensures D.Padded(23, 2) == "23" && D.Padded(5, 2) == "05" && D.Padded(7, 2) == "07"
  {
    TwoDigits(23);
    TwoDigits(5);
    TwoDigits(7);
    hide *;
  }

  lemma ClockIs(c: Civil)
    requires IsValid(c) && c.hour == 23 && c.minute == 5 && c.second == 7 && c.nano == 123_456_789
    ensures ClockText(c, "." + NanoText(c)) == "23:05:07.123456789Z"
  {
    hide D.Padded, D.Pow10;
    ClockParts();
    NineDigits();
    assert NanoText(c) == "123456789" + "Z";
    hide NanoText;
    assert "." + ("123456789" + "Z") == ".123456789Z";
    assert "07" + ".123456789Z" == "07.123456789Z";
    assert "05" + (":" + "07.123456789Z") == "05:07.123456789Z";
    assert "23" + (":" + "05:07.123456789Z") == "23:05:07.123456789Z";
  }

  lemma DateIs(c: Civil, clock: string)
    requires IsValid(c) && c.year == 2024 && c.month == 2 && c.day == 29
    ensures DateText(c, clock) == "2024-02-29T" + clock
  {
    hide D.Padded, D.Pow10;
    FourDigits(2024);
    TwoDigits(20);
    TwoDigits(24);
    TwoDigits(2);
    TwoDigits(29);
    assert D.Padded(20, 2) == "20" && D.Padded(24, 2) == "24" && D.Padded(2, 2) == "02" && D.Padded(29, 2) == "29";
    assert D.Padded(2024, 4) == "2024";
    assert "29" + ("T" + clock) == "29T" + clock;
    assert "02" + ("-" + ("29T" + clock)) == "02-29T" + clock;
    assert "2024" + ("-" + ("02-29T" + clock)) == "2024-02-29T" + clock;
  }
}
