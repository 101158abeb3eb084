/** The fixed-width UTC timestamps of the execution history (agent/history.go): years 0000 to 9999, nine
    digits of fraction, always `Z`. An instant is the number of nanoseconds since 0000-01-01T00:00:00Z in the
    proleptic Gregorian calendar. */
module Timestamp {
  import opened Wrappers
  import D = Decimal

  predicate IsLeap(y: nat) {
    y % 4 == 0 && (y % 100 != 0 || y % 400 == 0)
  }

  function YearLength(y: nat): nat {
    if IsLeap(y) then 366 else 365
  }

  function MonthLength(y: nat, m: nat): (n: nat)
    requires 1 <= m <= 12
    ensures 28 <= n <= 31
  {
    if m == 2 then (if IsLeap(y) then 29 else 28)
    else if m == 4 || m == 6 || m == 9 || m == 11 then 30
    else 31
  }

  /** Days before the first of January of year `y`. */
  function YearStart(y: nat): nat {
    if y == 0 then 0 else YearStart(y - 1) + YearLength(y - 1)
  }

  /** Days of year `y` before the first of month `m`; month 13 stands for the end of the year. */
  function MonthStart(y: nat, m: nat): nat
    requires 1 <= m <= 13
  {
    if m == 1 then 0 else MonthStart(y, m - 1) + MonthLength(y, m - 1)
  }

  const SecondsPerDay: nat := 86_400

  const NanosPerSecond: nat := 1_000_000_000

  datatype Civil = Civil(year: nat, month: nat, day: nat, hour: nat, minute: nat, second: nat, nano: nat)

  predicate IsValid(c: Civil) {
    && c.year <= 9999
    && 1 <= c.month <= 12
    && 1 <= c.day <= MonthLength(c.year, c.month)
    && c.hour < 24 && c.minute < 60 && c.second < 60
    && c.nano < NanosPerSecond
  }

  function DayNumber(y: nat, m: nat, d: nat): nat
    requires 1 <= m <= 12 && d >= 1
  {
    YearStart(y) + MonthStart(y, m) + (d - 1)
  }

  function SecondOfDay(c: Civil): nat {
    (c.hour * 60 + c.minute) * 60 + c.second
  }

  /** The instant a calendar reading denotes. */
  function Instant(c: Civil): nat
    requires IsValid(c)
  {
    (DayNumber(c.year, c.month, c.day) * SecondsPerDay + SecondOfDay(c)) * NanosPerSecond + c.nano
  }

  /** The first instant of year 10000, after which the layout no longer has a fixed width. */
  function End(): nat {
    YearStart(10000) * SecondsPerDay * NanosPerSecond
  }

  // ----- reading an instant as a calendar date -----

  /** From day `d` of the days since the start of year `y` to a year and a day of that year. */
  function FindYear(y: nat, d: nat): (r: (nat, nat))
    ensures r.0 >= y && r.1 < YearLength(r.0)
    ensures YearStart(y) + d == YearStart(r.0) + r.1
    decreases d
  {
    if d < YearLength(y) then (y, d) else FindYear(y + 1, d - YearLength(y))
  }

  function FindMonth(y: nat, m: nat, d: nat): (r: (nat, nat))
    requires 1 <= m <= 12 && MonthStart(y, m) + d < MonthStart(y, 13)
    ensures m <= r.0 <= 12 && r.1 < MonthLength(y, r.0)
    ensures MonthStart(y, m) + d == MonthStart(y, r.0) + r.1
    decreases 13 - m
  {
    if d < MonthLength(y, m) then (m, d) else FindMonth(y, m + 1, d - MonthLength(y, m))
  }

  lemma YearIsTwelveMonths(y: nat)
    ensures MonthStart(y, 13) == YearLength(y)
  {
    assert MonthStart(y, 2) == 31;
    assert MonthStart(y, 3) == 31 + MonthLength(y, 2);
    assert MonthStart(y, 5) == MonthStart(y, 3) + 61;
    assert MonthStart(y, 7) == MonthStart(y, 5) + 61;
    assert MonthStart(y, 9) == MonthStart(y, 7) + 62;
    assert MonthStart(y, 11) == MonthStart(y, 9) + 61;
    assert MonthStart(y, 13) == MonthStart(y, 11) + 61;
  }

  function Reading(t: nat): Civil {
    var seconds := t / NanosPerSecond;
    var (y, dayOfYear) := FindYear(0, seconds / SecondsPerDay);
    var (m, dayOfMonth) := (YearIsTwelveMonths(y); FindMonth(y, 1, dayOfYear));
    var s := seconds % SecondsPerDay;
    Civil(y, m, dayOfMonth + 1, s / 3600, s / 60 % 60, s % 60, t % NanosPerSecond)
  }

  lemma {:induction false} YearsAscend(x: nat, y: nat)
    requires x <= y
    ensures YearStart(x) + 365 * (y - x) <= YearStart(y)
    ensures x < y ==> YearStart(x) + YearLength(x) <= YearStart(y)
    decreases y - x
  {
    if x < y {
      YearsAscend(x, y - 1);
    }
  }

  lemma {:induction false} MonthsAscend(y: nat, m: nat, n: nat)
    requires 1 <= m < n <= 13
    ensures MonthStart(y, m) + MonthLength(y, m) <= MonthStart(y, n)
    decreases n - m
  {
    if m + 1 < n {
      MonthsAscend(y, m, n - 1);
    }
  }

  /** Reading an instant and denoting it again is the identity. */
  lemma ReadingDenotes(t: nat)
    requires t < End()
    ensures IsValid(Reading(t)) && Instant(Reading(t)) == t
  {
    var seconds := t / NanosPerSecond;
    var days := seconds / SecondsPerDay;
    var (y, dayOfYear) := FindYear(0, days);
    YearIsTwelveMonths(y);
    QuotientBound(t, NanosPerSecond, YearStart(10000) * SecondsPerDay);
    QuotientBound(seconds, SecondsPerDay, YearStart(10000));
    if y >= 10000 {
      YearsAscend(10000, y);
    }
    var s := seconds % SecondsPerDay;
    assert s == (s / 3600 * 60 + s / 60 % 60) * 60 + s % 60;
  }

  lemma QuotientBound(a: nat, unit: nat, n: nat)
    requires unit > 0 && a < n * unit
    ensures a / unit < n
  {
  }

  // ----- order -----

  predicate Before(a: Civil, b: Civil) {
    || a.year < b.year
    || (a.year == b.year && a.month < b.month)
    || (a.year == b.year && a.month == b.month && a.day < b.day)
    || (a.year == b.year && a.month == b.month && a.day == b.day && TimeBefore(a, b))
  }

  predicate TimeBefore(a: Civil, b: Civil) {
    || a.hour < b.hour
    || (a.hour == b.hour && a.minute < b.minute)
    || (a.hour == b.hour && a.minute == b.minute && a.second < b.second)
    || (a.hour == b.hour && a.minute == b.minute && a.second == b.second && a.nano < b.nano)
  }

  lemma EarlierDay(a: Civil, b: Civil)
    requires IsValid(a) && IsValid(b)
    requires a.year < b.year || (a.year == b.year && (a.month < b.month || (a.month == b.month && a.day < b.day)))
    ensures DayNumber(a.year, a.month, a.day) < DayNumber(b.year, b.month, b.day)
  {
    YearIsTwelveMonths(a.year);
    if a.year < b.year {
      YearsAscend(a.year, b.year);
      MonthsAscend(a.year, a.month, 13);
    } else if a.month < b.month {
      MonthsAscend(a.year, a.month, b.month);
    }
  }

  lemma CarryOrder(hi: nat, lo: nat, hi': nat, lo': nat, base: nat)
    requires hi < hi' && lo < base
    ensures hi * base + lo < hi' * base + lo'
  {
    assert (hi + 1) * base <= hi' * base;
  }

  /** An earlier calendar reading is an earlier instant. */
  lemma BeforeIsEarlier(a: Civil, b: Civil)
    requires IsValid(a) && IsValid(b) && Before(a, b)
    ensures Instant(a) < Instant(b)
  {
    var da, db := DayNumber(a.year, a.month, a.day), DayNumber(b.year, b.month, b.day);
    var sa, sb := da * SecondsPerDay + SecondOfDay(a), db * SecondsPerDay + SecondOfDay(b);
    if a.year != b.year || a.month != b.month || a.day != b.day {
      EarlierDay(a, b);
      CarryOrder(da, SecondOfDay(a), db, SecondOfDay(b), SecondsPerDay);
      CarryOrder(sa, a.nano, sb, b.nano, NanosPerSecond);
    } else if SecondOfDay(a) != SecondOfDay(b) {
      CarryOrder(sa, a.nano, sb, b.nano, NanosPerSecond);
    }
  }

  /** Valid readings and instants are in one-to-one, order-preserving correspondence. */
  lemma InstantOrder(a: Civil, b: Civil)
    requires IsValid(a) && IsValid(b)
    ensures Before(a, b) <==> Instant(a) < Instant(b)
    ensures a == b <==> Instant(a) == Instant(b)
  {
    if Before(a, b) {
      BeforeIsEarlier(a, b);
    } else if Before(b, a) {
      BeforeIsEarlier(b, a);
    } else {
      assert a == b;
    }
  }

  // ----- text -----

  /** The database's comparison of text: the first differing byte decides, a prefix comes first. */
  predicate Less(a: string, b: string) {
    b != [] && (a == [] || a[0] < b[0] || (a[0] == b[0] && Less(a[1..], b[1..])))
  }

  lemma {:induction false} LessConcat(a: string, b: string, c: string, d: string)
    requires |a| == |b|
    ensures Less(a + c, b + d) <==> Less(a, b) || (a == b && Less(c, d))
  {
    if a == [] {
      assert a + c == c && b + d == d;
    } else {
      LessConcat(a[1..], b[1..], c, d);
      assert (a + c)[1..] == a[1..] + c && (b + d)[1..] == b[1..] + d;
    }
  }

  /** Zero-padded numerals of the same width compare as their numbers do. */
  lemma {:induction false} PaddedOrder(m: nat, n: nat, width: nat)
    requires m < D.Pow10(width) && n < D.Pow10(width)
    ensures Less(D.Padded(m, width), D.Padded(n, width)) <==> m < n
    ensures D.Padded(m, width) == D.Padded(n, width) <==> m == n
  {
    D.PaddedValue(m, width);
    D.PaddedValue(n, width);
    hide D.Value;
    if width > 0 {
      PaddedOrder(m / 10, n / 10, width - 1);
      LessConcat(D.Padded(m / 10, width - 1), D.Padded(n / 10, width - 1), [D.Digit(m % 10)], [D.Digit(n % 10)]);
      DigitOrder(m % 10, n % 10);
      hide Less;
    }
  }

  lemma DigitOrder(a: nat, b: nat)
    requires a < 10 && b < 10
    ensures Less([D.Digit(a)], [D.Digit(b)]) <==> a < b
  {
  }

  /** A field and its separator, in front of the rest of the text. */
  lemma FieldOrder(m: nat, n: nat, width: nat, sep: string, c: string, d: string)
    requires m < D.Pow10(width) && n < D.Pow10(width)
    ensures Less(D.Padded(m, width) + (sep + c), D.Padded(n, width) + (sep + d)) <==> m < n || (m == n && Less(c, d))
  {
    PaddedOrder(m, n, width);
    LessConcat(D.Padded(m, width), D.Padded(n, width), sep + c, sep + d);
    LessConcat(sep, sep, c, d);
    NotLessItself(sep);
  }

  lemma {:induction false} NotLessItself(s: string)
    ensures !Less(s, s)
  {
    if s != [] {
      NotLessItself(s[1..]);
    }
  }

  lemma Widths()
    ensures D.Pow10(2) == 100 && D.Pow10(4) == 10_000 && D.Pow10(9) == 1_000_000_000
  {
    assert D.Pow10(3) == 1000;
    assert D.Pow10(5) == 100_000 && D.Pow10(6) == 1_000_000 && D.Pow10(7) == 10_000_000;
  }

  function NanoText(c: Civil): string
    requires IsValid(c)
  {
    Widths();
    D.Padded(c.nano, 9) + "Z"
  }

  function ClockText(c: Civil, tail: string): string
    requires IsValid(c)
  {
    Widths();
    D.Padded(c.hour, 2) + (":" + (D.Padded(c.minute, 2) + (":" + (D.Padded(c.second, 2) + tail))))
  }

  function DateText(c: Civil, tail: string): string
    requires IsValid(c)
  {
    Widths();
    D.Padded(c.year, 4) + ("-" + (D.Padded(c.month, 2) + ("-" + (D.Padded(c.day, 2) + ("T" + tail)))))
  }

  /** The layout of the `started_at` and `ended_at` columns. */
  function Text(c: Civil): (s: string)
    requires IsValid(c)
  {
    DateText(c, ClockText(c, "." + NanoText(c)))
  }

  function Format(t: nat): string
    requires t < End()
  {
    ReadingDenotes(t);
    Text(Reading(t))
  }

  lemma ClockOrder(a: Civil, b: Civil)
    requires IsValid(a) && IsValid(b)
    ensures Less(ClockText(a, "." + NanoText(a)), ClockText(b, "." + NanoText(b))) <==> TimeBefore(a, b)
  {
    Widths();
    PaddedOrder(a.nano, b.nano, 9);
    LessConcat(D.Padded(a.nano, 9), D.Padded(b.nano, 9), "Z", "Z");
    FieldOrder(a.second, b.second, 2, ".", NanoText(a), NanoText(b));
    var sa, sb := D.Padded(a.second, 2) + ("." + NanoText(a)), D.Padded(b.second, 2) + ("." + NanoText(b));
    FieldOrder(a.minute, b.minute, 2, ":", sa, sb);
    FieldOrder(a.hour, b.hour, 2, ":", D.Padded(a.minute, 2) + (":" + sa), D.Padded(b.minute, 2) + (":" + sb));
  }

  lemma TextOrder(a: Civil, b: Civil)
    requires IsValid(a) && IsValid(b)
    ensures Less(Text(a), Text(b)) <==> Before(a, b)
  {
    Widths();
    var ca, cb := ClockText(a, "." + NanoText(a)), ClockText(b, "." + NanoText(b));
    ClockOrder(a, b);
    FieldOrder(a.day, b.day, 2, "T", ca, cb);
    var da, db := D.Padded(a.day, 2) + ("T" + ca), D.Padded(b.day, 2) + ("T" + cb);
    FieldOrder(a.month, b.month, 2, "-", da, db);
    FieldOrder(a.year, b.year, 4, "-", D.Padded(a.month, 2) + ("-" + da), D.Padded(b.month, 2) + ("-" + db));
  }

  /** Comparing the texts byte by byte is comparing the instants. */
  lemma FormatOrder(t: nat, u: nat)
    requires t < End() && u < End()
    ensures Less(Format(t), Format(u)) <==> t < u
    ensures Format(t) == Format(u) <==> t == u
  {
    ReadingDenotes(t);
    ReadingDenotes(u);
    InstantOrder(Reading(t), Reading(u));
    TextOrder(Reading(t), Reading(u));
    TextOrder(Reading(u), Reading(t));
    NotLessItself(Format(t));
  }

  // ----- reading the text back -----

  /** A numeral of `width` digits and the separator after it, cut off the front of the text. */
  function Cut(s: string, width: nat, sep: char): Option<(nat, string)> {
    if |s| > width && D.AllDigits(s[..width]) && s[width] == sep then Some((D.Value(s[..width]), s[width + 1..]))
    else None
  }

  lemma CutReads(n: nat, width: nat, sep: char, rest: string)
    requires n < D.Pow10(width)
    ensures Cut(D.Padded(n, width) + ([sep] + rest), width, sep) == Some((n, rest))
  {
    var s := D.Padded(n, width) + ([sep] + rest);
    assert s[..width] == D.Padded(n, width) && s[width + 1..] == rest;
    D.PaddedValue(n, width);
  }

  lemma CutWritten(s: string, width: nat, sep: char)
    requires Cut(s, width, sep).Some?
    ensures var (n, rest) := Cut(s, width, sep).value; n < D.Pow10(width) && s == D.Padded(n, width) + ([sep] + rest)
  {
    D.ValueBound(s[..width]);
  }

  function DateFields(s: string): Option<(nat, nat, nat, string)> {
    match Cut(s, 4, '-') case None => None case Some((y, s1)) =>
    match Cut(s1, 2, '-') case None => None case Some((m, s2)) =>
    match Cut(s2, 2, 'T') case None => None case Some((d, s3)) => Some((y, m, d, s3))
  }

  function ClockFields(s: string): Option<(nat, nat, nat, nat, string)> {
    match Cut(s, 2, ':') case None => None case Some((h, s1)) =>
    match Cut(s1, 2, ':') case None => None case Some((m, s2)) =>
    match Cut(s2, 2, '.') case None => None case Some((sec, s3)) =>
    match Cut(s3, 9, 'Z') case None => None case Some((n, s4)) => Some((h, m, sec, n, s4))
  }

  function Fields(s: string): Option<Civil> {
    match DateFields(s) case None => None case Some((y, mo, d, clock)) =>
    match ClockFields(clock) case None => None case Some((h, mi, sec, n, rest)) =>
    if rest == "" && IsValid(Civil(y, mo, d, h, mi, sec, n)) then Some(Civil(y, mo, d, h, mi, sec, n)) else None
  }

  /** Parsing, for texts in the store's own layout. */
  function Parse(s: string): Option<nat> {
    match Fields(s) case None => None case Some(c) => Some(Instant(c))
  }

  lemma ClockReads(c: Civil)
    requires IsValid(c)
    ensures ClockFields(ClockText(c, "." + NanoText(c))) == Some((c.hour, c.minute, c.second, c.nano, ""))
  {
    Widths();
    assert NanoText(c) == D.Padded(c.nano, 9) + (['Z'] + "");
    var s3 := NanoText(c);
    var s2 := D.Padded(c.second, 2) + (['.'] + s3);
    var s1 := D.Padded(c.minute, 2) + ([':'] + s2);
    CutReads(c.hour, 2, ':', s1);
    CutReads(c.minute, 2, ':', s2);
    CutReads(c.second, 2, '.', s3);
    CutReads(c.nano, 9, 'Z', "");
    hide Cut, D.Padded;
    assert ClockText(c, "." + s3) == D.Padded(c.hour, 2) + ([':'] + s1);
  }

  lemma DateReads(c: Civil, tail: string)
    requires IsValid(c)
    ensures DateFields(DateText(c, tail)) == Some((c.year, c.month, c.day, tail))
  {
    Widths();
    var s2 := D.Padded(c.day, 2) + (['T'] + tail);
    var s1 := D.Padded(c.month, 2) + (['-'] + s2);
    CutReads(c.year, 4, '-', s1);
    CutReads(c.month, 2, '-', s2);
    CutReads(c.day, 2, 'T', tail);
    hide Cut, D.Padded;
    assert DateText(c, tail) == D.Padded(c.year, 4) + (['-'] + s1);
  }

  lemma TextReads(c: Civil)
    requires IsValid(c)
    ensures Fields(Text(c)) == Some(c)
  {
    ClockReads(c);
    DateReads(c, ClockText(c, "." + NanoText(c)));
  }

  lemma ClockWritten(s: string, c: Civil)
    requires IsValid(c) && ClockFields(s) == Some((c.hour, c.minute, c.second, c.nano, ""))
    ensures s == ClockText(c, "." + NanoText(c))
  {
    var s1 := Cut(s, 2, ':').value.1;
    var s2 := Cut(s1, 2, ':').value.1;
    var s3 := Cut(s2, 2, '.').value.1;
    CutWritten(s, 2, ':');
    CutWritten(s1, 2, ':');
    CutWritten(s2, 2, '.');
    CutWritten(s3, 9, 'Z');
    hide Cut, D.Padded;
    assert s3 == NanoText(c);
  }

  lemma DateWritten(s: string, c: Civil, tail: string)
    requires IsValid(c) && DateFields(s) == Some((c.year, c.month, c.day, tail))
    ensures s == DateText(c, tail)
  {
    var s1 := Cut(s, 4, '-').value.1;
    var s2 := Cut(s1, 2, '-').value.1;
    CutWritten(s, 4, '-');
    CutWritten(s1, 2, '-');
    CutWritten(s2, 2, 'T');
  }

  lemma FieldsWritten(s: string)
    requires Fields(s).Some?
    ensures IsValid(Fields(s).value) && Text(Fields(s).value) == s
  {
    var clock := DateFields(s).value.3;
    ClockWritten(clock, Fields(s).value);
    DateWritten(s, Fields(s).value, clock);
  }

  lemma InstantBeforeEnd(c: Civil)
    requires IsValid(c)
    ensures Instant(c) < End()
  {
    YearIsTwelveMonths(c.year);
    YearsAscend(c.year, 10000);
    MonthsAscend(c.year, c.month, 13);
    var days := DayNumber(c.year, c.month, c.day);
    assert days + 1 <= YearStart(10000);
    CarryOrder(days, SecondOfDay(c), YearStart(10000), 0, SecondsPerDay);
    CarryOrder(days * SecondsPerDay + SecondOfDay(c), c.nano, YearStart(10000) * SecondsPerDay, 0, NanosPerSecond);
  }

  /** Parsing undoes formatting, and accepts nothing that formatting does not write. */
  lemma ParseInvertsFormat(s: string, t: nat)
    requires t < End()
    ensures Parse(s) == Some(t) <==> s == Format(t)
  {
    ReadingDenotes(t);
    TextReads(Reading(t));
    if Parse(s) == Some(t) {
      FieldsWritten(s);
      InstantOrder(Fields(s).value, Reading(t));
    }
  }

  /** A parsed instant is in range, so it formats back to the text it came from. */
  lemma ParsedFormats(s: string)
    requires Parse(s).Some?
    ensures Parse(s).value < End() && Format(Parse(s).value) == s
  {
    FieldsWritten(s);
    InstantBeforeEnd(Fields(s).value);
    ParseInvertsFormat(s, Parse(s).value);
  }

  // ----- why the width must be fixed -----

  function TrimZeros(s: string): string {
    if s != [] && s[|s| - 1] == '0' then TrimZeros(s[..|s| - 1]) else s
  }

  /** The variable-width alternative: trailing zeros of the fraction dropped, and the point with them when
      nothing is left. */
  function TrimmedText(c: Civil): string
    requires IsValid(c)
  {
    Widths();
    DateText(c, ClockText(c, (if c.nano == 0 then "" else "." + TrimZeros(D.Padded(c.nano, 9))) + "Z"))
  }

  /** With it, a whole second would sort after every later instant of the same second. */
  lemma TrimmedTextReversesOrder(c: Civil, nano: nat)
    requires IsValid(c) && c.nano == 0 && 0 < nano < NanosPerSecond
    ensures var later := c.(nano := nano);
            Instant(c) < Instant(later) && Less(TrimmedText(later), TrimmedText(c))
  {
    Widths();
    var later := c.(nano := nano);
    var fraction := "." + TrimZeros(D.Padded(nano, 9)) + "Z";
    assert "" + "Z" == "Z" && Less(fraction, "Z");
    FieldOrder(c.second, c.second, 2, "", fraction, "Z");
    assert "" + fraction == fraction && "" + "Z" == "Z";
    var sa, sb := D.Padded(c.second, 2) + fraction, D.Padded(c.second, 2) + "Z";
    FieldOrder(c.minute, c.minute, 2, ":", sa, sb);
    var ma, mb := D.Padded(c.minute, 2) + (":" + sa), D.Padded(c.minute, 2) + (":" + sb);
    FieldOrder(c.hour, c.hour, 2, ":", ma, mb);
    var ha, hb := D.Padded(c.hour, 2) + (":" + ma), D.Padded(c.hour, 2) + (":" + mb);
    FieldOrder(c.day, c.day, 2, "T", ha, hb);
    var da, db := D.Padded(c.day, 2) + ("T" + ha), D.Padded(c.day, 2) + ("T" + hb);
    FieldOrder(c.month, c.month, 2, "-", da, db);
    FieldOrder(c.year, c.year, 4, "-", D.Padded(c.month, 2) + ("-" + da), D.Padded(c.month, 2) + ("-" + db));
  }
}
