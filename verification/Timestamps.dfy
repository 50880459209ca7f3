/** The two text forms of a time: the layout in which the SQLite driver stores a column, which is
    compared and sorted as text, and the RFC 3339 cursor that pages through it.

    A time is a wall clock reading in years 0000-9999 and an offset from UTC in seconds. */
module Timestamps {

  // --- Times ----------------------------------------------------------------------------------

  datatype Civil = Civil(year: nat, month: nat, day: nat, hour: nat, minute: nat, second: nat, nanos: nat) {
    predicate Valid() {
      && year <= 9999 && 1 <= month <= 12 && 1 <= day <= DaysIn(year, month)
      && hour < 24 && minute < 60 && second < 60 && nanos < 1_000_000_000
    }
  }

  datatype Stamp = Stamp(wall: Civil, offset: int) {
    predicate Valid() {
      wall.Valid() && -86400 < offset < 86400
    }

    function Instant(): int
      requires Valid()
    {
      WallNanos(wall) - offset * 1_000_000_000
    }
  }

  predicate Leap(year: nat) {
    year % 4 == 0 && (year % 100 != 0 || year % 400 == 0)
  }

  function DaysIn(year: nat, month: nat): nat {
    if month == 2 then if Leap(year) then 29 else 28
    else if month == 4 || month == 6 || month == 9 || month == 11 then 30
    else 31
  }

  function DaysBeforeYear(year: nat): nat {
    if year == 0 then 0 else DaysBeforeYear(year - 1) + if Leap(year - 1) then 366 else 365
  }

  function DaysBeforeMonth(year: nat, month: nat): nat {
    if month <= 1 then 0 else DaysBeforeMonth(year, month - 1) + DaysIn(year, month - 1)
  }

  function DayNumber(c: Civil): int {
    DaysBeforeYear(c.year) + DaysBeforeMonth(c.year, c.month) + c.day - 1
  }

  // Nanoseconds of the wall clock since the start of the year 0000.
  function WallNanos(c: Civil): int {
    (((DayNumber(c) * 24 + c.hour) * 60 + c.minute) * 60 + c.second) * 1_000_000_000 + c.nanos
  }

  // How many of the years before `year` are multiples of `d`.
  function MultiplesBefore(year: nat, d: nat): nat
    requires d > 0
  {
    (year + d - 1) / d
  }

  /** The calendar is the Gregorian one: a leap day every fourth year, except in the centuries that 400
      does not divide. */
  lemma {:induction false} DaysOfYears(year: nat)
    ensures DaysBeforeYear(year) ==
            365 * year + MultiplesBefore(year, 4) - MultiplesBefore(year, 100) + MultiplesBefore(year, 400)
  {
    if year > 0 {
      DaysOfYears(year - 1);
      NextYear(year - 1);
    }
  }

  lemma NextYear(year: nat)
    ensures MultiplesBefore(year + 1, 4) == MultiplesBefore(year, 4) + if year % 4 == 0 then 1 else 0
    ensures MultiplesBefore(year + 1, 100) == MultiplesBefore(year, 100) + if year % 100 == 0 then 1 else 0
    ensures MultiplesBefore(year + 1, 400) == MultiplesBefore(year, 400) + if year % 400 == 0 then 1 else 0
    ensures (year % 400 == 0 ==> year % 100 == 0) && (year % 100 == 0 ==> year % 4 == 0)
  {
    NextByFour(year);
    NextByHundred(year);
    NextByFourHundred(year);
    Centuries(year);
  }

  lemma NextByFour(year: nat)
    ensures MultiplesBefore(year + 1, 4) == MultiplesBefore(year, 4) + if year % 4 == 0 then 1 else 0
  {
  }

  lemma NextByHundred(year: nat)
    ensures MultiplesBefore(year + 1, 100) == MultiplesBefore(year, 100) + if year % 100 == 0 then 1 else 0
  {
  }

  lemma NextByFourHundred(year: nat)
    ensures MultiplesBefore(year + 1, 400) == MultiplesBefore(year, 400) + if year % 400 == 0 then 1 else 0
  {
  }

  lemma Centuries(year: nat)
    ensures (year % 400 == 0 ==> year % 100 == 0) && (year % 100 == 0 ==> year % 4 == 0)
  {
    if year % 400 == 0 {
      TimesHundred(year, 4 * (year / 400));
    }
    if year % 100 == 0 {
      TimesFour(year, 25 * (year / 100));
    }
  }

  lemma TimesHundred(year: nat, m: nat)
    requires year == 100 * m
    ensures year % 100 == 0
  {
  }

  lemma TimesFour(year: nat, m: nat)
    requires year == 4 * m
    ensures year % 4 == 0
  {
  }

  // Long and short months alternate, starting over in August, and the months make up the year.
  lemma DaysOfMonths(year: nat, month: nat)
    requires 1 <= month <= 12 && month != 2
    ensures DaysIn(year, month) == 30 + (month + month / 8) % 2
    ensures DaysBeforeYear(year + 1) == DaysBeforeYear(year) + DaysBeforeMonth(year, 13)
  {
    assert DaysBeforeMonth(year, 2) == 31;
    assert DaysBeforeMonth(year, 3) == 31 + DaysIn(year, 2);
    assert DaysBeforeMonth(year, 5) == 92 + DaysIn(year, 2);
    assert DaysBeforeMonth(year, 7) == 153 + DaysIn(year, 2);
    assert DaysBeforeMonth(year, 9) == 215 + DaysIn(year, 2);
    assert DaysBeforeMonth(year, 11) == 276 + DaysIn(year, 2);
    assert DaysBeforeMonth(year, 13) == 337 + DaysIn(year, 2);
  }

  // --- Digits ---------------------------------------------------------------------------------

  function Pow10(n: nat): nat { if n == 0 then 1 else 10 * Pow10(n - 1) }

  function DigitChar(d: nat): char
    requires d < 10
  {
    '0' + d as char
  }

  predicate IsDigit(c: char) { '0' <= c <= '9' }

  function DigitValue(c: char): nat
    requires IsDigit(c)
  {
    c as nat - '0' as nat
  }

  // `n` in exactly `width` digits; anything beyond is cut off at the front.
  function Digits(n: nat, width: nat): (s: string)
    ensures |s| == width && AllDigits(s)
  {
    if width == 0 then "" else Digits(n / 10, width - 1) + [DigitChar(n % 10)]
  }

  predicate AllDigits(s: string) {
    forall i :: 0 <= i < |s| ==> IsDigit(s[i])
  }

  predicate AllZero(s: string) {
    forall i :: 0 <= i < |s| ==> s[i] == '0'
  }

  // Fractional seconds without the zeros at the end.
  function Trim(digits: string): (s: string)
    ensures |s| <= |digits| && forall i :: 0 <= i < |s| ==> s[i] == digits[i]
  {
    if AllZero(digits) then "" else [digits[0]] + Trim(digits[1..])
  }

  function Fraction(nanos: nat): string {
    if nanos == 0 then "" else "." + Trim(Digits(nanos, 9))
  }

  function Field(n: nat, width: nat, separator: char, rest: string): string {
    Digits(n, width) + ([separator] + rest)
  }

  // YYYY-MM-DD<separator>HH:MM:SS[.fraction], followed by `zone`.
  function WallText(c: Civil, separator: char, zone: string): string {
    Field(c.year, 4, '-', Field(c.month, 2, '-', Field(c.day, 2, separator,
      Field(c.hour, 2, ':', Field(c.minute, 2, ':', Digits(c.second, 2) + (Fraction(c.nanos) + zone))))))
  }

  // --- Text order -----------------------------------------------------------------------------

  // SQLite's default comparison of two texts.
  predicate TextLess(a: string, b: string) {
    b != "" && (a == "" || a[0] < b[0] || (a[0] == b[0] && TextLess(a[1..], b[1..])))
  }

  lemma {:induction false} TextLessBlocks(a: string, b: string, x: string, y: string)
    requires |a| == |b|
    ensures TextLess(a + x, b + y) <==> TextLess(a, b) || (a == b && TextLess(x, y))
  {
    if a == "" {
      assert a + x == x && b + y == y;
    } else {
      assert (a + x)[1..] == a[1..] + x && (b + y)[1..] == b[1..] + y;
      TextLessBlocks(a[1..], b[1..], x, y);
      assert a == b <==> a[0] == b[0] && a[1..] == b[1..];
    }
  }

  lemma {:induction false} DigitsOrdered(n: nat, m: nat, width: nat)
    requires n < Pow10(width) && m < Pow10(width)
    ensures TextLess(Digits(n, width), Digits(m, width)) <==> n < m
    ensures Digits(n, width) == Digits(m, width) <==> n == m
  {
    if width > 0 {
      DigitsOrdered(n / 10, m / 10, width - 1);
      var x, y := DigitChar(n % 10), DigitChar(m % 10);
      TextLessBlocks(Digits(n / 10, width - 1), Digits(m / 10, width - 1), [x], [y]);
      LastEqual(Digits(n / 10, width - 1), Digits(m / 10, width - 1), x, y);
      assert TextLess([x], [y]) <==> n % 10 < m % 10;
    }
  }

  lemma LastEqual(a: string, b: string, x: char, y: char)
    requires |a| == |b|
    ensures a + [x] == b + [y] <==> a == b && x == y
  {
    if a + [x] == b + [y] {
      assert (a + [x])[..|a|] == a && (b + [y])[..|a|] == b;
      assert (a + [x])[|a|] == x && (b + [y])[|a|] == y;
    }
  }

  lemma FieldOrdered(n: nat, m: nat, width: nat, separator: char, x: string, y: string)
    requires n < Pow10(width) && m < Pow10(width)
    ensures TextLess(Field(n, width, separator, x), Field(m, width, separator, y)) <==>
            n < m || (n == m && TextLess(x, y))
  {
    DigitsOrdered(n, m, width);
    TextLessBlocks(Digits(n, width), Digits(m, width), [separator] + x, [separator] + y);
    TextLessBlocks([separator], [separator], x, y);
  }

  predicate StartsWithSpace(s: string) { s != "" && s[0] == ' ' }

  // Trimming zeros does not disturb the order, because a space sorts before every digit.
  lemma {:induction false} TrimOrdered(d: string, e: string, s: string, t: string)
    requires |d| == |e| && StartsWithSpace(s) && StartsWithSpace(t)
    requires AllDigits(d) && AllDigits(e)
    ensures TextLess(Trim(d) + s, Trim(e) + t) <==> TextLess(d, e) || (d == e && TextLess(s, t))
  {
    if AllZero(d) && AllZero(e) {
      assert d == e;
      assert Trim(d) + s == s && Trim(e) + t == t;
      NotLessThanItself(d);
    } else if AllZero(d) {
      ZerosLeast(d, e);
      assert Trim(d) + s == s && (Trim(e) + t)[0] == e[0];
    } else if AllZero(e) {
      ZerosLeast(e, d);
      LessIsOneWay(e, d);
      assert Trim(e) + t == t && (Trim(d) + s)[0] == d[0];
    } else {
      TrimOrdered(d[1..], e[1..], s, t);
      HeadOrdered(d[0], e[0], Trim(d[1..]) + s, Trim(e[1..]) + t);
      TrimHead(d, s);
      TrimHead(e, t);
      assert d == [d[0]] + d[1..] && e == [e[0]] + e[1..];
    }
  }

  lemma TrimHead(d: string, s: string)
    requires !AllZero(d)
    ensures Trim(d) + s == [d[0]] + (Trim(d[1..]) + s)
  {
  }

  lemma HeadOrdered(c: char, k: char, x: string, y: string)
    ensures TextLess([c] + x, [k] + y) <==> c < k || (c == k && TextLess(x, y))
  {
    assert ([c] + x)[1..] == x && ([k] + y)[1..] == y;
  }

  lemma {:induction false} NotLessThanItself(d: string)
    ensures !TextLess(d, d)
  {
    if d != "" {
      NotLessThanItself(d[1..]);
    }
  }

  lemma {:induction false} LessIsOneWay(d: string, e: string)
    requires TextLess(d, e)
    ensures !TextLess(e, d) && d != e
  {
    if d != "" && d[0] == e[0] {
      LessIsOneWay(d[1..], e[1..]);
    }
  }

  lemma {:induction false} NotBelow(a: string, b: string, c: string)
    requires !TextLess(a, b) && !TextLess(b, c)
    ensures !TextLess(a, c)
  {
    if a != "" && b != "" && c != "" && a[0] == b[0] == c[0] {
      NotBelow(a[1..], b[1..], c[1..]);
    }
  }

  lemma {:induction false} ZerosLeast(d: string, e: string)
    requires |d| == |e| && AllZero(d) && AllDigits(e) && !AllZero(e)
    ensures TextLess(d, e) && e[0] >= '0'
  {
    if e[0] == '0' {
      var i :| 0 <= i < |e| && e[i] != '0';
      assert e[1..][i - 1] != '0';
      ZerosLeast(d[1..], e[1..]);
    }
  }

  lemma FractionOrdered(n: nat, m: nat, s: string, t: string)
    requires n < Pow10(9) && m < Pow10(9) && StartsWithSpace(s) && StartsWithSpace(t)
    ensures TextLess(Fraction(n) + s, Fraction(m) + t) <==> n < m || (n == m && TextLess(s, t))
  {
    if n == 0 {
      assert Fraction(n) + s == s;
    }
    if m == 0 {
      assert Fraction(m) + t == t;
    }
    if n != 0 && m != 0 {
      var d, e := Digits(n, 9), Digits(m, 9);
      DigitsOrdered(n, m, 9);
      TrimOrdered(d, e, s, t);
      DotOrdered(Trim(d), Trim(e), s, t);
    } else if n != 0 {
      assert (Fraction(n) + s)[0] == '.';
    } else if m != 0 {
      assert (Fraction(m) + t)[0] == '.';
    }
  }

  lemma DotOrdered(d: string, e: string, s: string, t: string)
    ensures TextLess("." + d + s, "." + e + t) <==> TextLess(d + s, e + t)
  {
    assert "." + d + s == "." + (d + s) && "." + e + t == "." + (e + t);
    TextLessBlocks(".", ".", d + s, e + t);
  }

  // --- The calendar ---------------------------------------------------------------------------

  // Chronological order of wall clock readings, field by field.
  predicate Earlier(a: Civil, b: Civil) {
    if a.year != b.year then a.year < b.year
    else if a.month != b.month then a.month < b.month
    else if a.day != b.day then a.day < b.day
    else ClockEarlier(a, b)
  }

  predicate ClockEarlier(a: Civil, b: Civil) {
    if a.hour != b.hour then a.hour < b.hour
    else if a.minute != b.minute then a.minute < b.minute
    else if a.second != b.second then a.second < b.second
    else a.nanos < b.nanos
  }

  lemma {:induction false} YearsInOrder(y: nat, z: nat)
    requires y < z
    ensures DaysBeforeYear(y) + (if Leap(y) then 366 else 365) <= DaysBeforeYear(z)
    decreases z
  {
    if y < z - 1 {
      YearsInOrder(y, z - 1);
    }
  }

  lemma {:induction false} MonthsInOrder(year: nat, m: nat, n: nat)
    requires 1 <= m < n
    ensures DaysBeforeMonth(year, m) + DaysIn(year, m) <= DaysBeforeMonth(year, n)
    decreases n
  {
    if m < n - 1 {
      MonthsInOrder(year, m, n - 1);
    }
  }

  lemma DayOfYearFits(c: Civil)
    requires c.Valid()
    ensures DaysBeforeMonth(c.year, c.month) + c.day <= if Leap(c.year) then 366 else 365
  {
    if c.month < 12 {
      MonthsInOrder(c.year, c.month, 12);
    }
    YearHasItsDays(c.year);
  }

  lemma YearHasItsDays(year: nat)
    ensures DaysBeforeMonth(year, 12) + 31 == if Leap(year) then 366 else 365
  {
    assert DaysBeforeMonth(year, 4) == 31 + 31 + DaysIn(year, 2) by {
      assert DaysBeforeMonth(year, 2) == 31;
    }
    assert DaysBeforeMonth(year, 8) == DaysBeforeMonth(year, 4) + 30 + 31 + 30 + 31 by {
      assert DaysBeforeMonth(year, 6) == DaysBeforeMonth(year, 4) + 30 + 31;
    }
    assert DaysBeforeMonth(year, 12) == DaysBeforeMonth(year, 8) + 31 + 30 + 31 + 30 by {
      assert DaysBeforeMonth(year, 10) == DaysBeforeMonth(year, 8) + 31 + 30;
    }
  }

  lemma EarlierDay(a: Civil, b: Civil)
    requires a.Valid() && b.Valid()
    requires a.year < b.year || (a.year == b.year && (a.month < b.month || (a.month == b.month && a.day < b.day)))
    ensures DayNumber(a) < DayNumber(b)
  {
    if a.year < b.year {
      DayOfYearFits(a);
      YearsInOrder(a.year, b.year);
    } else if a.month < b.month {
      MonthsInOrder(a.year, a.month, b.month);
    }
  }

  lemma EarlierIsSmaller(a: Civil, b: Civil)
    requires a.Valid() && b.Valid() && Earlier(a, b)
    ensures WallNanos(a) < WallNanos(b)
  {
    if a.year != b.year || a.month != b.month || a.day != b.day {
      EarlierDay(a, b);
    }
  }

  lemma WallOrder(a: Civil, b: Civil)
    requires a.Valid() && b.Valid()
    ensures WallNanos(a) < WallNanos(b) <==> Earlier(a, b)
    ensures WallNanos(a) == WallNanos(b) <==> a == b
  {
    if Earlier(a, b) {
      EarlierIsSmaller(a, b);
    } else if Earlier(b, a) {
      EarlierIsSmaller(b, a);
    }
  }

  // --- Stored columns -------------------------------------------------------------------------

  /** Text order of stored times is the order of their wall clocks, and of what follows them when
      those agree.  Fractions of different lengths are no exception. */
  lemma TextOrderIsWallOrder(a: Civil, b: Civil, s: string, t: string)
    requires a.Valid() && b.Valid() && StartsWithSpace(s) && StartsWithSpace(t)
    ensures TextLess(WallText(a, ' ', s), WallText(b, ' ', t)) <==>
            WallNanos(a) < WallNanos(b) || (WallNanos(a) == WallNanos(b) && TextLess(s, t))
  {
    WallOrder(a, b);
    SmallPowers();
    ClockOrdered(a, b, s, t);
    var x, y := ClockText(a, s), ClockText(b, t);
    FieldOrdered(a.day, b.day, 2, ' ', x, y);
    FieldOrdered(a.month, b.month, 2, '-', Field(a.day, 2, ' ', x), Field(b.day, 2, ' ', y));
    FieldOrdered(a.year, b.year, 4, '-', Field(a.month, 2, '-', Field(a.day, 2, ' ', x)),
      Field(b.month, 2, '-', Field(b.day, 2, ' ', y)));
  }

  lemma SmallPowers()
    ensures Pow10(2) == 100 && Pow10(4) == 10000 && Pow10(9) == 1_000_000_000
  {
    assert Pow10(7) == 1000 * Pow10(4);
  }

  function ClockText(c: Civil, zone: string): string {
    Field(c.hour, 2, ':', Field(c.minute, 2, ':', Digits(c.second, 2) + (Fraction(c.nanos) + zone)))
  }

  predicate SameClock(a: Civil, b: Civil) {
    a.hour == b.hour && a.minute == b.minute && a.second == b.second && a.nanos == b.nanos
  }

  lemma ClockOrdered(a: Civil, b: Civil, s: string, t: string)
    requires a.Valid() && b.Valid() && StartsWithSpace(s) && StartsWithSpace(t)
    ensures TextLess(ClockText(a, s), ClockText(b, t)) <==> ClockEarlier(a, b) || (SameClock(a, b) && TextLess(s, t))
  {
    SmallPowers();
    var x, y := Fraction(a.nanos) + s, Fraction(b.nanos) + t;
    FractionOrdered(a.nanos, b.nanos, s, t);
    DigitsOrdered(a.second, b.second, 2);
    TextLessBlocks(Digits(a.second, 2), Digits(b.second, 2), x, y);
    FieldOrdered(a.minute, b.minute, 2, ':', Digits(a.second, 2) + x, Digits(b.second, 2) + y);
    FieldOrdered(a.hour, b.hour, 2, ':', Field(a.minute, 2, ':', Digits(a.second, 2) + x),
      Field(b.minute, 2, ':', Digits(b.second, 2) + y));
  }

  // What follows the wall clock in a stored time: offset, zone name, and the monotonic reading
  // that time.Now carries.
  datatype Zone = Zone(offset: int, name: string)

  function ZoneText(z: Zone, monotonic: string): (s: string)
    ensures StartsWithSpace(s)
  {
    var minutes := (if z.offset < 0 then -z.offset else z.offset) / 60;
    " " + [if z.offset <= -60 then '-' else '+'] + Digits(minutes / 60, 2) + Digits(minutes % 60, 2) + " " + z.name +
      monotonic
  }

  function StoredText(c: Civil, z: Zone, monotonic: string): string {
    WallText(c, ' ', ZoneText(z, monotonic))
  }

  lemma TwoDigits(n: nat, a: nat, b: nat)
    requires a < 10 && b < 10 && n == 10 * a + b
    ensures Digits(n, 2) == [DigitChar(a), DigitChar(b)]
  {
    assert n / 10 == a && n % 10 == b;
    assert Digits(a, 1) == Digits(a / 10, 0) + [DigitChar(a % 10)];
  }

  lemma YearReads()
    ensures Digits(2026, 4) == "2026"
  {
    TwoDigits(20, 2, 0);
    assert Digits(202, 3) == Digits(20, 2) + [DigitChar(2)];
    assert Digits(2026, 4) == Digits(202, 3) + [DigitChar(6)];
  }

  lemma FieldReads(n: nat, width: nat, separator: char, text: string, rest: string)
    requires Digits(n, width) == text
    ensures Field(n, width, separator, rest) == text + [separator] + rest
  {
  }

  lemma Reassociate(a: string, b: string, c: string)
    ensures a + (b + c) == a + b + c
  {
  }

  lemma DateDigitsRead()
    ensures Digits(2026, 4) == "2026" && Digits(3, 2) == "03" && Digits(5, 2) == "05"
  {
    YearReads();
    TwoDigits(3, 0, 3);
    TwoDigits(5, 0, 5);
  }

  lemma ClockDigitsRead()
    ensures Digits(17, 2) == "17" && Digits(8, 2) == "08" && Digits(9, 2) == "09"
  {
    TwoDigits(17, 1, 7);
    TwoDigits(8, 0, 8);
    TwoDigits(9, 0, 9);
  }

  lemma ZoneDigitsRead()
    ensures Digits(2, 2) == "02" && Digits(0, 2) == "00" && Digits(3, 2) == "03" && Digits(30, 2) == "30"
  {
    TwoDigits(2, 0, 2);
    TwoDigits(0, 0, 0);
    TwoDigits(3, 0, 3);
    TwoDigits(30, 3, 0);
  }

  lemma ClockReads(zone: string)
    ensures Field(17, 2, ':', Field(8, 2, ':', Digits(9, 2) + (Fraction(0) + zone))) == "17:08:09" + zone
  {
    ClockDigitsRead();
    var seconds := Digits(9, 2) + (Fraction(0) + zone);
    assert Fraction(0) + zone == zone;
    FieldReads(8, 2, ':', "08", seconds);
    Reassociate("08:", "09", zone);
    assert "08" + [':'] == "08:" && "08:" + "09" == "08:09";
    FieldReads(17, 2, ':', "17", "08:09" + zone);
    Reassociate("17:", "08:09", zone);
    assert "17" + [':'] == "17:" && "17:" + "08:09" == "17:08:09";
  }

  lemma DateReads(separator: char, rest: string)
    ensures Field(2026, 4, '-', Field(3, 2, '-', Field(5, 2, separator, rest))) == "2026-03-05" + [separator] + rest
  {
    DateDigitsRead();
    FieldReads(5, 2, separator, "05", rest);
    var day := "05" + [separator];
    FieldReads(3, 2, '-', "03", day + rest);
    Reassociate("03" + ['-'], day, rest);
    var month := "03" + ['-'] + day;
    FieldReads(2026, 4, '-', "2026", month + rest);
    Reassociate("2026" + ['-'], month, rest);
    assert "2026" + ['-'] + month == "2026-03-05" + [separator];
  }

  // How a wall clock reads.
  lemma WallReads(separator: char, zone: string)
    ensures WallText(Civil(2026, 3, 5, 17, 8, 9, 0), separator, zone) ==
            "2026-03-05" + [separator] + ("17:08:09" + zone)
  {
    ClockReads(zone);
    DateReads(separator, "17:08:09" + zone);
  }

  lemma EastReads()
    ensures ZoneText(Zone(7200, "CEST"), "") == " +0200 CEST"
  {
    ZoneDigitsRead();
  }

  lemma WestReads()
    ensures ZoneText(Zone(-12600, "NST"), " m=+1.5") == " -0330 NST m=+1.5"
  {
    ZoneDigitsRead();
  }

  /** How a stored time reads: date, clock, offset, zone, and the monotonic reading if there is one. */
  lemma StoredTextSpelled()
    ensures StoredText(Civil(2026, 3, 5, 17, 8, 9, 0), Zone(7200, "CEST"), "") ==
            "2026-03-05" + [' '] + ("17:08:09" + " +0200 CEST")
    ensures StoredText(Civil(2026, 3, 5, 17, 8, 9, 0), Zone(-12600, "NST"), " m=+1.5") ==
            "2026-03-05" + [' '] + ("17:08:09" + " -0330 NST m=+1.5")
  {
    EastReads();
    WestReads();
    WallReads(' ', ZoneText(Zone(7200, "CEST"), ""));
    WallReads(' ', ZoneText(Zone(-12600, "NST"), " m=+1.5"));
  }

  // A fraction reads without the zeros at its end.
  lemma {:induction false} TrimSpelled(digits: string, zeros: nat)
    requires digits == "" || digits[|digits| - 1] != '0'
    ensures Trim(digits + seq(zeros, _ => '0')) == digits
  {
    var all := digits + seq(zeros, _ => '0');
    if digits != "" {
      assert all[|digits| - 1] == digits[|digits| - 1];
      assert all[1..] == digits[1..] + seq(zeros, _ => '0');
      TrimSpelled(digits[1..], zeros);
    }
  }

  /** At one fixed offset, text order of stored times is time order. */
  lemma TextOrderIsTimeOrder(a: Stamp, b: Stamp, z: Zone, w: Zone, m: string, n: string)
    requires a.Valid() && b.Valid() && a.offset == b.offset == z.offset == w.offset && a.Instant() != b.Instant()
    ensures TextLess(StoredText(a.wall, z, m), StoredText(b.wall, w, n)) <==> a.Instant() < b.Instant()
  {
    TextOrderIsWallOrder(a.wall, b.wall, ZoneText(z, m), ZoneText(w, n));
  }

  /** Across a change of offset it need not be: here the later run, ten minutes after the clocks
      went back, sorts before the earlier one. */
  lemma TextOrderFailsAcrossOffsets()
    ensures var a, b := Stamp(Civil(2026, 10, 25, 2, 55, 0, 0), 7200), Stamp(Civil(2026, 10, 25, 2, 5, 0, 0), 3600);
            && a.Valid() && b.Valid() && a.Instant() < b.Instant()
            && TextLess(StoredText(b.wall, Zone(3600, "CET"), ""), StoredText(a.wall, Zone(7200, "CEST"), ""))
  {
    var a, b := Civil(2026, 10, 25, 2, 55, 0, 0), Civil(2026, 10, 25, 2, 5, 0, 0);
    TextOrderIsWallOrder(b, a, ZoneText(Zone(3600, "CET"), ""), ZoneText(Zone(7200, "CEST"), ""));
    assert DayNumber(a) == DayNumber(b);
  }

  /** Exactly when it is: the two runs are further apart than the offset fell, or just as far, with
      one wall clock, and the texts of the zones decide. */
  lemma TextOrderAcrossOffsetsIff(a: Stamp, b: Stamp, z: Zone, w: Zone, m: string, n: string)
    requires a.Valid() && b.Valid() && a.Instant() < b.Instant()
    ensures var gap, turn := b.Instant() - a.Instant(), (a.offset - b.offset) * 1_000_000_000;
            TextLess(StoredText(a.wall, z, m), StoredText(b.wall, w, n)) <==>
            gap > turn || (gap == turn && TextLess(ZoneText(z, m), ZoneText(w, n)))
  {
    TextOrderIsWallOrder(a.wall, b.wall, ZoneText(z, m), ZoneText(w, n));
  }
}

/** The paging cursor: the start time of a run in RFC 3339 (section 5.6) with nanoseconds. */
module Cursor {
  import opened Common
  import opened Timestamps

  // The offset in whole minutes, cut off towards zero as Go's formatter does.
  function Minutes(offset: int): nat {
    (if offset < 0 then -offset else offset) / 60
  }

  function Sign(offset: int): char { if offset <= -60 then '-' else '+' }

  function OffsetText(offset: int): string {
    if offset == 0 then "Z"
    else [Sign(offset)] + (Digits(Minutes(offset) / 60, 2) + (":" + Digits(Minutes(offset) % 60, 2)))
  }

  function RunCursor(t: Stamp): string {
    WallText(t.wall, 'T', OffsetText(t.offset))
  }

  // --- Parsing --------------------------------------------------------------------------------

  // The value of the first `width` digits of `s`, read as if zeros followed.
  function Value(s: string, width: nat): nat
    requires AllDigits(s)
  {
    if s == "" || width == 0 then 0 else DigitValue(s[0]) * Pow10(width - 1) + Value(s[1..], width - 1)
  }

  function ParseNumber(s: string, at: nat, width: nat): Option<nat> {
    if at + width <= |s| && AllDigits(s[at..at + width]) then Some(Value(s[at..at + width], width)) else None
  }

  function DigitRun(s: string): (n: nat)
    ensures n <= |s| && AllDigits(s[..n]) && (n < |s| ==> !IsDigit(s[n]))
  {
    if s != "" && IsDigit(s[0]) then 1 + DigitRun(s[1..]) else 0
  }

  // Z, or a sign with hours and minutes: the offset in seconds.
  function ParseOffset(s: string): Option<int> {
    if s == "Z" then Some(0)
    else if |s| == 6 && (s[0] == '+' || s[0] == '-') && s[3] == ':' then
      match (ParseNumber(s, 1, 2), ParseNumber(s, 4, 2))
      case (Some(h), Some(m)) =>
        var seconds: int := h * 3600 + m * 60;
        if h < 24 && m < 60 then Some(if s[0] == '-' then -seconds else seconds) else None
      case _ => None
    else None
  }

  // What follows the seconds: the fraction in nanoseconds and the offset.
  function ParseRest(s: string): Option<(nat, int)> {
    if s != "" && s[0] == '.' then
      var n := DigitRun(s[1..]);
      if n == 0 then None
      else
        match ParseOffset(s[1 + n..])
        case Some(offset) => Some((Value(s[1..][..n], 9), offset))
        case None => None
    else
      match ParseOffset(s)
      case Some(offset) => Some((0, offset))
      case None => None
  }

  predicate Separated(s: string) {
    |s| >= 19 && s[4] == '-' && s[7] == '-' && s[10] == 'T' && s[13] == ':' && s[16] == ':'
  }

  function ParseStamp(s: string): Option<Stamp> {
    if !Separated(s) then None
    else
      var fields := (ParseNumber(s, 0, 4), ParseNumber(s, 5, 2), ParseNumber(s, 8, 2),
                     ParseNumber(s, 11, 2), ParseNumber(s, 14, 2), ParseNumber(s, 17, 2), ParseRest(s[19..]));
      match fields
      case (Some(y), Some(mo), Some(d), Some(h), Some(mi), Some(sec), Some((nanos, offset))) =>
        var t := Stamp(Civil(y, mo, d, h, mi, sec, nanos), offset);
        if t.wall.Valid() then Some(t) else None
      case _ => None
  }

  function ReplaceFirst(s: string, from: char, to: char): string {
    if s == "" then ""
    else if s[0] == from then [to] + s[1..]
    else [s[0]] + ReplaceFirst(s[1..], from, to)
  }

  // A missing or unreadable cursor is None, which lists from the newest run.
  function ParseRunCursor(raw: string): Option<Stamp> {
    if raw == "" then None else OrElse(ParseStamp(raw), ParseStamp(ReplaceFirst(raw, ' ', '+')))
  }

  // What query decoding makes of an unescaped "+".
  function DecodePlus(s: string): string {
    if s == "" then "" else [if s[0] == '+' then ' ' else s[0]] + DecodePlus(s[1..])
  }

  // --- Numbers round-trip ---------------------------------------------------------------------

  lemma {:induction false} ValueSnoc(s: string, c: char)
    requires AllDigits(s) && IsDigit(c)
    ensures AllDigits(s + [c]) && Value(s + [c], |s| + 1) == 10 * Value(s, |s|) + DigitValue(c)
  {
    if s != "" {
      assert (s + [c])[1..] == s[1..] + [c];
      ValueSnoc(s[1..], c);
      ShiftDigit(DigitValue(s[0]), |s|);
    } else {
      assert s + [c] == [c] && [c][1..] == "";
    }
  }

  lemma ShiftDigit(d: nat, n: nat)
    requires n > 0
    ensures d * Pow10(n) == 10 * (d * Pow10(n - 1))
  {
  }

  lemma {:induction false} DigitsValue(n: nat, width: nat)
    requires n < Pow10(width)
    ensures Value(Digits(n, width), width) == n
  {
    if width > 0 {
      DigitsValue(n / 10, width - 1);
      ValueSnoc(Digits(n / 10, width - 1), DigitChar(n % 10));
    }
  }

  lemma {:induction false} TrimValue(digits: string)
    requires AllDigits(digits)
    ensures Value(Trim(digits), |digits|) == Value(digits, |digits|)
  {
    if AllZero(digits) {
      ZeroValue(digits);
    } else {
      TrimValue(digits[1..]);
      assert Trim(digits)[1..] == Trim(digits[1..]);
    }
  }

  lemma {:induction false} ZeroValue(digits: string)
    requires AllZero(digits)
    ensures Value(digits, |digits|) == 0
  {
    if digits != "" {
      ZeroValue(digits[1..]);
    }
  }

  // --- The round trip -------------------------------------------------------------------------

  lemma FieldLayout(n: nat, width: nat, separator: char, rest: string)
    ensures var f := Field(n, width, separator, rest);
            |f| == width + 1 + |rest| && f[..width] == Digits(n, width) && f[width] == separator &&
              f[width + 1..] == rest
  {
  }

  lemma NumberThere(s: string, at: nat, n: nat, width: nat)
    requires at + width <= |s| && s[at..][..width] == Digits(n, width) && n < Pow10(width)
    ensures ParseNumber(s, at, width) == Some(n)
  {
    assert s[at..at + width] == s[at..][..width];
    DigitsValue(n, width);
  }

  // One field of the text read back, and the text after it.
  lemma FieldThere(s: string, at: nat, n: nat, width: nat, separator: char, rest: string)
    requires at <= |s| && s[at..] == Field(n, width, separator, rest) && n < Pow10(width)
    ensures ParseNumber(s, at, width) == Some(n)
    ensures at + width < |s| && s[at + width] == separator && s[at + width + 1..] == rest
  {
    FieldLayout(n, width, separator, rest);
    NumberThere(s, at, n, width);
    assert s[at + width] == s[at..][width];
    assert s[at + width + 1..] == s[at..][width + 1..];
  }

  lemma DateThere(c: Civil, zone: string)
    requires c.Valid()
    ensures var s := WallText(c, 'T', zone);
            && |s| >= 11 && s[4] == '-' && s[7] == '-' && s[10] == 'T'
            && ParseNumber(s, 0, 4) == Some(c.year) && ParseNumber(s, 5, 2) == Some(c.month) &&
               ParseNumber(s, 8, 2) == Some(c.day)
            && s[11..] == ClockText(c, zone)
  {
    SmallPowers();
    var s := WallText(c, 'T', zone);
    assert s[0..] == s;
    FieldThere(s, 0, c.year, 4, '-', Field(c.month, 2, '-', Field(c.day, 2, 'T', ClockText(c, zone))));
    FieldThere(s, 5, c.month, 2, '-', Field(c.day, 2, 'T', ClockText(c, zone)));
    FieldThere(s, 8, c.day, 2, 'T', ClockText(c, zone));
  }

  lemma ClockThere(c: Civil, zone: string)
    requires c.Valid()
    ensures var s := WallText(c, 'T', zone);
            && |s| >= 19 && s[13] == ':' && s[16] == ':'
            && ParseNumber(s, 11, 2) == Some(c.hour) && ParseNumber(s, 14, 2) == Some(c.minute) &&
               ParseNumber(s, 17, 2) == Some(c.second)
            && s[19..] == Fraction(c.nanos) + zone
  {
    DateThere(c, zone);
    SmallPowers();
    var s := WallText(c, 'T', zone);
    var seconds := Digits(c.second, 2) + (Fraction(c.nanos) + zone);
    FieldThere(s, 11, c.hour, 2, ':', Field(c.minute, 2, ':', seconds));
    FieldThere(s, 14, c.minute, 2, ':', seconds);
    assert seconds[..2] == Digits(c.second, 2) && seconds[2..] == Fraction(c.nanos) + zone;
    NumberThere(s, 17, c.second, 2);
    assert s[19..] == s[17..][2..];
  }

  lemma {:induction false} RunStops(digits: string, after: string)
    requires AllDigits(digits) && after != "" && !IsDigit(after[0])
    ensures DigitRun(digits + after) == |digits|
  {
    if digits == "" {
      assert digits + after == after;
    } else {
      assert (digits + after)[1..] == digits[1..] + after;
      RunStops(digits[1..], after);
    }
  }

  lemma TrimKeepsSomething(digits: string)
    requires AllDigits(digits) && Value(digits, |digits|) != 0
    ensures Trim(digits) != ""
  {
    if AllZero(digits) {
      ZeroValue(digits);
    }
  }

  // A dot, a run of digits and a zone are told apart.
  lemma DottedThere(run: string, zone: string)
    requires run != "" && AllDigits(run) && zone != "" && !IsDigit(zone[0])
    ensures ParseRest("." + run + zone) ==
            if ParseOffset(zone).Some? then Some((Value(run, 9), ParseOffset(zone).value)) else None
  {
    var s := "." + run + zone;
    assert s[1..] == run + zone;
    RunStops(run, zone);
    assert s[1..][..|run|] == run;
    assert s[1 + |run|..] == zone;
  }

  lemma FractionValue(nanos: nat)
    requires 0 < nanos < Pow10(9)
    ensures var run := Trim(Digits(nanos, 9)); run != "" && AllDigits(run) && Value(run, 9) == nanos
  {
    DigitsValue(nanos, 9);
    TrimValue(Digits(nanos, 9));
    TrimKeepsSomething(Digits(nanos, 9));
  }

  lemma RestThere(nanos: nat, zone: string)
    requires nanos < Pow10(9) && zone != "" && !IsDigit(zone[0]) && zone[0] != '.'
    ensures ParseRest(Fraction(nanos) + zone) ==
            if ParseOffset(zone).Some? then Some((nanos, ParseOffset(zone).value)) else None
  {
    if nanos == 0 {
      assert Fraction(nanos) + zone == zone;
    } else {
      FractionValue(nanos);
      DottedThere(Trim(Digits(nanos, 9)), zone);
    }
  }

  // A printed wall clock is read back; what follows it decides the offset.
  lemma WallReadBack(c: Civil, zone: string)
    requires c.Valid() && zone != "" && !IsDigit(zone[0]) && zone[0] != '.'
    ensures ParseStamp(WallText(c, 'T', zone)) ==
            if ParseOffset(zone).Some? then Some(Stamp(c, ParseOffset(zone).value)) else None
  {
    DateThere(c, zone);
    ClockThere(c, zone);
    SmallPowers();
    RestThere(c.nanos, zone);
  }

  // The offset that survives printing: whole minutes, cut off towards zero.
  function WholeMinutes(offset: int): int {
    (if offset < 0 then -1 else 1) * (Minutes(offset) as int * 60)
  }

  lemma OffsetReadBack(offset: int)
    requires -86400 < offset < 86400
    ensures ParseOffset(OffsetText(offset)) == Some(WholeMinutes(offset))
  {
    if offset != 0 {
      var h, m := Minutes(offset) / 60, Minutes(offset) % 60;
      var s := OffsetText(offset);
      SmallPowers();
      assert s[1..][..2] == Digits(h, 2) && s[4..][..2] == Digits(m, 2);
      NumberThere(s, 1, h, 2);
      NumberThere(s, 4, m, 2);
    }
  }

  /** A cursor comes back as the same wall clock, to the nanosecond, and as the same offset exactly
      when that offset is a whole number of minutes; only then is it the same instant. */
  lemma CursorRoundTrip(t: Stamp)
    requires t.Valid()
    ensures ParseRunCursor(RunCursor(t)) == Some(Stamp(t.wall, WholeMinutes(t.offset)))
    ensures ParseRunCursor(RunCursor(t)) == Some(t) <==> t.offset % 60 == 0
    ensures ParseRunCursor(RunCursor(t)).value.Valid()
    ensures ParseRunCursor(RunCursor(t)).value.Instant() == t.Instant() <==> t.offset % 60 == 0
  {
    OffsetReadBack(t.offset);
    WallReadBack(t.wall, OffsetText(t.offset));
    WholeMinutesExact(t.offset);
    DateThere(t.wall, OffsetText(t.offset));
  }

  lemma WholeMinutesExact(offset: int)
    ensures WholeMinutes(offset) == offset <==> offset % 60 == 0
    ensures -86400 < offset < 86400 ==> -86400 < WholeMinutes(offset) < 86400
  {
  }

  lemma OffsetReads(offset: int, sign: char, hours: nat, minutes: nat, h: string, m: string)
    requires offset != 0 && Sign(offset) == sign && Minutes(offset) == 60 * hours + minutes && minutes < 60
    requires Digits(hours, 2) == h && Digits(minutes, 2) == m
    ensures OffsetText(offset) == [sign] + (h + (":" + m))
  {
    assert Minutes(offset) / 60 == hours && Minutes(offset) % 60 == minutes;
  }

  lemma OffsetsRead()
    ensures OffsetText(7200) == ['+'] + ("02" + (":" + "00")) && OffsetText(-12600) == ['-'] + ("03" + (":" + "30"))
    ensures OffsetText(0) == "Z"
  {
    ZoneDigitsRead();
    OffsetReads(7200, '+', 2, 0, "02", "00");
    OffsetReads(-12600, '-', 3, 30, "03", "30");
  }

  /** How a cursor reads: RFC 3339, with the offset in hours and minutes, or Z. */
  lemma CursorSpelled()
    ensures RunCursor(Stamp(Civil(2026, 3, 5, 17, 8, 9, 0), 7200)) == "2026-03-05" + ['T'] + ("17:08:09" + "+02:00")
    ensures RunCursor(Stamp(Civil(2026, 3, 5, 17, 8, 9, 0), -12600)) == "2026-03-05" + ['T'] + ("17:08:09" + "-03:30")
    ensures RunCursor(Stamp(Civil(2026, 3, 5, 17, 8, 9, 0), 0)) == "2026-03-05" + ['T'] + ("17:08:09" + "Z")
  {
    OffsetsRead();
    assert ['+'] + ("02" + (":" + "00")) == "+02:00" && ['-'] + ("03" + (":" + "30")) == "-03:30";
    WallReads('T', OffsetText(7200));
    WallReads('T', OffsetText(-12600));
    WallReads('T', OffsetText(0));
  }

  /** Whatever text is accepted as a cursor, it names a real time, and the cursor of that time parses to
      the same again. */
  lemma AcceptedIsReal(raw: string)
    requires ParseRunCursor(raw).Some?
    ensures var t := ParseRunCursor(raw).value;
            t.Valid() && t.offset % 60 == 0 && ParseRunCursor(RunCursor(t)) == Some(t)
  {
    var repaired := ReplaceFirst(raw, ' ', '+');
    ParsedIsReal(if ParseStamp(raw).Some? then raw else repaired);
    CursorRoundTrip(ParseRunCursor(raw).value);
  }

  lemma ParsedIsReal(s: string)
    requires ParseStamp(s).Some?
    ensures ParseStamp(s).value.Valid() && ParseStamp(s).value.offset % 60 == 0
  {
    RestIsReal(s[19..]);
  }

  lemma RestIsReal(s: string)
    requires ParseRest(s).Some?
    ensures -86400 < ParseRest(s).value.1 < 86400 && ParseRest(s).value.1 % 60 == 0
  {
  }

  // --- A cursor that lost its plus ------------------------------------------------------------

  predicate Free(s: string) {
    forall i :: 0 <= i < |s| ==> s[i] != ' ' && s[i] != '+'
  }

  lemma {:induction false} DecodeFree(a: string, b: string)
    requires Free(a)
    ensures DecodePlus(a + b) == a + DecodePlus(b)
    ensures ReplaceFirst(a + b, ' ', '+') == a + ReplaceFirst(b, ' ', '+')
  {
    if a == "" {
      assert a + b == b;
      assert a + DecodePlus(b) == DecodePlus(b);
      assert a + ReplaceFirst(b, ' ', '+') == ReplaceFirst(b, ' ', '+');
    } else {
      assert (a + b)[1..] == a[1..] + b;
      DecodeFree(a[1..], b);
    }
  }

  lemma DecodeNothing(a: string)
    requires Free(a)
    ensures DecodePlus(a) == a
  {
    DecodeFree(a, "");
    assert a + "" == a;
  }

  lemma WallTextFree(c: Civil, zone: string)
    ensures Free(WallText(c, 'T', ""))
    ensures WallText(c, 'T', zone) == WallText(c, 'T', "") + zone
  {
    DigitsFree(c.nanos, 9);
    ClockFree(c, zone);
    FieldFree(c.day, 2, 'T', ClockText(c, ""), zone);
    FieldFree(c.month, 2, '-', Field(c.day, 2, 'T', ClockText(c, "")), zone);
    FieldFree(c.year, 4, '-', Field(c.month, 2, '-', Field(c.day, 2, 'T', ClockText(c, ""))), zone);
  }

  lemma DigitsFree(n: nat, width: nat)
    ensures Free(Digits(n, width)) && Free(Fraction(n))
  {
  }

  lemma FieldFree(n: nat, width: nat, separator: char, rest: string, zone: string)
    requires separator != ' ' && separator != '+' && Free(rest)
    ensures Free(Field(n, width, separator, rest))
    ensures Field(n, width, separator, rest + zone) == Field(n, width, separator, rest) + zone
  {
  }

  lemma ClockFree(c: Civil, zone: string)
    ensures Free(ClockText(c, "")) && ClockText(c, zone) == ClockText(c, "") + zone
  {
    DigitsFree(c.nanos, 9);
    DigitsFree(c.second, 2);
    var seconds := Digits(c.second, 2) + (Fraction(c.nanos) + "");
    assert Digits(c.second, 2) + (Fraction(c.nanos) + zone) == seconds + zone;
    FieldFree(c.minute, 2, ':', seconds, zone);
    FieldFree(c.hour, 2, ':', Field(c.minute, 2, ':', seconds), zone);
  }

  /** Query decoding turns the "+" of an unescaped cursor into a space; the damaged text fails the
      first parse, has exactly one space to repair, and so reads the same as the intact one. */
  lemma DamagedCursorRoundTrip(t: Stamp)
    requires t.Valid()
    ensures ParseRunCursor(DecodePlus(RunCursor(t))) == ParseRunCursor(RunCursor(t))
  {
    var zone := OffsetText(t.offset);
    var wall := WallText(t.wall, 'T', "");
    WallTextFree(t.wall, zone);
    if zone[0] == '+' {
      var clock := zone[1..];
      var damaged := [' '] + clock;
      OffsetDigitsFree(t.offset);
      DecodeNothing(clock);
      DecodeFree(wall, zone);
      DecodeFree(wall, damaged);
      WallTextFree(t.wall, damaged);
      WallReadBack(t.wall, damaged);
      assert [' '] + clock != "Z";
      assert ReplaceFirst(damaged, ' ', '+') == zone;
      OffsetReadBack(t.offset);
      WallReadBack(t.wall, zone);
    } else {
      OffsetDigitsFree(t.offset);
      DecodeFree(wall, zone);
      DecodeNothing(zone);
    }
  }

  lemma OffsetDigitsFree(offset: int)
    ensures Free(OffsetText(offset)[1..])
    ensures OffsetText(offset)[0] != '+' ==> Free(OffsetText(offset))
    ensures OffsetText(offset)[0] != ' '
  {
    DigitsFree(Minutes(offset) / 60, 2);
    DigitsFree(Minutes(offset) % 60, 2);
  }
}
