/**
ASN.1 time values to Unix seconds, as the certificate parser computes them: character slices parsed
as signed numbers with defaults, a loop over the years since 1970, a loop over the months.  The
loops are proved equal to the Gregorian closed form, and the closed form to counting days one by one.
*/
module CertTime {
  import opened Options
  import opened Bytes

  const UTC_TIME: byte := 0x17

  datatype Date = Date(year: int, month: int, day: int)

  /** The six numbers the parser reads; nothing makes them a valid date. */
  datatype Stamp = Stamp(date: Date, hour: int, minute: int, second: int)

  predicate IsLeapYear(y: int) { (y % 4 == 0 && y % 100 != 0) || y % 400 == 0 }

  // ---------------------------------------------------------------------------
  // Reading the digits
  // ---------------------------------------------------------------------------

  predicate IsDigit(b: byte) { 48 <= b <= 57 }

  function Digits(s: seq<byte>): Option<int> {
    if s == [] then Some(0)
    else
      var front := Digits(s[..|s| - 1]);
      if front.None? || !IsDigit(s[|s| - 1]) then None else Some(front.value * 10 + (s[|s| - 1] as int - 48))
  }

  /** The source language's number parser: an optional sign, then at least one digit. */
  function ParseNumber(s: seq<byte>): Option<int> {
    if s == [] then None
    else if s[0] == 43 || s[0] == 45 then
      var rest := if |s| == 1 then None else Digits(s[1..]);
      if rest.Some? && s[0] == 45 then Some(-rest.value) else rest
    else Digits(s)
  }

  function NumberOr(s: seq<byte>, default: int): int {
    var n := ParseNumber(s);
    if n.Some? then n.value else default
  }

  predicate IsAscii(s: seq<byte>) { forall i :: 0 <= i < |s| ==> s[i] < 128 }

  /** A UTCTime gets its century in front: 20 for 00 to 49, otherwise 19. */
  function WithCentury(tag: byte, s: seq<byte>): seq<byte> {
    if tag == UTC_TIME && |s| >= 2 then (if NumberOr(s[0..2], 0) < 50 then [50, 48] else [49, 57]) + s else s
  }

  function ReadStamp(f: seq<byte>): Stamp
    requires |f| >= 14
  {
    Stamp(Date(NumberOr(f[0..4], 0), NumberOr(f[4..6], 1), NumberOr(f[6..8], 1)),
          NumberOr(f[8..10], 0), NumberOr(f[10..12], 0), NumberOr(f[12..14], 0))
  }

  // ---------------------------------------------------------------------------
  // The closed form
  // ---------------------------------------------------------------------------

  /** Leap days in the years 1 to y. */
  function LeapDays(y: int): int { y / 4 - y / 100 + y / 400 }

  /** Days from 1970-01-01 to the first of January of year y, negative before 1970. */
  function YearStart(y: int): int { 365 * (y - 1970) + LeapDays(y - 1) - LeapDays(1969) }

  const MONTH_DAYS: seq<int> := [0, 31, 28, 31, 30, 31, 30, 31, 31, 30, 31, 30, 31]

  function MonthLength(y: int, m: int): int
    requires 1 <= m <= 12
  {
    MONTH_DAYS[m] + if m == 2 && IsLeapYear(y) then 1 else 0
  }

  /** Days of the year before month m. */
  function MonthStart(y: int, m: int): int
    requires 1 <= m <= 13
    decreases m
  {
    if m == 1 then 0 else MonthStart(y, m - 1) + MonthLength(y, m - 1)
  }

  /** The month whose start the parser uses: months out of range count a whole year, month 0 counts none. */
  function MonthRead(m: int): int { if m == 0 then 1 else if 1 <= m <= 12 then m else 13 }

  /** What the parser computes from six numbers: like the closed form, but no year lies before 1970. */
  function UnixSeconds(t: Stamp): int {
    var d := t.date;
    var days := YearStart(if d.year < 1970 then 1970 else d.year) + MonthStart(d.year, MonthRead(d.month)) + d.day - 1;
    days * 86400 + t.hour * 3600 + t.minute * 60 + t.second
  }

  function ParsedTime(tag: byte, val: seq<byte>): int {
    if !IsAscii(val) || |WithCentury(tag, val)| < 14 then 0 else UnixSeconds(ReadStamp(WithCentury(tag, val)))
  }

  lemma Every4(y: int)
    ensures y / 4 == (y - 1) / 4 + if y % 4 == 0 then 1 else 0
  {
  }

  lemma Every100(y: int)
    ensures y / 100 == (y - 1) / 100 + if y % 100 == 0 then 1 else 0
    ensures y % 100 == 0 ==> y % 4 == 0
  {
  }

  lemma Every400(y: int)
    ensures y / 400 == (y - 1) / 400 + if y % 400 == 0 then 1 else 0
    ensures y % 400 == 0 ==> y % 100 == 0
  {
  }

  lemma YearStartStep(y: int)
    ensures YearStart(y + 1) == YearStart(y) + if IsLeapYear(y) then 366 else 365
  {
    Every4(y);
    Every100(y);
    Every400(y);
  }

  lemma DigitsBound(s: seq<byte>, default: int)
    requires 1 <= |s| <= 4 && 0 <= default <= 1
    ensures -999 <= NumberOr(s, default) <= 9999
    ensures |s| == 2 ==> -9 <= NumberOr(s, default) <= 99
  {
    if ParseNumber(s).Some? {
      if s[0] == 43 || s[0] == 45 {
        DigitsRange(s[1..]);
      } else {
        DigitsRange(s);
      }
    }
  }

  /** A number may carry a sign, and without a digit it is none. */
  lemma NumberSigns(s: seq<byte>)
    requires s != [] && IsDigit(s[0])
    ensures ParseNumber(s) == Digits(s)
    ensures ParseNumber([43] + s) == Digits(s)
    ensures ParseNumber([45] + s) == if Digits(s).Some? then Some(-Digits(s).value) else None
  {
    var plus, minus: seq<byte> := [43] + s, [45] + s;
    assert plus[0] == 43 && plus[1..] == s;
    assert minus[0] == 45 && minus[1..] == s;
  }

  lemma NoNumber()
    ensures ParseNumber([]) == None && ParseNumber([43]) == None && ParseNumber([45]) == None
  {
  }

  /** Text with a byte outside ASCII, or shorter than a date and a time, counts as no time. */
  lemma NoTimeIsZero(tag: byte, val: seq<byte>)
    ensures (exists i :: 0 <= i < |val| && val[i] >= 128) ==> ParsedTime(tag, val) == 0
    ensures |val| < 12 || (tag != 0x17 && |val| < 14) ==> ParsedTime(tag, val) == 0
    ensures tag != 0x17 && |val| >= 14 && (forall i :: 0 <= i < |val| ==> val[i] < 128) ==>
      ParsedTime(tag, val) == UnixSeconds(ReadStamp(val))
  {
  }

  lemma {:induction false} DigitsIff(s: seq<byte>)
    ensures Digits(s).Some? <==> forall i :: 0 <= i < |s| ==> 48 <= s[i] <= 57
    decreases |s|
  {
    if s != [] {
      DigitsIff(s[..|s| - 1]);
    }
  }

  /** A field that is no number: the first of its kind for month and day, zero otherwise. */
  lemma GarbledFields(f: seq<byte>)
    requires |f| >= 14
    ensures ParseNumber(f[4..6]) == None ==> ReadStamp(f).date.month == 1
    ensures ParseNumber(f[6..8]) == None ==> ReadStamp(f).date.day == 1
    ensures ParseNumber(f[0..4]) == None ==> ReadStamp(f).date.year == 0
    ensures ParseNumber(f[8..10]) == None ==> ReadStamp(f).hour == 0
    ensures ParseNumber(f[10..12]) == None ==> ReadStamp(f).minute == 0
    ensures ParseNumber(f[12..14]) == None ==> ReadStamp(f).second == 0
  {
  }

  lemma {:induction false} DigitsRange(t: seq<byte>)
    requires |t| <= 4 && Digits(t).Some?
    ensures 0 <= Digits(t).value <
            (if |t| == 0 then 1 else if |t| == 1 then 10 else if |t| == 2 then 100
             else if |t| == 3 then 1000 else 10000)
  {
    if t != [] {
      DigitsRange(t[..|t| - 1]);
    }
  }

  predicate FitsI32(n: int) { -0x8000_0000 <= n < 0x8000_0000 }

  method ParseTime(tag: byte, val: seq<byte>) returns (t: int)
    ensures t == ParsedTime(tag, val)
  {
    if !IsAscii(val) {
      return 0;
    }
    var format := val;
    if tag == UTC_TIME {
      var prefix := [];
      if |val| >= 2 {
        var yy := NumberOr(val[0..2], 0);
        prefix := if yy < 50 then [50, 48] else [49, 57];
      }
      format := prefix + val;
    }
    assert |val| >= 2 || tag != UTC_TIME ==> format == WithCentury(tag, val);
    if |format| < 14 {
      return 0;
    }
    var stamp := ReadStamp(format);
    DigitsBound(format[0..4], 0);
    DigitsBound(format[6..8], 1);
    var days := CountDays(stamp.date);
    t := days * 86400 + stamp.hour * 3600 + stamp.minute * 60 + stamp.second;
  }

  /** The years before, counted from 1970.  The running count never leaves the 32-bit range, here and below. */
  method CountYears(year: int) returns (days: int)
    requires year <= 9999
    ensures days == YearStart(if year < 1970 then 1970 else year) && 0 <= days <= 366 * 8029
  {
    days := 0;
    var y := 1970;
    while y < year
      invariant 1970 <= y && (y <= year || y == 1970)
      invariant days == YearStart(y) && 0 <= days <= 366 * (y - 1970) && FitsI32(days)
    {
      YearStartStep(y);
      days := days + if IsLeapYear(y) then 366 else 365;
      y := y + 1;
    }
  }

  method CountDays(d: Date) returns (days: int)
    requires d.year <= 9999 && -9 <= d.day <= 99
    ensures days == YearStart(if d.year < 1970 then 1970 else d.year)
                    + MonthStart(d.year, MonthRead(d.month)) + d.day - 1
    ensures FitsI32(days)
  {
    days := CountYears(d.year);
    ghost var years := days;
    // The iterator takes `month` entries of the table (all 13 when the cast makes it huge) and skips the first.
    var take := if d.month < 0 || d.month > 13 then 13 else d.month;
    var idx := 1;
    while idx < take
      invariant 1 <= idx <= 13 && (idx <= take || idx == 1)
      invariant days == years + MonthStart(d.year, idx)
      invariant 0 <= days <= 366 * 8029 + 32 * idx && FitsI32(days)
    {
      days := days + MONTH_DAYS[idx];
      if idx == 2 && IsLeapYear(d.year) {
        days := days + 1;
      }
      idx := idx + 1;
    }
    days := days + (d.day - 1);
  }

  // ---------------------------------------------------------------------------
  // The calendar, counted day by day
  // ---------------------------------------------------------------------------

  predicate ValidDate(d: Date) { 1 <= d.year && 1 <= d.month <= 12 && 1 <= d.day <= MonthLength(d.year, d.month) }

  predicate ValidStamp(t: Stamp) { ValidDate(t.date) && 0 <= t.hour < 24 && 0 <= t.minute < 60 && 0 <= t.second < 60 }

  function NextDay(d: Date): Date
    requires ValidDate(d)
  {
    if d.day < MonthLength(d.year, d.month) then Date(d.year, d.month, d.day + 1)
    else if d.month < 12 then Date(d.year, d.month + 1, 1)
    else Date(d.year + 1, 1, 1)
  }

  /** Day number in the proleptic Gregorian calendar, 0 for 1970-01-01. */
  function DayNumber(d: Date): int
    requires ValidDate(d)
  {
    YearStart(d.year) + MonthStart(d.year, d.month) + d.day - 1
  }

  function ProlepticSeconds(t: Stamp): int
    requires ValidStamp(t)
  {
    DayNumber(t.date) * 86400 + t.hour * 3600 + t.minute * 60 + t.second
  }

  /** The Gregorian months. */
  lemma GregorianMonths(y: int, m: int)
    requires 1 <= m <= 12
    ensures MonthLength(y, m) ==
            if m == 4 || m == 6 || m == 9 || m == 11 then 30
            else if m != 2 then 31
            else if y % 400 == 0 || (y % 4 == 0 && y % 100 != 0) then 29 else 28
  {
  }

  /** The count starts with 1970. */
  lemma EpochIsZero()
    ensures ProlepticSeconds(Stamp(Date(1970, 1, 1), 0, 0, 0)) == 0
  {
  }

  lemma YearLength(y: int)
    ensures MonthStart(y, 13) == if IsLeapYear(y) then 366 else 365
    ensures forall m :: 1 <= m <= 13 ==> 0 <= MonthStart(y, m) <= 31 * (m - 1)
  {
    assert MonthStart(y, 4) == 90 + if IsLeapYear(y) then 1 else 0;
    assert MonthStart(y, 7) == MonthStart(y, 4) + 91;
    assert MonthStart(y, 10) == MonthStart(y, 7) + 92;
    forall m | 1 <= m <= 13
      ensures 0 <= MonthStart(y, m) <= 31 * (m - 1)
    {
      MonthStartBound(y, m);
    }
  }

  lemma {:induction false} MonthStartBound(y: int, m: int)
    requires 1 <= m <= 13
    ensures 0 <= MonthStart(y, m) <= 31 * (m - 1)
    decreases m
  {
    if m > 1 {
      MonthStartBound(y, m - 1);
    }
  }

  lemma {:induction false} MonthStartMonotone(y: int, m: int, n: int)
    requires 1 <= m < n <= 13
    ensures MonthStart(y, m) + MonthLength(y, m) <= MonthStart(y, n)
    decreases n
  {
    if m + 1 < n {
      MonthStartMonotone(y, m, n - 1);
    }
  }

  lemma {:induction false} YearStartMonotone(y: int, z: int)
    requires y <= z
    ensures YearStart(y) + 365 * (z - y) <= YearStart(z)
    decreases z - y
  {
    if y < z {
      YearStartStep(y);
      YearStartMonotone(y + 1, z);
    }
  }

  /** One day later is one more. */
  lemma NextDayCounts(d: Date)
    requires ValidDate(d)
    ensures ValidDate(NextDay(d)) && DayNumber(NextDay(d)) == DayNumber(d) + 1
  {
    if d.day == MonthLength(d.year, d.month) && d.month == 12 {
      YearLength(d.year);
      YearStartStep(d.year);
      assert MonthStart(d.year, 13) == MonthStart(d.year, 12) + 31;
    }
  }

  predicate Before(d: Date, e: Date) {
    d.year < e.year || (d.year == e.year && (d.month < e.month || (d.month == e.month && d.day < e.day)))
  }

  lemma WithinYear(d: Date)
    requires ValidDate(d)
    ensures YearStart(d.year) <= DayNumber(d) < YearStart(d.year + 1)
  {
    YearLength(d.year);
    YearStartStep(d.year);
    MonthStartMonotone(d.year, d.month, 13);
  }

  lemma DayNumberIncreases(d: Date, e: Date)
    requires ValidDate(d) && ValidDate(e) && Before(d, e)
    ensures DayNumber(d) < DayNumber(e)
  {
    if d.year < e.year {
      WithinYear(d);
      WithinYear(e);
      YearStartMonotone(d.year + 1, e.year);
    } else if d.month < e.month {
      MonthStartMonotone(d.year, d.month, e.month);
    }
  }

  /** The n-th day after 1970-01-01, by counting. */
  function Civil(n: nat): (d: Date)
    ensures ValidDate(d) && d.year >= 1970 && DayNumber(d) == n
  {
    if n == 0 then Date(1970, 1, 1) else
      NextDayCounts(Civil(n - 1));
      NextDay(Civil(n - 1))
  }

  function FromUnix(t: nat): Stamp {
    Stamp(Civil(t / 86400), t % 86400 / 3600, t % 3600 / 60, t % 60)
  }

  predicate StampBefore(t: Stamp, u: Stamp) {
    || Before(t.date, u.date)
    || (t.date == u.date && (t.hour < u.hour || (t.hour == u.hour &&
         (t.minute < u.minute || (t.minute == u.minute && t.second < u.second)))))
  }

  lemma SecondsIncrease(t: Stamp, u: Stamp)
    requires ValidStamp(t) && ValidStamp(u) && StampBefore(t, u)
    ensures ProlepticSeconds(t) < ProlepticSeconds(u)
  {
    if Before(t.date, u.date) {
      DayNumberIncreases(t.date, u.date);
    }
  }

  lemma ClockSplit(t: nat)
    ensures t == t / 86400 * 86400 + t % 86400 / 3600 * 3600 + t % 3600 / 60 * 60 + t % 60
    ensures t % 86400 / 3600 < 24 && t % 3600 / 60 < 60
  {
    var day, q := t % 86400, t / 86400;
    assert t == day + q * 24 * 3600;
    assert t % 3600 == day % 3600 by {
      var h := day / 3600;
      assert day == h * 3600 + day % 3600;
      assert t == (q * 24 + h) * 3600 + day % 3600;
    }
    var hour, k := t % 3600, t / 3600;
    assert t % 60 == hour % 60 by {
      var m := hour / 60;
      assert hour == m * 60 + hour % 60;
      assert t == (k * 60 + m) * 60 + hour % 60;
    }
  }

  /** Every second since 1970 has its stamp, and no other stamp gives it. */
  lemma FromUnixInverts(t: nat)
    ensures ValidStamp(FromUnix(t)) && ProlepticSeconds(FromUnix(t)) == t
  {
    ClockSplit(t);
  }

  lemma FromUnixUnique(u: Stamp)
    requires ValidStamp(u) && u.date.year >= 1970
    ensures ProlepticSeconds(u) >= 0 && FromUnix(ProlepticSeconds(u)) == u
  {
    YearStartMonotone(1970, u.date.year);
    YearLength(u.date.year);
    var v := FromUnix(ProlepticSeconds(u));
    FromUnixInverts(ProlepticSeconds(u));
    if StampBefore(u, v) {
      SecondsIncrease(u, v);
    } else if StampBefore(v, u) {
      SecondsIncrease(v, u);
    }
  }

  // ---------------------------------------------------------------------------
  // Printed times
  // ---------------------------------------------------------------------------

  function Digit(n: nat): byte {
    var d: int := 48 + n % 10;
    d
  }

  function Two(n: nat): seq<byte> { [Digit(n / 10), Digit(n)] }

  function Four(n: nat): seq<byte> { Two(n / 100) + Two(n) }

  /** Month to second, then the zone letter. */
  function PrintTail(t: Stamp): seq<byte>
    requires ValidStamp(t)
  {
    Two(t.date.month) + Two(t.date.day) + Two(t.hour) + Two(t.minute) + Two(t.second) + [90]
  }

  function PrintGeneralized(t: Stamp): seq<byte>
    requires ValidStamp(t)
  {
    Four(t.date.year) + PrintTail(t)
  }

  function PrintUtc(t: Stamp): seq<byte>
    requires ValidStamp(t)
  {
    Two(t.date.year) + PrintTail(t)
  }

  lemma ReadTwo(n: nat, default: int)
    requires n < 100
    ensures NumberOr(Two(n), default) == n
  {
    var s := Two(n);
    assert s[..1][..0] == [];
    assert Digits(s[..1]) == Some(n / 10);
  }

  lemma DigitsSnoc(s: seq<byte>, n: nat)
    ensures Digits(s + [Digit(n)]) == if Digits(s).None? then None else Some(Digits(s).value * 10 + n % 10)
  {
    assert (s + [Digit(n)])[..|s|] == s;
  }

  lemma ReadFour(n: nat, default: int)
    requires n < 10000
    ensures NumberOr(Four(n), default) == n
  {
    var a, b, c, d := Digit(n / 1000), Digit(n / 100), Digit(n / 10), Digit(n);
    DigitsSnoc([], n / 1000);
    DigitsSnoc([a], n / 100);
    DigitsSnoc([a, b], n / 10);
    DigitsSnoc([a, b, c], n);
    assert [] + [a] == [a] && [a] + [b] == [a, b] && [a, b] + [c] == [a, b, c] && [a, b, c] + [d] == [a, b, c, d];
    FourDigits(n);
    assert Four(n) == [a, b, c, d];
  }

  lemma FourDigits(n: nat)
    requires n < 10000
    ensures n / 100 / 10 == n / 1000 && n / 1000 < 10
    ensures ((n / 1000 % 10 * 10 + n / 100 % 10) * 10 + n / 10 % 10) * 10 + n % 10 == n
  {
  }

  lemma PrintedFields(t: Stamp)
    requires ValidStamp(t) && t.date.year <= 9999
    ensures var f, d := PrintGeneralized(t), t.date;
            && |f| == 15 && IsAscii(f)
            && f[0..4] == Four(d.year) && f[4..6] == Two(d.month) && f[6..8] == Two(d.day)
            && f[8..10] == Two(t.hour) && f[10..12] == Two(t.minute) && f[12..14] == Two(t.second)
  {
  }

  lemma ReadsPrinted(t: Stamp)
    requires ValidStamp(t) && t.date.year <= 9999
    ensures |PrintGeneralized(t)| == 15 && IsAscii(PrintGeneralized(t)) && ReadStamp(PrintGeneralized(t)) == t
  {
    var d := t.date;
    PrintedFields(t);
    ReadFour(d.year, 0);
    ReadTwo(d.month, 1);
    ReadTwo(d.day, 1);
    ReadTwo(t.hour, 0);
    ReadTwo(t.minute, 0);
    ReadTwo(t.second, 0);
  }

  lemma TwoDigits(y: nat)
    ensures Two(y) == Two(y % 100)
    ensures 1950 <= y <= 1999 ==> Two(y / 100) == [49, 57] && y % 100 >= 50
    ensures 2000 <= y <= 2049 ==> Two(y / 100) == [50, 48] && y % 100 < 50
  {
    var n, q := y % 100, y / 100;
    assert y == q * 100 + n;
    assert y / 10 == q * 10 + n / 10;
    assert (y / 10) % 10 == (n / 10) % 10;
    assert y % 10 == n % 10;
  }

  /** A UTCTime of 1950 to 2049 is read as the same date with its century (section 4.1.2.5.1 of RFC 5280). */
  lemma CenturyWindow(t: Stamp)
    requires ValidStamp(t) && 1950 <= t.date.year <= 2049
    ensures WithCentury(0x17, PrintUtc(t)) == PrintGeneralized(t)
    ensures IsAscii(PrintUtc(t))
  {
    var s, y := PrintUtc(t), t.date.year;
    TwoDigits(y);
    assert s[0..2] == Two(y);
    ReadTwo(y % 100, 0);
    assert WithCentury(UTC_TIME, s) == Two(y / 100) + s;
    assert Four(y) == Two(y / 100) + Two(y);
  }

  /** From 1970 on the parsed seconds are the calendar's; before 1970 they never are. */
  lemma GeneralizedTimeIff(t: Stamp, tag: byte)
    requires ValidStamp(t) && t.date.year <= 9999 && tag != 0x17
    ensures ParsedTime(tag, PrintGeneralized(t)) == ProlepticSeconds(t) <==> t.date.year >= 1970
  {
    ReadsPrinted(t);
    if t.date.year < 1970 {
      EarlyYears(t);
    }
  }

  lemma UtcTimeIff(t: Stamp)
    requires ValidStamp(t) && 1950 <= t.date.year <= 2049
    ensures ParsedTime(0x17, PrintUtc(t)) == ProlepticSeconds(t) <==> t.date.year >= 1970
  {
    CenturyWindow(t);
    ReadsPrinted(t);
    if t.date.year < 1970 {
      EarlyYears(t);
    }
  }

  lemma EarlyYears(t: Stamp)
    requires ValidStamp(t) && t.date.year < 1970
    ensures ProlepticSeconds(t) < 0 <= UnixSeconds(t)
  {
    YearLength(t.date.year);
    DayNumberIncreases(t.date, Date(1970, 1, 1));
  }

  /** The first second of the year 10000. */
  const YEAR_10000 := 253_402_300_800

  /** Stamps of year 10000 and later count at least that many seconds. */
  lemma FiveDigitYears(t: Stamp)
    requires ValidStamp(t) && t.date.year >= 10000
    ensures ProlepticSeconds(t) >= YEAR_10000
  {
    WithinYear(t.date);
    YearStartMonotone(10000, t.date.year);
    assert YearStart(10000) == 2_932_897;
  }

  /** Printing the stamp of a second and parsing it gives the second back, up to the end of year 9999. */
  lemma ParseUndoesPrint(t: nat, tag: byte)
    requires t < 253_402_300_800 && tag != 0x17
    ensures ValidStamp(FromUnix(t)) && FromUnix(t).date.year <= 9999
    ensures ParsedTime(tag, PrintGeneralized(FromUnix(t))) == t
  {
    FromUnixInverts(t);
    if FromUnix(t).date.year > 9999 {
      FiveDigitYears(FromUnix(t));
    }
    GeneralizedTimeIff(FromUnix(t), tag);
  }
}
