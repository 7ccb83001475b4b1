/** `format_iso8601_utc` of `detection_json.cpp`: UTC civil time over all of
    int32, its text (RFC 3339, section 5.6), and the order of those texts
    (section 5.1). */
module CivilTime {
  import opened Prelude
  import opened Decimal
  import Division
  import TextOrder

  type Int32 = x: int | -0x8000_0000 <= x < 0x8000_0000
  type Uint32 = x: int | 0 <= x < 0x1_0000_0000

  // ---------------------------------------------------------- the calendar

  predicate Leap(y: int) {
    y % 4 == 0 && (y % 100 != 0 || y % 400 == 0)
  }

  function DaysInMonth(y: int, m: int): nat
    requires 1 <= m <= 12
  {
    if m == 2 then (if Leap(y) then 29 else 28)
    else if m == 4 || m == 6 || m == 9 || m == 11 then 30
    else 31
  }

  function DaysInYear(y: int): nat {
    if Leap(y) then 366 else 365
  }

  function LeapsBefore(y: int): int {
    (y - 1) / 4 - (y - 1) / 100 + (y - 1) / 400
  }

  /** Days from 1970-01-01 to January 1st of `y`. */
  function YearStart(y: int): int
  {
    365 * (y - 1970) + LeapsBefore(y) - 477
  }

  /** Days from January 1st to the first of month `m`; month 13 ends the year. */
  function MonthStart(y: int, m: int): nat
    requires 1 <= m <= 13
  {
    if m == 1 then 0 else MonthStart(y, m - 1) + DaysInMonth(y, m - 1)
  }

  lemma NextYear(y: int)
    ensures YearStart(y + 1) == YearStart(y) + DaysInYear(y)
    ensures MonthStart(y, 13) == DaysInYear(y)
  {
    LeapsNext(y);
    hide LeapsBefore, MonthStart, Leap;
    MonthSum(y, 13, DaysInMonth(y, 2) + 337);
  }

  lemma LeapsNext(y: int)
    ensures LeapsBefore(y + 1) == LeapsBefore(y) + if Leap(y) then 1 else 0
  {
    Quotient(y, 4);
    Quotient(y, 100);
    Quotient(y, 400);
    if y % 400 == 0 { Divides(y); }
    if y % 100 == 0 { DividesFour(y); }
    OnceEach(y / 4 - (y - 1) / 4, y / 100 - (y - 1) / 100, y / 400 - (y - 1) / 400, y);
  }

  /** A year counts once for each of its three divisors. */
  lemma OnceEach(fours: int, hundreds: int, fourHundreds: int, y: int)
    requires fours == (if y % 4 == 0 then 1 else 0) && hundreds == (if y % 100 == 0 then 1 else 0)
    requires fourHundreds == (if y % 400 == 0 then 1 else 0)
    requires (y % 400 == 0 ==> y % 100 == 0) && (y % 100 == 0 ==> y % 4 == 0)
    ensures fours - hundreds + fourHundreds == if Leap(y) then 1 else 0
  {
  }

  lemma DividesFour(y: int)
    requires y % 100 == 0
    ensures y % 4 == 0
  {
    Division.Unique(y, 4, 25 * (y / 100), 0);
  }

  lemma MonthSum(y: int, m: int, days: nat)
    requires m == 5 || m == 9 || m == 13
    requires days == DaysInMonth(y, 2) + (if m == 5 then 92 else if m == 9 then 215 else 337)
    ensures MonthStart(y, m) == days
  {
    if m == 5 { assert MonthStart(y, 2) == 31; assert MonthStart(y, 4) == MonthStart(y, 3) + 31; }
    else if m == 9 { MonthSum(y, 5, days - 123); assert MonthStart(y, 7) == MonthStart(y, 5) + 61; }
    else { MonthSum(y, 9, days - 122); assert MonthStart(y, 11) == MonthStart(y, 9) + 61; }
  }

  lemma Quotient(y: int, k: int)
    requires k > 0
    ensures y / k - (y - 1) / k == if y % k == 0 then 1 else 0
  {
    var q, r := y / k, y % k;
    assert y == k * q + r;
    if r == 0 {
      assert y - 1 == k * (q - 1) + (k - 1);
      Division.Unique(y - 1, k, q - 1, k - 1);
    } else {
      Division.Unique(y - 1, k, q, r - 1);
    }
  }

  lemma Divides(y: int)
    requires y % 400 == 0
    ensures y % 100 == 0
  {
    var q := y / 400;
    Division.Unique(y, 100, 4 * q, 0);
  }

  lemma {:induction false} YearsGrow(y: int, z: int)
    requires y <= z
    ensures YearStart(y) + 365 * (z - y) <= YearStart(z)
    decreases z - y
  {
    if y < z {
      NextYear(y);
      YearsGrow(y + 1, z);
    }
  }

  lemma {:induction false} MonthsGrow(y: int, m: int, n: int)
    requires 1 <= m <= n <= 13
    ensures MonthStart(y, m) <= MonthStart(y, n)
    ensures m < n ==> MonthStart(y, m) + DaysInMonth(y, m) <= MonthStart(y, n)
    decreases n - m
  {
    if m < n { MonthsGrow(y, m + 1, n); }
  }

  // ------------------------------------------------- broken-down time

  datatype Tm = Tm(year: int, month: int, day: int, hour: int, minute: int, second: int)

  predicate ValidTm(t: Tm) {
    && 1 <= t.month <= 12 && 1 <= t.day <= DaysInMonth(t.year, t.month)
    && 0 <= t.hour <= 23 && 0 <= t.minute <= 59 && 0 <= t.second <= 59
  }

  function DayOf(t: Tm): int
    requires ValidTm(t)
  {
    YearStart(t.year) + MonthStart(t.year, t.month) + t.day - 1
  }

  function SecondsOf(t: Tm): int
    requires ValidTm(t)
  {
    86400 * DayOf(t) + 3600 * t.hour + 60 * t.minute + t.second
  }

  /** Year counted from March, so that the leap day ends it. */
  function MarchYear(t: Tm): int {
    if t.month <= 2 then t.year - 1 else t.year
  }

  lemma MonthStarts(y: int)
    ensures MonthStart(y, 1) == 0 && MonthStart(y, 2) == 31 && MonthStart(y, 3) == 59 + if Leap(y) then 1 else 0
    ensures var march := MonthStart(y, 3);
            && MonthStart(y, 4) == march + 31 && MonthStart(y, 5) == march + 61 && MonthStart(y, 6) == march + 92
            && MonthStart(y, 7) == march + 122 && MonthStart(y, 8) == march + 153 && MonthStart(y, 9) == march + 184
            && MonthStart(y, 10) == march + 214 && MonthStart(y, 11) == march + 245 && MonthStart(y, 12) == march + 275
  {
    hide Leap;
    assert MonthStart(y, 2) == MonthStart(y, 1) + 31;
    assert MonthStart(y, 4) == MonthStart(y, 3) + 31;
    assert MonthStart(y, 6) == MonthStart(y, 5) + 31;
    assert MonthStart(y, 8) == MonthStart(y, 7) + 31;
    assert MonthStart(y, 10) == MonthStart(y, 9) + 30;
  }

  /** The Gregorian calendar in closed form: day 0 is 1970-01-01, and neither month
      lengths nor leap years are looked up. */
  lemma DayInClosedForm(t: Tm)
    requires ValidTm(t)
    ensures var yy, mp := MarchYear(t), (t.month + 9) % 12;
            DayOf(t) == 365 * yy + yy / 4 - yy / 100 + yy / 400 + (153 * mp + 2) / 5 + t.day - 719469
  {
    hide Leap, MonthStart, DaysInMonth;
    MonthStarts(t.year);
    LeapsNext(t.year);
  }

  /** `gmtime_r` and that calendar: the date of a second lies on its day. */
  lemma GmTimeInClosedForm(sec: int)
    ensures var t := GmTime(sec); var yy, mp := MarchYear(t), (t.month + 9) % 12;
            && 365 * yy + yy / 4 - yy / 100 + yy / 400 + (153 * mp + 2) / 5 + t.day - 719469 == sec / 86400
            && t.hour * 3600 + t.minute * 60 + t.second == sec % 86400
  {
    hide GmTime;
    var t := GmTime(sec);
    DayInClosedForm(t);
    hide DayOf;
    ClockRemains(sec, DayOf(t), 3600 * t.hour + 60 * t.minute + t.second);
  }

  lemma ClockRemains(sec: int, day: int, clock: int)
    requires sec == 86400 * day + clock && 0 <= clock < 86400
    ensures sec / 86400 == day && sec % 86400 == clock
  {
  }

  function YearOf(day: int, guess: int): (y: int)
    ensures YearStart(y) <= day < YearStart(y + 1)
    decreases if day < YearStart(guess) then YearStart(guess) - day
              else if day >= YearStart(guess + 1) then day - YearStart(guess) else 0
  {
    NextYear(guess);
    NextYear(guess - 1);
    if day < YearStart(guess) then YearOf(day, guess - 1)
    else if day >= YearStart(guess + 1) then YearOf(day, guess + 1)
    else guess
  }

  function MonthOf(y: int, day: nat, m: int): (r: int)
    requires 1 <= m <= 12 && MonthStart(y, m) <= day < DaysInYear(y)
    ensures 1 <= r <= 12 && MonthStart(y, r) <= day < MonthStart(y, r + 1)
    decreases 12 - m
  {
    NextYear(y);
    if m == 12 || day < MonthStart(y, m + 1) then m else MonthOf(y, day, m + 1)
  }

  lemma ClockParts(rest: nat)
    requires rest < 86400
    ensures rest / 3600 <= 23 && rest == 3600 * (rest / 3600) + 60 * (rest / 60 % 60) + rest % 60
  {
    assert rest / 60 == 60 * (rest / 3600) + rest / 60 % 60;
  }

  /** `gmtime_r`: the one valid broken-down time that counts to `sec`. */
  function GmTime(sec: int): (t: Tm)
    ensures ValidTm(t) && SecondsOf(t) == sec
  {
    var day, rest := sec / 86400, sec % 86400;
    var y := YearOf(day, 1970);
    NextYear(y);
    var m := MonthOf(y, day - YearStart(y), 1);
    ClockParts(rest);
    Tm(y, m, day - YearStart(y) - MonthStart(y, m) + 1, rest / 3600, rest / 60 % 60, rest % 60)
  }

  predicate DateLess(a: Tm, b: Tm) {
    || a.year < b.year
    || (a.year == b.year && (a.month < b.month || (a.month == b.month && a.day < b.day)))
  }

  predicate ClockLess(a: Tm, b: Tm) {
    || a.hour < b.hour
    || (a.hour == b.hour && (a.minute < b.minute || (a.minute == b.minute && a.second < b.second)))
  }

  predicate SameDate(a: Tm, b: Tm) {
    a.year == b.year && a.month == b.month && a.day == b.day
  }

  predicate TmLess(a: Tm, b: Tm) {
    DateLess(a, b) || (SameDate(a, b) && ClockLess(a, b))
  }

  lemma EarlierDate(a: Tm, b: Tm)
    requires ValidTm(a) && ValidTm(b) && DateLess(a, b)
    ensures DayOf(a) < DayOf(b)
  {
    if a.year < b.year {
      NextYear(a.year);
      MonthsGrow(a.year, a.month, 13);
      YearsGrow(a.year + 1, b.year);
    } else if a.month < b.month {
      MonthsGrow(a.year, a.month, b.month);
    }
  }

  /** Civil order is the order of seconds; so the broken-down time is unique. */
  lemma CivilOrder(a: Tm, b: Tm)
    requires ValidTm(a) && ValidTm(b)
    ensures TmLess(a, b) <==> SecondsOf(a) < SecondsOf(b)
    ensures a == b <==> SecondsOf(a) == SecondsOf(b)
  {
    if DateLess(a, b) {
      EarlierDate(a, b);
    } else if DateLess(b, a) {
      EarlierDate(b, a);
    } else {
      assert SameDate(a, b);
    }
  }

  lemma Int32Years(sec: Int32)
    ensures 1901 <= GmTime(sec).year <= 2038
  {
    var t := GmTime(sec);
    var day := DayOf(t);
    assert -24856 <= day <= 24855;
    assert YearStart(1901) == -25202 && YearStart(2039) == 25202;
    MonthsGrow(t.year, 1, t.month);
    MonthsGrow(t.year, t.month, 13);
    NextYear(t.year);
    if t.year < 1901 { YearsGrow(t.year + 1, 1901); }
    if t.year > 2038 { YearsGrow(2039, t.year); }
  }

  // ------------------------------------------------------------- the text

  function StampText(year: string, t: Tm, millis: string): string
    requires ValidTm(t)
  {
    year + ("-" + (Padded(t.month, 2) + ("-" + (Padded(t.day, 2) + ("T" +
    (Padded(t.hour, 2) + (":" + (Padded(t.minute, 2) + (":" + (Padded(t.second, 2) + ("." +
    (millis + "Z"))))))))))))
  }

  /** `%Y-%m-%dT%H:%M:%S` of the second, then `.%03uZ` of the milliseconds. */
  function FormatIso8601Utc(sec: Int32, nanosec: Uint32): string {
    Int32Years(sec);
    var t := GmTime(sec);
    StampText(Digits(t.year), t, AtLeast(nanosec / 1000000, 3))
  }

  /** Reads `k` digits. */
  function ReadField(s: string, k: nat): Option<(nat, string)> {
    if k <= |s| && AllDigits(s[..k]) then Some((ValueOf(s[..k]), s[k..])) else None
  }

  function Expect(c: char, s: string): Option<string> {
    if s != "" && s[0] == c then Some(s[1..]) else None
  }

  /** A separator and then `k` digits. */
  function ReadPart(c: char, s: string, k: nat): Option<(nat, string)> {
    match Expect(c, s)
    case None => None
    case Some(rest) => ReadField(rest, k)
  }

  function ReadDate(s: string): Option<((nat, nat, nat), string)> {
    match ReadField(s, 4)
    case None => None
    case Some((y, s1)) =>
      match ReadPart('-', s1, 2)
      case None => None
      case Some((mo, s2)) =>
        match ReadPart('-', s2, 2)
        case None => None
        case Some((d, s3)) => Some(((y, mo, d), s3))
  }

  function ReadClock(s: string): Option<((nat, nat, nat, nat), string)> {
    match ReadPart('T', s, 2)
    case None => None
    case Some((h, s4)) =>
      match ReadPart(':', s4, 2)
      case None => None
      case Some((mi, s5)) =>
        match ReadPart(':', s5, 2)
        case None => None
        case Some((sec, s6)) =>
          match ReadPart('.', s6, 3)
          case None => None
          case Some((ms, s7)) => Some(((h, mi, sec, ms), s7))
  }

  /** A date-time in UTC with three fraction digits, all fields in range:
      seconds since 1970 and milliseconds. */
  function ReadStamp(s: string): Option<(int, nat)> {
    match ReadDate(s)
    case None => None
    case Some(((y, mo, d), rest)) =>
      match ReadClock(rest)
      case None => None
      case Some(((h, mi, sec, ms), end)) =>
        var t := Tm(y, mo, d, h, mi, sec);
        if end == "Z" && ValidTm(t) then Some((SecondsOf(t), ms)) else None
  }

  lemma Hundred()
    ensures Pow10(2) == 100 && Pow10(3) == 1000 && Pow10(4) == 10000
  {
    assert Pow10(0) == 1 && Pow10(1) == 10 && Pow10(2) == 100;
    assert Pow10(3) == 10 * Pow10(2) && Pow10(4) == 10 * Pow10(3);
  }

  lemma FieldReads(n: nat, k: nat, rest: string)
    requires n < Pow10(k)
    ensures ReadField(Padded(n, k) + rest, k) == Some((n, rest))
  {
    ReadPadded(n, k);
    assert (Padded(n, k) + rest)[..k] == Padded(n, k) && (Padded(n, k) + rest)[k..] == rest;
  }

  lemma PartReads(c: char, n: nat, k: nat, rest: string)
    requires n < Pow10(k)
    ensures ReadPart(c, [c] + (Padded(n, k) + rest), k) == Some((n, rest))
  {
    assert ([c] + (Padded(n, k) + rest))[1..] == Padded(n, k) + rest;
    FieldReads(n, k, rest);
  }

  lemma YearText(y: nat)
    requires 1000 <= y < 10000
    ensures Digits(y) == Padded(y, 4)
  {
    Hundred();
    DigitsLength(y, 4);
    DigitsLength(y, 3);
    PaddedIsDigits(y);
  }

  lemma MillisText(millis: nat)
    ensures millis < 1000 ==> AtLeast(millis, 3) == Padded(millis, 3)
    ensures millis >= 1000 ==> |AtLeast(millis, 3)| > 3
  {
    Hundred();
    DigitsLength(millis, 3);
    PaddedIsDigits(millis);
  }

  /** The tails of a stamp, field by field. */
  function ClockText(t: Tm, ms: nat): string
    requires ValidTm(t)
  {
    "T" + (Padded(t.hour, 2) + (":" + (Padded(t.minute, 2) + (":" + (Padded(t.second, 2) + ("." +
    (Padded(ms, 3) + "Z")))))))
  }

  function CanonicalText(t: Tm, ms: nat): string
    requires ValidTm(t) && t.year >= 0
  {
    Padded(t.year, 4) + ("-" + (Padded(t.month, 2) + ("-" + (Padded(t.day, 2) + ClockText(t, ms)))))
  }

  lemma FormatIsCanonical(sec: Int32, nanosec: Uint32)
    requires nanosec < 1000000000
    ensures GmTime(sec).year >= 0
    ensures FormatIso8601Utc(sec, nanosec) == CanonicalText(GmTime(sec), nanosec / 1000000)
  {
    Int32Years(sec);
    YearText(GmTime(sec).year);
    MillisText(nanosec / 1000000);
  }

  lemma ClockReads(t: Tm, ms: nat)
    requires ValidTm(t) && ms < 1000
    ensures ReadClock(ClockText(t, ms)) == Some(((t.hour as nat, t.minute as nat, t.second as nat, ms), "Z"))
  {
    Hundred();
    var s7 := "Z";
    var s6 := "." + (Padded(ms, 3) + s7);
    var s5 := ":" + (Padded(t.second, 2) + s6);
    var s4 := ":" + (Padded(t.minute, 2) + s5);
    PartReads('.', ms, 3, s7);
    PartReads(':', t.second, 2, s6);
    PartReads(':', t.minute, 2, s5);
    PartReads('T', t.hour, 2, s4);
  }

  lemma DateReads(t: Tm, rest: string)
    requires ValidTm(t) && 0 <= t.year < 10000
    ensures ReadDate(Padded(t.year, 4) + ("-" + (Padded(t.month, 2) + ("-" + (Padded(t.day, 2) + rest))))) ==
            Some(((t.year as nat, t.month as nat, t.day as nat), rest))
  {
    Hundred();
    PartReads('-', t.day, 2, rest);
    PartReads('-', t.month, 2, "-" + (Padded(t.day, 2) + rest));
    FieldReads(t.year, 4, "-" + (Padded(t.month, 2) + ("-" + (Padded(t.day, 2) + rest))));
  }

  /** Every in-range stamp decodes to its second and its floored millisecond. */
  lemma StampReadsBack(sec: Int32, nanosec: Uint32)
    requires nanosec < 1000000000
    ensures ReadStamp(FormatIso8601Utc(sec, nanosec)) == Some((sec as int, (nanosec / 1000000) as nat))
  {
    Int32Years(sec);
    FormatIsCanonical(sec, nanosec);
    var t := GmTime(sec);
    DateReads(t, ClockText(t, nanosec / 1000000));
    ClockReads(t, nanosec / 1000000);
  }

  /** The text has the fixed 24-character form exactly for nanoseconds below
      one second; `%03u` widens for the rest of the uint32 range. */
  lemma StampLengthIff(sec: Int32, nanosec: Uint32)
    ensures |FormatIso8601Utc(sec, nanosec)| == 24 <==> nanosec < 1000000000
    ensures nanosec >= 1000000000 ==> ReadStamp(FormatIso8601Utc(sec, nanosec)) == None
  {
    Int32Years(sec);
    var t := GmTime(sec);
    YearText(t.year);
    MillisText(nanosec / 1000000);
    if nanosec >= 1000000000 && ReadStamp(FormatIso8601Utc(sec, nanosec)).Some? {
      StampLengthOfRead(FormatIso8601Utc(sec, nanosec));
    }
  }

  lemma StampLengthOfRead(s: string)
    requires ReadStamp(s).Some?
    ensures |s| == 24
  {
  }

  // ------------------------------------------------------- the order of texts

  lemma FieldOrder(m: nat, n: nat, k: nat, x: string, y: string)
    requires m < Pow10(k) && n < Pow10(k)
    ensures TextOrder.Less(Padded(m, k) + x, Padded(n, k) + y) <==> m < n || (m == n && TextOrder.Less(x, y))
  {
    TextOrder.HeadFirst(Padded(m, k), Padded(n, k), x, y);
    PaddedOrder(m, n, k);
  }

  lemma PartOrder(c: char, m: nat, n: nat, k: nat, x: string, y: string)
    requires m < Pow10(k) && n < Pow10(k)
    ensures TextOrder.Less([c] + (Padded(m, k) + x), [c] + (Padded(n, k) + y)) <==>
            m < n || (m == n && TextOrder.Less(x, y))
  {
    assert ([c] + (Padded(m, k) + x))[1..] == Padded(m, k) + x;
    assert ([c] + (Padded(n, k) + y))[1..] == Padded(n, k) + y;
    FieldOrder(m, n, k, x, y);
  }

  lemma ClockOrder(a: Tm, ms: nat, b: Tm, ms': nat)
    requires ValidTm(a) && ValidTm(b) && ms < 1000 && ms' < 1000
    ensures TextOrder.Less(ClockText(a, ms), ClockText(b, ms')) <==>
            ClockLess(a, b) || (a.hour == b.hour && a.minute == b.minute && a.second == b.second && ms < ms')
  {
    Hundred();
    var x6, y6 := "." + (Padded(ms, 3) + "Z"), "." + (Padded(ms', 3) + "Z");
    var x5, y5 := ":" + (Padded(a.second, 2) + x6), ":" + (Padded(b.second, 2) + y6);
    var x4, y4 := ":" + (Padded(a.minute, 2) + x5), ":" + (Padded(b.minute, 2) + y5);
    PartOrder('.', ms, ms', 3, "Z", "Z");
    TextOrder.Trichotomy("Z", "Z");
    PartOrder(':', a.second, b.second, 2, x6, y6);
    PartOrder(':', a.minute, b.minute, 2, x5, y5);
    PartOrder('T', a.hour, b.hour, 2, x4, y4);
  }

  lemma DateOrder(a: Tm, b: Tm, x: string, y: string)
    requires ValidTm(a) && ValidTm(b) && 0 <= a.year < 10000 && 0 <= b.year < 10000
    ensures TextOrder.Less(Padded(a.year, 4) + ("-" + (Padded(a.month, 2) + ("-" + (Padded(a.day, 2) + x)))),
                           Padded(b.year, 4) + ("-" + (Padded(b.month, 2) + ("-" + (Padded(b.day, 2) + y))))) <==>
            DateLess(a, b) || (SameDate(a, b) && TextOrder.Less(x, y))
  {
    Hundred();
    var x2, y2 := "-" + (Padded(a.day, 2) + x), "-" + (Padded(b.day, 2) + y);
    var x1, y1 := "-" + (Padded(a.month, 2) + x2), "-" + (Padded(b.month, 2) + y2);
    PartOrder('-', a.day, b.day, 2, x, y);
    PartOrder('-', a.month, b.month, 2, x2, y2);
    FieldOrder(a.year, b.year, 4, x1, y1);
  }

  /** Sorting stamps as strings sorts them in time, to the millisecond. */
  lemma StampOrder(sec: Int32, nanosec: Uint32, sec': Int32, nanosec': Uint32)
    requires nanosec < 1000000000 && nanosec' < 1000000000
    ensures TextOrder.Less(FormatIso8601Utc(sec, nanosec), FormatIso8601Utc(sec', nanosec')) <==>
            sec < sec' || (sec == sec' && nanosec / 1000000 < nanosec' / 1000000)
  {
    var a, b := GmTime(sec), GmTime(sec');
    var ms, ms' := nanosec / 1000000, nanosec' / 1000000;
    Int32Years(sec);
    Int32Years(sec');
    FormatIsCanonical(sec, nanosec);
    FormatIsCanonical(sec', nanosec');
    DateOrder(a, b, ClockText(a, ms), ClockText(b, ms'));
    ClockOrder(a, ms, b, ms');
    CivilOrder(a, b);
  }
}
