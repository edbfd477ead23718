// Date and time texts and their binary form (mysql/utils.go).
module DateTime {
  import opened Bytes
  import opened Decimals

  /** The tables digits10 and digits01: the ASCII tens and units digit of n. */
  function Digits10(n: int): byte
    requires 0 <= n < 100
  {
    48 + n / 10
  }

  function Digits01(n: int): byte
    requires 0 <= n < 100
  {
    48 + n % 10
  }

  const DASH: byte := 45
  const DOT: byte := 46
  const COLON: byte := 58
  const BLANK: byte := 32
  /** Characters lo to hi of "0000-00-00 00:00:00.000000". */
  function ZeroDateTime(lo: nat, hi: nat): (s: seq<byte>)
    requires lo <= hi <= 26
    ensures |s| == hi - lo && forall i | 0 <= i < hi - lo :: s[i] == ZeroDateTimeAt(lo + i)
    decreases hi - lo
  {
    if lo == hi then [] else [ZeroDateTimeAt(lo)] + ZeroDateTime(lo + 1, hi)
  }

  function ZeroDateTimeAt(i: nat): byte
  {
    if i == 4 || i == 7 then DASH
    else if i == 10 then BLANK
    else if i == 13 || i == 16 then COLON
    else if i == 19 then DOT
    else 48
  }

  /** A wall-clock reading, as time.Time reports it through Date, Clock and Nanosecond. */
  datatype Time = Time(year: int, month: int, day: int, hour: int, min: int, sec: int, nsec: int)

  predicate IsLeap(y: int)
  {
    y % 4 == 0 && (y % 100 != 0 || y % 400 == 0)
  }

  function DaysIn(y: int, m: int): int
  {
    if m == 2 then (if IsLeap(y) then 29 else 28)
    else if m == 4 || m == 6 || m == 9 || m == 11 then 30
    else 31
  }

  predicate ValidTime(t: Time)
  {
    && 1 <= t.month <= 12 && 1 <= t.day <= DaysIn(t.year, t.month)
    && 0 <= t.hour < 24 && 0 <= t.min < 60 && 0 <= t.sec < 60 && 0 <= t.nsec < 1_000_000_000
  }

  /** Days before the first of the month, and the day count of a date. */
  function DaysBefore(y: int, m: int): int
    requires 1 <= m <= 12
    decreases m
  {
    if m == 1 then 365 * (y - 1) + (y - 1) / 4 - (y - 1) / 100 + (y - 1) / 400
    else DaysBefore(y, m - 1) + DaysIn(y, m - 1)
  }

  function Instant(t: Time): int
    requires 1 <= t.month <= 12
  {
    (((DaysBefore(t.year, t.month) + t.day) * 24 + t.hour) * 60 + t.min) * 60 + t.sec
  }

  /** Nanoseconds on a time line without leap seconds. */
  function Nanos(t: Time): int
    requires 1 <= t.month <= 12
  {
    Instant(t) * 1_000_000_000 + t.nsec
  }

  function NextDay(t: Time): Time
  {
    if t.day < DaysIn(t.year, t.month) then t.(day := t.day + 1)
    else if t.month < 12 then t.(day := 1, month := t.month + 1)
    else t.(day := 1, month := 1, year := t.year + 1)
  }

  function NextSecond(t: Time): Time
  {
    if t.sec < 59 then t.(sec := t.sec + 1)
    else if t.min < 59 then t.(sec := 0, min := t.min + 1)
    else if t.hour < 23 then t.(sec := 0, min := 0, hour := t.hour + 1)
    else NextDay(t.(sec := 0, min := 0, hour := 0))
  }

  /** t.Add(500 * time.Nanosecond). */
  function AddHalfMicro(t: Time): Time
  {
    if t.nsec + 500 < 1_000_000_000 then t.(nsec := t.nsec + 500)
    else NextSecond(t.(nsec := t.nsec + 500 - 1_000_000_000))
  }

  lemma {:induction false} DaysBeforeYear(y: int)
    ensures DaysBefore(y + 1, 1) == DaysBefore(y, 1) + (if IsLeap(y) then 366 else 365)
  {
    QuotientStep(y);
    assert DaysBefore(y, 1) == 365 * (y - 1) + (y - 1) / 4 - (y - 1) / 100 + (y - 1) / 400;
  }

  lemma {:induction false} QuotientStep(y: int)
    ensures y / 4 == (y - 1) / 4 + (if y % 4 == 0 then 1 else 0)
    ensures y / 100 == (y - 1) / 100 + (if y % 100 == 0 then 1 else 0)
    ensures y / 400 == (y - 1) / 400 + (if y % 400 == 0 then 1 else 0)
    ensures y % 100 == 0 ==> y % 4 == 0
    ensures y % 400 == 0 ==> y % 100 == 0
  {}

  lemma {:induction false} DaysBeforeDecember(y: int)
    ensures DaysBefore(y, 12) + 31 == DaysBefore(y, 1) + (if IsLeap(y) then 366 else 365)
  {
    assert DaysBefore(y, 4) == DaysBefore(y, 1) + 31 + DaysIn(y, 2) + 31 by {
      assert DaysBefore(y, 3) == DaysBefore(y, 1) + 31 + DaysIn(y, 2) by {
        assert DaysBefore(y, 2) == DaysBefore(y, 1) + 31;
      }
    }
    assert DaysBefore(y, 8) == DaysBefore(y, 4) + 30 + 31 + 30 + 31 by {
      assert DaysBefore(y, 6) == DaysBefore(y, 5) + 31;
      assert DaysBefore(y, 7) == DaysBefore(y, 6) + 30;
    }
    assert DaysBefore(y, 12) == DaysBefore(y, 8) + 31 + 30 + 31 + 30 by {
      assert DaysBefore(y, 10) == DaysBefore(y, 9) + 30;
      assert DaysBefore(y, 11) == DaysBefore(y, 10) + 31;
    }
  }

  /** Days from the first of March to the first of month m. */
  function FromMarch(m: int): int
    requires 1 <= m <= 12
  {
    var m' := (m + 9) % 12;
    (153 * m' + 2) / 5
  }

  lemma {:induction false} FromMarchTable(y: int, m: int)
    requires 1 <= m <= 12
    ensures FromMarch(1) == 306 && FromMarch(3) == 0
    ensures m > 1 && m != 3 && m != 2 ==> FromMarch(m) == FromMarch(m - 1) + DaysIn(y, m - 1)
    ensures FromMarch(2) == 337
  {
    hide IsLeap;
  }

  /** The calendar: the day count of a month's first, by the formula that starts the year in
      March. */
  lemma {:induction false} MonthStart(y: int, m: int)
    requires 1 <= m <= 12
    ensures var y' := if m <= 2 then y - 1 else y;
            DaysBefore(y, m) == 365 * y' + y' / 4 - y' / 100 + y' / 400 + FromMarch(m) - 306
    decreases m
  {
    FromMarchTable(y, m);
    hide FromMarch;
    if m == 3 {
      QuotientStep(y);
      MonthStart(y, 2);
    } else if m > 1 {
      hide IsLeap;
      MonthStart(y, m - 1);
    }
  }

  lemma {:induction false} NextDayIsADayLater(t: Time)
    requires ValidTime(t)
    ensures ValidTime(NextDay(t)) && Nanos(NextDay(t)) == Nanos(t) + 86400 * 1_000_000_000
  {
    if t.day == DaysIn(t.year, t.month) && t.month == 12 {
      DaysBeforeYear(t.year);
      DaysBeforeDecember(t.year);
    }
  }

  /** The carry through seconds, days, months and leap years adds exactly 500 nanoseconds. */
  lemma {:induction false} AddHalfMicroIsLater(t: Time)
    requires ValidTime(t)
    ensures ValidTime(AddHalfMicro(t)) && Nanos(AddHalfMicro(t)) == Nanos(t) + 500
  {
    var u := t.(nsec := t.nsec - 1_000_000_000 + 500, sec := 0, min := 0, hour := 0);
    if t.nsec + 500 >= 1_000_000_000 && t.sec == 59 && t.min == 59 && t.hour == 23 {
      NextDayIsADayLater(u);
    }
  }

  /** A printed date or time, or why there is none; TextPanic is an index beyond the digit tables. */
  datatype Text = Text(bytes: seq<byte>) | YearOutOfRange(year: int) | IllegalLength | IllegalPacketLength | TextPanic

  function Two(n: int): (s: seq<byte>)
    requires 0 <= n < 100
    ensures |s| == 2
  {
    [Digits10(n), Digits01(n)]
  }

  function DateText(y: int, m: int, d: int): (b: seq<byte>)
    requires 0 <= y <= 9999 && 0 <= m < 100 && 0 <= d < 100
    ensures |b| == 10
  {
    [Digits10(y / 100), Digits01(y / 100), Digits10(y % 100), Digits01(y % 100), DASH,
     Digits10(m), Digits01(m), DASH, Digits10(d), Digits01(d)]
  }

  function ClockText(h: int, mi: int, s: int): (b: seq<byte>)
    requires 0 <= h < 100 && 0 <= mi < 100 && 0 <= s < 100
    ensures |b| == 9
  {
    [BLANK, Digits10(h), Digits01(h), COLON, Digits10(mi), Digits01(mi), COLON, Digits10(s), Digits01(s)]
  }

  /** The rounding appendDateTime starts with. */
  function RoundUp(t: Time): Time
  {
    if t.nsec % 1000 >= 500 then AddHalfMicro(t) else t
  }

  function AppendDateTime(t0: Time): Text
    requires ValidTime(t0)
  {
    var t := RoundUp(t0);
    AddHalfMicroIsLater(t0);
    if t.year < 1 || t.year > 9999 then YearOutOfRange(t.year)
    else AppendFields(t)
  }

  function SixDigits(micro: nat): (b: seq<byte>)
    requires micro < 1_000_000
    ensures |b| == 6
  {
    Two(micro / 10000) + Two(micro / 100 % 100) + Two(micro % 100)
  }

  function AppendFields(t: Time): Text
    requires ValidTime(t) && 1 <= t.year <= 9999
  {
    var micro := t.nsec / 1000;
    var date := DateText(t.year, t.month, t.day);
    if t.hour == 0 && t.min == 0 && t.sec == 0 && micro == 0 then Text(date)
    else
      var clock := date + ClockText(t.hour, t.min, t.sec);
      if micro == 0 then Text(clock)
      else Text(clock + ([DOT] + SixDigits(micro)))
  }

  datatype Option<T> = None | Some(value: T)

  function BToI(b: byte): Option<nat>
  {
    if b < 48 || b > 57 then None else Some(b - 48)
  }

  function ParseByte2Digits(b1: byte, b2: byte): Option<nat>
  {
    match (BToI(b1), BToI(b2))
    case (Some(d1), Some(d2)) => Some(d1 * 10 + d2)
    case _ => None
  }

  /** The number a run of decimal digits denotes. */
  function Decimal(b: seq<byte>): Option<nat>
  {
    if b == [] then Some(0)
    else match (Decimal(b[..|b| - 1]), BToI(b[|b| - 1]))
         case (Some(n), Some(d)) => Some(10 * n + d)
         case _ => None
  }

  lemma {:induction false} PowersOf10()
    ensures Power10(1) == 10 && Power10(2) == 100 && Power10(3) == 1000
    ensures Power10(4) == 10000 && Power10(5) == 100000 && Power10(6) == 1000000
  {
    assert Power10(2) == 10 * Power10(1);
    assert Power10(4) == 10 * Power10(3);
    assert Power10(6) == 10 * Power10(5);
  }

  /** Appending a digit under a smaller weight. */
  lemma {:induction false} Weigh(front: nat, digit: nat, weight: nat)
    ensures (10 * front + digit) * weight == front * (10 * weight) + digit * weight
  {}

  lemma {:induction false} DecimalSnoc(b: seq<byte>, i: nat)
    requires i < |b|
    ensures Decimal(b[..i + 1]) == match (Decimal(b[..i]), BToI(b[i]))
                                   case (Some(n), Some(d)) => Some(10 * n + d)
                                   case _ => None
  {
    assert b[..i + 1][..i] == b[..i];
  }

  lemma {:induction false} DecimalPrefix(b: seq<byte>, i: nat)
    requires i <= |b| && Decimal(b[..i]).None?
    ensures Decimal(b).None?
    decreases |b|
  {
    if i == |b| {
      assert b[..i] == b;
    } else {
      var front := b[..|b| - 1];
      assert front[..i] == b[..i];
      DecimalPrefix(front, i);
    }
  }

  /** The four-digit year: the loop weighs the digits from the left. */
  method ParseByteYear(b: seq<byte>) returns (r: Option<nat>)
    requires 4 <= |b|
    ensures r == Decimal(b[..4])
  {
    PowersOf10();
    var year, n := 0, 1000;
    var i := 0;
    while i < 4
      invariant 0 <= i <= 4
      invariant n == (if i < 4 then Power10(3 - i) else 0)
      invariant Decimal(b[..i]).Some? && year == Decimal(b[..i]).value * Power10(4 - i)
    {
      DecimalSnoc(b, i);
      var v := BToI(b[i]);
      if v == None {
        assert b[..4][..i + 1] == b[..i + 1];
        DecimalPrefix(b[..4], i + 1);
        return None;
      }
      Weigh(Decimal(b[..i]).value, v.value, n);
      year := year + v.value * n;
      n := n / 10;
      i := i + 1;
    }
    return Some(year);
  }

  /** Up to six fraction digits, in nanoseconds. */
  function NanoSec(b: seq<byte>): Option<nat>
    requires |b| <= 6
  {
    match Decimal(b)
    case None => None
    case Some(n) => Some(n * Power10(6 - |b|) * 1000)
  }

  method ParseByteNanoSec(b: seq<byte>) returns (r: Option<nat>)
    requires |b| <= 6
    ensures r == NanoSec(b)
  {
    PowersOf10();
    var ns, digit := 0, 100000;
    var i := 0;
    while i < |b|
      invariant 0 <= i <= |b|
      invariant digit == (if i < 6 then Power10(5 - i) else 0)
      invariant Decimal(b[..i]).Some? && ns == Decimal(b[..i]).value * Power10(6 - i)
    {
      DecimalSnoc(b, i);
      var v := BToI(b[i]);
      if v == None {
        DecimalPrefix(b, i + 1);
        return None;
      }
      Weigh(Decimal(b[..i]).value, v.value, digit);
      ns := ns + v.value * digit;
      digit := digit / 10;
      i := i + 1;
    }
    assert b[..i] == b;
    return Some(ns * 1000);
  }

  /** time.Time{}, the arguments of the time.Date call, or an error. */
  datatype ParsedTime = ZeroTime | Date(t: Time) | Malformed

  function AtLeastOne(n: int): int
  {
    if n <= 0 then 1 else n
  }

  /** "YYYY-MM-DD", "YYYY-MM-DD HH:MM:SS" or that with one to six fraction digits. */
  predicate TextLength(n: nat)
  {
    n == 10 || n == 19 || 21 <= n <= 26
  }

  function ParseDateTime(b: seq<byte>): ParsedTime
  {
    if !TextLength(|b|) then Malformed
    else if b == ZeroDateTime(0, |b|) then ZeroTime
    else match (Decimal(b[..4]), ParseByte2Digits(b[5], b[6]), ParseByte2Digits(b[8], b[9]))
         case (Some(year), Some(month), Some(day)) =>
           var date := Time(AtLeastOne(year), AtLeastOne(month), AtLeastOne(day), 0, 0, 0, 0);
           if b[4] != DASH || b[7] != DASH then Malformed
           else if |b| == 10 then Date(date)
           else ParseClock(b, date)
         case _ => Malformed
  }

  function ParseClock(b: seq<byte>, date: Time): ParsedTime
    requires 19 <= |b| <= 26 && |b| != 20
  {
    match (ParseByte2Digits(b[11], b[12]), ParseByte2Digits(b[14], b[15]), ParseByte2Digits(b[17], b[18]))
    case (Some(hour), Some(min), Some(sec)) =>
      if b[10] != BLANK || b[13] != COLON || b[16] != COLON then Malformed
      else if |b| == 19 then Date(date.(hour := hour, min := min, sec := sec))
      else if b[19] != DOT || NanoSec(b[20..]).None? then Malformed
      else Date(date.(hour := hour, min := min, sec := sec, nsec := NanoSec(b[20..]).value))
    case _ => Malformed
  }

  /** A field of a date: zero counts as 1. */
  predicate SaysField(digits: Option<nat>, field: int)
  {
    digits.Some? && field == if digits.value == 0 then 1 else digits.value
  }

  /** What a parsed text says: separators in their places, digits in theirs, nothing else. */
  lemma {:induction false} ParseSound(b: seq<byte>)
    ensures match ParseDateTime(b)
            case Date(t) =>
              && (|b| == 10 || |b| == 19 || 21 <= |b| <= 26) && b[4] == 45 && b[7] == 45
              && SaysField(Decimal(b[..4]), t.year) && SaysField(ParseByte2Digits(b[5], b[6]), t.month)
              && SaysField(ParseByte2Digits(b[8], b[9]), t.day)
              && (if |b| == 10 then t.hour == 0 && t.min == 0 && t.sec == 0
                  else
                    && b[10] == 32 && b[13] == 58 && b[16] == 58
                    && ParseByte2Digits(b[11], b[12]) == Some(t.hour)
                    && ParseByte2Digits(b[14], b[15]) == Some(t.min)
                    && ParseByte2Digits(b[17], b[18]) == Some(t.sec))
              && (if |b| <= 19 then t.nsec == 0 else b[19] == 46 && NanoSec(b[20..]) == Some(t.nsec))
            case ZeroTime => forall i | 0 <= i < |b| ::
                b[i] == 48 || i == 4 || i == 7 || i == 10 || i == 13 || i == 16 || i == 19
            case Malformed => true
  {
    hide Decimal, NanoSec, BToI, ParseByte2Digits;
  }

  lemma {:induction false} ZeroText()
    ensures ZeroDateTime(0, 26) == [48, 48, 48, 48, 45, 48, 48, 45, 48, 48] + [32, 48, 48, 58, 48, 48, 58, 48, 48]
                                   + [46, 48, 48, 48, 48, 48, 48]
  {
    hide ZeroDateTime;
  }

  lemma {:induction false} TwoDigits(n: int)
    requires 0 <= n < 100
    ensures ParseByte2Digits(Two(n)[0], Two(n)[1]) == Some(n)
    ensures n > 0 ==> Two(n)[0] != 48 || Two(n)[1] != 48
  {}

  lemma {:induction false} DecimalOfPairs(s: seq<byte>, a: int, b: int)
    requires 0 <= a < 100 && 0 <= b < 100 && s == Two(a) + Two(b)
    ensures Decimal(s) == Some(100 * a + b)
  {
    assert s[..3][..2] == Two(a) && s[..2] == Two(a);
    assert Two(a)[..1] == [Digits10(a)];
    assert [Digits10(a)][..0] == [];
    assert Decimal([Digits10(a)]) == Some(a / 10);
    assert Decimal(Two(a)) == Some(a);
    assert Decimal(s[..3]) == Some(10 * a + b / 10);
  }

  lemma {:induction false} DecimalOfTriples(s: seq<byte>, a: int, b: int, c: int)
    requires 0 <= a < 100 && 0 <= b < 100 && 0 <= c < 100 && s == Two(a) + Two(b) + Two(c)
    ensures Decimal(s) == Some(10000 * a + 100 * b + c)
  {
    DecimalOfPairs(Two(a) + Two(b), a, b);
    assert s[..5][..4] == Two(a) + Two(b) && s[..4] == Two(a) + Two(b);
    assert Decimal(s[..5]) == Some(1000 * a + 10 * b + c / 10);
  }

  /** The date, the time of day and the microseconds of t. */
  function ToMicros(t: Time): Time
  {
    t.(nsec := t.nsec / 1000 * 1000)
  }

  /** The fields parseDateTime reads from the first ten bytes. */
  predicate ReadsDate(b: seq<byte>, y: nat, m: nat, d: nat)
    requires 10 <= |b|
  {
    && Decimal(b[..4]) == Some(y) && ParseByte2Digits(b[5], b[6]) == Some(m) && ParseByte2Digits(b[8], b[9]) == Some(d)
    && b[4] == 45 && b[7] == 45 && (d > 0 ==> b[8] != 48 || b[9] != 48)
  }

  /** The fields it reads from " HH:MM:SS" behind them. */
  predicate ReadsClock(b: seq<byte>, h: nat, mi: nat, s: nat)
    requires 19 <= |b|
  {
    && ParseByte2Digits(b[11], b[12]) == Some(h)
    && ParseByte2Digits(b[14], b[15]) == Some(mi)
    && ParseByte2Digits(b[17], b[18]) == Some(s)
    && b[10] == 32 && b[13] == 58 && b[16] == 58
  }

  lemma {:induction false} DateTextReads(y: int, m: int, d: int, rest: seq<byte>)
    requires 0 <= y <= 9999 && 0 <= m < 100 && 0 <= d < 100
    ensures ReadsDate(DateText(y, m, d) + rest, y, m, d)
  {
    hide Digits10, Digits01, Decimal, ParseByte2Digits;
    var b := DateText(y, m, d) + rest;
    var hi, lo := y / 100, y % 100;
    assert b[..4] == Two(hi) + Two(lo);
    DecimalOfPairs(b[..4], hi, lo);
    assert b[5] == Two(m)[0] && b[6] == Two(m)[1] && b[8] == Two(d)[0] && b[9] == Two(d)[1];
    TwoDigits(m);
    TwoDigits(d);
  }

  lemma {:induction false} ClockTextReads(date: seq<byte>, h: int, mi: int, s: int, rest: seq<byte>)
    requires |date| == 10 && 0 <= h < 100 && 0 <= mi < 100 && 0 <= s < 100
    ensures ReadsClock(date + ClockText(h, mi, s) + rest, h, mi, s)
  {
    TwoDigits(h);
    TwoDigits(mi);
    TwoDigits(s);
  }

  lemma {:induction false} NotZeroDateTime(b: seq<byte>)
    requires 10 <= |b| <= 26 && (b[8] != 48 || b[9] != 48)
    ensures b != ZeroDateTime(0, |b|)
  {
    assert ZeroDateTime(0, |b|)[8] == 48 && ZeroDateTime(0, |b|)[9] == 48;
  }

  lemma {:induction false} RoundUpIsNearest(t: Time)
    requires ValidTime(t)
    ensures ValidTime(RoundUp(t)) && Nanos(ToMicros(RoundUp(t))) == (Nanos(t) + 500) / 1000 * 1000
  {
    AddHalfMicroIsLater(t);
    var u := RoundUp(t);
    assert Instant(ToMicros(u)) == Instant(u);
    NearestThousand(Instant(t), t.nsec, Instant(u), u.nsec);
  }

  lemma {:induction false} NearestThousand(i: int, n: int, j: int, m: int)
    requires 0 <= n && 0 <= m
    requires j * 1_000_000_000 + m == i * 1_000_000_000 + n + if n % 1000 >= 500 then 500 else 0
    ensures j * 1_000_000_000 + m / 1000 * 1000 == (i * 1_000_000_000 + n + 500) / 1000 * 1000
  {
    var a, b := i * 1_000_000 + n / 1000, j * 1_000_000 + m / 1000;
    var r, s := n % 1000, m % 1000;
    var x := (i * 1_000_000_000 + n + 500) / 1000;
    assert i * 1_000_000_000 + n == 1000 * a + r && j * 1_000_000_000 + m == 1000 * b + s;
    assert 1000 * x <= 1000 * a + r + 500 < 1000 * x + 1000;
    assert x == b;
  }

  // ---------------------------------------------------------------------------------------
  // The binary protocol

  /** A binary DATE or DATETIME value as the server sends it: 0, 4, 7 or 11 bytes. */
  function BinaryDate(t: Time): (s: seq<byte>)
    requires 0 <= t.year < 0x1_0000 && ByteFields(t)
    ensures |s| == 4
  {
    LE(t.year, 2) + [t.month, t.day]
  }

  function BinaryDateTime(t: Time): (s: seq<byte>)
    requires 0 <= t.year < 0x1_0000 && ByteFields(t)
    ensures |s| == 7
  {
    BinaryDate(t) + [t.hour, t.min, t.sec]
  }

  function BinaryTimestamp(t: Time): (s: seq<byte>)
    requires 0 <= t.year < 0x1_0000 && ByteFields(t) && 0 <= t.nsec / 1000
    ensures |s| == 11
  {
    BinaryDateTime(t) + LE(t.nsec / 1000, 4)
  }

  predicate ByteFields(t: Time)
  {
    0 <= t.month < 256 && 0 <= t.day < 256 && 0 <= t.hour < 256 && 0 <= t.min < 256 && 0 <= t.sec < 256
  }

  datatype BinaryTime = BinaryTime(v: ParsedTime) | BadLength | TimePanic

  function ParseBinaryDateTime(num: nat, data: seq<byte>): BinaryTime
  {
    if num == 0 then BinaryTime(ZeroTime)
    else if num != 4 && num != 7 && num != 11 then BadLength
    else if |data| < num then TimePanic
    else
      var date := Time(FromLE(data[..2]), data[2], data[3], 0, 0, 0, 0);
      if num == 4 then BinaryTime(Date(date))
      else
        var clock := date.(hour := data[4], min := data[5], sec := data[6]);
        if num == 7 then BinaryTime(Date(clock))
        else BinaryTime(Date(clock.(nsec := FromLE(data[7..11]) * 1000)))
  }

  /** The three digit pairs appendMicrosecs splits microsecs into, in bytes and 32-bit words. */
  function MicroPairs(micro: nat): (nat, nat, nat)
  {
    var p1 := ToByte(micro / 10000);
    var m2 := ToWord(micro - 10000 * p1);
    var p2 := ToByte(m2 / 100);
    var m3 := ToWord(m2 - 100 * p2);
    (p1, p2, ToByte(m3))
  }

  function ToByte(n: int): byte
  {
    n % 256
  }

  function ToWord(n: int): nat
  {
    n % 0x1_0000_0000
  }

  lemma {:induction false} MicroPairsOf(p1: nat, p2: nat, p3: nat)
    requires p1 < 100 && p2 < 100 && p3 < 100
    ensures MicroPairs(10000 * p1 + 100 * p2 + p3) == (p1, p2, p3)
  {
    var rest := 100 * p2 + p3;
    var micro := 10000 * p1 + rest;
    QuotientIs(micro, 10000, p1, rest);
    QuotientIs(rest, 100, p2, p3);
    assert micro / 10000 % 256 == p1;
    assert (micro - 10000 * p1) % 0x1_0000_0000 == rest;
    assert rest / 100 % 256 == p2;
    assert (rest - 100 * p2) % 0x1_0000_0000 % 256 == p3;
  }

  lemma {:induction false} LowByteOf(k: nat, x: nat)
    requires x < 256
    ensures ToByte(256 * k + x) == x
  {}

  lemma {:induction false} SmallWord(n: nat)
    requires n < 0x1_0000_0000
    ensures ToWord(n) == n
  {}

  lemma {:induction false} MicroPairsWrap(k: nat, p1: nat, p2: nat, p3: nat)
    requires p1 < 256 && p2 < 100 && p3 < 100 && 2_560_000 * k + 10000 * p1 + 100 * p2 + p3 < 0x1_0000_0000
    ensures MicroPairs(2_560_000 * k + 10000 * p1 + 100 * p2 + p3) == (p1, p2, p3)
  {
    var rest := 100 * p2 + p3;
    var micro, m2, m3 := 2_560_000 * k + 10000 * p1 + rest, 2_560_000 * k + rest, 2_560_000 * k + p3;
    QuotientIs(micro, 10000, 256 * k + p1, rest);
    QuotientIs(m2, 100, 25600 * k + p2, p3);
    LowByteOf(k, p1);
    LowByteOf(100 * k, p2);
    LowByteOf(10000 * k, p3);
    SmallWord(m2);
    SmallWord(m3);
    hide ToByte, ToWord, MicroPairs;
    PairsOf(micro, p1, p2, p3, m2, m3);
  }

  lemma {:induction false} PairsOf(micro: nat, p1: nat, p2: nat, p3: nat, m2: nat, m3: nat)
    requires ToByte(micro / 10000) == p1 && micro - 10000 * p1 == m2 == ToWord(m2)
    requires ToByte(m2 / 100) == p2 && m2 - 100 * p2 == m3 == ToWord(m3) && ToByte(m3) == p3
    ensures MicroPairs(micro) == (p1, p2, p3)
  {
    hide ToByte, ToWord;
  }

  /** The fraction appendMicrosecs adds for 1 to 6 decimals. */
  function Microsecs(src: seq<byte>, decimals: int): Text
    requires src == [] || |src| == 4
    requires decimals <= 6
  {
    if decimals <= 0 then Text([])
    else if src == [] then Text(ZeroDateTime(19, 20 + decimals))
    else
      var (p1, p2, p3) := MicroPairs(FromLE(src));
      if p1 >= 100 || (decimals >= 3 && p2 >= 100) || (decimals >= 5 && p3 >= 100) then TextPanic
      else if decimals == 1 then Text([DOT, Digits10(p1)])
      else if decimals == 2 then Text([DOT] + Two(p1))
      else if decimals == 3 then Text([DOT] + Two(p1) + [Digits10(p2)])
      else if decimals == 4 then Text([DOT] + Two(p1) + Two(p2))
      else if decimals == 5 then Text([DOT] + Two(p1) + Two(p2) + [Digits10(p3)])
      else Text([DOT] + Two(p1) + Two(p2) + Two(p3))
  }

  function FormatBinaryDateTime(src: seq<byte>, length: nat): Text
    requires length < 256
  {
    if src == [] then (if length <= 26 then Text(ZeroDateTime(0, length)) else TextPanic)
    else if !TextLength(length) then IllegalLength
    else if |src| != 4 && |src| != 7 && |src| != 11 then IllegalPacketLength
    else
      var year := FromLE(src[..2]);
      if year > 9999 || src[2] >= 100 || src[3] >= 100 then TextPanic
      else
        var date := DateText(year, src[2], src[3]);
        if length == 10 then Text(date)
        else if |src| == 4 then Text(date + ZeroDateTime(10, length))
        else FormatClock(src, Microsecs(src[7..], length - 20), date)
  }

  function FormatClock(src: seq<byte>, fraction: Text, date: seq<byte>): Text
    requires |src| == 7 || |src| == 11
  {
    if src[4] >= 100 || src[5] >= 100 || src[6] >= 100 || !fraction.Text? then TextPanic
    else Text(date + ClockText(src[4], src[5], src[6]) + fraction.bytes)
  }

  /** Microseconds cut after d decimals. */
  function KeepDecimals(micro: int, d: int): int
  {
    if d == 1 then micro / 100_000 * 100_000
    else if d == 2 then micro / 10_000 * 10_000
    else if d == 3 then micro / 1000 * 1000
    else if d == 4 then micro / 100 * 100
    else if d == 5 then micro / 10 * 10
    else micro
  }

  /** What is left of t when only length characters are printed. */
  function TruncateTo(t: Time, length: nat): Time
    requires TextLength(length)
  {
    if length == 10 then Time(t.year, t.month, t.day, 0, 0, 0, 0)
    else if length == 19 then t.(nsec := 0)
    else
      t.(nsec := KeepDecimals(t.nsec / 1000, length - 20) * 1000)
  }

  /** Every field fits the digit tables; zero dates and month 13 do, for the server may send them. */
  predicate Printable(t: Time)
  {
    && 0 <= t.year <= 9999 && 0 <= t.month < 100 && 0 <= t.day < 100
    && 0 <= t.hour < 100 && 0 <= t.min < 100 && 0 <= t.sec < 100 && 0 <= t.nsec < 1_000_000_000
  }

  lemma {:induction false} MicrosecsText(micro: nat, decimals: nat)
    requires micro < 1_000_000 && 1 <= decimals <= 6
    ensures var r := Microsecs(LE(micro, 4), decimals);
            && r.Text? && |r.bytes| == decimals + 1 && r.bytes[0] == 46
            && NanoSec(r.bytes[1..]) == Some(KeepDecimals(micro, decimals) * 1000)
  {
    hide Two, Microsecs, Decimal;
    PowersOf256();
    PowersOf10();
    LERoundTrip(micro, 4);
    var p1 := micro / 10000;
    var p2 := (micro - 10000 * p1) / 100;
    var p3 := micro - 10000 * p1 - 100 * p2;
    var all := Two(p1) + Two(p2) + Two(p3);
    var r := Microsecs(LE(micro, 4), decimals);
    MicrosecsDigits(LE(micro, 4), decimals, p1, p2, p3);
    DecimalOfTriples(all, p1, p2, p3);
    PrefixOfSixDigits(all, micro, decimals);
  }

  /** Microseconds beyond a second are printed modulo 2560000, because the first pair is cut to a
      byte; what is left of them panics exactly if it is still a second or more. */
  lemma {:induction false} MicrosecsWrap(micro: nat, decimals: nat)
    requires micro < 0x1_0000_0000 && 1 <= decimals <= 6
    ensures var r := micro % 2_560_000;
            Microsecs(LE(micro, 4), decimals) ==
            if r >= 1_000_000 then TextPanic else Microsecs(LE(r, 4), decimals)
  {
    hide LE, FromLE, MicroPairs;
    PowersOf256();
    var k, r := micro / 2_560_000, micro % 2_560_000;
    var p1, p2, p3 := r / 10000, r / 100 % 100, r % 100;
    assert r == 10000 * p1 + 100 * p2 + p3;
    LERoundTrip(micro, 4);
    LERoundTrip(r, 4);
    MicroPairsWrap(k, p1, p2, p3);
    MicroPairsWrap(0, p1, p2, p3);
  }

  lemma {:induction false} MicrosecsDigits(src: seq<byte>, decimals: nat, p1: nat, p2: nat, p3: nat)
    requires |src| == 4 && p1 < 100 && p2 < 100 && p3 < 100 && FromLE(src) == 10000 * p1 + 100 * p2 + p3
    requires 1 <= decimals <= 6
    ensures Microsecs(src, decimals) == Text([DOT] + (Two(p1) + Two(p2) + Two(p3))[..decimals])
  {
    var all := Two(p1) + Two(p2) + Two(p3);
    MicroPairsOf(p1, p2, p3);
    if decimals == 1 {
      assert all[..1] == [Digits10(p1)];
    } else if decimals == 2 {
      assert all[..2] == Two(p1);
    } else if decimals == 3 {
      assert all[..3] == Two(p1) + [Digits10(p2)];
    } else if decimals == 4 {
      assert all[..4] == Two(p1) + Two(p2);
    } else if decimals == 5 {
      assert all[..5] == Two(p1) + Two(p2) + [Digits10(p3)];
    } else {
      assert all[..6] == all;
    }
  }

  /** Dropping digits from the right is dividing by a power of ten. */
  lemma {:induction false} PrefixOfSixDigits(all: seq<byte>, n: nat, k: nat)
    requires |all| == 6 && Decimal(all) == Some(n) && k <= 6
    ensures Decimal(all[..k]) == Some(n / Power10(6 - k))
    decreases 6 - k
  {
    assert Power10(0) == 1;
    hide Decimal, Power10;
    if k == 6 {
      assert all[..6] == all;
    } else {
      PrefixOfSixDigits(all, n, k + 1);
      assert all[..k + 1][..k] == all[..k];
      DropDigit(all[..k + 1], n / Power10(5 - k));
      TenTimesLess(n, 5 - k);
    }
  }

  lemma {:induction false} DropDigit(b: seq<byte>, n: nat)
    requires b != [] && Decimal(b) == Some(n)
    ensures Decimal(b[..|b| - 1]) == Some(n / 10)
  {}

  lemma {:induction false} TenTimesLess(n: nat, j: nat)
    requires j <= 5
    ensures n / Power10(j) / 10 == n / Power10(j + 1)
  {
    PowersOf10();
    if j == 0 {
    } else if j == 1 {
    } else if j == 2 {
    } else if j == 3 {
    } else if j == 4 {
    }
  }

  /** The fraction of a value with the given microseconds, printed with d decimals. */
  predicate FractionOf(fraction: Text, d: int, micro: nat)
    requires d <= 6
  {
    && fraction.Text?
    && if d <= 0 then fraction.bytes == []
       else
         && |fraction.bytes| == d + 1 && fraction.bytes[0] == 46
         && NanoSec(fraction.bytes[1..]) == Some(KeepDecimals(micro, d) * 1000)
  }

  lemma {:induction false} MicrosecsFraction(src: seq<byte>, d: int)
    requires src == [] || (|src| == 4 && FromLE(src) < 1_000_000)
    requires d <= 6
    ensures FractionOf(Microsecs(src, d), d, FromLE(src))
  {
    if d > 0 {
      if src == [] {
        ZeroFraction(d);
      } else {
        FromLERoundTrip(src);
        MicrosecsText(FromLE(src), d);
      }
    }
  }

  /** b shows the clock of v behind some date, cut to its length. */
  predicate ClockOf(b: seq<byte>, v: Time)
    requires Printable(v) && TextLength(|b|) && |b| > 10
  {
    && ReadsClock(b, v.hour, v.min, v.sec)
    && (|b| > 19 ==> b[19] == 46 && NanoSec(b[20..]) == Some(TruncateTo(v, |b|).nsec))
  }

  lemma {:induction false} FormatClockText(fraction: Text, length: nat, date: seq<byte>, v: Time)
    requires TextLength(length) && length > 10 && |date| == 10 && Printable(v)
    requires FractionOf(fraction, length - 20, v.nsec / 1000)
    ensures var b := date + ClockText(v.hour, v.min, v.sec) + fraction.bytes;
            |b| == length && ClockOf(b, v)
  {
    hide Digits10, Digits01, DateText, ClockText, SixDigits, BToI, Two, Decimal, ReadsClock, NanoSec, KeepDecimals;
    var b := date + ClockText(v.hour, v.min, v.sec) + fraction.bytes;
    ClockTextReads(date, v.hour, v.min, v.sec, fraction.bytes);
    if length > 19 {
      assert b[20..] == fraction.bytes[1..];
    }
  }

  lemma {:induction false} ZeroFraction(d: nat)
    requires 1 <= d <= 6
    ensures |ZeroDateTime(19, 20 + d)| == d + 1 && ZeroDateTime(19, 20 + d)[0] == 46
    ensures NanoSec(ZeroDateTime(19, 20 + d)[1..]) == Some(0)
  {
    AllZeros(ZeroDateTime(19, 20 + d)[1..]);
  }

  lemma {:induction false} AllZeros(b: seq<byte>)
    requires forall i | 0 <= i < |b| :: b[i] == 48
    ensures Decimal(b) == Some(0)
  {
    if b != [] {
      AllZeros(b[..|b| - 1]);
    }
  }

  /** A text that shows v parses to v, cut to the text's length: exactly if v has no zero year,
      month or day. (The parser turns a zero field into 1, and the all-zero text into time.Time{}.) */
  lemma {:induction false} ParseShown(b: seq<byte>, v: Time)
    requires TextLength(|b|) && Printable(v)
    requires ReadsDate(b, v.year, v.month, v.day) && (|b| > 10 ==> ClockOf(b, v))
    ensures ParseDateTime(b) == Date(TruncateTo(v, |b|)) <==> v.year > 0 && v.month > 0 && v.day > 0
    ensures v.day > 0 ==>
              ParseDateTime(b) == Date(TruncateTo(v, |b|).(year := AtLeastOne(v.year), month := AtLeastOne(v.month)))
  {
    hide Digits10, Digits01, DateText, ClockText, SixDigits, BToI, Two, Decimal, NanoSec, KeepDecimals, ZeroDateTime;
    if v.day > 0 {
      NotZeroDateTime(b);
    }
  }

  lemma {:induction false} TextShows(fraction: Text, length: nat, v: Time)
    requires TextLength(length) && length > 10 && Printable(v) && fraction.Text?
    requires FractionOf(fraction, length - 20, v.nsec / 1000)
    ensures var b := DateText(v.year, v.month, v.day) + ClockText(v.hour, v.min, v.sec) + fraction.bytes;
            |b| == length && ReadsDate(b, v.year, v.month, v.day) && ClockOf(b, v)
  {
    hide Digits10, Digits01, DateText, ClockText, SixDigits, BToI, Two, Decimal, ReadsDate, ReadsClock, NanoSec,
      FractionOf, ClockOf, KeepDecimals;
    var date, clock := DateText(v.year, v.month, v.day), ClockText(v.hour, v.min, v.sec);
    FormatClockText(fraction, length, date, v);
    DateTextReads(v.year, v.month, v.day, clock + fraction.bytes);
    Assoc(date, clock, fraction.bytes);
  }

  lemma {:induction false} DateTextShows(v: Time)
    requires Printable(v)
    ensures ReadsDate(DateText(v.year, v.month, v.day), v.year, v.month, v.day)
  {
    hide DateText, ReadsDate, Digits10, Digits01;
    DateTextReads(v.year, v.month, v.day, []);
    assert DateText(v.year, v.month, v.day) + [] == DateText(v.year, v.month, v.day);
  }

  /** What FormatBinaryDateTime prints shows the date and the clock of v. */
  lemma {:induction false} FormattedBinaryText(src: seq<byte>, length: nat, v: Time)
    requires TextLength(length)
    requires |src| == 4 || |src| == 7 || |src| == 11
    requires ParseBinaryDateTime(|src|, src) == BinaryTime(Date(v)) && Printable(v)
    ensures var r := FormatBinaryDateTime(src, length);
            && r.Text? && |r.bytes| == length && ReadsDate(r.bytes, v.year, v.month, v.day)
            && (length > 10 ==> ClockOf(r.bytes, v))
  {
    hide Digits10, Digits01, DateText, ClockText, SixDigits, BToI, Two, Decimal, ReadsDate, ReadsClock, NanoSec,
      Microsecs, KeepDecimals, FractionOf, ClockOf;
    if length == 10 {
      DateTextShows(v);
    } else if |src| == 4 {
      DateTextReads(v.year, v.month, v.day, ZeroDateTime(10, length));
      FourByteText(DateText(v.year, v.month, v.day), length, v);
    } else {
      assert |src| == 11 ==> src[7..] == src[7..11];
      MicrosecsFraction(src[7..], length - 20);
      TextShows(Microsecs(src[7..], length - 20), length, v);
    }
  }

  lemma {:induction false} ZeroClock(length: nat)
    requires 19 <= length <= 26
    ensures ZeroDateTime(10, length) == ClockText(0, 0, 0) + ZeroDateTime(19, length)
  {
    var z, c, f := ZeroDateTime(10, length), ClockText(0, 0, 0), ZeroDateTime(19, length);
    assert forall k | 0 <= k < 9 :: z[k] == c[k];
    assert forall k | 9 <= k < length - 10 :: z[k] == f[k - 9];
  }

  lemma {:induction false} FourByteText(date: seq<byte>, length: nat, v: Time)
    requires |date| == 10 && TextLength(length) && length > 10 && Printable(v)
             && v.hour == v.min == v.sec == v.nsec == 0
    ensures ClockOf(date + ZeroDateTime(10, length), v)
  {
    hide Decimal, NanoSec, ReadsClock, ClockText, ZeroDateTime;
    var fraction := ZeroDateTime(19, length);
    ZeroClock(length);
    Assoc(date, ClockText(0, 0, 0), fraction);
    ClockTextReads(date, 0, 0, 0, fraction);
    if length > 19 {
      ZeroFraction(length - 20);
      assert (date + ClockText(0, 0, 0) + fraction)[20..] == fraction[1..];
    }
  }

  /** Printing a binary value and parsing the text agrees with decoding the value directly and
      cutting it to the printed precision: exactly for the dates without a zero year, month or
      day. */
  lemma {:induction false} FormattedBinaryParsesBack(src: seq<byte>, length: nat, v: Time)
    requires TextLength(length)
    requires |src| == 4 || |src| == 7 || |src| == 11
    requires ParseBinaryDateTime(|src|, src) == BinaryTime(Date(v)) && Printable(v)
    ensures var r := FormatBinaryDateTime(src, length);
            && r.Text? && |r.bytes| == length
            && (ParseDateTime(r.bytes) == Date(TruncateTo(v, length)) <==> v.year > 0 && v.month > 0 && v.day > 0)
  {
    hide Digits10, Digits01, DateText, ClockText, SixDigits, BToI, Two, Decimal, ReadsDate, ReadsClock, NanoSec,
      Microsecs, KeepDecimals, ClockOf, ParseDateTime, FormatBinaryDateTime, TruncateTo;
    FormattedBinaryText(src, length, v);
    ParseShown(FormatBinaryDateTime(src, length).bytes, v);
  }

  /** A date whose month is 0: decoded directly it keeps the month, its text reads as January. */
  lemma {:induction false} ZeroMonthExample()
    ensures var src, v := [0xd0, 0x07, 0, 5], Time(2000, 0, 5, 0, 0, 0, 0);
            && ParseBinaryDateTime(|src|, src) == BinaryTime(Date(v)) && Printable(v)
            && FormatBinaryDateTime(src, 10).Text?
            && ParseDateTime(FormatBinaryDateTime(src, 10).bytes) == Date(v.(month := 1))
  {
    hide FormatBinaryDateTime, ParseDateTime, ReadsDate, ClockOf;
    var src: seq<byte>, v := [0xd0, 0x07, 0, 5], Time(2000, 0, 5, 0, 0, 0, 0);
    assert FromLE(src[..2]) == 2000 by {
      assert src[..2] == [0xd0, 0x07] && src[..2][1..] == [0x07] && src[..2][1..][1..] == [];
    }
    FormattedBinaryText(src, 10, v);
    ParseShown(FormatBinaryDateTime(src, 10).bytes, v);
  }

  /** The empty binary value is the zero time in both forms. */
  lemma {:induction false} EmptyBinaryIsZeroTime(length: nat)
    requires TextLength(length)
    ensures ParseBinaryDateTime(0, []) == BinaryTime(ZeroTime)
    ensures ParseDateTime(FormatBinaryDateTime([], length).bytes) == ZeroTime
  {}

  lemma {:induction false} SixDigitsFraction(micro: nat)
    requires micro < 1_000_000
    ensures FractionOf(Text([DOT] + SixDigits(micro)), 6, micro)
  {
    SixDigitsRead(micro);
    TailOf(DOT, SixDigits(micro));
  }

  lemma {:induction false} TailOf(x: byte, rest: seq<byte>)
    ensures ([x] + rest)[1..] == rest
  {}

  lemma {:induction false} Assoc(a: seq<byte>, b: seq<byte>, c: seq<byte>)
    ensures a + (b + c) == a + b + c
  {}

  lemma {:induction false} AppendedFieldsShow(t: Time)
    requires ValidTime(t) && 1 <= t.year <= 9999
    ensures AppendFields(t).Text?
    ensures var b := AppendFields(t).bytes;
            && TextLength(|b|) && ReadsDate(b, t.year, t.month, t.day) && (|b| > 10 ==> ClockOf(b, t))
            && TruncateTo(t, |b|) == ToMicros(t)
  {
    hide Digits10, Digits01, DateText, ClockText, SixDigits, BToI, Two, Decimal, ReadsDate, ReadsClock, NanoSec;
    var b, micro := AppendFields(t).bytes, t.nsec / 1000;
    if |b| == 10 {
      DateTextShows(t);
    } else if |b| == 19 {
      TextShows(Text([]), 19, t);
      assert b + [] == b;
    } else {
      SixDigitsFraction(micro);
      TextShows(Text([DOT] + SixDigits(micro)), 26, t);
    }
  }

  lemma {:induction false} ParseAppendedFields(t: Time)
    requires ValidTime(t) && 1 <= t.year <= 9999
    ensures AppendFields(t).Text? && ParseDateTime(AppendFields(t).bytes) == Date(ToMicros(t))
  {
    hide Digits10, Digits01, DateText, ClockText, SixDigits, BToI, Two, Decimal, AppendFields, ReadsDate, ReadsClock,
      NanoSec, ClockOf, ParseDateTime, TruncateTo;
    AppendedFieldsShow(t);
    ParseShown(AppendFields(t).bytes, t);
  }

  /** Parsing what appendDateTime prints recovers every field, microseconds rounded half up
      across any carry: the instant read back is the nearest microsecond, and the printer fails
      exactly when that microsecond lies outside the years 1 to 9999. */
  lemma {:induction false} ParseUndoesAppendDateTime(t: Time)
    requires ValidTime(t)
    ensures var u := ToMicros(RoundUp(t));
            && ValidTime(u) && Nanos(u) == (Nanos(t) + 500) / 1000 * 1000
            && match AppendDateTime(t)
               case Text(b) => ParseDateTime(b) == Date(u) && 1 <= u.year <= 9999
               case YearOutOfRange(y) => y == u.year && !(1 <= y <= 9999)
               case _ => false
  {
    RoundUpIsNearest(t);
    if AppendDateTime(t).Text? {
      ParseAppendedFields(RoundUp(t));
    }
  }

  lemma {:induction false} SixDigitsRead(micro: nat)
    requires micro < 1_000_000
    ensures NanoSec(SixDigits(micro)) == Some(micro * 1000)
  {
    hide Two, Decimal, BToI;
    DecimalOfTriples(SixDigits(micro), micro / 10000, micro / 100 % 100, micro % 100);
  }

  lemma {:induction false} AppendLength(t: Time)
    requires ValidTime(t)
    ensures match AppendDateTime(t) case Text(b) => |b| <= 26 case _ => true
  {
    hide Digits10, Digits01, DateText, ClockText, SixDigits;
    AddHalfMicroIsLater(t);
  }
}
