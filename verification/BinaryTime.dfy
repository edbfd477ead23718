// TIME values of the binary protocol and their text (mysql/utils.go: formatBinaryTime). The
// standard is section 14.7.3 "Binary Protocol Value" of the MySQL Internals Manual.
module BinaryTime {
  import opened Bytes
  import opened DateTime
  import opened Decimals

  datatype Span = Span(neg: bool, days: nat, hours: nat, min: nat, sec: nat, micro: nat)

  predicate ValidSpan(v: Span)
  {
    v.days < Pow256(4) && v.hours < 256 && v.min < 100 && v.sec < 100 && v.micro < 1_000_000
  }

  /** The bytes of a TIME value, with or without microseconds. */
  function BinarySpan(v: Span, micros: bool): (s: seq<byte>)
    requires ValidSpan(v)
    ensures |s| == if micros then 12 else 8
  {
    [if v.neg then 1 else 0] + LE(v.days, 4) + [v.hours, v.min, v.sec] + if micros then LE(v.micro, 4) else []
  }

  function HoursText(h: nat): seq<byte>
  {
    if h >= 100 then Digits(h) else Two(h)
  }

  function FormatBinaryTime(src: seq<byte>, length: nat): Text
    requires length <= 15
  {
    if src == [] then Text(ZeroDateTime(11, 11 + length))
    else if length != 8 && length < 10 then IllegalLength
    else if |src| != 8 && |src| != 12 then IllegalPacketLength
    else if src[6] >= 100 || src[7] >= 100 then TextPanic
    else
      match Microsecs(src[8..], length - 9)
      case Text(fraction) =>
        var sign := if src[0] == 1 then [DASH] else [];
        Text(sign + (HoursText(FromLE(src[1..5]) * 24 + src[5])
          + ([COLON] + Two(src[6]) + [COLON] + Two(src[7]) + fraction)))
      case other => other
  }

  function FirstColon(b: seq<byte>): (k: nat)
    ensures k <= |b|
  {
    if b == [] || b[0] == 58 then 0 else 1 + FirstColon(b[1..])
  }

  /** What a text of the form [-]H..H:MM:SS[.fraction] says. */
  datatype Reading = Reading(neg: bool, hours: nat, min: nat, sec: nat, nsec: nat) | Unreadable

  function ReadTime(b: seq<byte>): Reading
  {
    if b != [] && b[0] == 45 then ReadUnsigned(b[1..], true) else ReadUnsigned(b, false)
  }

  function ReadUnsigned(c: seq<byte>, neg: bool): Reading
  {
    var k := FirstColon(c);
    if |c| < k + 6 || c[k + 3] != 58 then Unreadable
    else
      match (Decimal(c[..k]), ParseByte2Digits(c[k + 1], c[k + 2]), ParseByte2Digits(c[k + 4], c[k + 5]),
        Fraction(c[k + 6..]))
      case (Some(h), Some(m), Some(s), Some(ns)) => Reading(neg, h, m, s, ns)
      case _ => Unreadable
  }

  function Fraction(f: seq<byte>): Option<nat>
  {
    if f == [] then Some(0)
    else if f[0] == 46 && |f| <= 7 then NanoSec(f[1..])
    else None
  }

  lemma {:induction false} DecimalOfDigits(n: nat)
    ensures Decimal(Digits(n)) == Some(n)
  {
    if n < 10 {
      assert Digits(n)[..0] == [];
      assert Decimal([]) == Some(0);
    } else {
      DigitsSnoc(n);
      DecimalOfDigits(n / 10);
    }
  }

  lemma {:induction false} DecimalOfTwo(n: nat)
    requires n < 100
    ensures Decimal(Two(n)) == Some(n)
  {
    var b := Two(n);
    assert Decimal([]) == Some(0);
    assert b[..1][..0] == [];
    assert Decimal(b[..1]) == Some(n / 10);
  }

  lemma {:induction false} HoursRead(h: nat)
    ensures Decimal(HoursText(h)) == Some(h) && HoursText(h)[0] != DASH
    ensures forall c | c in HoursText(h) :: c != COLON
  {
    hide Digits, Decimal;
    if h >= 100 {
      DecimalOfDigits(h);
      assert Digits(h)[0] in Digits(h);
    } else {
      DecimalOfTwo(h);
    }
  }

  lemma {:induction false} FirstColonAt(a: seq<byte>, rest: seq<byte>)
    requires forall c | c in a :: c != COLON
    ensures FirstColon(a + ([COLON] + rest)) == |a|
  {
    var b := a + ([COLON] + rest);
    if a != [] {
      assert b[0] == a[0] && a[0] in a;
      assert b[1..] == a[1..] + ([COLON] + rest);
      assert forall c | c in a[1..] :: c in a;
      FirstColonAt(a[1..], rest);
    }
  }

  lemma {:induction false} UnsignedReads(h: nat, m: nat, s: nat, f: seq<byte>, ns: nat, neg: bool)
    requires m < 100 && s < 100 && Fraction(f) == Some(ns)
    ensures ReadUnsigned(HoursText(h) + ([COLON] + Two(m) + [COLON] + Two(s) + f), neg) == Reading(neg, h, m, s, ns)
  {
    hide Decimal, Fraction, HoursText, FirstColon;
    var a := HoursText(h);
    var rest := Two(m) + [COLON] + Two(s) + f;
    var c := a + ([COLON] + Two(m) + [COLON] + Two(s) + f);
    assert [COLON] + Two(m) + [COLON] + Two(s) + f == [COLON] + rest;
    HoursRead(h);
    FirstColonAt(a, rest);
    assert c[..|a|] == a && c[|a| + 6..] == f;
    TwoDigits(m);
    TwoDigits(s);
  }

  lemma {:induction false} FractionReads(text: Text, d: int, micro: nat)
    requires d <= 6 && d != 0 && FractionOf(text, d, micro)
    ensures Fraction(text.bytes) == Some(if d < 0 then 0 else KeepDecimals(micro, d) * 1000)
  {
    hide NanoSec, KeepDecimals;
  }

  lemma {:induction false} SpanFields(v: Span, micros: bool)
    requires ValidSpan(v) && (!micros ==> v.micro == 0)
    ensures var s := BinarySpan(v, micros);
            && s[0] == (if v.neg then 1 else 0) && FromLE(s[1..5]) == v.days
            && s[5] == v.hours && s[6] == v.min && s[7] == v.sec
            && s[8..] == if micros then LE(v.micro, 4) else []
    ensures FromLE(LE(v.micro, 4)) == v.micro
  {
    hide LE, FromLE;
    LERoundTrip(v.days, 4);
    PowersOf256();
    LERoundTrip(v.micro, 4);
    assert BinarySpan(v, micros)[1..5] == LE(v.days, 4);
  }

  function ReadingOf(v: Span, length: nat): Reading
  {
    Reading(v.neg, 24 * v.days + v.hours, v.min, v.sec,
            if length == 8 then 0 else KeepDecimals(v.micro, length - 9) * 1000)
  }

  predicate Says(t: Text, r: Reading)
  {
    t.Text? && ReadTime(t.bytes) == r
  }

  /** The text of a TIME value says its sign, all its hours (days included), its minutes and
      seconds, and its microseconds cut to the decimals asked for. */
  lemma {:induction false} SpanReadsBack(v: Span, micros: bool, length: nat)
    requires ValidSpan(v) && (!micros ==> v.micro == 0)
    requires length == 8 || 10 <= length <= 15
    ensures Says(FormatBinaryTime(BinarySpan(v, micros), length), ReadingOf(v, length))
  {
    hide LE, FromLE, Decimal, Fraction, HoursText, FirstColon, Microsecs, FractionOf, KeepDecimals, ReadUnsigned, Two,
      BinarySpan;
    var src := BinarySpan(v, micros);
    SpanFields(v, micros);
    var micro := FromLE(src[8..]);
    assert micro == v.micro by {
      if !micros {
        assert FromLE([]) == 0 by { NoBytes(); }
      }
    }
    MicrosecsFraction(src[8..], length - 9);
    var f := Microsecs(src[8..], length - 9);
    FractionReads(f, length - 9, v.micro);
    assert f.Text? by { IsText(f, length - 9, v.micro); }
    var h := v.days * 24 + v.hours;
    var ns := if length == 8 then 0 else KeepDecimals(v.micro, length - 9) * 1000;
    UnsignedReads(h, v.min, v.sec, f.bytes, ns, v.neg);
    var tail := [COLON] + Two(v.min) + [COLON] + Two(v.sec) + f.bytes;
    HoursRead(h);
    if v.neg {
      TailOf(DASH, HoursText(h) + tail);
    } else {
      assert [] + (HoursText(h) + tail) == HoursText(h) + tail;
    }
  }

  /** The text of the empty value says zero. */
  lemma {:induction false} ZeroReads(length: nat)
    requires length == 8 || 10 <= length <= 15
    ensures var t := FormatBinaryTime([], length);
            t.Text? && |t.bytes| == length && ReadTime(t.bytes) == Reading(false, 0, 0, 0, 0)
  {
    var f := ZeroDateTime(19, 11 + length);
    ZeroFractionReads(length);
    ZeroText(length);
    hide ReadUnsigned, Fraction, Two, ZeroDateTime;
    UnsignedReads(0, 0, 0, f, 0, false);
  }

  lemma {:induction false} ZeroText(length: nat)
    requires length == 8 || 10 <= length <= 15
    ensures ZeroDateTime(11, 11 + length)
            == HoursText(0) + ([COLON] + Two(0) + [COLON] + Two(0) + ZeroDateTime(19, 11 + length))
    ensures ZeroDateTime(11, 11 + length)[0] != DASH
  {
    var z, f := ZeroDateTime(11, 11 + length), ZeroDateTime(19, 11 + length);
    var c := HoursText(0) + ([COLON] + Two(0) + [COLON] + Two(0) + f);
    assert forall k | 8 <= k < length :: z[k] == f[k - 8] == c[k];
    assert forall k | 0 <= k < 8 :: z[k] == c[k];
  }

  lemma {:induction false} ZeroFractionReads(length: nat)
    requires length == 8 || 10 <= length <= 15
    ensures Fraction(ZeroDateTime(19, 11 + length)) == Some(0)
  {
    hide NanoSec;
    if length > 8 {
      ZeroFraction(length - 9);
    }
  }

  lemma {:induction false} NoBytes()
    ensures FromLE([]) == 0
  {}

  lemma {:induction false} IsText(text: Text, d: int, micro: nat)
    requires d <= 6 && FractionOf(text, d, micro)
    ensures text.Text?
  {}
}
