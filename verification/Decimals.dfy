// Decimal text of integers: uint64ToString and stringToInt (mysql/utils.go), and the strconv
// forms the driver prints (strconv.AppendInt, strconv.AppendUint).
module Decimals {
  import opened Bytes
  import opened LenEnc

  const MINUS: byte := 45

  /** The decimal digits of n, most significant first. */
  function Digits(n: nat): (s: seq<byte>)
    ensures |s| > 0 && forall c | c in s :: 48 <= c <= 57
  {
    if n < 10 then [48 + n] else Digits(n / 10) + [48 + n % 10]
  }

  /** strconv.AppendInt in base 10. */
  function SignedDigits(i: int): seq<byte>
  {
    if i < 0 then [MINUS] + Digits(-i) else Digits(i)
  }

  /** int(c - 0x30), a byte subtraction. */
  function DigitOf(c: int): nat
  {
    (c - 48) % 256
  }

  /** The number a run of bytes stands for when every byte counts as its digit. */
  function Value(b: seq<byte>): nat
  {
    if b == [] then 0 else 10 * Value(b[..|b| - 1]) + DigitOf(b[|b| - 1])
  }

  function SignedValue(b: seq<byte>): int
  {
    if b != [] && b[0] == 45 then 0 - Value(b[1..]) else Value(b)
  }

  lemma {:induction false} DigitsSnoc(n: nat)
    requires n >= 10
    ensures Digits(n) == Digits(n / 10) + [48 + n % 10]
    ensures Digits(n)[..|Digits(n)| - 1] == Digits(n / 10) && Digits(n)[|Digits(n)| - 1] == 48 + n % 10
  {}

  lemma {:induction false} OneDigit(n: nat)
    requires n < 10
    ensures Digits(n) == [48 + n]
  {}

  lemma {:induction false} DigitsRoundTrip(n: nat)
    ensures Value(Digits(n)) == n
  {
    if n < 10 {
      assert Digits(n)[..0] == [];
    } else {
      DigitsSnoc(n);
      DigitsRoundTrip(n / 10);
    }
  }

  lemma {:induction false} SignedDigitsRoundTrip(i: int)
    ensures SignedValue(SignedDigits(i)) == i && (SignedDigits(i)[0] == 45 <==> i < 0)
  {
    hide Digits, Value;
    assert i >= 0 ==> Digits(i)[0] in Digits(i);
    DigitsRoundTrip(if i < 0 then -i else i);
    if i < 0 {
      assert SignedDigits(i)[1..] == Digits(-i);
    } else {
      assert Digits(i)[0] in Digits(i);
    }
  }

  /** No leading zero: the text is the shortest one. */
  lemma {:induction false} NoLeadingZero(n: nat)
    ensures Digits(n)[0] == 48 <==> n == 0
  {
    if n >= 10 {
      NoLeadingZero(n / 10);
    }
  }

  function Power10(k: nat): (p: nat)
    ensures p > 0
  {
    if k == 0 then 1 else 10 * Power10(k - 1)
  }

  lemma {:induction false} DigitsCount(n: nat, k: nat)
    requires n < Power10(k) && k > 0
    ensures |Digits(n)| <= k
  {
    if n >= 10 {
      assert n < 10 * Power10(k - 1);
      DigitsCount(n / 10, k - 1);
    }
  }

  lemma {:induction false} Uint64HasTwentyDigits()
    ensures MAX_UINT64 < Power10(20)
  {
    FiveMore(0);
    FiveMore(5);
    FiveMore(10);
    FiveMore(15);
  }

  lemma {:induction false} FiveMore(k: nat)
    ensures Power10(k + 5) == 100000 * Power10(k)
  {
    assert Power10(k + 5) == 10 * Power10(k + 4) && Power10(k + 4) == 10 * Power10(k + 3);
    assert Power10(k + 3) == 10 * Power10(k + 2) && Power10(k + 2) == 10 * Power10(k + 1);
  }

  /** One digit in front of those that are there. */
  method PutDigit(a: array<byte>, i: nat, d: nat)
    requires i < a.Length && d < 10
    modifies a
    ensures a[i..] == [48 + d] + old(a[i + 1..])
  {
    a[i] := d + 0x30;
    assert a[i..] == [48 + d] + a[i + 1..];
  }

  /** uint64ToString: fills a 20-byte array from its end. */
  method Uint64ToString(n0: nat) returns (s: seq<byte>)
    requires n0 <= MAX_UINT64
    ensures s == Digits(n0) && (s[0] == 48 <==> n0 == 0)
  {
    var a := new byte[20];
    var i := 20;
    var n := n0;
    Uint64HasTwentyDigits();
    DigitsCount(n0, 20);
    NoLeadingZero(n0);
    hide Digits, Power10;
    while n >= 10
      invariant 0 < i <= 20 && |Digits(n)| <= i
      invariant Digits(n0) == Digits(n) + a[i..]
    {
      DigitsSnoc(n);
      Regroup(Digits(n / 10), [48 + n % 10], a[i..]);
      i := i - 1;
      var q := n / 10;
      PutDigit(a, i, n - q * 10);
      n := q;
    }
    OneDigit(n);
    i := i - 1;
    PutDigit(a, i, n);
    s := a[i..];
  }

  lemma {:induction false} Regroup(a: seq<byte>, b: seq<byte>, c: seq<byte>)
    ensures a + b + c == a + (b + c)
  {}

  /** A Go int after arithmetic that may overflow. */
  function WrapInt(v: int): int
  {
    var u := v % 0x1_0000_0000_0000_0000;
    if u > MAX_INT64 then u - 0x1_0000_0000_0000_0000 else u
  }

  /** Bytes and Go ints are their values modulo 2^8 and 2^64. */
  lemma {:induction false} WrapsAround(v: int)
    ensures DigitOf(v) < 256 && (DigitOf(v) - (v - 0x30)) % 256 == 0
    ensures (WrapInt(v) - v) % 0x1_0000_0000_0000_0000 == 0
    ensures -0x8000_0000_0000_0000 <= WrapInt(v) < 0x8000_0000_0000_0000
  {}

  lemma {:induction false} WrapStep(v: int, d: int)
    ensures WrapInt(WrapInt(WrapInt(v) * 10) + d) == WrapInt(10 * v + d)
  {
    hide WrapInt;
    var k := Wraps(v);
    var j := Wraps(WrapInt(v) * 10);
    WrapMultiple(10 * v + d, 10 * k + j);
  }

  lemma {:induction false} Wraps(v: int) returns (k: int)
    ensures WrapInt(v) == v + 0x1_0000_0000_0000_0000 * k
  {
    var m := 0x1_0000_0000_0000_0000;
    assert v == m * (v / m) + v % m;
    k := if v % m > MAX_INT64 then 0 - v / m - 1 else 0 - v / m;
  }

  lemma {:induction false} WrapMultiple(v: int, k: int)
    ensures WrapInt(v + 0x1_0000_0000_0000_0000 * k) == WrapInt(v)
  {
    var m := 0x1_0000_0000_0000_0000;
    var q, q' := v / m, (v + m * k) / m;
    assert v + m * k == m * q' + (v + m * k) % m;
    assert v == m * q + v % m;
    assert m * (q' - q - k) == v % m - (v + m * k) % m;
  }

  /** stringToInt: exact as long as the number fits a Go int, the low 64 bits beyond. */
  method StringToInt(b: seq<byte>) returns (val: int)
    ensures val == WrapInt(Value(b))
    ensures forall n: nat | b == Digits(n) :: val == n <==> n <= 0x7fff_ffff_ffff_ffff
  {
    hide Digits;
    val := 0;
    for i := 0 to |b|
      invariant val == WrapInt(Value(b[..i]))
    {
      WrapStep(Value(b[..i]), DigitOf(b[i]));
      assert b[..i + 1][..i] == b[..i];
      val := WrapInt(val * 10);
      val := WrapInt(val + DigitOf(b[i]));
    }
    assert b[..|b|] == b;
    forall n: nat | b == Digits(n)
      ensures val == n <==> n <= 0x7fff_ffff_ffff_ffff
    {
      DigitsRoundTrip(n);
    }
  }
}
