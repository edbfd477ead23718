// Bytes and the little-endian integers of the MySQL wire format.
module Bytes {

  type byte = b: int | 0 <= b < 256

  function Pow256(k: nat): (p: nat)
    ensures p > 0
  {
    if k == 0 then 1 else 256 * Pow256(k - 1)
  }

  /** The k low-order bytes of n, least significant first: what a Go expression list
      byte(n), byte(n >> 8), ... writes. */
  function LE(n: nat, k: nat): (s: seq<byte>)
    ensures |s| == k
  {
    if k == 0 then [] else [n % 256] + LE(n / 256, k - 1)
  }

  /** The number a run of bytes stands for, least significant first. The Go code joins the
      bytes with | after shifting; the shifted bytes never overlap, so | is +. */
  function FromLE(s: seq<byte>): (n: nat)
    ensures n < Pow256(|s|)
  {
    if s == [] then 0 else s[0] + 256 * FromLE(s[1..])
  }

  lemma {:induction false} LERoundTrip(n: nat, k: nat)
    requires n < Pow256(k)
    ensures FromLE(LE(n, k)) == n
  {
    if k > 0 {
      LERoundTrip(n / 256, k - 1);
      assert LE(n, k)[1..] == LE(n / 256, k - 1);
    }
  }

  lemma {:induction false} FromLERoundTrip(s: seq<byte>)
    ensures LE(FromLE(s), |s|) == s
  {
    if s != [] {
      FromLERoundTrip(s[1..]);
      LowByte(s[0], FromLE(s[1..]));
      assert s == [s[0]] + s[1..];
    }
  }

  lemma {:induction false} LowByte(c: byte, n: nat)
    ensures (c + 256 * n) % 256 == c && (c + 256 * n) / 256 == n
  {}

  lemma {:induction false} QuotientIs(b: nat, d: nat, q: nat, t: nat)
    requires d > 0 && t < d && b == d * q + t
    ensures b / d == q
  {
    var q', t' := b / d, b % d;
    assert b == d * q' + t';
    if q' < q {
      ProductGrows(d, q', q);
    } else if q' > q {
      ProductGrows(d, q, q');
    }
  }

  lemma {:induction false} ProductGrows(d: nat, a: nat, b: nat)
    requires a < b
    ensures d * a + d <= d * b
    decreases b
  {
    if b == a + 1 {
      assert d * b == d * a + d;
    } else {
      ProductGrows(d, a, b - 1);
      assert d * b == d * (b - 1) + d;
    }
  }

  lemma LE2(n: nat)
    ensures LE(n, 2) == [n % 256, n / 256 % 256]
  {
    assert LE(n / 256 / 256, 0) == [];
    assert LE(n / 256, 1) == [n / 256 % 256];
  }

  lemma LE3(n: nat)
    ensures LE(n, 3) == [n % 256, n / 256 % 256, n / 256 / 256 % 256]
  {
    LE2(n / 256);
    assert LE(n, 3) == [n % 256] + LE(n / 256, 2);
  }

  lemma PowersOf256()
    ensures Pow256(1) == 256
    ensures Pow256(2) == 0x1_0000
    ensures Pow256(3) == 0x100_0000
    ensures Pow256(4) == 0x1_0000_0000
    ensures Pow256(8) == 0x1_0000_0000_0000_0000
  {
    assert Pow256(4) == 256 * Pow256(3) && Pow256(3) == 256 * Pow256(2) && Pow256(2) == 256 * Pow256(1);
    assert Pow256(8) == 256 * Pow256(7) && Pow256(7) == 256 * Pow256(6) && Pow256(6) == 256 * Pow256(5);
    assert Pow256(5) == 256 * Pow256(4);
  }

  function Pow2(k: nat): (p: nat)
    ensures p > 0
  {
    if k == 0 then 1 else 2 * Pow2(k - 1)
  }

  /** Bit k of b: (b >> k) & 1. */
  predicate Bit(b: nat, k: nat)
  {
    b / Pow2(k) % 2 == 1
  }

  /** b | 1 << k. */
  function SetBit(b: nat, k: nat): nat
  {
    if Bit(b, k) then b else b + Pow2(k)
  }

  /** The two's complement reading of an n-byte unsigned value: intN(uintN). */
  function Signed(u: nat, k: nat): int
    requires u < Pow256(k)
  {
    if 2 * u < Pow256(k) then u else u - Pow256(k)
  }

  /** uintN(intN): the n-byte pattern of a signed value. */
  function Unsigned(v: int, k: nat): (u: nat)
    requires 0 - Pow256(k) <= 2 * v < Pow256(k)
    ensures u < Pow256(k)
  {
    if v >= 0 then v else v + Pow256(k)
  }

  lemma SignedRoundTrip(v: int, k: nat)
    requires 0 - Pow256(k) <= 2 * v < Pow256(k)
    ensures Signed(Unsigned(v, k), k) == v
  {}
}
