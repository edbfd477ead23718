// Length-encoded integers and strings (mysql/utils.go).
module LenEnc {
  import opened Bytes

  const MAX_UINT64: nat := 0xffff_ffff_ffff_ffff
  const MAX_INT64: nat := 0x7fff_ffff_ffff_ffff

  /** What readLengthEncodedInteger returns; Panic is an index out of range. */
  datatype LenInt = LenInt(num: nat, isNull: bool, n: nat) | IntPanic

  function ReadLengthEncodedInteger(b: seq<byte>): LenInt
  {
    if b == [] then LenInt(0, true, 1)
    else if b[0] == 0xfb then LenInt(0, true, 1)
    else if b[0] == 0xfc then
      if |b| < 3 then IntPanic else LenInt(FromLE(b[1..3]), false, 3)
    else if b[0] == 0xfd then
      if |b| < 4 then IntPanic else LenInt(FromLE(b[1..4]), false, 4)
    else if b[0] == 0xfe then
      if |b| < 9 then IntPanic else LenInt(FromLE(b[1..9]), false, 9)
    else LenInt(b[0], false, 1)
  }

  /** The bytes appendLengthEncodedInteger adds. */
  function LenEncInt(n: nat): (r: seq<byte>)
    requires n <= MAX_UINT64
    ensures |r| >= 1 && r[0] != 0xfb && r[0] != 0xff
    ensures r[0] == 0xfe <==> n > 0xff_ffff
    ensures r[0] == 0 <==> n == 0
    ensures r[0] == 0xfe ==> |r| == 9
  {
    if n <= 250 then [n]
    else if n <= 0xffff then [0xfc] + LE(n, 2)
    else if n <= 0xff_ffff then [0xfd] + LE(n, 3)
    else [0xfe] + LE(n, 8)
  }

  /** Reading undoes appending, whatever follows, and reports the exact width. */
  lemma LenEncIntRoundTrip(n: nat, suffix: seq<byte>)
    requires n <= MAX_UINT64
    ensures ReadLengthEncodedInteger(LenEncInt(n) + suffix) == LenInt(n, false, |LenEncInt(n)|)
  {
    PowersOf256();
    var b := LenEncInt(n) + suffix;
    if n <= 250 {
    } else if n <= 0xffff {
      LERoundTrip(n, 2);
      assert b[1..3] == LE(n, 2);
    } else if n <= 0xff_ffff {
      LERoundTrip(n, 3);
      assert b[1..4] == LE(n, 3);
    } else {
      LERoundTrip(n, 8);
      assert b[1..9] == LE(n, 8);
    }
  }

  /** No other bytes that say n are shorter. (readLengthEncodedInteger takes 0xff for 255, too; a
      server never sends it as an integer.) */
  lemma LenEncIntIsShortest(b: seq<byte>)
    requires b != [] && b[0] != 0xff
    ensures match ReadLengthEncodedInteger(b)
            case LenInt(n, isNull, k) => n <= MAX_UINT64 && (!isNull ==> |LenEncInt(n)| <= k)
            case IntPanic => true
  {
    PowersOf256();
  }

  /** Whatever is read fits 64 bits and has one of the widths 1 to 9; an index panic needs an
      input that is cut off. */
  lemma ReadIntWidth(b: seq<byte>)
    ensures match ReadLengthEncodedInteger(b)
            case LenInt(num, isNull, n) => num <= MAX_UINT64 && 1 <= n <= 9 && (isNull ==> num == 0 && n == 1)
            case IntPanic => 1 <= |b| < 9
  {
    PowersOf256();
  }

  /** What readLengthEncodedString returns: the bytes (none for NULL), how far it moved,
      io.EOF when the string runs past the input, or a slice-bounds panic. */
  datatype LenStr = LenStr(value: seq<byte>, isNull: bool, n: int) | StrEof(n: int) | StrPanic

  /** The longest string whose length-encoded form still has a Go int for its length. */
  const MAX_STRING: nat := MAX_INT64 - 9

  /** int(num): a 64-bit length above 2^63-1 turns negative. */
  function GoInt(num: nat): (i: int)
    requires num <= MAX_UINT64
    ensures i % 0x1_0000_0000_0000_0000 == num && -0x8000_0000_0000_0000 <= i < 0x8000_0000_0000_0000
  {
    if num <= MAX_INT64 then num else num - 0x1_0000_0000_0000_0000
  }

  /** n + int(num), which overflows for lengths close to 2^63-1. */
  function GoEnd(n: nat, num: nat): (end: int)
    requires num <= MAX_UINT64 && n <= 9
    ensures (end - n - num) % 0x1_0000_0000_0000_0000 == 0 && -0x8000_0000_0000_0000 <= end < 0x8000_0000_0000_0000
  {
    var end := n + GoInt(num);
    if end <= MAX_INT64 then end else end - 0x1_0000_0000_0000_0000
  }

  function ReadLengthEncodedString(b: seq<byte>): LenStr
  {
    ReadIntWidth(b);
    match ReadLengthEncodedInteger(b)
    case IntPanic => StrPanic
    case LenInt(num, isNull, n) =>
      if num < 1 then
        LenStr([], isNull, n)       // b[n:n], past the end of an empty b but within its capacity
      else
        var end := GoEnd(n, num);
        if |b| < end then StrEof(end)
        else if end < n then StrPanic                               // b[n:end] with end < n
        else LenStr(b[n..end], false, end)
  }

  function SkipLengthEncodedString(b: seq<byte>): LenStr
  {
    ReadIntWidth(b);
    match ReadLengthEncodedInteger(b)
    case IntPanic => StrPanic
    case LenInt(num, _, n) =>
      if num < 1 then LenStr([], false, n)
      else
        var end := GoEnd(n, num);
        if |b| < end then StrEof(end) else LenStr([], false, end)
  }

  datatype Nullable = Null | Val(bytes: seq<byte>)

  /** ProtocolText::ResultsetRow: 0xfb for NULL, else a length-encoded string. */
  function LenEncStr(v: Nullable): (r: seq<byte>)
    requires v.Val? ==> |v.bytes| <= MAX_STRING
    ensures |r| >= 1 && r[0] != 0xff
  {
    match v
    case Null => [0xfb]
    case Val(s) => LenEncInt(|s|) + s
  }

  /** A length-encoded string is read back with exact consumption, whatever follows. */
  lemma LenEncStrRoundTrip(v: Nullable, suffix: seq<byte>)
    requires v.Val? ==> |v.bytes| <= MAX_STRING
    ensures ReadLengthEncodedString(LenEncStr(v) + suffix)
         == LenStr(if v.Val? then v.bytes else [], v.Null?, |LenEncStr(v)|)
  {
    if v.Val? {
      var head := LenEncInt(|v.bytes|);
      assert LenEncStr(v) + suffix == head + (v.bytes + suffix);
      LenEncIntRoundTrip(|v.bytes|, v.bytes + suffix);
      var b := head + (v.bytes + suffix);
      assert b[|head|..|head| + |v.bytes|] == v.bytes;
    }
  }

  /** skipLengthEncodedString moves exactly as far as readLengthEncodedString, on every input
      on which the latter returns. */
  lemma SkipAgreesWithRead(b: seq<byte>)
    requires !ReadLengthEncodedString(b).StrPanic?
    ensures match ReadLengthEncodedString(b)
            case LenStr(_, _, n) => SkipLengthEncodedString(b).LenStr? && SkipLengthEncodedString(b).n == n
            case StrEof(n) => SkipLengthEncodedString(b) == StrEof(n)
  {}
}
