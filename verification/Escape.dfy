// Escaping strings for SQL text (mysql/utils.go: reserveBuffer and the four escape functions),
// and reading string literals as section 9.1.1 "String Literals" of the MySQL Reference Manual
// says, with and without the SQL mode NO_BACKSLASH_ESCAPES.
module Escape {
  import opened Bytes
  import opened GoSlice

  const NUL: byte := 0
  const NEWLINE: byte := 10
  const RETURN: byte := 13
  const CTRL_Z: byte := 26
  const DOUBLE_QUOTE: byte := 34
  const QUOTE: byte := 39
  const BACKSLASH: byte := 92

  /** One byte, escaped in either way. */
  function EscapeByte(c: byte, backslash: bool): (e: seq<byte>)
    ensures 1 <= |e| <= 2
  {
    if !backslash then (if c == QUOTE then [QUOTE, QUOTE] else [c])
    else if c == NUL then [BACKSLASH, 48]
    else if c == NEWLINE then [BACKSLASH, 110]
    else if c == RETURN then [BACKSLASH, 114]
    else if c == CTRL_Z then [BACKSLASH, 90]
    else if c == QUOTE || c == DOUBLE_QUOTE || c == BACKSLASH then [BACKSLASH, c]
    else [c]
  }

  function Escaped(v: seq<byte>, backslash: bool): (e: seq<byte>)
    ensures |e| <= 2 * |v|
  {
    if v == [] then [] else Escaped(v[..|v| - 1], backslash) + EscapeByte(v[|v| - 1], backslash)
  }

  /** The first len(buf)+appendSize bytes of buf's array, or of a larger copy. */
  method ReserveBuffer(buf: Slice, appendSize: nat) returns (r: Slice)
    requires buf.Valid()
    ensures r.Valid() && r.len == buf.len + appendSize && r.Contents()[..buf.len] == buf.Contents()
    ensures if buf.len + appendSize <= buf.Cap() then r.arr == buf.arr && r.off == buf.off
            else fresh(r.arr) && r.off == 0 && r.arr.Length == 2 * buf.len + appendSize
  {
    var newSize := buf.len + appendSize;
    if buf.Cap() < newSize {
      var newBuf := new byte[buf.len * 2 + appendSize];
      forall k | 0 <= k < buf.len {
        newBuf[k] := buf.arr[buf.off + k];
      }
      assert newBuf[..buf.len] == buf.Contents();
      return Slice(newBuf, 0, newSize);
    }
    return Slice(buf.arr, buf.off, newSize);
  }

  /** Writes the escaped form of c at position pos of the slice. */
  method PutEscaped(buf: Slice, pos: nat, c: byte, backslash: bool) returns (next: nat)
    requires buf.Valid() && pos + 2 <= buf.len
    modifies buf.arr
    ensures next == pos + |EscapeByte(c, backslash)|
    ensures buf.arr[buf.off..buf.off + next] == old(buf.arr[buf.off..buf.off + pos]) + EscapeByte(c, backslash)
    ensures forall k | 0 <= k < buf.arr.Length && !(buf.off + pos <= k < buf.off + next)
            :: buf.arr[k] == old(buf.arr[k])
  {
    var a, at := buf.arr, buf.off + pos;
    ghost var before := a[buf.off..at];
    var e := EscapeByte(c, backslash);
    a[at] := e[0];
    if |e| == 2 {
      a[at + 1] := e[1];
    }
    next := pos + |e|;
    assert a[buf.off..at] == before && a[at..at + |e|] == e;
    assert a[buf.off..buf.off + next] == a[buf.off..at] + a[at..at + |e|];
  }

  /** The loop over the bytes of v, from position pos of the slice on. */
  method EscapeLoop(b: Slice, pos0: nat, v: seq<byte>, backslash: bool) returns (pos: nat)
    requires b.Valid() && pos0 + 2 * |v| <= b.len
    modifies b.arr
    ensures pos0 <= pos <= pos0 + 2 * |v|
    ensures b.arr[b.off..b.off + pos] == old(b.arr[b.off..b.off + pos0]) + Escaped(v, backslash)
    ensures forall k | 0 <= k < b.arr.Length && !(b.off + pos0 <= k < b.off + pos0 + 2 * |v|) ::
              b.arr[k] == old(b.arr[k])
  {
    hide EscapeByte, Escaped;
    ghost var start := b.arr[b.off..b.off + pos0];
    pos := pos0;
    EscapedNothing(start, backslash);
    for i := 0 to |v|
      invariant pos0 <= pos <= pos0 + 2 * i
      invariant b.arr[b.off..b.off + pos] == start + Escaped(v[..i], backslash)
      invariant forall k | 0 <= k < b.arr.Length && !(b.off + pos0 <= k < b.off + pos) :: b.arr[k] == old(b.arr[k])
    {
      EscapedSnoc(start, v, i, backslash);
      pos := PutEscaped(b, pos, v[i], backslash);
    }
    assert v[..|v|] == v;
  }

  /** escapeBytesBackslash and escapeStringBackslash (backslash), escapeBytesQuotes and
      escapeStringQuotes (!backslash): the escaped bytes are appended in place; at most twice
      the input is written, behind the slice and nowhere else. */
  method EscapeTo(buf: Slice, v: seq<byte>, backslash: bool) returns (r: Slice)
    requires buf.Valid()
    modifies buf.arr
    ensures r.Valid() && r.Contents() == old(buf.Contents()) + Escaped(v, backslash)
    ensures r.len <= buf.len + 2 * |v|
    ensures if buf.len + 2 * |v| <= buf.Cap() then r.arr == buf.arr && r.off == buf.off
            else fresh(r.arr) && r.off == 0 && buf.arr[..] == old(buf.arr[..])
    ensures forall k | 0 <= k < buf.arr.Length && !(buf.off + buf.len <= k < buf.off + buf.len + 2 * |v|) ::
              buf.arr[k] == old(buf.arr[k])
  {
    hide EscapeByte, Escaped;
    var pos := buf.len;
    var b := ReserveBuffer(buf, |v| * 2);
    assert b.arr[b.off..b.off + pos] == b.Contents()[..pos];
    pos := EscapeLoop(b, pos, v, backslash);
    r := Slice(b.arr, b.off, pos);
  }

  lemma {:induction false} EscapedNothing(start: seq<byte>, backslash: bool)
    ensures start == start + Escaped([], backslash)
  {}

  lemma {:induction false} EscapedSnoc(start: seq<byte>, v: seq<byte>, i: nat, backslash: bool)
    requires i < |v|
    ensures start + Escaped(v[..i + 1], backslash) == start + Escaped(v[..i], backslash) + EscapeByte(v[i], backslash)
  {
    assert v[..i + 1][..i] == v[..i];
    assert start + (Escaped(v[..i], backslash) + EscapeByte(v[i], backslash))
        == start + Escaped(v[..i], backslash) + EscapeByte(v[i], backslash);
  }

  // ---------------------------------------------------------------------------------------
  // Reading a literal, from behind its opening quote

  datatype Lexed = Literal(value: seq<byte>, rest: seq<byte>) | Unterminated

  /** What a backslash and c stand for. */
  function Unescape(c: byte): seq<byte>
  {
    if c == 48 then [0]                             // \0
    else if c == 98 then [8]                        // \b
    else if c == 110 then [10]                      // \n
    else if c == 114 then [13]                      // \r
    else if c == 116 then [9]                       // \t
    else if c == 90 then [26]                       // \Z
    else if c == 37 || c == 95 then [92, c]         // \% and \_ keep their backslash
    else [c]
  }

  function Prepend(v: seq<byte>, l: Lexed): Lexed
  {
    match l
    case Literal(value, rest) => Literal(v + value, rest)
    case Unterminated => Unterminated
  }

  /** 39 is the quote and 92 the backslash. */
  function Lex(s: seq<byte>, backslash: bool): Lexed
    decreases |s|
  {
    if s == [] then Unterminated
    else if s[0] == 39 then
      if |s| > 1 && s[1] == 39 then Prepend([39], Lex(s[2..], backslash)) else Literal([], s[1..])
    else if backslash && s[0] == 92 then
      if |s| == 1 then Unterminated else Prepend(Unescape(s[1]), Lex(s[2..], backslash))
    else Prepend([s[0]], Lex(s[1..], backslash))
  }

  /** With backslashes exactly NUL, newline, carriage return, control-Z, the quotes and the
      backslash are escaped, and none of the first four stands in the escaped text; without,
      exactly the single quote is. */
  lemma {:induction false} SpecialBytes(c: byte)
    ensures EscapeByte(c, true) == [c] <==>
              !(c == 0 || c == 10 || c == 13 || c == 26 || c == 34 || c == 39 || c == 92)
    ensures EscapeByte(c, true) != [c] ==> |EscapeByte(c, true)| == 2 && EscapeByte(c, true)[0] == 92
    ensures forall d | d in EscapeByte(c, true) :: d != 0 && d != 10 && d != 13 && d != 26
    ensures EscapeByte(c, false) == if c == 39 then [39, 39] else [c]
  {
    var e := EscapeByte(c, true);
    assert |e| == 1 ==> e == [c];
  }

  lemma {:induction false} LexByte(c: byte, t: seq<byte>, backslash: bool)
    ensures Lex(EscapeByte(c, backslash) + t, backslash) == Prepend([c], Lex(t, backslash))
  {
    var e := EscapeByte(c, backslash);
    assert (e + t)[|e|..] == t;
  }

  lemma {:induction false} LexEscaped(v: seq<byte>, t: seq<byte>, backslash: bool)
    ensures Lex(Escaped(v, backslash) + t, backslash) == Prepend(v, Lex(t, backslash))
  {
    if v == [] {
      assert [] + t == t;
      assert Lex(t, backslash).Literal? ==> [] + Lex(t, backslash).value == Lex(t, backslash).value;
    } else {
      hide Lex, EscapeByte;
      var u, c := v[..|v| - 1], v[|v| - 1];
      assert v == u + [c];
      var t' := EscapeByte(c, backslash) + t;
      assert Escaped(v, backslash) + t == Escaped(u, backslash) + t';
      LexEscaped(u, t', backslash);
      LexByte(c, t, backslash);
      PrependTwice(u, [c], Lex(t, backslash));
    }
  }

  lemma {:induction false} PrependTwice(a: seq<byte>, b: seq<byte>, l: Lexed)
    ensures Prepend(a, Prepend(b, l)) == Prepend(a + b, l)
  {
    if l.Literal? {
      assert a + (b + l.value) == (a + b) + l.value;
    }
  }

  /** An escaped string between quotes reads back as the string, in the matching mode, with the
      exact remainder: if and only if the remainder does not start with a quote. */
  lemma {:induction false} EscapedReadsBack(v: seq<byte>, rest: seq<byte>, backslash: bool)
    ensures Lex(Escaped(v, backslash) + [QUOTE] + rest, backslash) == Literal(v, rest)
            <==> rest == [] || rest[0] != QUOTE
  {
    hide EscapeByte, Escaped;
    var t := [QUOTE] + rest;
    assert Escaped(v, backslash) + [QUOTE] + rest == Escaped(v, backslash) + t;
    LexEscaped(v, t, backslash);
    assert t[1..] == rest;
    if rest == [] || rest[0] != QUOTE {
      assert Lex(t, backslash) == Literal([], rest);
      assert v + [] == v;
    } else {
      assert Lex(t, backslash) == Prepend([QUOTE], Lex(t[2..], backslash));
    }
  }

  /** The two modes cannot be exchanged: read in the other one, some escaped strings change. */
  lemma ModesMustMatch()
    ensures Lex(Escaped([BACKSLASH], true) + [QUOTE], false) != Literal([BACKSLASH], [])
    ensures Lex(Escaped([BACKSLASH], false) + [QUOTE], true) != Literal([BACKSLASH], [])
  {
    assert [BACKSLASH][..0] == [];
    assert Escaped([BACKSLASH], true) == [BACKSLASH, BACKSLASH];
    assert Escaped([BACKSLASH], false) == [BACKSLASH];
    var s: seq<byte> := [BACKSLASH, BACKSLASH, QUOTE];
    assert Escaped([BACKSLASH], true) + [QUOTE] == s;
    assert s[1..][1..] == [QUOTE];
    assert [QUOTE][1..] == [];
    assert Lex([QUOTE], false) == Literal([], []);
    assert Lex(s[1..], false) == Prepend([BACKSLASH], Literal([], []));
    var t: seq<byte> := [BACKSLASH, QUOTE];
    assert Escaped([BACKSLASH], false) + [QUOTE] == t;
    assert t[2..] == [];
    assert Lex(t, true) == Unterminated;
  }
}
