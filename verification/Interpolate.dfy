// Client-side interpolation of placeholders (mysql/connection.go: interpolateParams). The text
// of a float is a parameter of the model; a time is taken as converted to the session's zone.
module Interpolate {
  import opened Bytes
  import opened GoSlice
  import opened Buffers
  import opened LenEnc
  import opened Decimals
  import opened Escape
  import opened ExecuteFormat
  import DateTime

  const MARK: byte := 63      // '?'

  datatype Session = Session(backslash: bool, maxAllowedPacket: nat, floatText: nat -> seq<byte>)

  datatype Rendering = Shown(t: seq<byte>) | Unconvertible | YearError(year: int)

  /** What interpolateParams returns. */
  datatype Interpolated = Query(q: seq<byte>) | ErrSkip | ErrInvalidConn | ErrYear(year: int)

  function NullText(): seq<byte> { [78, 85, 76, 76] }

  function BinaryPrefix(): seq<byte> { [95, 98, 105, 110, 97, 114, 121] }

  function Quoted(v: seq<byte>, backslash: bool): seq<byte>
  {
    [QUOTE] + Escaped(v, backslash) + [QUOTE]
  }

  function OrEmpty(v: Nullable): seq<byte>
  {
    match v case Null => [] case Val(s) => s
  }

  function TimeRendering(t: DateTime.Time): Rendering
    requires DateTime.ValidTime(t)
  {
    match DateTime.AppendDateTime(t)
    case Text(b) => Shown([QUOTE] + b + [QUOTE])
    case YearOutOfRange(y) => YearError(y)
    case _ => Unconvertible
  }

  function Render(a: Arg, session: Session): Rendering
    requires InRange(a)
  {
    match a
    case Nil => Shown(NullText())
    case Int64(v) => Shown(SignedDigits(v))
    case Uint64(u) => Shown(Digits(u))
    case Float64(bits) => Shown(session.floatText(bits))
    case Bool(b) => Shown([if b then 49 else 48])
    case Time(None) => Shown([QUOTE] + DateTime.ZeroDateTime(0, 10) + [QUOTE])
    case Time(Some(t)) => TimeRendering(t)
    case RawJson(v) => Shown(Quoted(OrEmpty(v), session.backslash))
    case ByteSlice(Null) => Shown(NullText())
    case ByteSlice(Val(s)) => Shown(BinaryPrefix() + Quoted(s, session.backslash))
    case Str(s) => Shown(Quoted(s, session.backslash))
    case Unsupported => Unconvertible
  }

  predicate AllInRange(args: seq<Arg>)
  {
    forall a | a in args :: InRange(a)
  }

  /** strings.Count(query, "?"). */
  function CountMarks(s: seq<byte>): (n: nat)
    ensures n == 0 <==> MARK !in s
  {
    if s == [] then 0 else (if s[0] == MARK then 1 else 0) + CountMarks(s[1..])
  }

  /** strings.IndexByte(s, '?'). */
  function IndexMark(s: seq<byte>): (q: int)
    ensures -1 <= q < |s|
    ensures q == -1 <==> MARK !in s
    ensures q >= 0 ==> s[q] == MARK && MARK !in s[..q]
  {
    if s == [] then -1
    else if s[0] == MARK then 0
    else
      var q := IndexMark(s[1..]);
      assert s == [s[0]] + s[1..];
      if q == -1 then -1
      else
        assert s[..q + 1] == [s[0]] + s[1..][..q];
        q + 1
  }

  function Join(head: seq<byte>, r: Interpolated): Interpolated
  {
    match r
    case Query(q) => Query(head + q)
    case other => other
  }

  lemma {:induction false} MarksFrom(s: seq<byte>, q: nat)
    requires q < |s| && s[q] == MARK && MARK !in s[..q]
    ensures CountMarks(s) == 1 + CountMarks(s[q + 1..])
    decreases q
  {
    if q > 0 {
      assert s[0] in s[..q];
      assert s[1..][..q - 1] == s[..q][1..];
      MarksFrom(s[1..], q - 1);
      assert s[1..][q..] == s[q + 1..];
    }
  }

  /** The loop from some position on, when n bytes have been written. */
  function Walk(query: seq<byte>, args: seq<Arg>, n: nat, session: Session): Interpolated
    requires AllInRange(args) && CountMarks(query) == |args|
    decreases |query|
  {
    var q := IndexMark(query);
    if q == -1 then Query(query)
    else
      MarksFrom(query, q);
      assert args[0] in args;
      match Render(args[0], session)
      case Unconvertible => ErrSkip
      case YearError(y) => ErrYear(y)
      case Shown(t) =>
        var m := n + q + |t|;
        if !args[0].Nil? && m + 4 > session.maxAllowedPacket then ErrSkip
        else
          assert forall a | a in args[1..] :: a in args;
          Join(query[..q] + t, Walk(query[q + 1..], args[1..], m, session))
  }

  method AppendQuoted(buf: Slice, v: seq<byte>, backslash: bool) returns (b: Slice)
    requires buf.Valid()
    modifies buf.arr
    ensures b.Valid() && b.Contents() == old(buf.Contents()) + Quoted(v, backslash)
    ensures b.arr == buf.arr || fresh(b.arr)
  {
    hide Escaped;
    ghost var start := buf.Contents();
    b := Append(buf, [QUOTE]);
    b := EscapeTo(b, v, backslash);
    b := Append(b, [QUOTE]);
    Regroup(start, [QUOTE], Escaped(v, backslash), [QUOTE]);
  }

  lemma {:induction false} Regroup(a: seq<byte>, b: seq<byte>, c: seq<byte>, d: seq<byte>)
    ensures a + b + c + d == a + (b + c + d)
  {}

  method AppendTime(buf: Slice, t: DateTime.Time) returns (r: Rendering, b: Slice)
    requires buf.Valid() && DateTime.ValidTime(t)
    modifies buf.arr
    ensures r == TimeRendering(t) && b.Valid()
    ensures r.Shown? ==> b.Contents() == old(buf.Contents()) + r.t
    ensures b.arr == buf.arr || fresh(b.arr)
  {
    hide DateTime.AppendDateTime;
    ghost var start := buf.Contents();
    b := Append(buf, [QUOTE]);
    match DateTime.AppendDateTime(t) {
      case Text(text) =>
        b := Append(b, text);
        b := Append(b, [QUOTE]);
        r := Shown([QUOTE] + text + [QUOTE]);
        Regroup(start, [QUOTE], text, [QUOTE]);
      case YearOutOfRange(y) =>
        r := YearError(y);
      case _ =>
        r := Unconvertible;
    }
  }

  method AppendBinary(buf: Slice, v: seq<byte>, backslash: bool) returns (b: Slice)
    requires buf.Valid()
    modifies buf.arr
    ensures b.Valid() && b.Contents() == old(buf.Contents()) + (BinaryPrefix() + Quoted(v, backslash))
    ensures b.arr == buf.arr || fresh(b.arr)
  {
    hide Quoted, BinaryPrefix;
    ghost var start := buf.Contents();
    b := Append(buf, BinaryPrefix());
    b := AppendQuoted(b, v, backslash);
    assert start + BinaryPrefix() + Quoted(v, backslash) == start + (BinaryPrefix() + Quoted(v, backslash));
  }

  /** Appends one argument, if it can be rendered. */
  method AppendArg(buf: Slice, a: Arg, session: Session) returns (r: Rendering, b: Slice)
    requires buf.Valid() && InRange(a)
    modifies buf.arr
    ensures r == Render(a, session) && b.Valid()
    ensures r.Shown? ==> b.Contents() == old(buf.Contents()) + r.t
    ensures b.arr == buf.arr || fresh(b.arr)
  {
    hide Quoted, BinaryPrefix, TimeRendering, Digits, SignedDigits, NullText, DateTime.ZeroDateTime;
    b := buf;
    match a
    case Time(Some(t)) =>
      r, b := AppendTime(buf, t);
    case RawJson(v) =>
      r := Shown(Quoted(OrEmpty(v), session.backslash));
      b := AppendQuoted(buf, OrEmpty(v), session.backslash);
    case ByteSlice(Val(s)) =>
      r := Shown(BinaryPrefix() + Quoted(s, session.backslash));
      b := AppendBinary(buf, s, session.backslash);
    case Str(s) =>
      r := Shown(Quoted(s, session.backslash));
      b := AppendQuoted(buf, s, session.backslash);
    case Unsupported =>
      r := Unconvertible;
    case _ =>
      // NULL, numbers and the zero time are one append each
      r := Render(a, session);
      b := Append(buf, r.t);
  }

  /** string(buf). */
  method Finish(buf: Slice) returns (r: Interpolated)
    requires buf.Valid()
    ensures r == Query(buf.Contents())
  {
    r := Query(buf.arr[buf.off..buf.off + buf.len]);
  }

  /** One round of the loop at i: the text up to the next mark and the argument for it, or the
      rest of the query. stop tells that the loop ends with r. */
  method Round(buf: Slice, query: seq<byte>, i: nat, args: seq<Arg>, argPos: nat, session: Session)
    returns (r: Interpolated, stop: bool, b: Slice, next: nat)
    requires buf.Valid() && i <= |query| && argPos <= |args| && AllInRange(args[argPos..])
    requires CountMarks(query[i..]) == |args| - argPos
    modifies buf.arr
    ensures b.Valid() && (b.arr == buf.arr || fresh(b.arr))
    ensures var w := Join(old(buf.Contents()), Walk(query[i..], args[argPos..], buf.len, session));
            if stop then w == r
            else
              && i < next <= |query| && argPos < |args| && AllInRange(args[argPos + 1..])
              && CountMarks(query[next..]) == |args| - argPos - 1
              && w == Join(b.Contents(), Walk(query[next..], args[argPos + 1..], b.len, session))
  {
    hide CountMarks, Walk, Render, IndexMark, Join, AllInRange, InRange;
    ghost var start := buf.Contents();
    var q := IndexMark(query[i..]);
    next := i;
    MarkAt(query, i, args, argPos);
    WalkStep(query[i..], args[argPos..], buf.len, session);
    if q == -1 {
      b := Append(buf, query[i..]);
      JoinQuery(start, query[i..]);
      r := Finish(b);
      return r, true, b, i;
    }
    var arg := args[argPos];
    var shown;
    shown, b := AppendPiece(buf, query[i..i + q], arg, session);
    stop := true;
    match shown {
      case Unconvertible =>
        r := ErrSkip;
        JoinError(start, r);
      case YearError(y) =>
        r := ErrYear(y);
        JoinError(start, r);
      case Shown(t) =>
        r := ErrSkip;
        if !arg.Nil? && b.len + 4 > session.maxAllowedPacket {
          JoinError(start, r);
          return;
        }
        stop, next := false, i + q + 1;
        JoinTwice(start, query[i..i + q] + t, Walk(query[next..], args[argPos + 1..], b.len, session));
    }
  }

  /** The query up to the mark, and the argument. */
  method AppendPiece(buf: Slice, piece: seq<byte>, a: Arg, session: Session) returns (r: Rendering, b: Slice)
    requires buf.Valid() && InRange(a)
    modifies buf.arr
    ensures r == Render(a, session) && b.Valid()
    ensures r.Shown? ==> b.Contents() == old(buf.Contents()) + (piece + r.t)
    ensures b.arr == buf.arr || fresh(b.arr)
  {
    hide Render;
    ghost var start := buf.Contents();
    b := Append(buf, piece);
    r, b := AppendArg(b, a, session);
    assert r.Shown? ==> start + piece + r.t == start + (piece + r.t);
  }

  /** Positions in the query and in what is left of it. */
  lemma {:induction false} MarkAt(query: seq<byte>, i: nat, args: seq<Arg>, argPos: nat)
    requires i <= |query| && argPos <= |args|
    ensures var q := IndexMark(query[i..]);
            q >= 0 ==> query[i..i + q] == query[i..][..q] && query[i..][q + 1..] == query[i + q + 1..]
    ensures argPos < |args| ==> args[argPos..][0] == args[argPos] && args[argPos..][1..] == args[argPos + 1..]
    ensures argPos < |args| && AllInRange(args[argPos..]) ==> InRange(args[argPos])
  {
    hide IndexMark, InRange;
    assert argPos < |args| ==> args[argPos] in args[argPos..];
  }

  lemma {:induction false} JoinQuery(a: seq<byte>, q: seq<byte>)
    ensures Join(a, Query(q)) == Query(a + q)
  {}

  lemma {:induction false} JoinError(a: seq<byte>, r: Interpolated)
    requires !r.Query?
    ensures Join(a, r) == r
  {}

  lemma {:induction false} JoinTwice(a: seq<byte>, b: seq<byte>, r: Interpolated)
    ensures Join(a, Join(b, r)) == Join(a + b, r)
  {
    if r.Query? {
      assert a + (b + r.q) == a + b + r.q;
    }
  }

  /** What Walk does up to the next mark. */
  lemma {:induction false} WalkStep(query: seq<byte>, args: seq<Arg>, n: nat, session: Session)
    requires AllInRange(args) && CountMarks(query) == |args|
    ensures var q, w := IndexMark(query), Walk(query, args, n, session);
            if q == -1 then w == Query(query) && args == []
            else
              && args != [] && InRange(args[0]) && AllInRange(args[1..]) && CountMarks(query[q + 1..]) == |args| - 1
              && match Render(args[0], session)
                 case Unconvertible => w == ErrSkip
                 case YearError(y) => w == ErrYear(y)
                 case Shown(t) =>
                   if !args[0].Nil? && n + q + |t| + 4 > session.maxAllowedPacket then w == ErrSkip
                   else w == Join(query[..q] + t, Walk(query[q + 1..], args[1..], n + q + |t|, session))
  {
    hide Render, CountMarks, IndexMark, InRange, Join;
    var q := IndexMark(query);
    if q >= 0 {
      MarksFrom(query, q);
      assert args[0] in args && forall a | a in args[1..] :: a in args;
    }
  }

  /** The loop runs over the query; a mark in its last place leaves the loop with nothing to add. */
  method InterpolateParams(buf: Buffer, query: seq<byte>, args: seq<Arg>, session: Session) returns (r: Interpolated)
    requires buf.Valid() && AllInRange(args)
    modifies buf.buf
    ensures buf.Valid()
    ensures r == if CountMarks(query) != |args| then ErrSkip
                 else if buf.length > 0 then ErrInvalidConn
                 else Walk(query, args, 0, session)
  {
    hide CountMarks, Walk, Render, IndexMark;
    if CountMarks(query) != |args| {
      return ErrSkip;
    }
    var err, b := buf.TakeCompleteBuffer();
    if err != NoError {
      return ErrInvalidConn;
    }
    b := Slice(b.arr, b.off, 0);
    var argPos: nat := 0;
    var i: nat := 0;
    assert query[0..] == query && args[0..] == args;
    ghost var target := Walk(query, args, 0, session);
    JoinNothing(target);
    while i < |query|
      invariant b.Valid() && (b.arr == buf.buf || fresh(b.arr))
      invariant i <= |query| && argPos <= |args| && AllInRange(args[argPos..])
      invariant CountMarks(query[i..]) == |args| - argPos
      invariant target == Join(b.Contents(), Walk(query[i..], args[argPos..], b.len, session))
      decreases |query| - i
    {
      var stop;
      r, stop, b, i := Round(b, query, i, args, argPos, session);
      if stop {
        return;
      }
      argPos := argPos + 1;
    }
    WalkStep(query[i..], args[argPos..], b.len, session);
    assert query[i..] == [];
    if argPos != |args| {
      assert false;
    }
    r := Finish(b);
  }

  lemma {:induction false} JoinNothing(r: Interpolated)
    ensures Join([], r) == r
  {
    if r.Query? {
      assert [] + r.q == r.q;
    }
  }
}
