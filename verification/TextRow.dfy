// ProtocolText::ResultsetRow: the row packets of the text protocol (mysql/packets.go, the part
// of textRows.readRow behind the packet checks).
module TextRow {
  import opened Bytes
  import opened LenEnc
  import DateTime

  const I_EOF: byte := 0xfe
  const I_ERR: byte := 0xff

  datatype Value = NullValue | BytesValue(s: seq<byte>) | TimeValue(t: DateTime.ParsedTime)

  /** The values of a row, io.EOF for a string that runs past the packet, the date parser's
      error, or an index out of range. */
  datatype RowResult = Row(dest: seq<Value>, end: int) | RowEof | BadTime | RowPanic

  /** How one column is read; temporal says that it is a date or time column and parseTime is on.
      spare says that the buffer goes on behind the packet: an empty rest then reads as NULL by
      the slice b[1:1], which otherwise is out of range. */
  function DecodeColumn(b: seq<byte>, spare: bool, temporal: bool): (r: RowResult)
    ensures r.Row? ==> |r.dest| == 1
  {
    if b == [] && !spare then RowPanic
    else match ReadLengthEncodedString(b)
    case StrPanic => RowPanic
    case StrEof(_) => RowEof
    case LenStr(s, isNull, n) =>
      if isNull then Row([NullValue], n)
      else if !temporal then Row([BytesValue(s)], n)
      else if DateTime.ParseDateTime(s).Malformed? then BadTime
      else Row([TimeValue(DateTime.ParseDateTime(s))], n)
  }

  /** The column at pos; data[pos:] panics behind the end of the packet. */
  function ColumnAt(data: seq<byte>, spare: bool, pos: int, temporal: bool): (r: RowResult)
    ensures r.Row? ==> |r.dest| == 1
  {
    if 0 <= pos <= |data| then DecodeColumn(data[pos..], spare, temporal) else RowPanic
  }

  /** The columns from position pos on. */
  function DecodeRow(data: seq<byte>, spare: bool, pos: int, temporal: seq<bool>): RowResult
    decreases |temporal|
  {
    if temporal == [] then Row([], pos)
    else match ColumnAt(data, spare, pos, temporal[0])
         case Row(v, n) =>
           (match DecodeRow(data, spare, pos + n, temporal[1..])
            case Row(vs, end) => Row(v + vs, end)
            case other => other)
         case other => other
  }

  lemma {:induction false} DecodeRowStep(data: seq<byte>, spare: bool, pos: int, temporal: seq<bool>)
    requires temporal != []
    ensures var c := ColumnAt(data, spare, pos, temporal[0]);
            DecodeRow(data, spare, pos, temporal) ==
            if !c.Row? then c
            else match DecodeRow(data, spare, pos + c.end, temporal[1..])
                 case Row(vs, end) => Row(c.dest + vs, end)
                 case other => other
  {}

  /** The loop over the destination columns. */
  method ReadColumnsOfRow(data: seq<byte>, spare: bool, temporal: seq<bool>) returns (r: RowResult)
    ensures r == DecodeRow(data, spare, 0, temporal)
  {
    hide DecodeRow, ColumnAt;
    var dest: seq<Value> := [];
    var pos := 0;
    var i := 0;
    while i < |temporal|
      invariant 0 <= i <= |temporal|
      invariant DecodeRow(data, spare, 0, temporal) ==
                match DecodeRow(data, spare, pos, temporal[i..])
                case Row(vs, end) => Row(dest + vs, end)
                case other => other
    {
      DecodeRowStep(data, spare, pos, temporal[i..]);
      assert temporal[i..][1..] == temporal[i + 1..];
      var c := ColumnAt(data, spare, pos, temporal[i]);
      if !c.Row? {
        return c;
      }
      ghost var rest := DecodeRow(data, spare, pos + c.end, temporal[i + 1..]);
      if rest.Row? {
        assert dest + (c.dest + rest.dest) == dest + c.dest + rest.dest;
      }
      dest := dest + c.dest;
      pos := pos + c.end;
      i := i + 1;
    }
    assert DecodeRow(data, spare, pos, []) == Row([], pos) by { NoColumns(data, spare, pos); }
    assert temporal[i..] == [];
    assert dest + [] == dest;
    return Row(dest, pos);
  }

  lemma NoColumns(data: seq<byte>, spare: bool, pos: int)
    ensures DecodeRow(data, spare, pos, []) == Row([], pos)
  {}

  /** A row as the server sends it. */
  function EncodeRow(vs: seq<Nullable>): seq<byte>
    requires Encodable(vs)
  {
    if vs == [] then [] else LenEncStr(vs[0]) + EncodeRow(vs[1..])
  }

  predicate Encodable(vs: seq<Nullable>)
  {
    forall v | v in vs :: v.Val? ==> |v.bytes| <= MAX_STRING
  }

  function ColumnValue(v: Nullable, temporal: bool): Value
  {
    match v
    case Null => NullValue
    case Val(s) => if temporal then TimeValue(DateTime.ParseDateTime(s)) else BytesValue(s)
  }

  function RowValues(vs: seq<Nullable>, temporal: seq<bool>): seq<Value>
    requires |vs| == |temporal|
  {
    if vs == [] then [] else [ColumnValue(vs[0], temporal[0])] + RowValues(vs[1..], temporal[1..])
  }

  predicate DatesReadable(vs: seq<Nullable>, temporal: seq<bool>)
    requires |vs| == |temporal|
  {
    forall i | 0 <= i < |vs| && temporal[i] && vs[i].Val? :: !DateTime.ParseDateTime(vs[i].bytes).Malformed?
  }

  lemma {:induction false} ColumnRoundTrip(v: Nullable, spare: bool, temporal: bool, rest: seq<byte>)
    requires v.Val? ==> |v.bytes| <= MAX_STRING
    requires temporal && v.Val? ==> !DateTime.ParseDateTime(v.bytes).Malformed?
    ensures DecodeColumn(LenEncStr(v) + rest, spare, temporal) == Row([ColumnValue(v, temporal)], |LenEncStr(v)|)
  {
    hide ReadLengthEncodedString, LenEncStr, DateTime.ParseDateTime;
    assert |LenEncStr(v) + rest| > 0;
    LenEncStrRoundTrip(v, rest);
  }

  lemma {:induction false} RowRoundTripAt(head: seq<byte>, vs: seq<Nullable>, spare: bool, temporal: seq<bool>)
    requires |vs| == |temporal| && Encodable(vs) && DatesReadable(vs, temporal)
    ensures var data := head + EncodeRow(vs);
            DecodeRow(data, spare, |head|, temporal) == Row(RowValues(vs, temporal), |data|)
    decreases |vs|
  {
    hide DecodeColumn, ColumnValue, LenEncStr, DateTime.ParseDateTime;
    var data := head + EncodeRow(vs);
    if vs != [] {
      var c, rest := LenEncStr(vs[0]), EncodeRow(vs[1..]);
      assert data[|head|..] == c + rest;
      ColumnRoundTrip(vs[0], spare, temporal[0], rest);
      assert data == (head + c) + rest;
      RowRoundTripAt(head + c, vs[1..], spare, temporal[1..]);
    }
  }

  /** Every row of nullable byte strings is read back, and the packet is consumed exactly. */
  lemma {:induction false} RowRoundTrip(vs: seq<Nullable>, spare: bool, temporal: seq<bool>)
    requires |vs| == |temporal| && Encodable(vs) && DatesReadable(vs, temporal)
    ensures DecodeRow(EncodeRow(vs), spare, 0, temporal) == Row(RowValues(vs, temporal), |EncodeRow(vs)|)
  {
    RowRoundTripAt([], vs, spare, temporal);
    assert [] + EncodeRow(vs) == EncodeRow(vs);
  }

  /** A date column that does not hold a date is an error. */
  lemma {:induction false} BadDate(s: seq<byte>, spare: bool, rest: seq<byte>)
    requires |s| <= MAX_STRING && DateTime.ParseDateTime(s).Malformed?
    ensures DecodeColumn(LenEncStr(Val(s)) + rest, spare, true) == BadTime
  {
    hide ReadLengthEncodedString, LenEncStr, DateTime.ParseDateTime;
    LenEncStrRoundTrip(Val(s), rest);
  }

  lemma {:induction false} CutColumn(v: Nullable, spare: bool, temporal: bool, k: nat)
    requires (v.Val? ==> |v.bytes| <= MAX_STRING) && 0 < k < |LenEncStr(v)|
    ensures !DecodeColumn(LenEncStr(v)[..k], spare, temporal).Row?
  {
    hide FromLE, LE, DateTime.ParseDateTime;
    var e, s := LenEncInt(|v.bytes|), v.bytes;
    var b := LenEncStr(v)[..k];
    if k >= |e| {
      assert b == e + s[..k - |e|];
      LenEncIntRoundTrip(|s|, s[..k - |e|]);
      hide LenEncInt, ReadLengthEncodedInteger;
    }
  }

  /** Where the last column starts. */
  function LastColumn(vs: seq<Nullable>): nat
    requires vs != [] && Encodable(vs)
  {
    |EncodeRow(vs[..|vs| - 1])|
  }

  lemma {:induction false} LastColumnBehind(vs: seq<Nullable>)
    requires |vs| > 1 && Encodable(vs)
    ensures LastColumn(vs) == |LenEncStr(vs[0])| + LastColumn(vs[1..])
  {
    hide LenEncStr;
    assert vs[..|vs| - 1][1..] == vs[1..][..|vs| - 2];
  }

  lemma {:induction false} CutRowAt(head: seq<byte>, vs: seq<Nullable>, spare: bool, temporal: seq<bool>, k: nat)
    requires |vs| == |temporal| && Encodable(vs) && DatesReadable(vs, temporal) && k < |EncodeRow(vs)|
    ensures DecodeRow(head + EncodeRow(vs)[..k], spare, |head|, temporal).Row? <==> spare && k == LastColumn(vs)
    decreases |vs|
  {
    hide DecodeColumn, ColumnValue, LenEncStr, DateTime.ParseDateTime, LastColumn;
    var data, c, rest := head + EncodeRow(vs)[..k], LenEncStr(vs[0]), EncodeRow(vs[1..]);
    if |vs| > 1 {
      LastColumnBehind(vs);
    } else {
      OneColumn(vs);
    }
    assert data[|head|..] == (c + rest)[..k];
    if k == 0 {
      EmptyColumn(spare, temporal[0]);
      assert data[|head|..] == [];
    } else if k < |c| {
      assert (c + rest)[..k] == c[..k];
      CutColumn(vs[0], spare, temporal[0], k);
    } else {
      var l := k - |c|;
      assert (c + rest)[..k] == c + rest[..l];
      ColumnRoundTrip(vs[0], spare, temporal[0], rest[..l]);
      assert data == (head + c) + rest[..l];
      CutRowAt(head + c, vs[1..], spare, temporal[1..], l);
    }
  }

  lemma {:induction false} OneColumn(vs: seq<Nullable>)
    requires |vs| == 1 && Encodable(vs)
    ensures LastColumn(vs) == 0 && EncodeRow(vs[1..]) == []
  {}

  lemma {:induction false} EmptyColumn(spare: bool, temporal: bool)
    ensures DecodeColumn([], spare, temporal) == if spare then Row([NullValue], 1) else RowPanic
  {}

  /** A row that is cut off anywhere fails, with one exception: when exactly the last column is
      missing and the buffer goes on behind the packet, that column reads as NULL. */
  lemma {:induction false} CutRow(vs: seq<Nullable>, spare: bool, temporal: seq<bool>, k: nat)
    requires |vs| == |temporal| && Encodable(vs) && DatesReadable(vs, temporal) && k < |EncodeRow(vs)|
    ensures DecodeRow(EncodeRow(vs)[..k], spare, 0, temporal).Row? <==> spare && k == LastColumn(vs)
  {
    CutRowAt([], vs, spare, temporal, k);
    assert [] + EncodeRow(vs)[..k] == EncodeRow(vs)[..k];
  }

  /** A row is never empty and never taken for the ERR packet or, by readRow, for the EOF packet.
      readUntilEOF looks at the first byte alone: it takes a row for the EOF packet exactly when
      the first column has 2^24 bytes or more. */
  lemma {:induction false} RowIsNotControl(vs: seq<Nullable>)
    requires vs != [] && Encodable(vs)
    ensures var data := EncodeRow(vs);
            && data != [] && data[0] != 0xff && !(data[0] == 0xfe && |data| == 5)
            && (data[0] == 0xfe <==> vs[0].Val? && |vs[0].bytes| >= 0x100_0000)
  {
    hide LE;
    assert vs[0] in vs;
    var c := LenEncStr(vs[0]);
    assert EncodeRow(vs)[0] == c[0];
  }
}
