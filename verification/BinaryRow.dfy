// Rows of the binary protocol (mysql/packets.go, the part of binaryRows.readRow behind the
// packet checks). The standard is section 14.7.2 "Binary Protocol Resultset Row" of the MySQL
// Internals Manual.
module BinaryRow {
  import opened Bytes
  import opened LenEnc
  import opened Decimals
  import DateTime
  import Span = BinaryTime

  /** The classes of field types that readRow tells apart. */
  datatype Kind = AsNull | AsInt(width: nat) | AsFloat | AsDouble | AsString | AsTemporal | Unknown

  const DECIMAL: byte := 0x00
  const TINY: byte := 0x01
  const SHORT: byte := 0x02
  const LONG: byte := 0x03
  const FLOAT: byte := 0x04
  const DOUBLE: byte := 0x05
  const NULL: byte := 0x06
  const TIMESTAMP: byte := 0x07
  const LONG_LONG: byte := 0x08
  const INT24: byte := 0x09
  const DATE: byte := 0x0a
  const TIME: byte := 0x0b
  const DATE_TIME: byte := 0x0c
  const YEAR: byte := 0x0d
  const NEW_DATE: byte := 0x0e
  const VAR_CHAR: byte := 0x0f
  const BIT: byte := 0x10
  const JSON: byte := 0xf5
  const GEOMETRY: byte := 0xff

  function KindOf(t: byte): Kind
  {
    if t == NULL then AsNull
    else if t == TINY then AsInt(1)
    else if t == SHORT || t == YEAR then AsInt(2)
    else if t == INT24 || t == LONG then AsInt(4)
    else if t == LONG_LONG then AsInt(8)
    else if t == FLOAT then AsFloat
    else if t == DOUBLE then AsDouble
    else if t == DECIMAL || t == VAR_CHAR || t == BIT || JSON <= t <= GEOMETRY then AsString
    else if t == DATE || t == NEW_DATE || t == TIME || t == TIMESTAMP || t == DATE_TIME then AsTemporal
    else Unknown
  }

  datatype Column = Column(fieldType: byte, unsigned: bool, decimals: byte)

  /** A destination value; floats are bit patterns. */
  datatype Dest =
    | DNull
    | DInt(i: int)
    | DText(s: seq<byte>)
    | DFloat(bits32: nat)
    | DDouble(bits64: nat)
    | DTime(t: DateTime.ParsedTime)

  /** One column read: its value and the position behind it, an error, or an index or slice
      bound out of range. */
  datatype Cell =
    | Cell(v: Dest, end: nat)
    | CellEof
    | IllegalDecimals(d: byte)
    | UnknownType(t: byte)
    | BadText(why: DateTime.Text)
    | BadDateLength
    | CellPanic

  /** data[pos:pos+k]. A slice may reach into the spare bytes of the buffer behind the packet. */
  function Window(data: seq<byte>, spare: seq<byte>, pos: nat, k: int): (w: Nullable)
    ensures w.Val? ==> |w.bytes| == k
  {
    if k < 0 || pos + k > |data| + |spare| then Null else Val((data + spare)[pos..pos + k])
  }

  function IntCell(u: nat, c: Column, width: nat): Dest
    requires u < Pow256(width)
  {
    if !c.unsigned then DInt(Signed(u, width))
    else if width == 8 && u > MAX_INT64 then DText(Digits(u))
    else DInt(u)
  }

  function DecodeInt(data: seq<byte>, spare: seq<byte>, pos: nat, c: Column, width: nat): Cell
  {
    if width == 1 && pos >= |data| then CellPanic        // an index, not a slice
    else match Window(data, spare, pos, width)
         case Null => CellPanic
         case Val(w) => Cell(IntCell(FromLE(w), c, width), pos + width)
  }

  function DecodeBits(data: seq<byte>, spare: seq<byte>, pos: nat, width: nat): Cell
  {
    match Window(data, spare, pos, width)
    case Null => CellPanic
    case Val(w) => Cell(if width == 4 then DFloat(FromLE(w)) else DDouble(FromLE(w)), pos + width)
  }

  function DecodeString(data: seq<byte>, spare: seq<byte>, pos: nat): Cell
  {
    if pos > |data| || (pos == |data| && spare == []) then CellPanic
    else match ReadLengthEncodedString(data[pos..])
         case StrPanic => CellPanic
         case StrEof(_) => CellEof
         case LenStr(s, isNull, n) => Cell(if isNull then DNull else DText(s), pos + n)
  }

  /** The length of the zero text of a column: base characters, a point, the decimals. */
  function TextLen(base: nat, decimals: byte): Option<nat>
  {
    if decimals == 0 || decimals == 0x1f then Some(base)
    else if decimals <= 6 then Some(base + 1 + decimals)
    else None
  }

  datatype Option<T> = None | Some(value: T)

  function TextCell(t: DateTime.Text, end: nat): Cell
  {
    if t.Text? then Cell(DText(t.bytes), end) else BadText(t)
  }

  /** A temporal value of num bytes at pos. */
  function DecodeTemporal(data: seq<byte>, spare: seq<byte>, pos: nat, num: nat, c: Column, parseTime: bool): Cell
    requires pos <= |data| && num <= MAX_UINT64
  {
    if c.fieldType == TIME then
      match TextLen(8, c.decimals)
      case None => IllegalDecimals(c.decimals)
      case Some(length) =>
        (match Window(data, spare, pos, GoInt(num))
         case Null => CellPanic
         case Val(w) => TextCell(Span.FormatBinaryTime(w, length), pos + num))
    else if parseTime then
      // the microseconds alone are read through a slice
      var rest := if |data| - pos >= 7 then data[pos..] + spare else data[pos..];
      match DateTime.ParseBinaryDateTime(num, rest)
      case BinaryTime(t) => Cell(DTime(t), pos + num)
      case BadLength => BadDateLength
      case TimePanic => CellPanic
    else
      match if c.fieldType == DATE then Some(10) else TextLen(19, c.decimals)
      case None => IllegalDecimals(c.decimals)
      case Some(length) =>
        match Window(data, spare, pos, GoInt(num))
        case Null => CellPanic
        case Val(w) => TextCell(DateTime.FormatBinaryDateTime(w, length), pos + num)
  }

  function DecodeCell(data: seq<byte>, spare: seq<byte>, pos: nat, c: Column, parseTime: bool): Cell
  {
    match KindOf(c.fieldType)
    case AsNull => Cell(DNull, pos)
    case AsInt(width) => DecodeInt(data, spare, pos, c, width)
    case AsFloat => DecodeBits(data, spare, pos, 4)
    case AsDouble => DecodeBits(data, spare, pos, 8)
    case AsString => DecodeString(data, spare, pos)
    case AsTemporal =>
      if pos > |data| then CellPanic
      else
        ReadIntWidth(data[pos..]);
        (match ReadLengthEncodedInteger(data[pos..])
         case IntPanic => CellPanic
         case LenInt(num, isNull, n) =>
           if isNull then Cell(DNull, pos + n) else DecodeTemporal(data, spare, pos + n, num, c, parseTime))
    case Unknown => UnknownType(c.fieldType)
  }

  /** The whole row, or the first column that fails. */
  datatype RowResult = Row(dest: seq<Dest>, end: nat) | Failed(c: Cell)

  predicate NullBit(mask: seq<byte>, i: nat)
    requires (i + 2) / 8 < |mask|
  {
    Bit(mask[(i + 2) / 8], (i + 2) % 8)
  }

  function CellAt(data: seq<byte>, spare: seq<byte>, mask: seq<byte>, i: nat, pos: nat, cols: seq<Column>,
      parseTime: bool): Cell
    requires i < |cols| && (|cols| + 9) / 8 == |mask|
  {
    if NullBit(mask, i) then Cell(DNull, pos) else DecodeCell(data, spare, pos, cols[i], parseTime)
  }

  /** Columns i and on, read from position pos. */
  function DecodeFrom(data: seq<byte>, spare: seq<byte>, mask: seq<byte>, i: nat, pos: nat, cols: seq<Column>,
      parseTime: bool): RowResult
    requires i <= |cols| && (|cols| + 9) / 8 == |mask|
    decreases |cols| - i
  {
    if i == |cols| then Row([], pos)
    else
      var c := CellAt(data, spare, mask, i, pos, cols, parseTime);
      if !c.Cell? then Failed(c)
      else match DecodeFrom(data, spare, mask, i + 1, c.end, cols, parseTime)
           case Row(vs, end) => Row([c.v] + vs, end)
           case failed => failed
  }

  function DecodeRow(data: seq<byte>, spare: seq<byte>, cols: seq<Column>, parseTime: bool): RowResult
  {
    var len := (|cols| + 9) / 8;
    match Window(data, spare, 1, len)
    case Null => Failed(CellPanic)
    case Val(mask) => DecodeFrom(data, spare, mask, 0, 1 + len, cols, parseTime)
  }

  lemma DecodeFromStep(data: seq<byte>, spare: seq<byte>, mask: seq<byte>, i: nat, pos: nat, cols: seq<Column>,
      parseTime: bool)
    requires i <= |cols| && (|cols| + 9) / 8 == |mask|
    ensures var r := DecodeFrom(data, spare, mask, i, pos, cols, parseTime);
            if i == |cols| then r == Row([], pos)
            else
              var c := CellAt(data, spare, mask, i, pos, cols, parseTime);
              if !c.Cell? then r == Failed(c)
              else r == Behind([c.v], DecodeFrom(data, spare, mask, i + 1, c.end, cols, parseTime))
  {}

  /** r with the values of the columns before it. */
  function Behind(before: seq<Dest>, r: RowResult): RowResult
  {
    match r
    case Row(vs, end) => Row(before + vs, end)
    case failed => failed
  }

  lemma {:induction false} BehindTwice(a: seq<Dest>, b: seq<Dest>, r: RowResult)
    ensures Behind(a, Behind(b, r)) == Behind(a + b, r)
  {
    if r.Row? {
      assert a + (b + r.dest) == a + b + r.dest;
    }
  }

  lemma {:induction false} BehindNothing(r: RowResult)
    ensures Behind([], r) == r
  {
    if r.Row? {
      assert [] + r.dest == r.dest;
    }
  }

  lemma {:induction false} BehindAll(dest: seq<Dest>, end: nat)
    ensures Behind(dest, Row([], end)) == Row(dest, end)
    ensures forall c :: Behind(dest, Failed(c)) == Failed(c)
  {
    assert dest + [] == dest;
  }

  /** The loop over the destination columns. */
  method ReadBinaryRow(data: seq<byte>, spare: seq<byte>, cols: seq<Column>, parseTime: bool) returns (r: RowResult)
    ensures r == DecodeRow(data, spare, cols, parseTime)
  {
    hide DecodeFrom, CellAt, Behind;
    var pos: nat := 1 + (|cols| + 9) / 8;
    if pos > |data| + |spare| {
      return Failed(CellPanic);
    }
    var mask := (data + spare)[1..pos];
    var dest: seq<Dest> := [];
    var i := 0;
    ghost var all := DecodeFrom(data, spare, mask, 0, pos, cols, parseTime);
    BehindNothing(all);
    while i < |cols|
      invariant i <= |cols|
      invariant all == Behind(dest, DecodeFrom(data, spare, mask, i, pos, cols, parseTime))
    {
      DecodeFromStep(data, spare, mask, i, pos, cols, parseTime);
      var c := CellAt(data, spare, mask, i, pos, cols, parseTime);
      if !c.Cell? {
        BehindAll(dest, pos);
        return Failed(c);
      }
      BehindTwice(dest, [c.v], DecodeFrom(data, spare, mask, i + 1, c.end, cols, parseTime));
      dest := dest + [c.v];
      pos := c.end;
      i := i + 1;
    }
    DecodeFromStep(data, spare, mask, i, pos, cols, parseTime);
    BehindAll(dest, pos);
    return Row(dest, pos);
  }

  // ---------------------------------------------------------------------------------------
  // What a server sends, by the numbers of the protocol

  /** The form of the values of each column type (section 14.7.3 of the MySQL Internals Manual). */
  function WireKind(code: byte): Kind
  {
    if code == 0x01 then AsInt(1)
    else if code == 0x02 || code == 0x0d then AsInt(2)
    else if code == 0x03 || code == 0x09 then AsInt(4)
    else if code == 0x08 then AsInt(8)
    else if code == 0x04 then AsFloat
    else if code == 0x05 then AsDouble
    else if code == 0x06 then AsNull
    else if code == 0x00 || code == 0x0f || code == 0x10 || 0xf5 <= code then AsString
    else if code == 0x07 || code == 0x0a || code == 0x0b || code == 0x0c || code == 0x0e then AsTemporal
    else Unknown
  }

  /** readRow takes every one of the 256 type codes for what the server means by it. */
  lemma {:induction false} KindsAgree(code: byte)
    ensures KindOf(code) == WireKind(code)
    ensures (code == TIME <==> code == 0x0b) && (code == DATE <==> code == 0x0a)
  {}

  datatype Sent =
    | SNull
    | SInt(i: int)
    | SBits(bits: nat)
    | SBytes(s: seq<byte>)
    | SZero                                        // a temporal value of length 0
    | SDate(t: DateTime.Time, form: nat)           // in 4, 7 or 11 bytes
    | SSpan(v: Span.Span, micros: bool)            // in 8 or 12 bytes

  /** At most six decimals, or 31 for none in particular. */
  predicate HasText(decimals: byte)
  {
    decimals <= 6 || decimals == 31
  }

  /** How wide the text of a temporal column is. */
  function TextWidth(c: Column): nat
  {
    if c.fieldType == 0x0a then 10
    else (if c.fieldType == 0x0b then 8 else 19) + if c.decimals == 0 || c.decimals == 31 then 0 else 1 + c.decimals
  }

  lemma {:induction false} TextLenIs(c: Column, base: nat)
    requires c.fieldType != 0x0a && base == if c.fieldType == 0x0b then 8 else 19
    ensures TextLen(base, c.decimals) == if HasText(c.decimals) then Some(TextWidth(c)) else None
  {}

  predicate InWidth(i: int, unsigned: bool, width: nat)
  {
    if unsigned then 0 <= i < Pow256(width) else 0 - Pow256(width) <= 2 * i < Pow256(width)
  }

  predicate DateInForm(t: DateTime.Time, form: nat)
  {
    && DateTime.Printable(t) && t.nsec % 1000 == 0
    && (form == 4 || form == 7 || form == 11)
    && (form == 4 ==> t.hour == t.min == t.sec == 0) && (form != 11 ==> t.nsec == 0)
  }

  predicate Fits(v: Sent, c: Column, parseTime: bool)
  {
    if v.SNull? then true
    else match WireKind(c.fieldType)
         case AsInt(width) => v.SInt? && InWidth(v.i, c.unsigned, width)
         case AsFloat => v.SBits? && v.bits < Pow256(4)
         case AsDouble => v.SBits? && v.bits < Pow256(8)
         case AsString => v.SBytes? && |v.s| <= MAX_STRING
         case AsTemporal =>
           if c.fieldType == 0x0b then
             && HasText(c.decimals)
             && (v.SZero? || (v.SSpan? && Span.ValidSpan(v.v) && (!v.micros ==> v.v.micro == 0)))
           else
             && (!parseTime && c.fieldType != 0x0a ==> HasText(c.decimals))
             && (v.SZero? || (v.SDate? && DateInForm(v.t, v.form)))
         case _ => false
  }

  function DateBytes(t: DateTime.Time, form: nat): (s: seq<byte>)
    requires DateInForm(t, form)
    ensures |s| == form
  {
    if form == 4 then DateTime.BinaryDate(t)
    else if form == 7 then DateTime.BinaryDateTime(t)
    else DateTime.BinaryTimestamp(t)
  }

  function WidthOf(c: Column): nat
  {
    match WireKind(c.fieldType)
    case AsInt(width) => width
    case AsFloat => 4
    case _ => 8
  }

  function EncodeCell(v: Sent, c: Column, parseTime: bool): seq<byte>
    requires Fits(v, c, parseTime)
  {
    match v
    case SNull => []
    case SInt(i) => LE(if c.unsigned then i else Unsigned(i, WidthOf(c)), WidthOf(c))
    case SBits(bits) => LE(bits, WidthOf(c))
    case SBytes(s) => LenEncStr(Val(s))
    case SZero => [0]
    case SDate(t, form) => [form] + DateBytes(t, form)
    case SSpan(v, micros) => [if micros then 12 else 8] + Span.BinarySpan(v, micros)
  }

  /** The destination value d stands for what was sent. */
  predicate Stands(d: Dest, v: Sent, c: Column, parseTime: bool)
    requires Fits(v, c, parseTime)
  {
    match v
    case SNull => d == DNull
    case SInt(i) => d == if c.unsigned && WidthOf(c) == 8 && i > 0x7fff_ffff_ffff_ffff then DText(Digits(i))
      else DInt(i)
    case SBits(bits) => d == if WidthOf(c) == 4 then DFloat(bits) else DDouble(bits)
    case SBytes(s) => d == DText(s)
    case SZero =>
      if c.fieldType == 0x0b then
        d.DText? && |d.s| == TextWidth(c) && Span.ReadTime(d.s) == Span.Reading(false, 0, 0, 0, 0)
      else if parseTime then d == DTime(DateTime.ZeroTime)
      else d.DText? && |d.s| == TextWidth(c) && DateTime.ParseDateTime(d.s) == DateTime.ZeroTime
    case SDate(t, form) =>
      if parseTime then d == DTime(DateTime.Date(t)) else d.DText? && |d.s| == TextWidth(c) && SaysDate(d.s, t)
    case SSpan(v, micros) =>
      d.DText? && Span.ReadTime(d.s) == Span.ReadingOf(v, TextWidth(c))
  }

  /** The text shows every field of t, zero fields too, with the fraction cut to the decimals
      shown; parsed as a date it is that time exactly if t has no zero field. */
  predicate SaysDate(s: seq<byte>, t: DateTime.Time)
  {
    && DateTime.TextLength(|s|) && DateTime.Printable(t) && DateTime.ReadsDate(s, t.year, t.month, t.day)
    && (|s| > 10 ==> DateTime.ClockOf(s, t))
    && (DateTime.ParseDateTime(s) == DateTime.Date(DateTime.TruncateTo(t, |s|))
        <==> t.year > 0 && t.month > 0 && t.day > 0)
  }

  lemma {:induction false} WindowOf(head: seq<byte>, w: seq<byte>, rest: seq<byte>, spare: seq<byte>)
    ensures Window(head + (w + rest), spare, |head|, |w|) == Val(w)
  {
    assert (head + (w + rest) + spare)[|head|..|head| + |w|] == w;
  }

  lemma {:induction false} IntRoundTrip(head: seq<byte>, i: int, c: Column, width: nat, rest: seq<byte>,
      spare: seq<byte>)
    requires WireKind(c.fieldType) == AsInt(width) && InWidth(i, c.unsigned, width)
    ensures var u := if c.unsigned then i else Unsigned(i, width);
            var d := if c.unsigned && width == 8 && i > 0x7fff_ffff_ffff_ffff then DText(Digits(i)) else DInt(i);
            DecodeInt(head + (LE(u, width) + rest), spare, |head|, c, width) == Cell(d, |head| + width)
  {
    hide LE, FromLE, Window, Pow256, Digits, WireKind;
    var u := if c.unsigned then i else Unsigned(i, width);
    if !c.unsigned {
      SignedRoundTrip(i, width);
      UnsignedInWidth(i, width);
    }
    LERoundTrip(u, width);
    WindowOf(head, LE(u, width), rest, spare);
    IntWidths(c);
  }

  /** Behind the end of the packet an integer of more than one byte is read from the buffer, if
      that goes on far enough; a one-byte integer is not. */
  lemma {:induction false} IntBehindEnd(data: seq<byte>, spare: seq<byte>, pos: nat, c: Column, parseTime: bool)
    requires WireKind(c.fieldType).AsInt?
    ensures var width, r := WireKind(c.fieldType).width, DecodeCell(data, spare, pos, c, parseTime);
            && (r == CellPanic <==> if width == 1 then |data| <= pos else |data| + |spare| < pos + width)
            && (r != CellPanic ==> r.Cell? && r.end == pos + width)
  {
    KindsAgree(c.fieldType);
  }

  /** A string or a date that is missing altogether is NULL, a string only if the buffer goes on;
      further behind the end is out of range. */
  lemma {:induction false} MissingColumn(data: seq<byte>, spare: seq<byte>, pos: nat, c: Column, parseTime: bool)
    requires |data| <= pos
    ensures var r := DecodeCell(data, spare, pos, c, parseTime);
            match WireKind(c.fieldType)
            case AsString => r == if pos == |data| && spare != [] then Cell(DNull, pos + 1) else CellPanic
            case AsTemporal => r == if pos == |data| then Cell(DNull, pos + 1) else CellPanic
            case AsNull => r == Cell(DNull, pos)
            case Unknown => r == UnknownType(c.fieldType)
            case _ => true
  {
    KindsAgree(c.fieldType);
  }

  lemma {:induction false} UnsignedInWidth(i: int, width: nat)
    requires InWidth(i, false, width)
    ensures Unsigned(i, width) < Pow256(width)
  {}

  /** Columns of type 3 and 1: the row says 65537 and -1. */
  lemma {:induction false} LongExample()
    ensures DecodeRow([0] + [0] + [1, 0, 1, 0] + [0xff], [], [Column(3, false, 0), Column(1, false, 0)], false)
            == Row([DInt(65537), DInt(-1)], 7)
  {
    var data: seq<byte> := [0] + [0] + [1, 0, 1, 0] + [0xff];
    var cols := [Column(3, false, 0), Column(1, false, 0)];
    assert (data + [])[1..2] == [0];
    assert NullFree([0]);
    LongCell();
    TinyCell();
    hide DecodeInt, NullBit, NullFree;
    assert data == [0, 0] + ([1, 0, 1, 0] + [0xff]) && data == [0, 0, 1, 0, 1, 0] + ([0xff] + []);
    DecodeFromStep(data, [], [0], 2, 7, cols, false);
    assert CellAt(data, [], [0], 1, 6, cols, false) == Cell(DInt(-1), 7);
    assert CellAt(data, [], [0], 0, 2, cols, false) == Cell(DInt(65537), 6);
    assert DecodeFrom(data, [], [0], 1, 6, cols, false) == Row([DInt(-1)] + [], 7);
  }

  /** Neither of two columns is NULL. */
  predicate NullFree(mask: seq<byte>)
  {
    |mask| == 1 && !NullBit(mask, 0) && !NullBit(mask, 1)
  }

  lemma {:induction false} LongCell()
    ensures DecodeInt([0, 0] + ([1, 0, 1, 0] + [0xff]), [], 2, Column(3, false, 0), 4) == Cell(DInt(65537), 6)
  {
    PowersOf256();
    assert LE(65537, 4) == [1] + LE(256, 3) == [1] + ([0] + LE(1, 2)) && LE(1, 2) == [1, 0];
    assert LE(65537, 4) == [1, 0, 1, 0];
    IntRoundTrip([0, 0], 65537, Column(3, false, 0), 4, [0xff], []);
  }

  lemma {:induction false} TinyCell()
    ensures DecodeInt([0, 0, 1, 0, 1, 0] + ([0xff] + []), [], 6, Column(1, false, 0), 1) == Cell(DInt(-1), 7)
  {
    PowersOf256();
    assert LE(255, 1) == [255];
    IntRoundTrip([0, 0, 1, 0, 1, 0], -1, Column(1, false, 0), 1, [], []);
  }

  lemma {:induction false} IntWidths(c: Column)
    requires WireKind(c.fieldType).AsInt?
    ensures 1 <= WireKind(c.fieldType).width <= 8
  {}

  lemma {:induction false} BitsRoundTrip(head: seq<byte>, bits: nat, width: nat, rest: seq<byte>, spare: seq<byte>)
    requires bits < Pow256(width)
    ensures DecodeBits(head + (LE(bits, width) + rest), spare, |head|, width)
         == Cell(if width == 4 then DFloat(bits) else DDouble(bits), |head| + width)
  {
    hide LE, FromLE, Window;
    LERoundTrip(bits, width);
    WindowOf(head, LE(bits, width), rest, spare);
  }

  lemma {:induction false} StringRoundTrip(head: seq<byte>, s: seq<byte>, rest: seq<byte>, spare: seq<byte>)
    requires |s| <= MAX_STRING
    ensures var e := LenEncStr(Val(s));
            DecodeString(head + (e + rest), spare, |head|) == Cell(DText(s), |head| + |e|)
  {
    hide LenEncStr, ReadLengthEncodedString;
    var e := LenEncStr(Val(s));
    assert (head + (e + rest))[|head|..] == e + rest;
    LenEncStrRoundTrip(Val(s), rest);
  }

  /** The length byte of a temporal value. */
  lemma {:induction false} LengthByte(head: seq<byte>, n: byte, w: seq<byte>, rest: seq<byte>, spare: seq<byte>)
    requires |w| == n <= 12
    ensures var data := head + ([n] + w + rest);
            && ReadLengthEncodedInteger(data[|head|..]) == LenInt(n, false, 1)
            && Window(data, spare, |head| + 1, n) == Val(w) && data[|head| + 1..] == w + rest
  {
    var data := head + ([n] + w + rest);
    assert data == (head + [n]) + (w + rest);
    WindowOf(head + [n], w, rest, spare);
    assert data[|head|..][0] == n;
  }

  lemma {:induction false} SpanRoundTrip(data: seq<byte>, spare: seq<byte>, pos: nat, v: Sent, c: Column,
      parseTime: bool, w: seq<byte>)
    requires c.fieldType == 0x0b && !v.SNull? && Fits(v, c, parseTime) && pos <= |data|
    requires w == (if v.SSpan? then Span.BinarySpan(v.v, v.micros) else [])
    requires Window(data, spare, pos, |w|) == Val(w)
    ensures var r := DecodeTemporal(data, spare, pos, |w|, c, parseTime);
            r.Cell? && r.end == pos + |w| && Stands(r.v, v, c, parseTime)
  {
    hide Window, Span.BinarySpan, Span.ReadTime, Span.ReadingOf;
    var length := TextWidth(c);
    TextLenIs(c, 8);
    if v.SZero? {
      Span.ZeroReads(length);
    } else {
      Span.SpanReadsBack(v.v, v.micros, length);
      SaysText(Span.FormatBinaryTime(w, length), Span.ReadingOf(v.v, length), pos + |w|);
    }
  }

  lemma {:induction false} SaysText(t: DateTime.Text, r: Span.Reading, end: nat)
    requires Span.Says(t, r)
    ensures TextCell(t, end) == Cell(DText(t.bytes), end) && Span.ReadTime(t.bytes) == r
  {
    hide Span.ReadTime;
  }

  /** The wire form of a date decodes to the date. */
  lemma {:induction false} DateBytesDecode(t: DateTime.Time, form: nat, rest: seq<byte>)
    requires DateInForm(t, form)
    ensures DateTime.ParseBinaryDateTime(form, DateBytes(t, form) + rest) == DateTime.BinaryTime(DateTime.Date(t))
  {
    hide LE, FromLE;
    PowersOf256();
    LERoundTrip(t.year, 2);
    var w := DateBytes(t, form) + rest;
    assert w[..2] == LE(t.year, 2);
    if form == 11 {
      LERoundTrip(t.nsec / 1000, 4);
      assert w[7..11] == LE(t.nsec / 1000, 4);
    }
  }

  lemma {:induction false} DateRoundTrip(data: seq<byte>, spare: seq<byte>, pos: nat, v: Sent, c: Column,
      parseTime: bool, w: seq<byte>, rest: seq<byte>)
    requires WireKind(c.fieldType) == AsTemporal && c.fieldType != 0x0b && !v.SNull? && Fits(v, c, parseTime)
    requires w == (if v.SDate? then DateBytes(v.t, v.form) else []) && pos <= |data| && data[pos..] == w + rest
    requires Window(data, spare, pos, |w|) == Val(w)
    ensures var r := DecodeTemporal(data, spare, pos, |w|, c, parseTime);
            r.Cell? && r.end == pos + |w| && Stands(r.v, v, c, parseTime)
  {
    hide Window, DateBytes, DateTime.ParseDateTime, DateTime.FormatBinaryDateTime, DateTime.ParseBinaryDateTime,
      DateTime.TruncateTo, DateTime.Printable, DateTime.ReadsDate, DateTime.ClockOf;
    if parseTime {
      var more := if |data| - pos >= 7 then rest + spare else rest;
      assert (if |data| - pos >= 7 then data[pos..] + spare else data[pos..]) == w + more by {
        assert (w + rest) + spare == w + (rest + spare);
      }
      if v.SDate? {
        DateBytesDecode(v.t, v.form, more);
      } else {
        EmptyBinary(w + more);
      }
    } else {
      var length := TextWidth(c);
      if c.fieldType != 0x0a {
        TextLenIs(c, 19);
      }
      if v.SDate? {
        DateBytesDecode(v.t, v.form, []);
        assert w + [] == w;
        DateTime.FormattedBinaryText(w, length, v.t);
        DateTime.FormattedBinaryParsesBack(w, length, v.t);
      } else {
        DateTime.EmptyBinaryIsZeroTime(length);
        EmptyText(length);
      }
    }
  }

  lemma {:induction false} EmptyBinary(data: seq<byte>)
    ensures DateTime.ParseBinaryDateTime(0, data) == DateTime.BinaryTime(DateTime.ZeroTime)
  {}

  lemma {:induction false} EmptyText(length: nat)
    requires DateTime.TextLength(length)
    ensures var r := DateTime.FormatBinaryDateTime([], length);
            r.Text? && |r.bytes| == length
  {}

  lemma {:induction false} ShortForm(t: DateTime.Time, form: nat)
    requires DateInForm(t, form)
    ensures form <= 11
  {}

  /** One value is read back, whatever stands before and behind it. */
  lemma {:induction false} CellRoundTrip(head: seq<byte>, v: Sent, c: Column, rest: seq<byte>, spare: seq<byte>,
      parseTime: bool)
    requires Fits(v, c, parseTime) && !v.SNull?
    ensures var e := EncodeCell(v, c, parseTime);
            var r := DecodeCell(head + (e + rest), spare, |head|, c, parseTime);
            r.Cell? && r.end == |head| + |e| && Stands(r.v, v, c, parseTime)
  {
    hide LE, LenEncStr, Digits, DateBytes, Span.BinarySpan, DecodeInt, DecodeBits, DecodeString, DecodeTemporal, Window,
      DateInForm, Span.ValidSpan, ReadLengthEncodedInteger, TextWidth, HasText, SaysDate, Span.ReadTime, Span.ReadingOf;
    KindsAgree(c.fieldType);
    match WireKind(c.fieldType)
    case AsInt(width) => IntRoundTrip(head, v.i, c, width, rest, spare);
    case AsFloat => BitsRoundTrip(head, v.bits, 4, rest, spare);
    case AsDouble => BitsRoundTrip(head, v.bits, 8, rest, spare);
    case AsString => StringRoundTrip(head, v.s, rest, spare);
    case AsTemporal =>
      var w := if v.SSpan? then Span.BinarySpan(v.v, v.micros) else if v.SDate? then DateBytes(v.t, v.form) else [];
      var data := head + ([|w|] + w + rest);
      assert EncodeCell(v, c, parseTime) == [|w|] + w;
      if v.SDate? {
        ShortForm(v.t, v.form);
      }
      LengthByte(head, |w|, w, rest, spare);
      if c.fieldType == 0x0b {
        SpanRoundTrip(data, spare, |head| + 1, v, c, parseTime, w);
      } else {
        DateRoundTrip(data, spare, |head| + 1, v, c, parseTime, w, rest);
      }
  }

  predicate AllFit(vs: seq<Sent>, cols: seq<Column>, parseTime: bool)
  {
    |vs| == |cols| && forall i | 0 <= i < |vs| :: Fits(vs[i], cols[i], parseTime)
  }

  /** The values of columns i and on. */
  function EncodeFrom(vs: seq<Sent>, i: nat, cols: seq<Column>, parseTime: bool): seq<byte>
    requires AllFit(vs, cols, parseTime) && i <= |vs|
    decreases |vs| - i
  {
    if i == |vs| then [] else EncodeCell(vs[i], cols[i], parseTime) + EncodeFrom(vs, i + 1, cols, parseTime)
  }

  /** A NULL bitmap for the row: one bit per column, from bit 2 on; the other bits are free. */
  predicate MaskOf(mask: seq<byte>, vs: seq<Sent>)
  {
    |mask| == (|vs| + 9) / 8 && forall i | 0 <= i < |vs| ::
      mask[(i + 2) / 8] / Pow2((i + 2) % 8) % 2 == 1 <==> vs[i].SNull?
  }

  /** Column i, which is NULL by its bit or read from its bytes. */
  lemma {:induction false} ColumnReads(head: seq<byte>, mask: seq<byte>, vs: seq<Sent>, i: nat, cols: seq<Column>,
      rest: seq<byte>, spare: seq<byte>, parseTime: bool)
    requires AllFit(vs, cols, parseTime) && i < |vs| && MaskOf(mask, vs)
    ensures var e := EncodeCell(vs[i], cols[i], parseTime);
            var r := CellAt(head + (e + rest), spare, mask, i, |head|, cols, parseTime);
            r.Cell? && r.end == |head| + |e| && Stands(r.v, vs[i], cols[i], parseTime)
  {
    assert NullBit(mask, i) <==> vs[i].SNull?;
    hide DecodeCell, EncodeCell, Stands, Fits, NullBit;
    if vs[i].SNull? {
      NullCell(cols[i], parseTime);
    } else {
      CellRoundTrip(head, vs[i], cols[i], rest, spare, parseTime);
    }
  }

  lemma {:induction false} RowRoundTripFrom(head: seq<byte>, mask: seq<byte>, vs: seq<Sent>, i: nat, cols: seq<Column>,
      spare: seq<byte>, parseTime: bool)
    requires AllFit(vs, cols, parseTime) && i <= |vs| && MaskOf(mask, vs)
    ensures var data := head + EncodeFrom(vs, i, cols, parseTime);
            var r := DecodeFrom(data, spare, mask, i, |head|, cols, parseTime);
            && r.Row? && r.end == |data| && |r.dest| == |vs| - i
            && forall k | i <= k < |vs| :: Stands(r.dest[k - i], vs[k], cols[k], parseTime)
    decreases |vs| - i
  {
    hide DecodeCell, EncodeCell, Stands, Fits, NullBit, CellAt, DecodeFrom;
    var data := head + EncodeFrom(vs, i, cols, parseTime);
    DecodeFromStep(data, spare, mask, i, |head|, cols, parseTime);
    if i < |vs| {
      var e, rest := EncodeCell(vs[i], cols[i], parseTime), EncodeFrom(vs, i + 1, cols, parseTime);
      ColumnReads(head, mask, vs, i, cols, rest, spare, parseTime);
      assert data == head + (e + rest) == (head + e) + rest;
      RowRoundTripFrom(head + e, mask, vs, i + 1, cols, spare, parseTime);
    }
  }

  lemma {:induction false} NullCell(c: Column, parseTime: bool)
    ensures Fits(SNull, c, parseTime) && EncodeCell(SNull, c, parseTime) == [] && Stands(DNull, SNull, c, parseTime)
  {}

  /** Every row of values, with any NULL bitmap that marks exactly its NULLs, is read back value
      by value and consumed exactly, whatever the buffer holds behind the packet. */
  lemma {:induction false} BinaryRowRoundTrip(mask: seq<byte>, vs: seq<Sent>, cols: seq<Column>, spare: seq<byte>,
      parseTime: bool)
    requires AllFit(vs, cols, parseTime) && MaskOf(mask, vs)
    ensures var data := [0] + mask + EncodeFrom(vs, 0, cols, parseTime);
            var r := DecodeRow(data, spare, cols, parseTime);
            && r.Row? && r.end == |data| && |r.dest| == |vs|
            && forall k | 0 <= k < |vs| :: Stands(r.dest[k], vs[k], cols[k], parseTime)
  {
    hide DecodeFrom, EncodeFrom, Stands, Fits, NullBit;
    var data := [0] + mask + EncodeFrom(vs, 0, cols, parseTime);
    assert (data + spare)[1..1 + |mask|] == mask;
    RowRoundTripFrom([0] + mask, mask, vs, 0, cols, spare, parseTime);
  }
}
