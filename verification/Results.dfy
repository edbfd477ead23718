// Reading responses: result set headers, draining, and the rows objects (mysql/packets.go,
// mysql/rows.go, mysql/connection.go, mysql/statement.go).
module Results {
  import opened Bytes
  import opened GoSlice
  import opened Buffers
  import opened LenEnc
  import opened Wire
  import opened Connection
  import opened TextRow

  const I_OK: byte := 0x00
  const I_LOCAL_IN_FILE: byte := 0xfb

  type Payload = seq<byte>

  datatype Error =
    | Fine
    | EndOfRows                 // io.EOF
    | Conn(e: ConnError)
    | ServerError(data: Payload)
    | MalformPkt
    | ColumnMismatch
    | InFileRequest
    | BadRow(r: RowResult)
    | PacketPanic               // an index beyond a short packet

  datatype Option<T> = None | Some(value: T)

  /** Bit 3 of the status, statusMoreResultsExists. */
  predicate MoreResults(status: nat): (more: bool)
    ensures more <==> status / 8 % 2 == 1
  {
    assert Pow2(3) == 8;
    Bit(status, 3)
  }

  datatype OkFields = OkFields(affectedRows: nat, insertId: nat, status: nat)

  /** The fields of an OK packet. */
  function ParseOk(data: Payload): Option<OkFields>
    requires data != []
  {
    match ReadLengthEncodedInteger(data[1..])
    case IntPanic => None
    case LenInt(a, _, n) =>
      if 1 + n > |data| then None
      else match ReadLengthEncodedInteger(data[1 + n..])
           case IntPanic => None
           case LenInt(i, _, m) =>
             if 1 + n + m + 2 > |data| then None
             else Some(OkFields(a, i, FromLE(data[1 + n + m..1 + n + m + 2])))
  }

  /** An OK packet as the server writes it. */
  function OkPacket(f: OkFields, rest: Payload): Payload
    requires f.affectedRows <= MAX_UINT64 && f.insertId <= MAX_UINT64
  {
    [I_OK] + LenEncInt(f.affectedRows) + LenEncInt(f.insertId) + LE(f.status, 2) + rest
  }

  lemma OkRoundTrip(f: OkFields, rest: Payload)
    requires f.affectedRows <= MAX_UINT64 && f.insertId <= MAX_UINT64 && f.status < 0x1_0000
    ensures ParseOk(OkPacket(f, rest)) == Some(f)
  {
    hide LenEncInt, LE, FromLE, ReadLengthEncodedInteger;
    var a, i, s := LenEncInt(f.affectedRows), LenEncInt(f.insertId), LE(f.status, 2);
    var p := OkPacket(f, rest);
    assert p[1..] == a + (i + s + rest);
    LenEncIntRoundTrip(f.affectedRows, i + s + rest);
    assert p[1 + |a|..] == i + (s + rest);
    LenEncIntRoundTrip(f.insertId, s + rest);
    assert p[1 + |a| + |i|..1 + |a| + |i| + 2] == s;
    PowersOf256();
    LERoundTrip(f.status, 2);
  }

  // ---------------------------------------------------------------------------------------
  // What a server sends for one command

  datatype ResultSet =
    | OkSet(ok: Payload)
    | RowSet(header: Payload, cols: seq<Payload>, colEof: Payload, rows: seq<Payload>, rowEof: Payload)

  /** A packet that readUntilEOF does not stop at. */
  predicate Passable(p: Payload)
  {
    p != [] && p[0] < 0xfe
  }

  predicate EofPacket(p: Payload)
  {
    |p| == 5 && p[0] == 0xfe
  }

  /** Read as the header of a result set, the packet announces no columns. */
  predicate NoHeader(p: Payload)
  {
    p != [] && (ParseHeader(p).err == Fine ==> ParseHeader(p).resLen == 0)
  }

  /** A packet that readRow takes for a row, and nobody for a header with columns; every encoded
      row is one (RowIsReadable). */
  predicate Readable(p: Payload)
  {
    p != [] && p[0] != 0xff && !EofPacket(p) && NoHeader(p)
  }

  /** The rest of a result set, unread because a row was taken for the EOF packet before it. */
  predicate Stray(ps: seq<Payload>)
  {
    (forall p | p in ps :: NoHeader(p)) && (ps != [] ==> EofPacket(ps[|ps| - 1]))
  }

  lemma {:induction false} RowIsReadable(vs: seq<Nullable>)
    requires vs != [] && Encodable(vs)
    ensures Readable(EncodeRow(vs))
  {
    hide LE, ReadLengthEncodedInteger, LenEncInt, ParseOk;
    RowIsNotControl(vs);
    var data := EncodeRow(vs);
    if vs[0].Val? && data[0] != I_OK {
      var s := vs[0].bytes;
      assert vs[0] in vs;
      assert data == LenEncInt(|s|) + (s + EncodeRow(vs[1..]));
      LenEncIntRoundTrip(|s|, s + EncodeRow(vs[1..]));
      assert s != [] by { ZeroLength(); }
    }
  }

  lemma ZeroLength()
    ensures LenEncInt(0) == [I_OK]
  {}

  /** Rows that readUntilEOF drains without stopping at one of them. */
  predicate Drainable(rows: seq<Payload>)
  {
    forall r | r in rows :: Passable(r)
  }

  function EofStatus(p: Payload): nat
    requires |p| == 5
  {
    FromLE(p[3..5])
  }

  /** The width of a length-encoded integer, by its first byte (section 14.1.1.1 of the MySQL
      Internals Manual). */
  function IntLen(first: byte): nat
  {
    if first < 0xfb then 1
    else if first == 0xfc then 3
    else if first == 0xfd then 4
    else 9
  }

  /** Where the status of an OK packet stands: behind two length-encoded integers. */
  function StatusAt(p: Payload): nat
  {
    if |p| < 2 then 1
    else
      var n := 1 + IntLen(p[1]);
      if |p| <= n then n else n + IntLen(p[n])
  }

  /** An OK packet, by its bytes. */
  predicate OkShaped(p: Payload)
  {
    && |p| > 2 && p[0] == 0 && p[1] != 0xfb && p[1] != 0xff
    && |p| > 1 + IntLen(p[1]) && p[1 + IntLen(p[1])] != 0xfb && p[1 + IntLen(p[1])] != 0xff
    && |p| >= StatusAt(p) + 2
  }

  /** Another result set follows, says bit 3 of the status. */
  predicate OkAnnounces(p: Payload)
    requires OkShaped(p)
  {
    p[StatusAt(p)] / 8 % 2 == 1
  }

  predicate EofAnnounces(p: Payload)
    requires |p| == 5
  {
    p[3] / 8 % 2 == 1
  }

  /** A well-formed result set; more tells whether its last packet announces another one. */
  predicate WellFormed(s: ResultSet, more: bool)
  {
    match s
    case OkSet(ok) => OkShaped(ok) && OkAnnounces(ok) == more
    case RowSet(header, cols, colEof, rows, rowEof) =>
      && header != [] && header[0] != 0 && header[0] != 0xfb && header[0] != 0xff
      && cols != [] && ReadLengthEncodedInteger(header) == LenInt(|cols|, false, |header|)
      && (forall c | c in cols :: Passable(c)) && EofPacket(colEof)
      && (forall r | r in rows :: Readable(r)) && EofPacket(rowEof) && EofAnnounces(rowEof) == more
  }

  /** The status that the code takes from a packet says what the packet announces. */
  lemma {:induction false} OkSays(p: Payload)
    requires OkShaped(p)
    ensures p[0] == I_OK && ParseOk(p).Some? && MoreResults(ParseOk(p).value.status) == OkAnnounces(p)
  {
    hide FromLE, Bit, MoreResults;
    var n := IntLen(p[1]);
    IntAt(p, 1);
    IntAt(p, 1 + n);
    LowByteSays(p[StatusAt(p)..StatusAt(p) + 2]);
  }

  lemma {:induction false} IntAt(p: Payload, at: nat)
    requires at < |p| && p[at] != 0xfb && p[at] != 0xff && |p| >= at + IntLen(p[at])
    ensures ReadLengthEncodedInteger(p[at..]).LenInt? && ReadLengthEncodedInteger(p[at..]).n == IntLen(p[at])
  {
    hide FromLE;
  }

  lemma {:induction false} LowByteSays(s: seq<byte>)
    requires |s| == 2
    ensures MoreResults(FromLE(s)) <==> s[0] / 8 % 2 == 1
  {
    hide Bit;
    assert FromLE(s[1..]) == s[1] by {
      assert s[1..][1..] == [];
    }
    var lo: int, hi: int := s[0], s[1];
    assert FromLE(s) == lo + 256 * hi;
    assert (lo + 256 * hi) / 8 == lo / 8 + 32 * hi;
  }

  lemma {:induction false} EofAnnouncesMore(p: Payload)
    requires |p| == 5
    ensures MoreResults(EofStatus(p)) == EofAnnounces(p)
  {
    LowByteSays(p[3..5]);
  }

  /** A result set of one column and one row. */
  lemma {:induction false} RowSetExample()
    ensures WellFormed(RowSet([1], [[3, 100]], [0xfe, 0, 0, 0x02, 0], [[1, 65]], [0xfe, 0, 0, 0x0a, 0]), true)
  {}

  /** Packets of an autocommitting server that announce another result set, and one that does not. */
  lemma {:induction false} AnnouncingExamples()
    ensures EofPacket([0xfe, 0, 0, 0x0a, 0]) && MoreResults(EofStatus([0xfe, 0, 0, 0x0a, 0]))
    ensures EofPacket([0xfe, 0, 0, 0x02, 0]) && !MoreResults(EofStatus([0xfe, 0, 0, 0x02, 0]))
    ensures WellFormed(OkSet([0, 0, 0, 0x0a, 0, 0, 0]), true) && WellFormed(OkSet([0, 1, 0, 0x02, 0, 0, 0]), false)
  {
    EofAnnouncesMore([0xfe, 0, 0, 0x0a, 0]);
    EofAnnouncesMore([0xfe, 0, 0, 0x02, 0]);
  }

  predicate WellFormedAll(sets: seq<ResultSet>)
  {
    sets == [] || (WellFormed(sets[0], sets[1..] != []) && WellFormedAll(sets[1..]))
  }

  predicate SetDrains(s: ResultSet)
  {
    s.RowSet? ==> Drainable(s.rows)
  }

  predicate AllDrain(sets: seq<ResultSet>)
  {
    forall s | s in sets :: SetDrains(s)
  }

  function RowPackets(s: ResultSet): seq<Payload>
    requires s.RowSet?
  {
    s.rows + [s.rowEof]
  }

  function Packets(s: ResultSet): (ps: seq<Payload>)
    ensures ps != []
  {
    match s
    case OkSet(ok) => [ok]
    case RowSet(header, cols, colEof, _, _) => [header] + cols + [colEof] + RowPackets(s)
  }

  function AllPackets(sets: seq<ResultSet>): seq<Payload>
  {
    if sets == [] then [] else Packets(sets[0]) + AllPackets(sets[1..])
  }

  /** How many packets readUntilEOF takes: up to the first that starts like EOF or ERR. */
  function Drained(ps: seq<Payload>): (n: nat)
    requires [] !in ps
    ensures n <= |ps|
  {
    if ps == [] then 0
    else
      assert ps[0] in ps;
      if ps[0][0] == I_EOF || ps[0][0] == I_ERR then 1
    else 1 + Drained(ps[1..])
  }

  /** readUntilEOF takes exactly the rest of a result set if and only if no row in it starts
      with 0xfe, that is (RowIsNotControl) no first column has 2^24 bytes or more. */
  lemma {:induction false} DrainIsExact(rows: seq<Payload>, eof: Payload, rest: seq<Payload>)
    requires [] !in rows && (forall r | r in rows :: r[0] != I_ERR) && EofPacket(eof) && [] !in rest
    ensures Drained(rows + [eof] + rest) == |rows| + 1 <==> forall r | r in rows :: r[0] != I_EOF
  {
    var ps := rows + [eof] + rest;
    if rows == [] {
      assert ps[0] == eof;
    } else {
      assert ps[0] == rows[0] && ps[1..] == rows[1..] + [eof] + rest;
      assert forall r | r in rows[1..] :: r in rows;
      DrainIsExact(rows[1..], eof, rest);
      assert forall r | r in rows :: r == rows[0] || r in rows[1..];
      assert rows[0] in rows && forall r | r in rows[1..] :: r in rows;
    }
  }

  /** Otherwise it stops at a row. */
  lemma {:induction false} DrainStopsAtRow(rows: seq<Payload>, eof: Payload, rest: seq<Payload>)
    requires [] !in rows && (forall r | r in rows :: r[0] != I_ERR) && EofPacket(eof) && [] !in rest && !Drainable(rows)
    ensures var ps := rows + [eof] + rest;
            && [] !in ps && var n := Drained(ps);
            && 0 < n <= |rows| && rows[n - 1][0] == I_EOF && ps[n - 1] == rows[n - 1]
            && ps[n..] == rows[n..] + [eof] + rest
  {
    var ps := rows + [eof] + rest;
    assert ps[0] == rows[0] && rows[0] in rows;
    if rows[0][0] != I_EOF {
      assert ps[1..] == rows[1..] + [eof] + rest;
      assert forall r | r in rows :: r == rows[0] || r in rows[1..];
      DrainStopsAtRow(rows[1..], eof, rest);
    }
  }

  /** A one-column row of 2^24 bytes followed by the EOF packet: draining stops at the row. */
  lemma DrainStopsEarly()
    ensures var row := EncodeRow([Val(seq(0x100_0000, _ => 0))]);
            Drained([row] + [[I_EOF, 0, 0, 2, 0]] + []) != 2
  {
    hide LenEncInt, LenEncStr, EncodeRow;
    var big: seq<byte> := seq(0x100_0000, _ => 0);
    var vs := [Val(big)];
    assert vs[0].Val? && |vs[0].bytes| == 0x100_0000;
    RowIsNotControl(vs);
    var row := EncodeRow(vs);
    var eof: Payload := [I_EOF, 0, 0, 2, 0];
    DrainIsExact([row], eof, []);
    assert row in [row];
  }

  /** mc.readPacket when the server's packets are known: it returns the next one. */
  method NextPacket(mc: MysqlConn, ghost ps: seq<Payload>) returns (err: ConnError, data: Slice)
    requires mc.Valid() && mc.canceled == Ok && mc.InSync(ps)
    modifies mc`sequence, mc`closed
    modifies mc.buf`buf, mc.buf`idx, mc.buf`length, mc.buf`dbuf, mc.nc`incoming, mc.buf.CurSlot()
    ensures mc.Valid() && data.Valid()
    ensures mc.buf.OtherSlot() == old(mc.buf.OtherSlot())
    ensures mc.buf.CurSlot() == old(mc.buf.CurSlot()) || fresh(mc.buf.CurSlot())
    ensures mc.buf.buf == old(mc.buf.buf) || mc.buf.buf == old(mc.buf.CurSlot()) || fresh(mc.buf.buf)
    ensures old(mc.buf.FilledThisEpoch()) || (old(mc.buf.length) == 0 && err == Ok) ==> mc.buf.FilledThisEpoch()
    ensures ps != [] ==>
              && err == Ok && data.Contents() == ps[0] && mc.InSync(ps[1..]) && mc.closed == old(mc.closed)
              && (data.arr == mc.buf.buf || fresh(data.arr))
    ensures ps == [] ==> err != Ok
  {
    hide Parse, Frame, Buffer.FilledThisEpoch, Buffer.CurSlot, Buffer.OtherSlot;
    if ps != [] {
      HeadOfPackets(ps, mc.sequence);
    } else {
      NoPacket(mc.sequence);
    }
    err, data := mc.ReadPacket();
  }

  lemma NoPacket(q: byte)
    ensures Parse(FrameAll([], q), q, []) == Truncated
  {}

  lemma HeadOfPackets(ps: seq<Payload>, q: byte)
    requires ps != [] && [] !in ps
    ensures [] !in ps[1..]
    ensures Parse(FrameAll(ps, q), q, []) ==
            Packet(ps[0], FrameAll(ps[1..], NextSequence(|ps[0]|, q)), NextSequence(|ps[0]|, q))
  {
    hide Parse, Frame;
    assert ps[0] in ps;
    assert [] + ps[0] == ps[0];
    ParseUndoesFrame(ps[0], q, [], FrameAll(ps[1..], NextSequence(|ps[0]|, q)));
  }

  /** handleErrorPacket, with the error left as its packet. */
  function ErrorOf(data: Payload): Error
    requires data != []
  {
    if data[0] != I_ERR then MalformPkt else ServerError(data)
  }

  /** Reads packets until one that starts like EOF, or an error. */
  method ReadUntilEOF(mc: MysqlConn, ghost ps: seq<Payload>) returns (err: Error)
    requires mc.Valid() && mc.canceled == Ok && mc.InSync(ps) && [] !in ps
    modifies mc`sequence, mc`closed, mc`status
    modifies mc.buf`buf, mc.buf`idx, mc.buf`length, mc.buf`dbuf, mc.nc`incoming, mc.buf.CurSlot()
    ensures mc.Valid()
    ensures mc.buf.OtherSlot() == old(mc.buf.OtherSlot())
    ensures mc.buf.CurSlot() == old(mc.buf.CurSlot()) || fresh(mc.buf.CurSlot())
    ensures mc.buf.buf == old(mc.buf.buf) || mc.buf.buf == old(mc.buf.CurSlot()) || fresh(mc.buf.buf)
    ensures old(mc.buf.FilledThisEpoch()) || (old(mc.buf.length) == 0 && err == Fine) ==> mc.buf.FilledThisEpoch()
    ensures var n := Drained(ps);
            n > 0 && (ps[n - 1][0] == I_EOF || ps[n - 1][0] == I_ERR) ==>
              && mc.InSync(ps[n..]) && mc.closed == old(mc.closed)
              && err == (if ps[n - 1][0] == I_EOF then Fine else ServerError(ps[n - 1]))
              && mc.status == if EofPacket(ps[n - 1]) then EofStatus(ps[n - 1]) else old(mc.status)
  {
    hide Buffer.FilledThisEpoch, Buffer.CurSlot, Buffer.OtherSlot, Buffer.Valid, FrameAll, FromLE, MysqlConn.Unread,
      MysqlConn.InSync, Drained;
    ghost var k: nat := 0;
    var e, data := NextPacket(mc, ps);
    while true
      invariant mc.Valid() && data.Valid() && mc.status == old(mc.status)
      invariant mc.buf.OtherSlot() == old(mc.buf.OtherSlot())
      invariant mc.buf.CurSlot() == old(mc.buf.CurSlot()) || fresh(mc.buf.CurSlot())
      invariant mc.buf.buf == old(mc.buf.buf) || mc.buf.buf == old(mc.buf.CurSlot()) || fresh(mc.buf.buf)
      invariant old(mc.buf.FilledThisEpoch()) || (old(mc.buf.length) == 0 && e == Ok) ==> mc.buf.FilledThisEpoch()
      invariant k <= |ps| && forall i | 0 <= i < k :: Passable(ps[i])
      invariant k == |ps| ==> e != Ok
      invariant k < |ps| ==>
                  e == Ok && data.Contents() == ps[k] && mc.InSync(ps[k + 1..]) && mc.closed == old(mc.closed)
      decreases |ps| - k
    {
      if e != Ok {
        NothingStopsDraining(ps);
        return Conn(e);
      }
      assert ps[k] in ps;
      var bytes := data.arr[data.off..data.off + data.len];
      assert bytes == ps[k];
      if bytes[0] == I_ERR {
        DrainingStopsAt(ps, k);
        return ErrorOf(bytes);
      }
      if bytes[0] == I_EOF {
        DrainingStopsAt(ps, k);
        if |bytes| == 5 {
          mc.status := EofStatus(bytes);
        }
        return Fine;
      }
      k := k + 1;
      if k < |ps| {
        assert ps[k..][1..] == ps[k + 1..];
      }
      e, data := NextPacket(mc, ps[k..]);
    }
  }

  lemma {:induction false} DrainingStopsAt(ps: seq<Payload>, k: nat)
    requires [] !in ps && k < |ps| && (forall i | 0 <= i < k :: Passable(ps[i]))
    requires ps[k] in ps && (ps[k][0] == I_EOF || ps[k][0] == I_ERR)
    ensures Drained(ps) == k + 1
    decreases k
  {
    if k > 0 {
      assert forall i | 0 <= i < k - 1 :: ps[1..][i] == ps[i + 1];
      assert ps[1..][k - 1] == ps[k] && ps[1..][k - 1] in ps[1..];
      DrainingStopsAt(ps[1..], k - 1);
    }
  }

  lemma {:induction false} NothingStopsDraining(ps: seq<Payload>)
    requires [] !in ps && forall i | 0 <= i < |ps| :: Passable(ps[i])
    ensures Drained(ps) == |ps|
    decreases |ps|
  {
    if ps != [] {
      assert forall i | 0 <= i < |ps| - 1 :: ps[1..][i] == ps[i + 1];
      NothingStopsDraining(ps[1..]);
    }
  }

  /** What the first packet of a result set says: an error, or the column count (0 for OK). */
  datatype Header = Header(err: Error, resLen: nat, ok: Option<OkFields>)

  function ParseHeader(p: Payload): Header
    requires p != []
  {
    if p[0] == I_OK then
      (match ParseOk(p)
       case Some(f) => Header(Fine, 0, Some(f))
       case None => Header(PacketPanic, 0, None))
    else if p[0] == I_ERR then Header(ErrorOf(p), 0, None)
    else if p[0] == I_LOCAL_IN_FILE then Header(InFileRequest, 0, None)
    else match ReadLengthEncodedInteger(p)
         case IntPanic => Header(PacketPanic, 0, None)
         case LenInt(num, _, n) => if n == |p| then Header(Fine, num, None) else Header(MalformPkt, 0, None)
  }

  /** Where a draining has stopped at the last row and more results are announced, the EOF packet is
      read as a header: the source indexes beyond it and panics. */
  lemma EofAsHeader(p: Payload)
    requires EofPacket(p)
    ensures ParseHeader(p) == Header(PacketPanic, 0, None)
  {}

  method ReadResultSetHeaderPacket(mc: MysqlConn, ghost ps: seq<Payload>) returns (err: Error, resLen: nat)
    requires mc.Valid() && mc.canceled == Ok && mc.InSync(ps) && [] !in ps
    modifies mc`sequence, mc`closed, mc`status, mc`affectedRows, mc`insertId
    modifies mc.buf`buf, mc.buf`idx, mc.buf`length, mc.buf`dbuf, mc.nc`incoming, mc.buf.CurSlot()
    ensures mc.Valid()
    ensures mc.buf.OtherSlot() == old(mc.buf.OtherSlot())
    ensures mc.buf.CurSlot() == old(mc.buf.CurSlot()) || fresh(mc.buf.CurSlot())
    ensures mc.buf.buf == old(mc.buf.buf) || mc.buf.buf == old(mc.buf.CurSlot()) || fresh(mc.buf.buf)
    ensures old(mc.buf.FilledThisEpoch()) || (old(mc.buf.length) == 0 && err == Fine) ==> mc.buf.FilledThisEpoch()
    ensures ps != [] ==>
              && mc.InSync(ps[1..]) && mc.closed == old(mc.closed)
              && ps[0] in ps
              && var h := ParseHeader(ps[0]);
              && err == h.err && resLen == h.resLen
              && mc.status == (if h.ok.Some? then h.ok.value.status else old(mc.status))
              && (h.ok.Some? ==> mc.affectedRows == h.ok.value.affectedRows && mc.insertId == h.ok.value.insertId)
  {
    hide Buffer.FilledThisEpoch, Buffer.CurSlot, Buffer.OtherSlot, Buffer.Valid, FrameAll, FromLE, MysqlConn.Unread,
      MysqlConn.InSync, Drained, ReadLengthEncodedInteger, ParseOk;
    var e, data := NextPacket(mc, ps);
    if e != Ok {
      return Conn(e), 0;
    }
    assert ps[0] in ps;
    var bytes := data.arr[data.off..data.off + data.len];
    assert bytes == ps[0];
    var h := ParseHeader(bytes);
    if h.ok.Some? {
      mc.affectedRows, mc.insertId, mc.status := h.ok.value.affectedRows, h.ok.value.insertId, h.ok.value.status;
    }
    return h.err, h.resLen;
  }

  /** The EOF packet behind column definitions; an old one has one byte. */
  predicate EndsColumns(p: Payload)
  {
    p != [] && p[0] == 0xfe && (|p| == 1 || |p| == 5)
  }

  /** Reads column definitions up to the EOF packet behind them, k packets further on; count of
      them are expected. */
  method ReadColumns(mc: MysqlConn, count: nat, ghost ps: seq<Payload>, ghost k: nat) returns (err: Error)
    requires mc.Valid() && mc.canceled == Ok && mc.InSync(ps) && [] !in ps
    requires k <= count && k < |ps| && EndsColumns(ps[k]) && (forall i | 0 <= i < k :: !EndsColumns(ps[i]))
    modifies mc`sequence, mc`closed
    modifies mc.buf`buf, mc.buf`idx, mc.buf`length, mc.buf`dbuf, mc.nc`incoming, mc.buf.CurSlot()
    ensures mc.Valid()
    ensures mc.buf.OtherSlot() == old(mc.buf.OtherSlot())
    ensures mc.buf.CurSlot() == old(mc.buf.CurSlot()) || fresh(mc.buf.CurSlot())
    ensures mc.buf.buf == old(mc.buf.buf) || mc.buf.buf == old(mc.buf.CurSlot()) || fresh(mc.buf.buf)
    ensures old(mc.buf.FilledThisEpoch()) || (old(mc.buf.length) == 0 && err == Fine) ==> mc.buf.FilledThisEpoch()
    ensures err == (if k == count then Fine else ColumnMismatch)
    ensures mc.InSync(ps[k + 1..]) && mc.closed == old(mc.closed)
  {
    hide Buffer.FilledThisEpoch, Buffer.CurSlot, Buffer.OtherSlot, Buffer.Valid, FrameAll, FromLE, MysqlConn.Unread,
      MysqlConn.InSync, Drained;
    var e, data := NextPacket(mc, ps);
    var i := 0;
    while true
      invariant data.Valid()
      invariant mc.Valid()
      invariant mc.buf.OtherSlot() == old(mc.buf.OtherSlot())
      invariant mc.buf.CurSlot() == old(mc.buf.CurSlot()) || fresh(mc.buf.CurSlot())
      invariant mc.buf.buf == old(mc.buf.buf) || mc.buf.buf == old(mc.buf.CurSlot()) || fresh(mc.buf.buf)
      invariant old(mc.buf.FilledThisEpoch()) || (old(mc.buf.length) == 0 && e == Ok) ==> mc.buf.FilledThisEpoch()
      invariant 0 <= i <= k
      invariant e == Ok && data.Contents() == ps[i] && mc.InSync(ps[i + 1..]) && mc.closed == old(mc.closed)
      decreases k - i
    {
      if e != Ok {
        return Conn(e);
      }
      assert ps[i] in ps;
      var bytes := data.arr[data.off..data.off + data.len];
      assert bytes == ps[i];
      if bytes[0] == I_EOF && (|bytes| == 5 || |bytes| == 1) {
        return if i == count then Fine else ColumnMismatch;
      }
      i := i + 1;
      assert ps[i..][1..] == ps[i + 1..];
      e, data := NextPacket(mc, ps[i..]);
    }
  }

  lemma SetPackets(s: ResultSet, rest: seq<Payload>)
    requires s.RowSet?
    ensures var ps := Packets(s) + rest;
            && ps[0] == s.header && ps[1..] == s.cols + [s.colEof] + (RowPackets(s) + rest)
            && RowPackets(s) + rest == s.rows + [s.rowEof] + rest
            && (s.cols + [s.colEof] + (RowPackets(s) + rest))[|s.cols| + 1..] == RowPackets(s) + rest
            && (s.rows + [s.rowEof] + rest)[|s.rows| + 1..] == rest
  {}

  lemma NonEmptyParts(s: ResultSet, more: bool, rest: seq<Payload>)
    requires WellFormed(s, more) && [] !in rest
    ensures [] !in Packets(s) + rest
    ensures s.RowSet? ==> [] !in RowPackets(s) + rest && [] !in s.rows && [] !in s.cols
  {
    hide FromLE, ParseOk, MoreResults, ReadLengthEncodedInteger;
    if s.RowSet? {
      assert [] !in s.rows && [] !in s.cols && s.rowEof != [] && s.colEof != [];
    }
  }

  lemma ColumnsDrain(s: ResultSet, more: bool, rest: seq<Payload>)
    requires s.RowSet? && WellFormed(s, more) && [] !in rest
    ensures var a := s.cols + [s.colEof] + (RowPackets(s) + rest);
            && [] !in a && Drained(a) == |s.cols| + 1 && a[|s.cols|] == s.colEof && EofPacket(s.colEof)
            && a[|s.cols| + 1..] == s.rows + [s.rowEof] + rest
  {
    hide Drained, ReadLengthEncodedInteger, MoreResults, FromLE;
    NonEmptyParts(s, more, rest);
    SetPackets(s, rest);
    DrainIsExact(s.cols, s.colEof, RowPackets(s) + rest);
  }

  /** The rows of a result set, drained: to the EOF packet, or to the row that is taken for it;
      left is what stays unread of the set. */
  lemma {:induction false} RowsDrain(rows: seq<Payload>, eof: Payload, tail: seq<Payload>)
    returns (n: nat, left: seq<Payload>)
    requires (forall r | r in rows :: Readable(r)) && EofPacket(eof) && [] !in tail
    ensures var ps := rows + [eof] + tail;
            && [] !in ps && n == Drained(ps) && 0 < n <= |ps| && ps[n..] == left + tail && Stray(left)
            && (left == [] <==> Drainable(rows)) && ps[n - 1] != [] && ps[n - 1][0] == I_EOF
            && if left == [] then ps[n - 1] == eof else !EofPacket(ps[n - 1])
  {
    hide Drained, ParseHeader;
    assert [] !in rows && forall r | r in rows :: r[0] != I_ERR;
    n := Drained(rows + [eof] + tail);
    if Drainable(rows) {
      DrainIsExact(rows, eof, tail);
      left := [];
    } else {
      DrainStopsAtRow(rows, eof, tail);
      left := rows[n..] + [eof];
      assert rows[n - 1] in rows && forall r | r in rows[n..] :: r in rows;
      EofAsHeader(eof);
    }
  }

  lemma HeaderOf(s: ResultSet, more: bool, rest: seq<Payload>)
    requires WellFormed(s, more) && [] !in rest
    ensures var ps := Packets(s) + rest;
            && [] !in ps && ps[0] in ps && ps[0] != []
            && match s
               case OkSet(ok) =>
                 ParseHeader(ps[0]).err == Fine && ParseHeader(ps[0]).resLen == 0 && ParseHeader(ps[0]).ok.Some?
                 && MoreResults(ParseHeader(ps[0]).ok.value.status) == more && ps[1..] == rest
               case RowSet(_, cols, colEof, _, _) =>
                 ParseHeader(ps[0]) == Header(Fine, |cols|, None) && |cols| > 0
                 && ps[1..] == cols + [colEof] + (RowPackets(s) + rest)
  {
    hide ReadLengthEncodedInteger, ParseOk, MoreResults, FromLE, OkAnnounces, StatusAt;
    NonEmptyParts(s, more, rest);
    if s.RowSet? {
      SetPackets(s, rest);
    } else {
      OkSays(s.ok);
    }
    assert (Packets(s) + rest)[0] in Packets(s) + rest;
  }

  /** The two drains: column definitions, then rows. left is what stays unread of the set. */
  method SkipRows(mc: MysqlConn, ghost s: ResultSet, ghost more: bool, ghost rest: seq<Payload>)
    returns (err: Error, ghost left: seq<Payload>)
    requires mc.Valid() && mc.canceled == Ok && s.RowSet? && WellFormed(s, more) && [] !in rest
    requires mc.InSync(s.cols + [s.colEof] + (RowPackets(s) + rest))
    modifies mc`sequence, mc`closed, mc`status
    modifies mc.buf`buf, mc.buf`idx, mc.buf`length, mc.buf`dbuf, mc.nc`incoming, mc.buf.CurSlot()
    ensures mc.Valid()
    ensures mc.buf.OtherSlot() == old(mc.buf.OtherSlot())
    ensures mc.buf.CurSlot() == old(mc.buf.CurSlot()) || fresh(mc.buf.CurSlot())
    ensures mc.buf.buf == old(mc.buf.buf) || mc.buf.buf == old(mc.buf.CurSlot()) || fresh(mc.buf.buf)
    ensures old(mc.buf.FilledThisEpoch()) || (old(mc.buf.length) == 0 && err == Fine) ==> mc.buf.FilledThisEpoch()
    ensures err == Fine && mc.InSync(left + rest) && Stray(left) && mc.closed == old(mc.closed)
    ensures left == [] <==> SetDrains(s)
    ensures MoreResults(mc.status) == if left == [] then more else ColumnsSayMore(s)
  {
    hide Buffer.FilledThisEpoch, Buffer.CurSlot, Buffer.OtherSlot, Buffer.Valid, FrameAll, FromLE, MysqlConn.Unread,
      MysqlConn.InSync, Drained, MoreResults, NoHeader, Stray, WellFormed, RowPackets, Passable, Readable, Drainable;
    left := [];
    ColumnsDrain(s, more, rest);
    EofSays(s, more);
    err := ReadUntilEOF(mc, s.cols + [s.colEof] + (RowPackets(s) + rest));
    if err != Fine {
      return;
    }
    ghost var n;
    n, left := RowsDrain(s.rows, s.rowEof, rest);
    err := ReadUntilEOF(mc, s.rows + [s.rowEof] + rest);
  }

  /** In the middle of a result set that was not drained to its end: what the next packet says
      as a header. */
  lemma {:induction false} StrayHeader(ps: seq<Payload>, rest: seq<Payload>)
    requires Stray(ps) && ps != [] && [] !in rest
    ensures [] !in ps + rest && (ps + rest)[0] == ps[0] && (ps + rest)[1..] == ps[1..] + rest && ps[0] != []
    ensures var h := ParseHeader(ps[0]);
            h.err != EndOfRows && (h.err == Fine ==> h.resLen == 0 && ps[1..] != [] && Stray(ps[1..]))
  {
    assert ps[0] in ps && NoHeader(ps[0]);
    HeaderErrors(ps[0]);
    hide ParseHeader;
    assert forall p | p in ps :: NoHeader(p);
    if |ps| == 1 {
      EofAsHeader(ps[0]);
    } else {
      assert forall p | p in ps[1..] :: p in ps;
    }
  }

  lemma HeaderErrors(p: Payload)
    requires p != []
    ensures ParseHeader(p).err != EndOfRows
  {}

  lemma StrayNonEmpty(ps: seq<Payload>)
    requires Stray(ps)
    ensures [] !in ps
  {}

  /** One round of the loop of discardResults, and the beginning of exec: the header and, if there
      are columns, two drains. If the connection is astray already, a packet of stray is read as
      the header: that fails, or it has no columns. */
  method SkipResultSet(mc: MysqlConn, ghost stray: seq<Payload>, ghost sets: seq<ResultSet>, ghost next: seq<Payload>)
    returns (err: Error, ghost left: seq<Payload>)
    requires mc.Valid() && mc.canceled == Ok && WellFormedAll(sets) && Stray(stray) && [] !in next
    requires mc.InSync(stray + (AllPackets(sets) + next)) && (stray == [] ==> sets != [])
    modifies mc`sequence, mc`closed, mc`status, mc`affectedRows, mc`insertId
    modifies mc.buf`buf, mc.buf`idx, mc.buf`length, mc.buf`dbuf, mc.nc`incoming, mc.buf.CurSlot()
    ensures mc.Valid() && mc.closed == old(mc.closed) && Stray(left)
    ensures mc.buf.OtherSlot() == old(mc.buf.OtherSlot())
    ensures mc.buf.CurSlot() == old(mc.buf.CurSlot()) || fresh(mc.buf.CurSlot())
    ensures mc.buf.buf == old(mc.buf.buf) || mc.buf.buf == old(mc.buf.CurSlot()) || fresh(mc.buf.buf)
    ensures old(mc.buf.FilledThisEpoch()) || (old(mc.buf.length) == 0 && err == Fine) ==> mc.buf.FilledThisEpoch()
    ensures stray == [] ==>
              && err == Fine && mc.InSync(left + (AllPackets(sets[1..]) + next))
              && (left == [] <==> SetDrains(sets[0]))
              && MoreResults(mc.status) == if left == [] then sets[1..] != [] else ColumnsSayMore(sets[0])
    ensures stray != [] && err == Fine ==>
              left == stray[1..] && left != [] && mc.InSync(left + (AllPackets(sets) + next))
  {
    hide Buffer.FilledThisEpoch, Buffer.CurSlot, Buffer.OtherSlot, Buffer.Valid, FrameAll, FromLE, MysqlConn.Unread,
      MysqlConn.InSync, Drained, MoreResults, ReadLengthEncodedInteger, ParseOk, ParseHeader, WellFormed, Drainable,
      Packets, RowPackets, ColumnsSayMore, NoHeader, AllPackets;
    ghost var ps := stray + (AllPackets(sets) + next);
    left := [];
    if stray == [] {
      FirstHeader(sets, next);
      assert ps == AllPackets(sets) + next;
    } else {
      NonEmptyAll(sets, next);
      StrayHeader(stray, AllPackets(sets) + next);
      left := stray[1..];
    }
    var resLen;
    err, resLen := ReadResultSetHeaderPacket(mc, ps);
    if err != Fine {
      left := [];
      return;
    }
    if resLen > 0 {
      err, left := SkipRows(mc, sets[0], sets[1..] != [], AllPackets(sets[1..]) + next);
    }
  }

  lemma FirstHeader(sets: seq<ResultSet>, next: seq<Payload>)
    requires sets != [] && WellFormedAll(sets) && [] !in next
    ensures var ps, s, rest := AllPackets(sets) + next, sets[0], AllPackets(sets[1..]) + next;
            && [] !in ps && ps != [] && ps[0] != [] && [] !in rest && WellFormed(s, sets[1..] != [])
            && [] + rest == rest
            && match s
               case OkSet(ok) =>
                 ParseHeader(ps[0]).err == Fine && ParseHeader(ps[0]).resLen == 0 && ParseHeader(ps[0]).ok.Some?
                 && MoreResults(ParseHeader(ps[0]).ok.value.status) == (sets[1..] != []) && ps[1..] == rest
               case RowSet(_, cols, colEof, _, _) =>
                 ParseHeader(ps[0]) == Header(Fine, |cols|, None) && |cols| > 0
                 && ps[1..] == cols + [colEof] + (RowPackets(s) + rest)
  {
    hide ParseHeader, WellFormed, Packets, AllPackets, MoreResults, RowPackets;
    FirstSet(sets, next);
    NonEmptyAll(sets[1..], next);
    HeaderOf(sets[0], sets[1..] != [], AllPackets(sets[1..]) + next);
  }

  lemma EofSays(s: ResultSet, more: bool)
    requires s.RowSet? && WellFormed(s, more)
    ensures EofPacket(s.rowEof) && MoreResults(EofStatus(s.rowEof)) == more && forall r | r in s.rows :: Readable(r)
  {
    EofAnnouncesMore(s.rowEof);
  }

  /** The EOF packet behind the column definitions announces another result set. */
  predicate ColumnsSayMore(s: ResultSet)
  {
    s.RowSet? && |s.colEof| == 5 && MoreResults(EofStatus(s.colEof))
  }

  lemma NonEmptyAll(sets: seq<ResultSet>, next: seq<Payload>)
    requires WellFormedAll(sets) && [] !in next
    ensures [] !in AllPackets(sets) + next
  {
    hide WellFormed, Packets;
    if sets != [] {
      NonEmptyAll(sets[1..], next);
      NonEmptyParts(sets[0], sets[1..] != [], []);
      assert Packets(sets[0]) + [] == Packets(sets[0]);
    }
  }

  lemma FirstSet(sets: seq<ResultSet>, next: seq<Payload>)
    requires sets != []
    ensures AllPackets(sets) + next == Packets(sets[0]) + (AllPackets(sets[1..]) + next)
  {
    hide Packets;
  }

  lemma NoSets(next: seq<Payload>)
    ensures AllPackets([]) + next == next
  {}

  /** Reads past every further result set of a response; left is what stays unread of it. */
  method DiscardResults(mc: MysqlConn, ghost stray: seq<Payload>, ghost sets: seq<ResultSet>, ghost next: seq<Payload>)
    returns (err: Error, ghost left: seq<Payload>)
    requires mc.Valid() && mc.canceled == Ok && WellFormedAll(sets) && Stray(stray) && [] !in next
    requires mc.InSync(stray + (AllPackets(sets) + next)) && (stray == [] ==> MoreResults(mc.status) == (sets != []))
    modifies mc`sequence, mc`closed, mc`status, mc`affectedRows, mc`insertId
    modifies mc.buf`buf, mc.buf`idx, mc.buf`length, mc.buf`dbuf, mc.nc`incoming, mc.buf.CurSlot()
    ensures mc.Valid() && mc.closed == old(mc.closed)
    ensures mc.buf.OtherSlot() == old(mc.buf.OtherSlot())
    ensures mc.buf.CurSlot() == old(mc.buf.CurSlot()) || fresh(mc.buf.CurSlot())
    ensures mc.buf.buf == old(mc.buf.buf) || mc.buf.buf == old(mc.buf.CurSlot()) || fresh(mc.buf.buf)
    ensures old(mc.buf.FilledThisEpoch()) ==> mc.buf.FilledThisEpoch()
    ensures stray == [] && AllDrain(sets) ==> err == Fine && !MoreResults(mc.status)
    ensures err == Fine ==>
              mc.InSync(left + next) && [] !in left && (left == [] <==> stray == [] && AllDrain(sets))
  {
    hide Buffer.FilledThisEpoch, Buffer.CurSlot, Buffer.OtherSlot, Buffer.Valid, FrameAll, FromLE, MysqlConn.Unread,
      MysqlConn.InSync, Drained, MoreResults, WellFormed, SetDrains, Packets, Stray, AllPackets, AllDrain,
      ColumnsSayMore;
    ghost var todo := sets;
    left := stray;
    while MoreResults(mc.status)
      invariant mc.Valid() && mc.closed == old(mc.closed) && Stray(left) && WellFormedAll(todo)
      invariant mc.buf.OtherSlot() == old(mc.buf.OtherSlot())
      invariant mc.buf.CurSlot() == old(mc.buf.CurSlot()) || fresh(mc.buf.CurSlot())
      invariant mc.buf.buf == old(mc.buf.buf) || mc.buf.buf == old(mc.buf.CurSlot()) || fresh(mc.buf.buf)
      invariant old(mc.buf.FilledThisEpoch()) ==> mc.buf.FilledThisEpoch()
      invariant mc.InSync(left + (AllPackets(todo) + next))
      invariant if left == [] then
                  MoreResults(mc.status) == (todo != []) && stray == [] && (AllDrain(sets) <==> AllDrain(todo))
                else stray != [] || !AllDrain(sets)
      decreases if left == [] then 1 + |todo| else 0, |left|
    {
      ghost var before, was := todo, left;
      if left == [] {
        AllDrainSplit(todo);
        todo := todo[1..];
      }
      err, left := SkipResultSet(mc, was, before, next);
      if err != Fine {
        return;
      }
    }
    StrayNonEmpty(left);
    NonEmptyAll(todo, []);
    AllDrainNone();
    LeftOf(left, todo, next);
    left := left + AllPackets(todo);
    err := Fine;
  }

  lemma {:induction false} AllDrainSplit(sets: seq<ResultSet>)
    requires sets != []
    ensures AllDrain(sets) <==> SetDrains(sets[0]) && AllDrain(sets[1..])
  {
    hide SetDrains;
    assert sets == [sets[0]] + sets[1..];
  }

  lemma AllDrainNone()
    ensures AllDrain([])
  {}

  lemma LeftOf(left: seq<Payload>, todo: seq<ResultSet>, next: seq<Payload>)
    ensures left + (AllPackets(todo) + next) == left + AllPackets(todo) + next
    ensures AllPackets(todo) + [] == AllPackets(todo) && (left == [] && todo == [] ==> left + AllPackets(todo) == [])
  {}

  /** A packet stream has one reading: a connection cannot be in sync with two different lists. */
  lemma {:induction false} OneReading(a: seq<Payload>, b: seq<Payload>, q: byte)
    requires [] !in a && [] !in b && FrameAll(a, q) == FrameAll(b, q)
    ensures a == b
    decreases |a| + |b|
  {
    hide Frame, Parse;
    if a != [] {
      HeadOfPackets(a, q);
    } else {
      NoPacket(q);
    }
    if b != [] {
      HeadOfPackets(b, q);
    } else {
      NoPacket(q);
    }
    if a != [] {
      OneReading(a[1..], b[1..], NextSequence(|a[0]|, q));
      assert a == [a[0]] + a[1..] && b == [b[0]] + b[1..];
    }
  }

  /** With packets ahead of next, a connection is not in step with next. */
  lemma {:induction false} AheadOfNext(mc: MysqlConn, ahead: seq<Payload>, next: seq<Payload>)
    requires mc.Valid() && mc.InSync(ahead + next)
    ensures mc.InSync(next) <==> ahead == []
  {
    hide FrameAll, Buffer.Valid, Buffer.Unread;
    if ahead == [] {
      assert ahead + next == next;
    } else if mc.InSync(next) {
      OneReading(ahead + next, next, mc.sequence);
      assert false;
    }
  }

  /** mc.exec from the answer on: it succeeds and consumes exactly the packets of the response, if
      and only if no row starts like the EOF packet. Otherwise rows may be read as headers; that
      can succeed, but never behind the EOF packet of their result set. */
  method ReadExecResult(mc: MysqlConn, ghost sets: seq<ResultSet>, ghost next: seq<Payload>) returns (err: Error)
    requires mc.Valid() && mc.canceled == Ok && sets != [] && WellFormedAll(sets) && [] !in next
    requires mc.InSync(AllPackets(sets) + next)
    modifies mc`sequence, mc`closed, mc`status, mc`affectedRows, mc`insertId
    modifies mc.buf`buf, mc.buf`idx, mc.buf`length, mc.buf`dbuf, mc.nc`incoming, mc.buf.CurSlot()
    ensures mc.Valid() && mc.closed == old(mc.closed)
    ensures mc.buf.OtherSlot() == old(mc.buf.OtherSlot())
    ensures mc.buf.CurSlot() == old(mc.buf.CurSlot()) || fresh(mc.buf.CurSlot())
    ensures mc.buf.buf == old(mc.buf.buf) || mc.buf.buf == old(mc.buf.CurSlot()) || fresh(mc.buf.buf)
    ensures old(mc.buf.FilledThisEpoch()) || (old(mc.buf.length) == 0 && err == Fine) ==> mc.buf.FilledThisEpoch()
    ensures err == Fine && mc.InSync(next) <==> AllDrain(sets)
  {
    hide Buffer.FilledThisEpoch, Buffer.CurSlot, Buffer.OtherSlot, Buffer.Valid, FrameAll, FromLE, MysqlConn.Unread,
      MysqlConn.InSync, Drained, MoreResults, WellFormed, SetDrains, AllDrain, Packets, AllPackets, Stray,
      ColumnsSayMore;
    assert Stray([]) && [] + (AllPackets(sets) + next) == AllPackets(sets) + next by { NothingStray(); }
    AllDrainSplit(sets);
    ghost var left;
    err, left := SkipResultSet(mc, [], sets, next);
    if err != Fine {
      return;
    }
    err, left := DiscardResults(mc, left, sets[1..], next);
    if err == Fine {
      AheadOfNext(mc, left, next);
    }
  }

  /** Two statements in autocommit mode: both OK packets are consumed. */
  method ExecTwoStatements(mc: MysqlConn, ghost next: seq<Payload>) returns (err: Error)
    requires mc.Valid() && mc.canceled == Ok && [] !in next
    requires mc.InSync([[0, 0, 0, 0x0a, 0, 0, 0], [0, 1, 0, 0x02, 0, 0, 0]] + next)
    modifies mc`sequence, mc`closed, mc`status, mc`affectedRows, mc`insertId
    modifies mc.buf`buf, mc.buf`idx, mc.buf`length, mc.buf`dbuf, mc.nc`incoming, mc.buf.CurSlot()
    ensures mc.Valid() && err == Fine && mc.InSync(next)
  {
    hide FrameAll, MysqlConn.Unread, MysqlConn.InSync, Buffer.Valid, WellFormed;
    ghost var a, b := OkSet([0, 0, 0, 0x0a, 0, 0, 0]), OkSet([0, 1, 0, 0x02, 0, 0, 0]);
    AnnouncingExamples();
    TwoOks(a, b);
    err := ReadExecResult(mc, [a, b], next);
  }

  lemma {:induction false} TwoOks(a: ResultSet, b: ResultSet)
    requires a.OkSet? && b.OkSet? && WellFormed(a, true) && WellFormed(b, false)
    ensures WellFormedAll([a, b]) && AllDrain([a, b]) && AllPackets([a, b]) == [a.ok, b.ok]
  {
    hide WellFormed;
    assert [a, b][1..] == [b] && [b][1..] == [];
    assert WellFormedAll([]) && AllPackets([]) == [];
    assert WellFormedAll([b]) && AllPackets([b]) == [b.ok] + [];
    assert AllPackets([a, b]) == [a.ok] + AllPackets([b]);
  }

  lemma NothingStray()
    ensures Stray([])
  {}
}
