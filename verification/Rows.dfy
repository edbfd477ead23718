// Rows of a query (mysql/rows.go, textRows.readRow in mysql/packets.go, the queries that make
// them in mysql/connection.go and mysql/statement.go). The response to one command is known to
// the proof as a list of result sets, followed by packets that belong to later commands.
module Rows {
  import opened Bytes
  import opened GoSlice
  import opened Buffers
  import opened LenEnc
  import opened Wire
  import opened Connection
  import opened TextRow
  import opened Results

  class MysqlRows {
    var mc: MysqlConn?               // nil once the response is used up
    var done: bool                   // rs.done: the current result set is used up
    ghost const conn: MysqlConn
    ghost var rows: seq<Payload>     // of the current result set, not yet read
    ghost var rowEof: Payload
    ghost var todo: seq<ResultSet>   // the result sets behind it
    ghost var left: seq<Payload>     // packets of the response that were still unread when mc became nil
    ghost const next: seq<Payload>   // the packets behind the response

    /** What the connection will deliver: the rest of the response, then next. */
    ghost function Remaining(): seq<Payload>
      reads this
    {
      if mc == null then left + next
      else if done then AllPackets(todo) + next
      else rows + [rowEof] + (AllPackets(todo) + next)
    }

    ghost predicate Valid()
      reads this, conn, conn.buf, conn.buf.buf, conn.nc
    {
      && conn.Valid() && conn.canceled == Ok && !conn.closed && [] !in next && [] !in left
      && (mc == null || mc == conn)
      && conn.InSync(Remaining())
      && (mc != null ==> left == [] && WellFormedAll(todo))
      && (mc != null && done ==> MoreResults(conn.status) == (todo != []))
      && (mc != null && !done ==>
           (forall r | r in rows :: Readable(r)) && EofPacket(rowEof) && EofAnnounces(rowEof) == (todo != []))
    }

    /** The unread rows of the current result set drain to their end. */
    ghost predicate Drains()
      reads this
    {
      mc != null && !done ==> Drainable(rows)
    }

    /** A draining has stopped at a row before the packets of stray. */
    ghost predicate Astray(stray: seq<Payload>)
      reads this, conn, conn.buf, conn.buf.buf, conn.nc
    {
      && conn.Valid() && conn.canceled == Ok && !conn.closed && mc == conn && [] !in next && left == []
      && WellFormedAll(todo) && stray != [] && Stray(stray) && conn.InSync(stray + (AllPackets(todo) + next))
    }

    constructor (ghost conn: MysqlConn, mc: MysqlConn?, done: bool, ghost todo: seq<ResultSet>,
                 ghost left: seq<Payload>, ghost next: seq<Payload>)
      ensures this.conn == conn && this.mc == mc && this.done == done && this.todo == todo && this.left == left
              && this.next == next
    {
      this.conn, this.mc, this.done, this.todo, this.left, this.next := conn, mc, done, todo, left, next;
      rows, rowEof := [], [];
    }

    method HasNextResultSet() returns (b: bool)
      requires mc == null || mc == conn
      ensures b == (mc != null && MoreResults(conn.status))
    {
      if mc == null {
        return false;
      }
      b := MoreResults(mc.status);
    }

    /** textRows.readRow: the next row, decoded, or io.EOF. temporal tells for each destination
        column whether it is parsed as a date. */
    method Next(temporal: seq<bool>) returns (err: Error, data: Slice, dest: RowResult)
      requires Valid()
      modifies this, conn`sequence, conn`closed, conn`status, conn`affectedRows, conn`insertId
      modifies conn.buf`buf, conn.buf`idx, conn.buf`length, conn.buf`dbuf, conn.nc`incoming, conn.buf.CurSlot()
      ensures Valid() && data.Valid() && left == old(left)
      ensures old(mc == null || done) ==> mc == old(mc) && done == old(done) && todo == old(todo)
      ensures mc != null ==> conn.status == old(conn.status) || done
      ensures conn.buf.OtherSlot() == old(conn.buf.OtherSlot())
      ensures conn.buf.CurSlot() == old(conn.buf.CurSlot()) || fresh(conn.buf.CurSlot())
      ensures conn.buf.buf == old(conn.buf.buf) || conn.buf.buf == old(conn.buf.CurSlot()) || fresh(conn.buf.buf)
      ensures old(conn.buf.FilledThisEpoch()) ==> conn.buf.FilledThisEpoch()
      ensures old(mc == null || done || rows == []) ==> err == EndOfRows
      ensures old(mc == null || done) ==> Remaining() == old(Remaining())
      ensures old(mc != null && !done && rows != []) ==>
                && data.Contents() == old(rows)[0]
                && dest == DecodeRow(old(rows)[0], data.len < data.Cap(), 0, temporal)
                && err == (if dest.Row? then Fine else BadRow(dest))
                && mc != null && !done && rows == old(rows)[1..] && todo == old(todo)
                && (data.arr == conn.buf.buf || fresh(data.arr))
      ensures old(mc != null && !done && rows == []) ==>
                todo == old(todo) && (if todo == [] then mc == null else mc != null && done)
    {
      hide Buffer.FilledThisEpoch, Buffer.CurSlot, Buffer.OtherSlot, Buffer.Valid, Buffer.Unread, FrameAll, FromLE,
        MysqlConn.Unread, MysqlConn.InSync, MoreResults, ParseOk, ParseHeader, Drained, ReadLengthEncodedInteger,
        AllPackets, WellFormedAll, DecodeRow;
      data := NewSlice([]);
      dest := Row([], 0);
      if mc == null || done {
        return EndOfRows, data, dest;
      }
      if mc.closed {
        err := Conn(InvalidConn);
        return;
      }
      ghost var tail := AllPackets(todo) + next;
      ghost var ps := rows + [rowEof] + tail;
      ghost var row0 := if rows == [] then rowEof else rows[0];
      FirstRow(rows, rowEof, tail);
      var e;
      e, data := NextPacket(mc, ps);
      if e != Ok {
        err := Conn(e);
        return;
      }
      var bytes := data.arr[data.off..data.off + data.len];
      assert bytes == row0;
      if bytes[0] == I_EOF && |bytes| == 5 {
        EndRows(bytes);
        return EndOfRows, data, dest;
      }
      if bytes[0] == I_ERR {
        assert false;      // no ERR packet among the rows of an error-free response
      }
      rows := rows[1..];
      dest := ReadColumnsOfRow(bytes, data.len < data.Cap(), temporal);
      err := if dest.Row? then Fine else BadRow(dest);
    }

    /** The EOF packet behind the rows: its status, and whether the response ends here. */
    method EndRows(bytes: Payload)
      requires conn.Valid() && conn.canceled == Ok && !conn.closed && [] !in next && mc == conn && !done && left == []
      requires EofPacket(bytes) && EofAnnounces(bytes) == (todo != []) && WellFormedAll(todo)
      requires conn.InSync(AllPackets(todo) + next)
      modifies this, conn`status
      ensures Valid() && todo == old(todo) && left == old(left)
      ensures if todo == [] then mc == null else mc != null && done
    {
      hide Buffer.Valid, Buffer.Unread, FrameAll, FromLE, MysqlConn.Unread, MysqlConn.InSync, MoreResults, Drained,
        AllPackets, WellFormedAll;
      EofAnnouncesMore(bytes);
      mc.status := EofStatus(bytes);
      done := true;
      var more := HasNextResultSet();
      if !more {
        NoSets(next);
        assert [] + next == next;
        mc := null;
      }
    }

    lemma FirstRow(rows: seq<Payload>, rowEof: Payload, tail: seq<Payload>)
      requires EofPacket(rowEof) && (forall r | r in rows :: Readable(r))
      ensures var ps := rows + [rowEof] + tail;
              && ps[0] == (if rows == [] then rowEof else rows[0])
              && ps[1..] == (if rows == [] then tail else rows[1..] + [rowEof] + tail)
              && (rows != [] ==> Readable(rows[0]) && forall r | r in rows[1..] :: Readable(r))
    {
      if rows != [] {
        assert rows[0] in rows;
      }
    }

    /** The unread rows of the current result set, drained: to the EOF packet, or to the row that
        is taken for it. */
    lemma DrainRest() returns (n: nat, rest: seq<Payload>)
      requires Valid() && mc != null && !done
      ensures [] !in Remaining() && n == Drained(Remaining()) && 0 < n <= |Remaining()|
      ensures Remaining()[n..] == rest + (AllPackets(todo) + next) && Stray(rest) && (rest == [] <==> Drainable(rows))
      ensures Remaining()[n - 1] != [] && Remaining()[n - 1][0] == I_EOF
      ensures if rest == [] then EofPacket(Remaining()[n - 1])
              && MoreResults(EofStatus(Remaining()[n - 1])) == (todo != [])
              else !EofPacket(Remaining()[n - 1])
    {
      hide Drained, FrameAll, MysqlConn.Unread, AllPackets, WellFormedAll, MoreResults, Readable, Drainable, Stray;
      NonEmptyAll(todo, next);
      n, rest := RowsDrain(rows, rowEof, AllPackets(todo) + next);
      EofAnnouncesMore(rowEof);
    }

    /** The rest of the current result set is read and dropped. rest is what is read of it no
        more, because a row was taken for the EOF packet. */
    method FinishResultSet() returns (err: Error, ghost rest: seq<Payload>)
      requires Valid() && mc != null && !done
      modifies this, conn`sequence, conn`closed, conn`status
      modifies conn.buf`buf, conn.buf`idx, conn.buf`length, conn.buf`dbuf, conn.nc`incoming, conn.buf.CurSlot()
      ensures err == Fine && conn.Valid() && conn.canceled == Ok && !conn.closed && mc == conn && done
      ensures todo == old(todo) && left == [] && WellFormedAll(todo)
      ensures conn.InSync(rest + (AllPackets(todo) + next)) && Stray(rest) && (rest == [] <==> old(Drainable(rows)))
      ensures if rest == [] then Valid() else Astray(rest)
      ensures rest != [] ==> conn.status == old(conn.status)
      ensures conn.buf.OtherSlot() == old(conn.buf.OtherSlot())
      ensures conn.buf.CurSlot() == old(conn.buf.CurSlot()) || fresh(conn.buf.CurSlot())
      ensures conn.buf.buf == old(conn.buf.buf) || conn.buf.buf == old(conn.buf.CurSlot()) || fresh(conn.buf.buf)
      ensures old(conn.buf.FilledThisEpoch()) ==> conn.buf.FilledThisEpoch()
    {
      hide Buffer.FilledThisEpoch, Buffer.CurSlot, Buffer.OtherSlot, Buffer.Valid, Buffer.Unread, FrameAll, FromLE,
        MysqlConn.Unread, MysqlConn.InSync, MoreResults, Drained, AllPackets, WellFormedAll, Stray, NoHeader;
      ghost var n;
      n, rest := DrainRest();
      err := ReadUntilEOF(mc, Remaining());
      done := true;
      if rest == [] {
        assert [] + (AllPackets(todo) + next) == AllPackets(todo) + next;
      }
    }

    /** Behind a header that announced columns: they and the rows of s are next. */
    ghost predicate AtColumns(s: ResultSet)
      reads this, conn, conn.buf, conn.buf.buf, conn.nc
    {
      && s.RowSet? && conn.Valid() && conn.canceled == Ok && !conn.closed && mc == conn && [] !in next && left == []
      && WellFormedAll(todo) && WellFormed(s, todo != [])
      && conn.InSync(s.cols + [s.colEof] + (RowPackets(s) + (AllPackets(todo) + next)))
    }

    /** Behind a result without columns. */
    ghost predicate AfterOk()
      reads this, conn, conn.buf, conn.buf.buf, conn.nc
    {
      && conn.Valid() && conn.canceled == Ok && !conn.closed && mc == conn && [] !in next && left == []
      && WellFormedAll(todo) && conn.InSync(AllPackets(todo) + next) && MoreResults(conn.status) == (todo != [])
    }

    /** rows.rs.done = true for a result without columns, or what is taken for one. */
    method MarkDone(ghost ahead: seq<Payload>)
      requires if ahead == [] then AfterOk() else Astray(ahead)
      modifies this`done
      ensures done && if ahead == [] then Valid() && Drains() else Astray(ahead)
    {
      hide MysqlConn.InSync, MoreResults, Buffer.Valid, AllPackets, WellFormedAll, Stray;
      done := true;
    }

    /** The header of the next result set, which is known to be there; or, astray, the packet that
        is taken for it. */
    method ReadNextHeader(ghost stray: seq<Payload>) returns (err: Error, resLen: nat)
      requires done && if stray == [] then Valid() && mc != null && todo != [] else Astray(stray)
      modifies this, conn`sequence, conn`closed, conn`status, conn`affectedRows, conn`insertId
      modifies conn.buf`buf, conn.buf`idx, conn.buf`length, conn.buf`dbuf, conn.nc`incoming, conn.buf.CurSlot()
      ensures conn.Valid() && mc == conn && !done
      ensures conn.buf.OtherSlot() == old(conn.buf.OtherSlot())
      ensures conn.buf.CurSlot() == old(conn.buf.CurSlot()) || fresh(conn.buf.CurSlot())
      ensures conn.buf.buf == old(conn.buf.buf) || conn.buf.buf == old(conn.buf.CurSlot()) || fresh(conn.buf.buf)
      ensures old(conn.buf.FilledThisEpoch()) ==> conn.buf.FilledThisEpoch()
      ensures stray == [] ==> err == Fine && todo == old(todo)[1..]
      ensures stray == [] ==>
                if old(todo)[0].OkSet? then resLen == 0 && AfterOk()
                else resLen == |old(todo)[0].cols| > 0 && AtColumns(old(todo)[0])
      ensures stray != [] ==> err != EndOfRows && (err == Fine ==> resLen == 0 && Astray(stray[1..]))
    {
      hide Buffer.FilledThisEpoch, Buffer.CurSlot, Buffer.OtherSlot, Buffer.Valid, Buffer.Unread, FrameAll, FromLE,
        MysqlConn.Unread, MysqlConn.InSync, MoreResults, ParseOk, ParseHeader, Drained, ReadLengthEncodedInteger,
        AllPackets, Packets, RowPackets, WellFormed, Stray;
      done := false;
      ghost var ps := stray + (AllPackets(todo) + next);
      if stray == [] {
        FirstHeader(todo, next);
        assert ps == AllPackets(todo) + next;
        todo := todo[1..];
      } else {
        NonEmptyAll(todo, next);
        StrayHeader(stray, AllPackets(todo) + next);
      }
      err, resLen := ReadResultSetHeaderPacket(mc, ps);
    }

    /** Moves to the header of the next result set, past whatever is left of this one. If the
        connection is astray, or the draining leads it there, a packet of the old result set may
        be read as the header, ahead of those that stay astray. */
    method NextResultSetHeader(ghost stray: seq<Payload>) returns (err: Error, resLen: nat, ghost ahead: seq<Payload>)
      requires if stray == [] then Valid() else Astray(stray) && done
      modifies this, conn`sequence, conn`closed, conn`status, conn`affectedRows, conn`insertId
      modifies conn.buf`buf, conn.buf`idx, conn.buf`length, conn.buf`dbuf, conn.nc`incoming, conn.buf.CurSlot()
      ensures conn.Valid()
      ensures conn.buf.OtherSlot() == old(conn.buf.OtherSlot())
      ensures conn.buf.CurSlot() == old(conn.buf.CurSlot()) || fresh(conn.buf.CurSlot())
      ensures conn.buf.buf == old(conn.buf.buf) || conn.buf.buf == old(conn.buf.CurSlot()) || fresh(conn.buf.buf)
      ensures old(conn.buf.FilledThisEpoch()) ==> conn.buf.FilledThisEpoch()
      ensures stray == [] && old(Drains()) ==> err == Fine || err == EndOfRows
      ensures old(mc) == null ==> err == EndOfRows && left == old(left)
      ensures err == EndOfRows ==> Valid() && mc == null
      ensures err == EndOfRows && old(mc) != null ==>
                && (left == [] <==> stray == [] && old(Drains()))
                && (left == [] ==> old(todo) == [])
      ensures err == Fine ==> mc == conn && (ahead == [] <==> stray == [] && old(Drains()))
      ensures err == Fine && ahead == [] ==>
                && old(todo) != [] && todo == old(todo)[1..] && !done
                && if old(todo)[0].OkSet? then resLen == 0 && AfterOk()
                   else resLen == |old(todo)[0].cols| > 0 && AtColumns(old(todo)[0])
      ensures err == Fine && ahead != [] ==> resLen == 0 && Astray(ahead) && (stray != [] ==> |ahead| < |stray|)
    {
      hide Buffer.FilledThisEpoch, Buffer.CurSlot, Buffer.OtherSlot, Buffer.Valid, Buffer.Unread, FrameAll, FromLE,
        MysqlConn.Unread, MysqlConn.InSync, MoreResults, AllPackets, WellFormedAll, Readable, EofPacket, Stray,
        MysqlRows.AfterOk, MysqlRows.AtColumns;
      resLen, ahead := 0, stray;
      if mc == null {
        err := EndOfRows;
        return;
      }
      if mc.closed {
        err := Conn(InvalidConn);
        return;
      }
      if !done {
        err, ahead := FinishResultSet();
        if err != Fine {
          return;
        }
      }
      var more := HasNextResultSet();
      if !more {
        GiveUp(ahead);
        err := EndOfRows;
        return;
      }
      err, resLen := ReadNextHeader(ahead);
      ahead := if ahead == [] then [] else ahead[1..];
    }

    /** rows.mc = nil at the end of the response, or where the connection takes it for the end. */
    method GiveUp(ghost ahead: seq<Payload>)
      requires if ahead == [] then Valid() && mc != null && done && todo == [] else Astray(ahead)
      modifies this`mc, this`left
      ensures Valid() && mc == null && (left == [] <==> ahead == [])
    {
      hide FrameAll, MysqlConn.Unread, MysqlConn.InSync, Buffer.Valid, WellFormedAll, AllPackets, NoHeader, Stray;
      mc, left := null, ahead + AllPackets(todo);
      if ahead != [] {
        StrayNonEmpty(ahead);
      }
      NonEmptyAll(todo, []);
      LeftOf(ahead, todo, next);
      assert [] + (AllPackets(todo) + next) == AllPackets(todo) + next;
    }

    lemma ValidConn()
      requires Valid()
      ensures conn.Valid() && (mc == null || mc == conn) && (mc != null ==> left == [])
    {}

    /** nextNotEmptyResultSet: skips results without columns. skipped counts them. */
    method NextNotEmptyResultSet() returns (err: Error, resLen: nat, ghost skipped: nat)
      requires Valid()
      modifies this, conn`sequence, conn`closed, conn`status, conn`affectedRows, conn`insertId
      modifies conn.buf`buf, conn.buf`idx, conn.buf`length, conn.buf`dbuf, conn.nc`incoming, conn.buf.CurSlot()
      ensures conn.Valid()
      ensures conn.buf.OtherSlot() == old(conn.buf.OtherSlot())
      ensures conn.buf.CurSlot() == old(conn.buf.CurSlot()) || fresh(conn.buf.CurSlot())
      ensures conn.buf.buf == old(conn.buf.buf) || conn.buf.buf == old(conn.buf.CurSlot()) || fresh(conn.buf.buf)
      ensures old(conn.buf.FilledThisEpoch()) ==> conn.buf.FilledThisEpoch()
      ensures old(Drains()) ==> err == Fine || err == EndOfRows
      ensures skipped <= |old(todo)|
      ensures old(mc) != null ==> forall i | 0 <= i < skipped :: old(todo)[i].OkSet?
      ensures old(mc) == null ==> err == EndOfRows && left == old(left)
      ensures err == EndOfRows ==> Valid() && mc == null
      ensures err == EndOfRows && old(mc) != null ==>
                (left == [] <==> old(Drains())) && (left == [] ==> skipped == |old(todo)|)
      ensures err == Fine ==>
                && old(mc != null && Drains()) && skipped < |old(todo)| && !done
                && AtColumns(old(todo)[skipped]) && resLen == |old(todo)[skipped].cols|
                && todo == old(todo)[skipped + 1..]
    {
      hide Buffer.FilledThisEpoch, Buffer.CurSlot, Buffer.OtherSlot, Buffer.Valid, Buffer.Unread, FrameAll, FromLE,
        MysqlConn.Unread, MysqlConn.InSync, MoreResults, ParseOk, ParseHeader, Drained, ReadLengthEncodedInteger,
        AllPackets, Packets, RowPackets, MysqlRows.Valid, MysqlRows.AfterOk, MysqlRows.AtColumns, MysqlRows.Astray;
      ValidConn();
      skipped := 0;
      ghost var stray: seq<Payload> := [];
      while true
        invariant conn.Valid() && (mc == null || mc == old(mc)) && skipped <= |old(todo)|
        invariant if stray == [] then Valid() else mc != null && Astray(stray) && done && !old(Drains())
        invariant if skipped == 0 && stray == [] then left == old(left) && Drains() == old(Drains())
                  else old(mc) != null && (stray == [] ==> old(Drains()) && Drains())
        invariant forall i | 0 <= i < skipped :: old(todo)[i].OkSet?
        invariant old(mc) != null ==> mc != null && (stray == [] ==> todo == old(todo)[skipped..])
        invariant old(mc) == null ==> mc == null && skipped == 0
        invariant conn.buf.OtherSlot() == old(conn.buf.OtherSlot())
        invariant conn.buf.CurSlot() == old(conn.buf.CurSlot()) || fresh(conn.buf.CurSlot())
        invariant conn.buf.buf == old(conn.buf.buf) || conn.buf.buf == old(conn.buf.CurSlot()) || fresh(conn.buf.buf)
        invariant old(conn.buf.FilledThisEpoch()) ==> conn.buf.FilledThisEpoch()
        decreases if stray == [] then 1 + |old(todo)| - skipped else 0, |stray|
      {
        err, resLen, stray := NextResultSetHeader(stray);
        if err != Fine {
          return;
        }
        if resLen > 0 {
          return;
        }
        MarkDone(stray);
        skipped := if stray == [] then skipped + 1 else skipped;
      }
    }

    /** textRows.NextResultSet: to the first row of the next result set with columns. */
    method NextResultSet() returns (err: Error, ghost skipped: nat)
      requires Valid()
      modifies this, conn`sequence, conn`closed, conn`status, conn`affectedRows, conn`insertId
      modifies conn.buf`buf, conn.buf`idx, conn.buf`length, conn.buf`dbuf, conn.nc`incoming, conn.buf.CurSlot()
      ensures conn.Valid() && (err == Fine || err == EndOfRows ==> Valid())
      ensures conn.buf.OtherSlot() == old(conn.buf.OtherSlot())
      ensures conn.buf.CurSlot() == old(conn.buf.CurSlot()) || fresh(conn.buf.CurSlot())
      ensures conn.buf.buf == old(conn.buf.buf) || conn.buf.buf == old(conn.buf.CurSlot()) || fresh(conn.buf.buf)
      ensures old(conn.buf.FilledThisEpoch()) ==> conn.buf.FilledThisEpoch()
      ensures old(Drains()) ==> err == Fine || err == EndOfRows
      ensures skipped <= |old(todo)|
      ensures old(mc) != null ==> forall i | 0 <= i < skipped :: old(todo)[i].OkSet?
      ensures old(mc) == null ==> err == EndOfRows && left == old(left)
      ensures err == EndOfRows ==> mc == null
      ensures err == EndOfRows && old(mc) != null ==>
                (left == [] <==> old(Drains())) && (left == [] ==> skipped == |old(todo)|)
      ensures err == Fine ==>
                && old(mc != null && Drains()) && skipped < |old(todo)| && old(todo)[skipped].RowSet?
                && mc != null && !done && rows == old(todo)[skipped].rows && todo == old(todo)[skipped + 1..]
    {
      hide Buffer.FilledThisEpoch, Buffer.CurSlot, Buffer.OtherSlot, Buffer.Valid, Buffer.Unread, FrameAll, FromLE,
        MysqlConn.Unread, MysqlConn.InSync, MoreResults, ParseOk, ParseHeader, Drained, ReadLengthEncodedInteger,
        AllPackets, Packets;
      var resLen;
      err, resLen, skipped := NextNotEmptyResultSet();
      if err == Fine {
        err := StartRows(resLen, old(todo)[skipped]);
      }
    }

    /** The column definitions, and then the rows of s are next. */
    method StartRows(resLen: nat, ghost s: ResultSet) returns (err: Error)
      requires AtColumns(s) && resLen == |s.cols| && !done
      modifies this, conn`sequence, conn`closed, conn`status, conn`affectedRows, conn`insertId
      modifies conn.buf`buf, conn.buf`idx, conn.buf`length, conn.buf`dbuf, conn.nc`incoming, conn.buf.CurSlot()
      ensures err == Fine && Valid() && mc == conn && !done && rows == s.rows && todo == old(todo)
      ensures conn.status == old(conn.status)
      ensures conn.buf.OtherSlot() == old(conn.buf.OtherSlot())
      ensures conn.buf.CurSlot() == old(conn.buf.CurSlot()) || fresh(conn.buf.CurSlot())
      ensures conn.buf.buf == old(conn.buf.buf) || conn.buf.buf == old(conn.buf.CurSlot()) || fresh(conn.buf.buf)
      ensures old(conn.buf.FilledThisEpoch()) ==> conn.buf.FilledThisEpoch()
      ensures old(conn.buf.length) == 0 ==> conn.buf.FilledThisEpoch()
    {
      hide Buffer.FilledThisEpoch, Buffer.CurSlot, Buffer.OtherSlot, Buffer.Valid, Buffer.Unread, FrameAll, FromLE,
        MysqlConn.Unread, MysqlConn.InSync, MoreResults, ParseOk, ParseHeader, Drained, ReadLengthEncodedInteger,
        AllPackets, Packets;
      ghost var tail := AllPackets(todo) + next;
      NonEmptyAll(todo, next);
      ColumnsAhead(s, todo != [], tail);
      err := ReadColumns(mc, resLen, s.cols + [s.colEof] + (RowPackets(s) + tail), resLen);
      rows, rowEof := s.rows, s.rowEof;
    }

    lemma ColumnsAhead(s: ResultSet, more: bool, tail: seq<Payload>)
      requires s.RowSet? && WellFormed(s, more) && [] !in tail
      ensures var ps := s.cols + [s.colEof] + (RowPackets(s) + tail);
              && [] !in ps && |s.cols| < |ps| && (forall i | 0 <= i < |s.cols| :: !EndsColumns(ps[i]))
              && EndsColumns(ps[|s.cols|]) && ps[|s.cols| + 1..] == s.rows + [s.rowEof] + tail
      ensures (forall r | r in s.rows :: Readable(r)) && EofPacket(s.rowEof) && EofAnnounces(s.rowEof) == more
    {
      hide MoreResults, ReadLengthEncodedInteger, FromLE;
      NonEmptyParts(s, more, tail);
      SetPackets(s, tail);
      forall i | 0 <= i < |s.cols|
        ensures !EndsColumns((s.cols + [s.colEof] + (RowPackets(s) + tail))[i])
      {
        assert s.cols[i] in s.cols;
      }
    }

    /** The delayed flip leaves what is still to be read as it was. */
    method FlipBuffer(mc: MysqlConn, ghost ps: seq<Payload>)
      requires mc.Valid() && mc.InSync(ps)
      modifies mc.buf`flipcnt
      ensures mc.Valid() && mc.InSync(ps)
      ensures mc.buf.CurSlot() == old(mc.buf.OtherSlot()) && mc.buf.OtherSlot() == old(mc.buf.CurSlot())
      ensures old(mc.buf.FilledThisEpoch()) ==> mc.buf.buf != mc.buf.CurSlot()
    {
      hide FrameAll;
      mc.buf.Flip();
    }

    /** The rest of the response behind the current result set is read and dropped, as far as the
        connection finds it. */
    method FinishResponse(ghost stray: seq<Payload>) returns (err: Error)
      requires done && if stray == [] then Valid() && mc != null else Astray(stray)
      modifies this, conn`sequence, conn`closed, conn`status, conn`affectedRows, conn`insertId
      modifies conn.buf`buf, conn.buf`idx, conn.buf`length, conn.buf`dbuf, conn.nc`incoming, conn.buf.CurSlot()
      ensures conn.Valid() && (stray == [] && AllDrain(old(todo)) ==> err == Fine)
      ensures err == Fine ==>
                Valid() && mc == null && (left == [] <==> stray == [] && AllDrain(old(todo)))
      ensures conn.buf.CurSlot() == old(conn.buf.CurSlot()) || fresh(conn.buf.CurSlot())
    {
      hide Buffer.FilledThisEpoch, Buffer.CurSlot, Buffer.OtherSlot, Buffer.Valid, Buffer.Unread, FrameAll, FromLE,
        MysqlConn.Unread, MysqlConn.InSync, MoreResults, Drained, AllPackets, WellFormedAll, NoHeader, AllDrain;
      assert [] + (AllPackets(todo) + next) == AllPackets(todo) + next;
      ghost var rest;
      err, rest := DiscardResults(mc, stray, todo, next);
      if err != Fine {
        return;
      }
      mc, left := null, rest;
    }

    /** mysqlRows.Close (the watcher's finish aside): it succeeds with the connection behind
        exactly the response, if and only if everything still unread drains; and the bytes of the
        rows handed out before, which share the active buffer, are untouched. */
    method Close() returns (err: Error)
      requires Valid()
      modifies this, conn`sequence, conn`closed, conn`status, conn`affectedRows, conn`insertId
      modifies conn.buf`buf, conn.buf`idx, conn.buf`length, conn.buf`dbuf, conn.buf`flipcnt, conn.nc`incoming,
               conn.buf.OtherSlot()
      ensures old(mc == null || (Drains() && AllDrain(todo))) ==> err == Fine
      ensures err == Fine ==> Valid() && mc == null
      ensures err == Fine ==>
                if old(mc) == null then left == old(left)
                else (left == [] <==> old(Drains() && AllDrain(todo)))
      ensures old(conn.buf.FilledThisEpoch()) ==> old(conn.buf.buf)[..] == old(conn.buf.buf[..])
    {
      hide Buffer.FilledThisEpoch, Buffer.CurSlot, Buffer.OtherSlot, Buffer.Valid, Buffer.Unread, FrameAll, FromLE,
        MysqlConn.Unread, MysqlConn.InSync, MoreResults, Drained, AllPackets, WellFormedAll, NoHeader, Stray, AllDrain;
      if mc == null {
        return Fine;
      }
      if mc.closed {
        err := Conn(InvalidConn);
        return;
      }
      FlipBuffer(mc, Remaining());
      ghost var stray := [];
      if !done {
        err, stray := FinishResultSet();
      }
      err := FinishResponse(stray);
    }
  }
}
