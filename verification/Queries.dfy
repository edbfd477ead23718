// Queries from their answer on, and whole uses of a rows object (mysql/connection.go query,
// mysql/statement.go query, mysql/rows.go).
module Queries {
  import opened Bytes
  import opened GoSlice
  import opened Buffers
  import opened LenEnc
  import opened Wire
  import opened Connection
  import opened Results
  import opened Rows

  /** The first result set with columns; the number of sets if there is none. */
  function FirstWithColumns(sets: seq<ResultSet>): (k: nat)
    ensures k <= |sets|
  {
    if sets == [] || sets[0].RowSet? then 0 else 1 + FirstWithColumns(sets[1..])
  }

  lemma {:induction false} FirstWithColumnsIs(sets: seq<ResultSet>, k: nat)
    requires k <= |sets| && (forall i | 0 <= i < k :: sets[i].OkSet?) && (k < |sets| ==> sets[k].RowSet?)
    ensures FirstWithColumns(sets) == k
    decreases k
  {
    if k > 0 {
      assert forall i | 0 <= i < k - 1 :: sets[1..][i] == sets[i + 1];
      FirstWithColumnsIs(sets[1..], k - 1);
    }
  }

  /** The rows object stands before the first row of the first result set with columns; it is
      used up if there is none. */
  ghost predicate AtFirstRows(rows: MysqlRows, sets: seq<ResultSet>)
    reads rows
  {
    var k := FirstWithColumns(sets);
    && rows.left == []
    && if k == |sets| then rows.mc == null
    else
      && sets[k].RowSet? && rows.mc != null && !rows.done
      && rows.rows == sets[k].rows && rows.todo == sets[k + 1..]
  }

  /** The header of the first result set. */
  method ReadFirstHeader(mc: MysqlConn, ghost sets: seq<ResultSet>, ghost next: seq<Payload>)
    returns (err: Error, resLen: nat)
    requires mc.Valid() && mc.canceled == Ok && !mc.closed && sets != [] && WellFormedAll(sets) && [] !in next
    requires mc.InSync(AllPackets(sets) + next)
    modifies mc`sequence, mc`closed, mc`status, mc`affectedRows, mc`insertId
    modifies mc.buf`buf, mc.buf`idx, mc.buf`length, mc.buf`dbuf, mc.nc`incoming, mc.buf.CurSlot()
    ensures mc.Valid() && !mc.closed
    ensures mc.buf.OtherSlot() == old(mc.buf.OtherSlot())
    ensures mc.buf.CurSlot() == old(mc.buf.CurSlot()) || fresh(mc.buf.CurSlot())
    ensures mc.buf.buf == old(mc.buf.buf) || mc.buf.buf == old(mc.buf.CurSlot()) || fresh(mc.buf.buf)
    ensures old(mc.buf.length) == 0 ==> mc.buf.FilledThisEpoch()
    ensures err == Fine && WellFormed(sets[0], sets[1..] != []) && WellFormedAll(sets[1..])
    ensures var s, tail := sets[0], AllPackets(sets[1..]) + next;
            if s.OkSet? then resLen == 0 && mc.InSync(tail) && MoreResults(mc.status) == (sets[1..] != [])
            else
              && resLen == |s.cols| > 0 && mc.InSync(s.cols + [s.colEof] + (RowPackets(s) + tail))
              && mc.status == old(mc.status)
  {
    hide Buffer.FilledThisEpoch, Buffer.CurSlot, Buffer.OtherSlot, Buffer.Valid, Buffer.Unread, FrameAll, FromLE,
      MysqlConn.Unread, MysqlConn.InSync, MoreResults, ParseOk, ParseHeader, Drained, ReadLengthEncodedInteger,
      AllPackets, Packets, RowPackets, WellFormed;
    ghost var s, todo := sets[0], sets[1..];
    FirstSet(sets, next);
    NonEmptyAll(todo, next);
    HeaderOf(s, todo != [], AllPackets(todo) + next);
    err, resLen := ReadResultSetHeaderPacket(mc, Packets(s) + (AllPackets(todo) + next));
  }

  /** mc.query from the answer on. */
  method Query(mc: MysqlConn, ghost sets: seq<ResultSet>, ghost next: seq<Payload>)
    returns (err: Error, rows: MysqlRows)
    requires mc.Valid() && mc.canceled == Ok && !mc.closed && sets != [] && WellFormedAll(sets) && [] !in next
    requires mc.InSync(AllPackets(sets) + next)
    modifies mc`sequence, mc`closed, mc`status, mc`affectedRows, mc`insertId
    modifies mc.buf`buf, mc.buf`idx, mc.buf`length, mc.buf`dbuf, mc.nc`incoming, mc.buf.CurSlot()
    ensures mc.Valid()
    ensures mc.buf.OtherSlot() == old(mc.buf.OtherSlot())
    ensures mc.buf.CurSlot() == old(mc.buf.CurSlot()) || fresh(mc.buf.CurSlot())
    ensures mc.buf.buf == old(mc.buf.buf) || mc.buf.buf == old(mc.buf.CurSlot()) || fresh(mc.buf.buf)
    ensures old(mc.buf.length) == 0 ==> mc.buf.FilledThisEpoch()
    ensures err == Fine && fresh(rows) && rows.conn == mc && rows.next == next && rows.Valid()
            && AtFirstRows(rows, sets)
    ensures sets[0].RowSet? ==> mc.status == old(mc.status)
  {
    hide Buffer.FilledThisEpoch, Buffer.CurSlot, Buffer.OtherSlot, Buffer.Valid, Buffer.Unread, FrameAll,
      MysqlConn.Unread, MysqlConn.InSync, MoreResults, AllPackets, RowPackets, AtFirstRows, WellFormed, WellFormedAll,
      Readable, MysqlRows.Valid, MysqlRows.AtColumns;
    ghost var s, todo := sets[0], sets[1..];
    var resLen;
    err, resLen := ReadFirstHeader(mc, sets, next);
    rows := new MysqlRows(mc, mc, resLen == 0, todo, [], next);
    if resLen == 0 {
      UnreadSets(rows);
      var e;
      ghost var skipped;
      e, skipped := rows.NextResultSet();
      rows.ValidConn();
      assert forall i | 0 < i < skipped + 1 :: sets[i] == todo[i - 1];
      StandsAt(rows, sets, skipped + 1);
      err := Fine;
    } else {
      ColumnsNext(rows, s);
      err := rows.StartRows(resLen, s);
      rows.ValidConn();
      StandsAt(rows, sets, 0);
    }
  }

  /** The object behind a result without columns. */
  lemma {:induction false} UnreadSets(rows: MysqlRows)
    requires rows.conn.Valid() && rows.conn.canceled == Ok && !rows.conn.closed && [] !in rows.next
    requires rows.mc == rows.conn && rows.done && rows.left == [] && WellFormedAll(rows.todo)
    requires rows.conn.InSync(AllPackets(rows.todo) + rows.next)
    requires MoreResults(rows.conn.status) == (rows.todo != [])
    ensures rows.Valid() && rows.Drains()
  {
    hide MysqlConn.InSync, MoreResults, AllPackets, WellFormedAll;
  }

  lemma {:induction false} ColumnsNext(rows: MysqlRows, s: ResultSet)
    requires rows.conn.Valid() && rows.conn.canceled == Ok && !rows.conn.closed && [] !in rows.next
    requires rows.mc == rows.conn && rows.left == [] && WellFormedAll(rows.todo) && WellFormed(s, rows.todo != [])
    requires s.RowSet? && rows.conn.InSync(s.cols + [s.colEof] + (RowPackets(s) + (AllPackets(rows.todo) + rows.next)))
    ensures rows.AtColumns(s)
  {
    hide MysqlConn.InSync, MoreResults, AllPackets, WellFormedAll, WellFormed;
  }

  lemma {:induction false} StandsAt(rows: MysqlRows, sets: seq<ResultSet>, k: nat)
    requires k <= |sets| && (forall i | 0 <= i < k :: sets[i].OkSet?) && rows.left == []
    requires if k == |sets| then rows.mc == null
             else
               && sets[k].RowSet? && rows.mc != null && !rows.done
               && rows.rows == sets[k].rows && rows.todo == sets[k + 1..]
    ensures AtFirstRows(rows, sets)
  {
    FirstWithColumnsIs(sets, k);
  }

  lemma {:induction false} NoPackets(sets: seq<ResultSet>)
    ensures AllPackets(sets) == [] <==> sets == []
  {
    hide Packets;
  }

  /** mysqlStmt.query from the answer on. When the first result has no columns, rows.mc is not
      set before NextResultSet is called, which then returns io.EOF at once
      (mysql/rows.go:143-145): the rows object is used up with the further results left unread,
      and the connection is in step with later commands if and only if there were none. */
  method StmtQuery(mc: MysqlConn, ghost sets: seq<ResultSet>, ghost next: seq<Payload>)
    returns (err: Error, rows: MysqlRows)
    requires mc.Valid() && mc.canceled == Ok && !mc.closed && sets != [] && WellFormedAll(sets) && [] !in next
    requires mc.InSync(AllPackets(sets) + next)
    modifies mc`sequence, mc`closed, mc`status, mc`affectedRows, mc`insertId
    modifies mc.buf`buf, mc.buf`idx, mc.buf`length, mc.buf`dbuf, mc.nc`incoming, mc.buf.CurSlot()
    ensures mc.Valid()
    ensures err == Fine && fresh(rows) && rows.conn == mc && rows.next == next && rows.Valid()
    ensures sets[0].RowSet? ==> AtFirstRows(rows, sets)
    ensures sets[0].OkSet? ==>
              rows.mc == null && rows.left == AllPackets(sets[1..]) && (mc.InSync(next) <==> |sets| == 1)
  {
    hide Buffer.FilledThisEpoch, Buffer.CurSlot, Buffer.OtherSlot, Buffer.Valid, Buffer.Unread, FrameAll,
      MysqlConn.Unread, MysqlConn.InSync, MoreResults, AllPackets, RowPackets, WellFormed, Readable;
    ghost var s, todo := sets[0], sets[1..];
    var resLen;
    err, resLen := ReadFirstHeader(mc, sets, next);
    NonEmptyAll(todo, next);
    ghost var left := if resLen > 0 then [] else AllPackets(todo);
    rows := new MysqlRows(mc, if resLen > 0 then mc else null, resLen == 0, todo, left, next);
    if resLen > 0 {
      err := rows.StartRows(resLen, s);
    } else {
      var e;
      ghost var skipped;
      e, skipped := rows.NextResultSet();
      err := Fine;
      AheadOfNext(mc, AllPackets(todo), next);
      NoPackets(todo);
    }
  }

  /** Two results without columns, the first of which announces the second. */
  function TwoResults(): seq<ResultSet>
  {
    [OkSet([0, 0, 0, 0x0a, 0, 0, 0]), OkSet([0, 1, 0, 0x02, 0, 0, 0])]
  }

  /** The response that StmtQuery leaves half read: where it stops, the connection is not in step
      with later commands. */
  lemma {:induction false} TwoResultsExample(mc: MysqlConn, next: seq<Payload>)
    requires mc.Valid() && mc.InSync(AllPackets(TwoResults()[1..]) + next)
    ensures WellFormedAll(TwoResults()) && TwoResults()[0].OkSet? && !mc.InSync(next)
  {
    hide MysqlConn.InSync, MysqlConn.Valid, WellFormed;
    AnnouncingExamples();
    TwoOks(TwoResults()[0], TwoResults()[1]);
    NoPackets(TwoResults()[1..]);
    AheadOfNext(mc, AllPackets(TwoResults()[1..]), next);
  }

  /** What a caller may do with a rows object before closing it. */
  datatype RowsOp = NextRow(temporal: seq<bool>) | NextSet

  /** How far a rows object is in its response. */
  datatype Stage = Used | At(done: bool, rows: seq<Payload>, todo: seq<ResultSet>)

  ghost function StageOf(rows: MysqlRows): Stage
    reads rows
  {
    if rows.mc == null then Used else At(rows.done, if rows.done then [] else rows.rows, rows.todo)
  }

  function After(s: Stage, op: RowsOp): Stage
  {
    match s
    case Used => Used
    case At(done, rows, todo) =>
      if op.NextSet? then
        var k := FirstWithColumns(todo);
        if k == |todo| || !todo[k].RowSet? then Used else At(false, todo[k].rows, todo[k + 1..])
      else if done then s
      else if rows != [] then At(false, rows[1..], todo)
      else if todo == [] then Used
      else At(true, [], todo)
  }

  /** No row is drained that would be taken for the EOF packet: neither by NextResultSet nor by
      Close at the end. Rows that Next reads do not matter. */
  predicate Clean(s: Stage, ops: seq<RowsOp>)
    decreases |ops|
  {
    if s.Used? then true
    else if ops == [] then Drainable(s.rows) && AllDrain(s.todo)
    else (ops[0].NextSet? ==> Drainable(s.rows)) && Clean(After(s, ops[0]), ops[1..])
  }

  lemma {:induction false} CleanStep(s: Stage, ops: seq<RowsOp>)
    requires ops != [] && !s.Used?
    ensures Clean(s, ops) <==> (ops[0].NextSet? ==> Drainable(s.rows)) && Clean(After(s, ops[0]), ops[1..])
  {}

  /** One call; failed says that a NextResultSet failed. After a draining that stopped at a row the
      object is used up with packets left, or the call fails. */
  method UseOnce(rows: MysqlRows, op: RowsOp) returns (failed: bool, err: Error)
    requires rows.Valid()
    modifies rows, rows.conn`sequence, rows.conn`closed, rows.conn`status, rows.conn`affectedRows, rows.conn`insertId
    modifies rows.conn.buf`buf, rows.conn.buf`idx, rows.conn.buf`length, rows.conn.buf`dbuf
    modifies rows.conn.nc`incoming, rows.conn.buf.CurSlot()
    ensures rows.conn.Valid() && (failed ==> err != Fine) && (!failed ==> rows.Valid())
    ensures rows.conn.buf.OtherSlot() == old(rows.conn.buf.OtherSlot())
    ensures rows.conn.buf.CurSlot() == old(rows.conn.buf.CurSlot()) || fresh(rows.conn.buf.CurSlot())
    ensures old(op.NextRow? || rows.Drains()) ==>
              !failed && StageOf(rows) == After(old(StageOf(rows)), op) && rows.left == old(rows.left)
    ensures old(op.NextSet? && !rows.Drains()) ==> failed || (rows.mc == null && rows.left != [])
  {
    hide Buffer.FilledThisEpoch, Buffer.CurSlot, Buffer.OtherSlot, Buffer.Unread, FrameAll, FromLE, MysqlConn.Unread,
      MysqlConn.InSync, MoreResults, ParseOk, ParseHeader, Drained, ReadLengthEncodedInteger, AllPackets, Packets,
      RowPackets, MysqlRows.Remaining, WellFormedAll, FirstWithColumns, Drainable;
    failed := false;
    match op
    case NextRow(temporal) =>
      var data, dest;
      err, data, dest := rows.Next(temporal);
    case NextSet =>
      ghost var todo := rows.todo;
      ghost var skipped;
      err, skipped := rows.NextResultSet();
      failed := err != Fine && err != EndOfRows;
      if !failed && old(rows.mc) != null && old(rows.Drains()) {
        FirstWithColumnsIs(todo, skipped);
      }
  }

  /** Any sequence of Next and NextResultSet calls, then Close, given up when NextResultSet fails:
      they succeed and the connection has consumed exactly the response, if and only if no row was
      drained that starts like the EOF packet. (A row that Next cannot decode is read all the same.) */
  method UseAndClose(rows: MysqlRows, ops: seq<RowsOp>) returns (err: Error)
    requires rows.Valid()
    modifies rows, rows.conn`sequence, rows.conn`closed, rows.conn`status, rows.conn`affectedRows, rows.conn`insertId
    modifies rows.conn.buf`buf, rows.conn.buf`idx, rows.conn.buf`length, rows.conn.buf`dbuf, rows.conn.buf`flipcnt
    modifies rows.conn.nc`incoming, rows.conn.buf.CurSlot(), rows.conn.buf.OtherSlot()
    ensures err == Fine ==> rows.Valid() && rows.mc == null
    ensures old(rows.mc == null) ==> err == Fine && rows.left == old(rows.left)
    ensures old(rows.mc != null) ==> (err == Fine && rows.conn.InSync(rows.next) <==> old(Clean(StageOf(rows), ops)))
  {
    hide Buffer.FilledThisEpoch, Buffer.CurSlot, Buffer.OtherSlot, Buffer.Unread, FrameAll, FromLE,
      MysqlConn.Unread, MysqlConn.InSync, MoreResults, ParseOk, ParseHeader, Drained, ReadLengthEncodedInteger,
      AllPackets, Packets, RowPackets, MysqlRows.Remaining, WellFormedAll, Clean, After, Drainable, AllDrain;
    ghost var other := rows.conn.buf.OtherSlot();
    ghost var cur := rows.conn.buf.CurSlot();
    ghost var clean := Clean(StageOf(rows), ops);
    assert ops[0..] == ops;
    for i := 0 to |ops|
      invariant rows.Valid()
      invariant rows.conn.buf.OtherSlot() == other
      invariant rows.conn.buf.CurSlot() == cur || fresh(rows.conn.buf.CurSlot())
      invariant old(rows.mc) == null ==> rows.mc == null && rows.left == old(rows.left)
      invariant old(rows.mc) != null ==> InUse(rows, ops[i..], clean)
    {
      assert ops[i..][0] == ops[i] && ops[i..][1..] == ops[i + 1..];
      if rows.mc != null {
        CleanStep(StageOf(rows), ops[i..]);
      }
      NoneToDrain();
      UsedIsClean(ops[i..]);
      UsedIsClean(ops[i + 1..]);
      var failed;
      failed, err := UseOnce(rows, ops[i]);
      if failed {
        return;
      }
    }
    CloseIsClean(StageOf(rows));
    err := rows.Close();
    if err == Fine {
      UsedRemaining(rows);
      AheadOfNext(rows.conn, rows.left, rows.next);
    }
  }

  /** Between two calls: in step so far, or past a draining that stopped at a row. */
  ghost predicate InUse(rows: MysqlRows, ops: seq<RowsOp>, clean: bool)
    reads rows
  {
    if rows.left != [] then rows.mc == null && !clean else Clean(StageOf(rows), ops) == clean
  }

  lemma {:induction false} UsedIsClean(ops: seq<RowsOp>)
    ensures Clean(Used, ops)
    ensures ops != [] ==> After(Used, ops[0]) == Used
  {}

  lemma {:induction false} UsedRemaining(rows: MysqlRows)
    requires rows.mc == null
    ensures rows.Remaining() == rows.left + rows.next
  {}

  lemma {:induction false} NoneToDrain()
    ensures Drainable([])
  {}

  lemma {:induction false} CloseIsClean(s: Stage)
    ensures Clean(s, []) <==> s.Used? || (Drainable(s.rows) && AllDrain(s.todo))
    ensures Drainable([]) && AllDrain([])
  {}
}
