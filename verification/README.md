# Verification of cpool

This project models the MySQL driver under `mysql/` and the connection pool of cpool in Dafny
and proves properties of the model. Where the source changes buffers, fields and slices in place,
so does the model: the read/write buffer, the connection, the statement, the rows object, the
pool and the dependency table are classes, and the encoders, decoders and parsers with loops are
methods, each proved against a specification function about which the properties are proved.
Protocols between goroutines are state machines over atomic steps, with theorems about every run.

| area | files |
|---|---|
| bytes, Go slices, numbers | Bytes, GoSlice, LenEnc, Decimals |
| packets over the double buffer (section 14.1.2 of the MySQL Internals Manual) | Buffers, Wire, Connection |
| COM_STMT_SEND_LONG_DATA and COM_STMT_EXECUTE (sections 14.7.5 and 14.7.6) | LongData, ExecuteFormat, Statement |
| responses, rows objects and draining | Results, Rows, Queries |
| text and binary rows (section 14.7.2), dates and times | TextRow, BinaryRow, BinaryTime, DateTime |
| data source names | DsnText, Dsn, DsnRoundTrip, DsnMeaning |
| escaping and interpolation (section 9.1.1 of the MySQL Reference Manual) | Escape, Interpolate, InterpolateMeaning, InterpolateLimit |
| goroutine protocols | Watcher, TxProtocol, Facade, Pool, Handoff, Deps, StmtProtocol |
| cleaning a statement's entries | ClosedStmts |

`dafny verify dfyconfig.toml` checks everything.

## How to read the model

- A stream of packets is known to a proof as the list of payloads the server sends. A connection
  is `InSync` with a list if what it has not read is exactly the wire form of that list under its
  sequence number. Draining properties say with which list it is in sync afterwards.
- A slice expression or index that would panic in Go is a result of its own (`StrPanic`,
  `RowPanic`, `CellPanic`, `TextPanic`, `PacketPanic`), not a precondition. Row decoders know what
  the buffer holds behind the packet, because Go bounds a slice by its capacity.
- Network reads deliver portions of any positive size; writes are accepted until room runs out.
- Library functions appear as parameters: durations, locations, integers and host:port splitting
  in `Dsn.Env`, the text of a float in `Interpolate.Session`. `DsnRoundTrip.Laws` lists what is
  asked of them. Query escaping is modelled itself.

- What the other side says or does (server, SQL lexer, text of dates) is written with the numbers
  of the protocol; the constants of the driver occur in the driver's side only.

## Where the code and its words differ

- `mysql/packets.go:170-173`: errBadConnNoWrite is meant for "nothing was written", but the guard
  compares the chunk with the rest of the payload, which holds in every round. After a first full
  chunk was sent, a write that fails with no byte taken reports it too
  (`Wire.NoWriteWithBytesOnTheWire`).
- `mysql/packets.go:811-818`: draining looks at the first byte only. A row whose first column has
  2^24 bytes or more stops it (`Results.DrainIsExact`, `Results.DrainStopsEarly`,
  `TextRow.RowIsNotControl`). If more results are announced then, rows or the EOF packet are read
  as headers, the latter with a panic (`Results.EofAsHeader`). Exactly when a row stops a draining,
  exec or the use of a rows object fails or leaves packets of the response unread
  (`Results.ReadExecResult`, `Queries.UseAndClose`).
- `mysql/statement.go:119-133`: a prepared query whose first result has no columns does not set
  rows.mc before it asks for the next result set, so further results stay unread
  (`Queries.StmtQuery`, `Queries.TwoResultsExample`).
- `mysql/connection.go:225-228` and `287-289`: the packet limit is not checked behind an untyped
  nil and not for the text behind the last mark, so an interpolated query can exceed it
  (`InterpolateLimit.LimitIsKept` says exactly when it cannot, `InterpolateLimit.LimitExamples`).
- `mysql/utils.go:109-192`: the date parser turns a zero month or day into 1, so a binary date
  with a zero field and its text disagree (`DateTime.FormattedBinaryParsesBack`,
  `DateTime.ZeroMonthExample`).
- `mysql/dsn.go:168-288`: a password without a user, negative timeouts and an empty collation are
  dropped, and a collation is written without escaping (`DsnRoundTrip.Canonical`,
  `DsnRoundTrip.PasswordWithoutUserExample`).
- `conn_pool.go:96-160`: the free set is looked at in one critical section and a request is
  registered in another, so a goroutine can wait beside a connection that nobody holds
  (`Handoff.WaitsBesideFree`, `Handoff.WaitingBesideFreeExample`).
- `conn_pool.go:359-362`: Close does not close the waiting requests; from then on no request is
  answered, and a waiter leaves by its context only (`Handoff.ClosedNeverAnswers`). Before that, a
  request may still be without anybody who could answer it (`Handoff.AnswerableFromWithin`).
- `conn_pool_put.go:60-66`: putting a bad connection calls maybeOpenNewConnections, which is to be
  called without locks (conn_pool_facade_opener.go:11-13), with connPool.mu held. The call locks
  connPool.mu again when it comes to an idle connection of that pool or counts its requests.
  `Facade.MaybeOpenReturns` says exactly when it returns, `Facade.OnlyHeldHaveRequests` what this
  means for a single pool, and `Facade.StuckExamples` gives two inputs. A put that does not return
  leaves the pool locked for good (`Handoff.LockedNeverAnswers`).
- `conn_pool_facade_lru.go:20-40`: closing an idle connection to stay within the limit never
  succeeds; the connection is out of the cache already when driverConn.Close takes it out of it
  (`Facade.PoolFacade.CloseLruIdleConnectionsLocked`).
- `conn_pool_facade_lru.go:51-56`: nothing is to be evicted from the cache, but the limit does not
  keep the connections within its size; a put panics when it does (`Facade.PutToLruReturns`,
  `Facade.StuckExamples`).

## Model

| member | source | states |
|---|---|---|
| `Buffers.Buffer.Flip` | mysql/buffer.go:46-51 | The flip changes nothing that is still to be read; it protects the active buffer from the fills of the new epoch if and only if that buffer was filled in the old one. |
| `Buffers.Buffer.Destination` | mysql/buffer.go:56-72 | The array the next fill reads into is this epoch's slot or a new array, never the other slot, and no backing array shrinks below the default size. |
| `Buffers.Buffer.MoveTo` | mysql/buffer.go:74-81 | The unread bytes stand at the front of the destination, also when it is the active buffer itself. |
| `Buffers.Buffer.ReadUntil` | mysql/buffer.go:83-112 | Reads of any positive size append to the buffer until enough is there; nothing of the stream is lost or reordered, and over a reliable network it fails only when the stream ends. |
| `Buffers.Buffer.Fill` | mysql/buffer.go:53-112 | Enough bytes are buffered and the unread stream is unchanged; on failure the buffered bytes stay; only this epoch's slot is written. |
| `Buffers.Buffer.ReadNext` | mysql/buffer.go:114-128 | Returns exactly the next bytes of the unread stream and advances by them, whatever the sizes of the network reads. |
| `Buffers.Buffer.Advance` | mysql/buffer.go:124-128 | The returned window is the head of the unread stream. |
| `Buffers.ReadMany` | mysql/buffer.go:53-128 | Any number of reads together return the stream's next bytes cut as asked, while a slice protected by a flip keeps its bytes. |
| `Buffers.Buffer.TakeBuffer` | mysql/buffer.go:130-151 | A write buffer of the size asked for, refused exactly while unread bytes are buffered. |
| `Buffers.Buffer.Store` | mysql/buffer.go:174-182 | A grown write buffer is kept if and only if nothing is buffered and it is larger than the present one and not above the packet limit; unread bytes are never lost. |
| `GoSlice.Append` | mysql/packets.go:1136-1138 | append: in place while the capacity lasts, otherwise into a fresh array with the old one untouched. |
| `Wire.ParseUndoesFrame` | mysql/packets.go:28-179 | Reading back one framed payload gives the payload, the rest of the stream and the next sequence number, after any number of full chunks. |
| `Wire.ParseAllUndoesFrameAll` | mysql/packets.go:28-179 | Every list of non-empty payloads is read back from its wire form, both sides ending at the same sequence number. |
| `Wire.FrameAllSplit` | mysql/packets.go:93-179 | Framing a list in two parts with the sequence number carried over is framing the whole list. |
| `Wire.WriteOutcomeIsFrame` | mysql/packets.go:104-178 | The bytes on the wire are a prefix of the frame as long as the network has room, and the write succeeds if and only if the whole frame fits. |
| `Wire.NoWriteWithBytesOnTheWire` | mysql/packets.go:161-176 | errBadConnNoWrite is returned with bytes on the wire exactly when the network fails between two full chunks; the comment beside it promises it for nothing written only. |
| `Wire.NoWriteExample` | mysql/packets.go:170-173 | A concrete payload for which errBadConnNoWrite comes back although a chunk was sent. |
| `Connection.MysqlConn.ReadHeader` | mysql/packets.go:31-52 | Length and sequence number of the next chunk; which of the two sync errors is reported depends on the side the number is off. |
| `Connection.MysqlConn.ReadChunk` | mysql/packets.go:31-84 | The next chunk's bytes, when it is complete and in sequence. |
| `Connection.MysqlConn.JoinChunk` | mysql/packets.go:54-88 | One round of the loop keeps what the stream parses to, with the chunks joined so far. |
| `Connection.MysqlConn.ReadPacket` | mysql/packets.go:28-89 | Returns the payload the stream parses to and leaves the rest of the stream, in place if the payload was not split; every failure is one that the stream or the network has. |
| `Connection.MysqlConn.WriteChunk` | mysql/packets.go:106-140 | The header is written over the four bytes in front of the chunk, and nothing else of the array changes. |
| `Connection.MysqlConn.WriteStep` | mysql/packets.go:104-178 | One round of the loop: what is on the wire and what is still to be written together stay the outcome of the whole payload. |
| `Connection.MysqlConn.WritePacket` | mysql/packets.go:93-179 | Either nothing is sent for a payload above maxAllowedPacket, or exactly the outcome of the framed payload; the sequence number advances by the number of chunks, and no byte of the network's room is lost count of. |
| `LongData.LongDataArrives` | mysql/packets.go:855-905 | For every maxAllowedPacket of at least 9, the portions of one argument, received in order, add up to exactly the argument, whatever the server held before; each packet carries data and has at most maxAllowedPacket - 1 bytes. |
| `LongData.ReadCommandsUndoesCommands` | mysql/packets.go:878-895 | Commands whose sequence numbers start again at 0 are read back one by one. |
| `Statement.MysqlStmt.SendPortion` | mysql/packets.go:878-897 | A portion goes out intact although its header overwrites the end of the portion before and the write overwrites more of the slice. |
| `Statement.MysqlStmt.WriteCommandLongData` | mysql/packets.go:855-905 | Exactly the long-data packets of the argument are sent, and the sequence number is reset; it fails if and only if the network takes less. |
| `ExecuteFormat.MaskAt` | mysql/packets.go:999-1004 | A bit of the NULL bitmap is set if and only if that argument is NULL. |
| `ExecuteFormat.InlineRoundTrip` | mysql/packets.go:1010-1128 | A value sent in the statement is read back by a server that goes by the type codes of the protocol, each with its own width, and the sign flag. |
| `ExecuteFormat.ExecuteRoundTrip` | mysql/packets.go:907-1150 | A server that reads COM_STMT_EXECUTE by the numbers of the protocol gets the statement number and exactly the arguments. |
| `ExecuteFormat.TwoIntegersExample` | mysql/packets.go:944-1042 | The bytes of a statement with a signed and an unsigned integer. |
| `ExecuteFormat.MixedExample` | mysql/packets.go:944-1112 | The bytes of a statement with a NULL, a boolean and a string. |
| `ExecuteFormat.LongPacketsArrive` | mysql/packets.go:1076-1085 | The long-data packets of all arguments leave each long argument under its number at the server and touch no other. |
| `ExecuteFormat.ExecuteArrives` | mysql/packets.go:855-1150 | From the bytes on the wire, a server recovers the long data and the statement, and the arguments are the ones given. |
| `Statement.LaidType` | mysql/packets.go:990-1004 | Writing a type and a NULL bit into the shared array extends the laid-out regions by one argument. |
| `Statement.MysqlStmt.LayOut` | mysql/packets.go:945-996 | Header, bitmap, flag and type regions are in place, in the shared buffer or in an array of their exact size. |
| `Statement.MysqlStmt.PutNull` | mysql/packets.go:999-1004 | A NULL is recorded in the fixed regions, and the value bytes stay as they are even when they share the array. |
| `Statement.MysqlStmt.AppendValue` | mysql/packets.go:1070-1128 | Appending value bytes leaves the fixed regions alone, whether append stays in place or reallocates. |
| `Statement.MysqlStmt.BindParams` | mysql/packets.go:998-1133 | After the loop every argument is in its region, or its long data is sent; it fails only at an argument that cannot be bound or when the network does. |
| `Statement.MysqlStmt.JoinValues` | mysql/packets.go:1135-1147 | The packet is the payload of the arguments both when the values stayed in the shared buffer and when append moved them elsewhere halfway. |
| `Statement.MysqlStmt.WriteExecutePacket` | mysql/packets.go:907-1150 | Success if and only if the argument count, the buffer, the bindings, the packet limit and the network allow it; then exactly the long data and the statement are sent. |
| `Results.OkRoundTrip` | mysql/packets.go:610-632 | The fields of an OK packet are read back. |
| `Results.OkSays` | mysql/packets.go:610-632 | For every OK packet, the status that the driver takes from it announces another result exactly if bit 3 of the byte behind the two length-encoded integers is set. |
| `Results.AnnouncingExamples` | mysql/const.go:151-157 | Packets of an autocommitting server that announce another result, and ones that do not. |
| `Results.RowSetExample` | mysql/packets.go:535-561 | A well-formed result set of one column and one row, byte by byte. |
| `Results.DrainIsExact` | mysql/packets.go:803-821 | Draining takes exactly the rest of a result set if and only if no row starts with the byte 0xfe. |
| `Results.DrainStopsAtRow` | mysql/packets.go:803-821 | Otherwise it stops at a row, and the rows behind it and the EOF packet stay unread. |
| `Results.DrainStopsEarly` | mysql/packets.go:811-818 | A row of one column of 2^24 bytes ends the draining before the EOF packet. |
| `Results.RowIsReadable` | mysql/packets.go:535-561 | An encoded row is a row to readRow, and read as a result set header it fails or announces no columns. |
| `Results.NextPacket` | mysql/packets.go:28-89 | With known packets ahead, exactly the next one is returned and the connection stays in sync with the others. |
| `Results.ReadUntilEOF` | mysql/packets.go:803-821 | Consumes packets up to the first that starts like EOF or ERR, and takes the status of a real EOF packet. |
| `Results.ReadResultSetHeaderPacket` | mysql/packets.go:535-561 | Consumes one packet and reports what it says: an error, no columns, or their number. |
| `Results.ReadColumns` | mysql/packets.go:634-732 | Consumes exactly the column definitions and the EOF packet behind them, and reports a mismatch exactly if they are fewer than announced. |
| `Results.EofAsHeader` | mysql/packets.go:535-561 | An EOF packet read as a result set header is an index out of range. |
| `Results.SkipResultSet` | mysql/packets.go:1153-1168 | One whole result set is consumed, and the status tells whether another follows, if and only if its rows drain; otherwise its rest is left, with the status of the column definitions. A packet of such a rest, read as a header, fails or announces no columns. |
| `Results.DiscardResults` | mysql/packets.go:1152-1170 | When it succeeds, what stays unread of the response is nothing if and only if the connection was in step and all rows of the remaining result sets drain; in that case it always succeeds. |
| `Results.ReadExecResult` | mysql/connection.go:333-352 | exec succeeds with the connection behind exactly the packets of an error-free response, if and only if no row in it starts with 0xfe. |
| `Results.ExecTwoStatements` | mysql/connection.go:333-352 | Both OK packets of two statements in autocommit mode are consumed. |
| `Results.OneReading` | mysql/packets.go:28-89 | A packet stream has one reading: two different packet lists never have the same wire form. |
| `Rows.MysqlRows.Next` | mysql/packets.go:736-801 | The next row decoded, or the end of the rows, with the connection given up exactly at the end of the response; at the end nothing further is read. |
| `Rows.MysqlRows.FinishResultSet` | mysql/rows.go:150-156 | The unread rows of the current result set are consumed and no packet more, if and only if they drain. |
| `Rows.MysqlRows.NextResultSetHeader` | mysql/rows.go:142-164 | Moves to the header of the next result set, past unread rows, or reports the end of the response; with the object used up it reads nothing. If a row stopped the draining, it fails, gives the connection up with packets left, or takes a packet of the old result set for a result without columns. |
| `Rows.MysqlRows.NextNotEmptyResultSet` | mysql/rows.go:166-179 | Skips exactly the results without columns; it finds one with columns only if the unread rows drained. |
| `Rows.MysqlRows.NextResultSet` | mysql/rows.go:202-210 | Stands before the first row of the next result set with columns, or at the end of the response if there is none, if the unread rows drain; otherwise it fails or gives the connection up with packets left. |
| `Rows.MysqlRows.Close` | mysql/rows.go:100-133 | It succeeds with nothing of the response unread if and only if the unread rows and the rows of all further result sets drain; the bytes of rows handed out from a buffer filled this epoch are untouched by the draining. |
| `Queries.Query` | mysql/connection.go:374-401 | After a text query the rows object stands before the first row of the first result set with columns, or is used up and the whole response consumed. |
| `Queries.StmtQuery` | mysql/statement.go:111-135 | A prepared query whose first result has no columns leaves rows.mc unset and its further results unread: the connection is in step with later commands if and only if there were none. |
| `Queries.TwoResultsExample` | mysql/statement.go:119-133 | A well-formed response of two results that leaves the connection out of step. |
| `Queries.UseAndClose` | mysql/rows.go:100-222 | Any sequence of Next and NextResultSet calls and Close succeeds with the connection behind exactly the response, if and only if no row was drained (not read by Next) that starts with 0xfe. (A NextResultSet that fails ends the use.) |
| `TextRow.ReadColumnsOfRow` | mysql/packets.go:763-800 | The loop over the destination computes the decoding of the row, column by column, with its errors and its slice-bounds panics. |
| `TextRow.RowRoundTrip` | mysql/packets.go:763-800 | Every row of nullable byte strings is read back with exact consumption of the packet; date columns become the parsed dates. |
| `TextRow.BadDate` | mysql/packets.go:775-792 | A date column whose text is no date is an error. |
| `TextRow.CutRow` | mysql/packets.go:763-800 | A row packet cut off anywhere fails, except when exactly its last column is missing and the buffer goes on behind it: that column reads as NULL. |
| `TextRow.RowIsNotControl` | mysql/packets.go:748-761 | An encoded row is never taken for the ERR packet or, by readRow, for the EOF packet; its first byte is 0xfe exactly if its first column has 2^24 bytes or more. |
| `BinaryRow.ReadBinaryRow` | mysql/packets.go:1197-1348 | The loop over the destination computes the decoding of the row, including its errors and slice-bounds panics. |
| `BinaryRow.KindsAgree` | mysql/packets.go:1209-1288 | Every one of the 256 type codes is taken for the form of value the protocol gives it. |
| `BinaryRow.LongExample` | mysql/packets.go:1234-1241 | A row of a four-byte and a one-byte column, byte by byte. |
| `BinaryRow.IntBehindEnd` | mysql/packets.go:1215-1266 | An integer behind the end of the packet is read from the buffer, or panics exactly where the capacity ends; a one-byte integer panics at the end of the packet. |
| `BinaryRow.MissingColumn` | mysql/packets.go:1268-1292 | A string or date that is missing altogether is NULL, a string only if the buffer goes on; further behind the end is a panic. |
| `BinaryRow.IntRoundTrip` | mysql/packets.go:1215-1255 | Integers of every width come back with their sign; unsigned 64-bit values above 2^63-1 come back as their decimal text. |
| `BinaryRow.CellRoundTrip` | mysql/packets.go:1209-1345 | One value of any type is read back, whatever stands before and behind it. |
| `BinaryRow.BinaryRowRoundTrip` | mysql/packets.go:1173-1348 | Every row encoded by the type codes of the protocol, with any NULL bitmap that marks exactly its NULLs from bit 2 on, is read back value by value and consumed exactly, whatever the buffer holds behind it; the text of a date or time has the width of its column. |
| `BinaryTime.SpanReadsBack` | mysql/utils.go:445-485 | The text of a TIME value says its sign, all its hours with the days included, minutes, seconds, and the microseconds cut to the decimals. |
| `BinaryTime.ZeroReads` | mysql/utils.go:445-449 | The text of an empty TIME value says zero at the width of the column. |
| `LenEnc.LenEncIntRoundTrip` | mysql/utils.go:574-619 | readLengthEncodedInteger undoes appendLengthEncodedInteger for every 64-bit value and any suffix, and reports the exact width. |
| `LenEnc.LenEncIntIsShortest` | mysql/utils.go:606-619 | No other encoding of a number that can be read is shorter than the one written. |
| `LenEnc.LenEncStrRoundTrip` | mysql/utils.go:539-555 | A nullable length-encoded string is read back with exact consumption, whatever follows. |
| `LenEnc.ReadIntWidth` | mysql/utils.go:574-604 | Every integer read fits 64 bits and takes 1 to 9 bytes; an index panic needs a truncated input. |
| `LenEnc.SkipAgreesWithRead` | mysql/utils.go:557-572 | Skipping moves exactly as far as reading on every input that can be read. |
| `Decimals.Uint64ToString` | mysql/utils.go:504-524 | The twenty-byte array is filled from its end with exactly the decimal digits, without a leading zero. |
| `Decimals.StringToInt` | mysql/utils.go:526-534 | The number the digits stand for, modulo 2^64; exact if and only if it fits a Go int. |
| `Decimals.DigitsRoundTrip` | mysql/utils.go:504-534 | The printed digits of a number are worth the number. |
| `Decimals.SignedDigitsRoundTrip` | mysql/connection.go:231-235 | The decimal text of a signed number reads back, with a sign exactly for the negative ones. |
| `DateTime.ParseByteYear` | mysql/utils.go:194-205 | The loop over weighted digits computes the decimal number of the four digits, or fails at the first non-digit. |
| `DateTime.ParseByteNanoSec` | mysql/utils.go:219-232 | The loop computes the fraction in nanoseconds, or fails at the first non-digit. |
| `DateTime.MonthStart` | mysql/utils.go:282-285 | The day count of a month's first, summed over months, is that of the closed calendar formula. |
| `DateTime.NextDayIsADayLater` | mysql/utils.go:282-285 | The day after a date is 86400 seconds later across months, years and leap years. |
| `DateTime.AddHalfMicroIsLater` | mysql/utils.go:282-285 | Adding half a microsecond carries through every field. |
| `DateTime.ParseUndoesAppendDateTime` | mysql/utils.go:109-326 | parseDateTime recovers what appendDateTime prints, rounded to the nearest microsecond; printing fails exactly when that microsecond is outside the years 1 to 9999. |
| `DateTime.ParseSound` | mysql/utils.go:109-192 | What is parsed has the separators and digits in their places and nothing else; the zero time is an all-zero text. |
| `DateTime.MicrosecsText` | mysql/utils.go:337-384 | The printed fraction is the microseconds cut to the decimals. |
| `DateTime.MicrosecsWrap` | mysql/utils.go:337-384 | Microseconds beyond a second are printed modulo 2560000, or panic exactly if the rest is still a second or more. |
| `DateTime.FormattedBinaryParsesBack` | mysql/utils.go:241-443 | Printing a binary value and parsing the text equals decoding it directly and cutting to the printed precision, if and only if year, month and day are not zero. |
| `DateTime.ZeroMonthExample` | mysql/utils.go:109-192 | A binary date of month 0 whose text reads back as January. |
| `DateTime.EmptyBinaryIsZeroTime` | mysql/utils.go:386-391 | The empty binary value is the zero time in both forms. |
| `DateTime.AppendLength` | mysql/utils.go:296-325 | A printed time never exceeds 26 bytes. |
| `DsnText.UnescapeEscape` | mysql/dsn.go:446-456 | Unescaping undoes escaping on every byte string. |
| `DsnText.EscapeIsSafe` | mysql/dsn.go:235-284 | An escaped text holds none of the separators. |
| `DsnText.SplitJoin` | mysql/dsn.go:370 | Splitting undoes joining when no part holds the separator. |
| `Dsn.WriteDSNParam` | mysql/dsn.go:153-164 | One parameter is appended behind the right separator. |
| `Dsn.FormatDSN` | mysql/dsn.go:166-288 | The buffer ends up as the head and the optional parameters in their order. |
| `Dsn.ParseDSNParams` | mysql/dsn.go:367-553 | The loop over the parts applies the switch to each, up to the first error. |
| `Dsn.ParseDSN` | mysql/dsn.go:290-365 | The index loops from the back and the front find the last slash, the last at sign before it, the first colon, parenthesis and question mark, and build the configuration they cut out. |
| `DsnRoundTrip.NameRoundTrip` | mysql/dsn.go:377-549 | Every parameter name FormatDSN writes reaches its own case of the switch. |
| `DsnRoundTrip.TlsReads` | mysql/dsn.go:510-527 | A registered configuration name or mode is read back from its escaped form. |
| `DsnRoundTrip.BodyRoundTrip` | mysql/dsn.go:166-365 | Before normalize, parsing the formatted DSN gives the configuration back, for every order of the keys. |
| `DsnRoundTrip.NormalizeFills` | mysql/dsn.go:98-150 | normalize fills in network and address and changes nothing else. |
| `DsnRoundTrip.ParsedIsSeparable` | mysql/dsn.go:290-553 | Every configuration that ParseDSN returns keeps the separators apart. |
| `DsnRoundTrip.ParseUndoesFormat` | mysql/dsn.go:166-553 | ParseDSN gives a formatted configuration back if and only if the configuration is canonical: normalised, separators kept apart, nothing that FormatDSN drops. |
| `DsnRoundTrip.PasswordWithoutUserExample` | mysql/dsn.go:170-178 | A configuration with a password and no user comes back without the password. |
| `DsnRoundTrip.ReparsedConfig` | mysql/dsn.go:166-553 | A configuration that came from a DSN survives formatting and parsing if and only if FormatDSN drops nothing of it and it is normalised already. |
| `DsnMeaning.EmptyDsn` | mysql/dsn.go:67-150 | The configuration of the empty name, field by field. |
| `DsnMeaning.SlashNeeded` | mysql/dsn.go:355-358 | A name without a slash is refused. |
| `DsnMeaning.HostErrors` | mysql/dsn.go:316-336 | The address in parentheses at the end of the left side, or the error for a parenthesis elsewhere. |
| `DsnMeaning.NormalizeExactly` | mysql/dsn.go:98-150 | Default network, default addresses and port, and exactly what normalize refuses. |
| `DsnMeaning.BooleanWords` | mysql/utils.go:90-101 | The eight words of a boolean. |
| `DsnMeaning.FlagParameter` | mysql/dsn.go:377-493 | Every boolean parameter sets its own field, or the name is refused. |
| `DsnMeaning.DurationParameters` | mysql/dsn.go:465-535 | Each timeout sets its own field, or the name is refused. |
| `DsnMeaning.OtherParameters` | mysql/dsn.go:427-542 | The collation and the packet limit set their fields; compression and the strict mode are refused. |
| `DsnMeaning.EscapedParameters` | mysql/dsn.go:452-505 | Location and public key are unescaped first; each error refuses the name. |
| `DsnMeaning.UrlCharacters` | mysql/dsn.go:446-456 | The characters that query escaping leaves alone, and the hexadecimal digits, by their numbers. |
| `DsnMeaning.TlsParameter` | mysql/dsn.go:509-528 | A boolean word, a mode in any case, or the escaped name of a configuration. |
| `DsnMeaning.DefaultsAreNotWritten` | mysql/dsn.go:166-288 | A parameter that has its default is not written, nor a timeout that is not positive. |
| `Escape.ReserveBuffer` | mysql/utils.go:621-632 | Room behind the slice, in place or in a larger copy with the same contents. |
| `Escape.EscapeTo` | mysql/utils.go:634-768 | The escaped bytes are appended; at most twice the input is written, behind the slice and nowhere else. |
| `Escape.SpecialBytes` | mysql/utils.go:634-768 | Exactly NUL, newline, carriage return, control-Z, both quotes and the backslash are escaped, and the first four never stand in the result; in the quote mode exactly the single quote is doubled. |
| `Escape.EscapedReadsBack` | mysql/utils.go:634-768 | Between quotes, the escaped string lexes back to the string with the exact remainder in the matching mode, if and only if the remainder does not start with a quote. |
| `Escape.ModesMustMatch` | mysql/connection.go:257-282 | Read in the other SQL mode, an escaped backslash is not itself any more. |
| `Interpolate.AppendArg` | mysql/connection.go:222-285 | Appends the rendering of one argument, or reports why there is none. |
| `Interpolate.Round` | mysql/connection.go:213-289 | One round of the loop keeps the outcome of the whole query. |
| `Interpolate.InterpolateParams` | mysql/connection.go:198-295 | ErrSkip for a wrong number of marks, ErrInvalidConn for a busy buffer, otherwise the outcome of walking over the query. |
| `InterpolateMeaning.WalkIsNaive` | mysql/connection.go:209-294 | Interpolation succeeds if and only if every argument can be rendered and the packet limit holds behind every argument but the untyped nils; the result is then the query split at its marks with the renderings between. |
| `InterpolateMeaning.RenderingMeans` | mysql/connection.go:225-285 | Every rendering is a quoted and escaped string, a number that reads back, 1 or 0 for a boolean, NULL, the text of a float, or an error for a year out of range and for other types. |
| `InterpolateMeaning.StringsReadBack` | mysql/connection.go:198-295 | In the interpolated query a string, JSON or time argument lexes back to the original with the exact rest of the query, if and only if that rest does not start with a quote. |
| `InterpolateLimit.LimitIsKept` | mysql/connection.go:209-294 | Whatever the limit is, the interpolated query with its packet header fits it, if and only if some argument cannot be rendered, or the query ends in a mark whose argument is not the untyped nil. |
| `InterpolateLimit.LimitExamples` | mysql/connection.go:225-289 | Two queries that are returned above the limit: one without marks, and one that ends in the mark of an untyped nil. |
| `Watcher.WatcherSafe` | mysql/connection.go:139-162 | In every run: the send to the watcher never blocks, closech is closed at most once, a connection closed by a cancellation already reports that cancellation, which did happen, and the watcher can end once closech is closed. |
| `Watcher.RunningIsWatched` | mysql/connection.go:581-604 | In every run: an operation on an open connection starts exactly if its context is not cancelled, and while it runs it is watched exactly if its context can be. |
| `Watcher.CancellationCloses` | mysql/connection.go:434-437 | In every run: when the context of a running operation is cancelled, at most five steps of the watcher close the connection on its behalf and report the cancellation, unless it is closed already. |
| `Watcher.CancelledQueryExample` | mysql/connection.go:581-629 | A query that is cancelled while it runs, to the closed connection. |
| `Watcher.GivingUpCloses` | mysql/connection.go:139-152 | Giving the connection up closes it, and closech unless somebody did before. |
| `Watcher.InvExec` | mysql/connection.go:434-449 | The watcher's invariant holds in every state of every run. |
| `Watcher.FinishedNeverCloses` | mysql/connection.go:439-449 | Once finish has returned with watching false, no cancellation of that operation ever closes the connection. |
| `Watcher.FinishReturns` | mysql/connection.go:606-629 | finish cannot hang: it can return or the watcher can move, at most six times, and cancellations do not add to that. |
| `TxProtocol.InvExec` | transaction.go:63-209 | The invariant of the transaction holds in every state of every run. |
| `TxProtocol.TxSafe` | transaction.go:142-209 | In every run: at most one driver Commit or Rollback and at most one release, in that order; no query holds the connection before it; every query past grabConn has the unreleased connection; ErrTxDone only when done. |
| `TxProtocol.DriverIsTold` | transaction.go:142-214 | In every run: the driver was told to commit exactly if the winner is a Commit, and to roll back exactly if it is a Rollback or awaitDone; the connection is discarded exactly for awaitDone without keepConnOnRollback, otherwise released with the driver's answer; a Commit that returns the driver's answer has committed. |
| `TxProtocol.FirstComerWins` | transaction.go:143-185 | As long as the transaction is not ended, an uncancelled Commit, a Rollback, and awaitDone after a cancellation each win when they move. |
| `TxProtocol.QueryGetsConnection` | transaction.go:101-131 | As long as the transaction is not ended, an uncancelled query gets the connection and gives it back. |
| `TxProtocol.LateComersAreTold` | transaction.go:101-119 | Once the transaction is ended a query, a rollback and a commit past its context are told so; a cancelled query does not begin. |
| `TxProtocol.CancelledCommit` | transaction.go:147-154 | A Commit that finds the context cancelled does not end the transaction. |
| `TxProtocol.WinnerFinishes` | transaction.go:159-208 | When nobody holds the read lock the winner gets to the release on its own. |
| `TxProtocol.AloneExamples` | transaction.go:65-214 | From the beginning, a Commit alone commits without an error, a Rollback alone and a cancelled awaitDone alone roll back. |
| `TxProtocol.SealedAfterEnd` | transaction.go:101-119 | After the driver's Commit or Rollback no grabConn succeeds, however the run goes on. |
| `TxProtocol.HoldersShrink` | transaction.go:108-118 | Once done is set no further goroutine gets the connection. |
| `TxProtocol.WinnerWaitsForReadersOnly` | transaction.go:159-208 | The goroutine that ends the transaction never waits for anything but the read locks, and each of its steps takes it further, to the release. |
| `Facade.PoolFacade.CloseLruIdleConnectionsLocked` | conn_pool_facade_lru.go:15-42 | The oldest idle connection is out of the cache, and the loop does not come to the end of its first round: a deadlock if its pool's mutex is held, otherwise a panic. |
| `Facade.PoolFacade.GetConnPools` | conn_pool_facade.go:203-242 | The two loops over the pools and their requests compute which pools are told to open connections, or end in a deadlock or a panic. |
| `Facade.PoolFacade.GiveCommand` | conn_pool_facade_opener.go:57-69 | Each command is counted before it is sent; a closed facade stops at the first, and a full channel blocks. |
| `Facade.PoolFacade.MaybeOpenNewConnections` | conn_pool_facade_opener.go:16-55 | The outcome and the new state of the facade, from closing idle connections to giving commands. |
| `Facade.PoolFacade.PutConnToLru` | conn_pool_facade_lru.go:51-57 | The connection is the newest in the cache, without a duplicate; an eviction panics. |
| `Facade.PutToLruReturns` | conn_pool_facade_lru.go:51-57 | Putting a connection into the cache returns if and only if it was there or the cache was not full; it then holds exactly what it held and the connection. |
| `Facade.ChooseExactly` | conn_pool_facade.go:203-242 | The loop over the pools ends if and only if the pools it gets to before one whose mutex is held have enough requests, and then it chooses exactly as many as asked; otherwise it deadlocks at a held pool or panics at the end. |
| `Facade.ChosenHaveRequests` | conn_pool_facade.go:224-239 | No pool is chosen more often than it has requests. |
| `Facade.MaybeOpenReturns` | conn_pool_facade_opener.go:11-55 | maybeOpenNewConnections, called with any mutexes of pools held, returns if and only if no idle connection has to be closed, the pools it gets to have enough requests, and the commands fit into the channel. |
| `Facade.MaybeOpenKeepsLimit` | conn_pool_facade_opener.go:30-68 | However the call ends, it does not count more connections than the limit allows, and the cache stays free of duplicates and within its size. |
| `Facade.CommandsAreWanted` | conn_pool_facade_opener.go:46-68 | When the call returns from an open facade it has given one command for each request ever made as far as the limit allows, none for a pool beyond its requests, and has counted each. |
| `Facade.OnlyHeldHaveRequests` | conn_pool_put.go:60-66 | If only pools whose mutex is held have requests, the call returns if and only if nothing is wanted and nothing idle has to be closed. |
| `Facade.StuckExamples` | conn_pool_put.go:60-66 | Two bad puts that deadlock, with and without an idle connection, and a good put whose insertion into the cache panics. |
| `Pool.ConnPool.TakeIdle` | conn_pool.go:77-142 | Some free connection is taken and marked in use, exactly when the strategy and the pool allow it. |
| `Pool.ConnPool.RequestConn` | conn_pool.go:154-160 | A new key with an empty channel is among the requests. |
| `Pool.ConnPool.RemoveConnFromFree` | conn_pool.go:405-411 | The connection is not free any more; the result says whether it was. |
| `Pool.ConnPool.CloseAllFree` | conn_pool.go:343-372 | Closing empties the free set once. |
| `Pool.ConnPool.ReturnConnectionOnRequestLocked` | conn_pool_put.go:130-163 | Some request is answered: removed, and its channel holds the connection, which is in use. |
| `Pool.ConnPool.TryToSaveConnectionAsIdleLocked` | conn_pool_put.go:165-176 | The connection joins the facade's cache and then the free set; or the cache panics, or the code does because the connection was free. |
| `Pool.ConnPool.PutConnectionConnPoolLocked` | conn_pool_put.go:98-118 | A waiting request comes before the free set; a closed pool refuses; the facade is called exactly when the connection is to become idle. |
| `Pool.ConnPool.PutBack` | conn_pool_put.go:21-85 | The new state of the pool and of the facade for every outcome: kept, discarded, stuck in the facade with the pool locked, or the duplicate-put panic. |
| `Handoff.PutSucceeds` | conn_pool_put.go:21-176 | In every reachable state, putting a held connection reaches none of the panics of conn_pool_put.go and blocks on no response channel. It hangs if and only if it calls the facade and that call does not return; otherwise the connection is kept unless it is bad or the pool is closed. |
| `Handoff.PutSettles` | conn_pool_put.go:21-176 | In every run, where a put connection goes and what the pool is like afterwards: to a request, else to the free set, or away if it is bad, the pool is closed, or the facade hangs; none of the panics is reached and no send blocks. |
| `Handoff.OpenSettles` | conn_pool_conn_opener.go:63-92 | The same for a connection that the opener delivers. |
| `Handoff.InvExec` | conn_pool.go:75-263 | The invariant of the handoff holds in every state of every run. |
| `Handoff.ConnectionsConserved` | conn_pool.go:75-263 | In every run, also behind a put that hangs: a connection is free, in one channel, with one goroutine, or gone (closed or stuck in a put), and never in two places; a request has an empty channel that was never sent on. |
| `Handoff.DeliveredHasReceiver` | conn_pool.go:168-229 | A delivered connection always has its waiter before a receive, and a waiter without one is still among the requests. |
| `Handoff.HandOverExample` | conn_pool.go:144-228 | A waiter receives the connection another goroutine puts, and has it only after the check. |
| `Handoff.WaitsBesideFree` | conn_pool.go:96-160 | In every run a request waits beside a free connection only if a connection was free when it was registered. |
| `Handoff.WaitingBesideFreeExample` | conn_pool.go:144-160 | A run that ends with a goroutine waiting beside a free connection that nobody holds. |
| `Handoff.ClosedNeverAnswers` | conn_pool.go:343-372 | Once the pool is closed no request is answered, however the run goes on. |
| `Handoff.ClosedTurnsAway` | conn_pool.go:80-86 | Once the pool is closed, nobody who has not entered conn yet gets a connection or waits for one. |
| `Handoff.LockedNeverAnswers` | conn_pool_put.go:60-69 | Behind a put that never ends no request is answered or withdrawn, however the run goes on. |
| `Handoff.AnswerableFromWithin` | conn_pool.go:75-372 | In every state of every run: some continuation without a newly opened connection or a new goroutine answers a waiting request, if and only if the pool is neither closed nor locked for good and a connection is with a goroutine, in a channel, or free with a goroutine about to look for one. |
| `Handoff.ExpiredWaiterPutsBack` | conn_pool.go:180-198 | A waiter whose context expired was never answered or re-puts the connection, which the pool keeps unless it is bad, the pool is closed, or the facade does not return. |
| `Deps.RemoveUndoesAdd` | conn_pool_dep.go:27-74 | Removing a fresh dependency restores the table, and calls for the final close exactly if it was the only one. |
| `Deps.DepTable.RemoveDepLocked` | conn_pool_dep.go:50-74 | The dependency is gone; an unpaired removal panics, the last one hands back the final close. |
| `StmtProtocol.InvExec` | prepared_statement.go:227-369 | The invariant of statements, rows and dependencies holds in every state of every run. |
| `StmtProtocol.FinalCloseOnce` | prepared_statement.go:227-369 | In every run: a removeDep about to run is paired, so there is no panic; finalClose runs at most once, only after Stmt.Close and the close of every rows object of the statement in any order; when the closes have finished it has run exactly once. |
| `StmtProtocol.SomebodyMoves` | prepared_statement.go:227-369 | No deadlock: in every run, while some goroutine is not through one can move, and each move brings it nearer to its end. |
| `StmtProtocol.QueryMakesRows` | prepared_statement.go:229-271 | A query on an open statement gives rows on which the statement then depends. |
| `StmtProtocol.ClosedGivesNoRows` | prepared_statement.go:329-340 | A closed statement gives no rows any more. |
| `StmtProtocol.RowsReleaseOnce` | rows.go:347-375 | Rows.close releases the connection exactly once, however often it is called. |
| `ClosedStmts.SwapWithLast` | prepared_statement.go:148-154 | Moving the last entry over a dead one loses no live entry. |
| `ClosedStmts.Stmt.SwapOutClosed` | prepared_statement.go:148-154 | The loop ends with exactly the multiset of entries on open connections. |
| `ClosedStmts.Stmt.RemoveClosedStmtLocked` | prepared_statement.go:133-157 | Below the threshold nothing changes; otherwise exactly the entries on open connections stay and the counter is copied. |

## Left out

- Connection.MysqlConn.ReadPacket: giving the connection up is a flag; the COM_QUIT packet that Close writes and closing the socket are left out.
- Connection.MysqlConn.WritePacket: the liveness check of a reset connection (mysql/conncheck.go) and the write timeout are left out.
- Buffers.Buffer.Fill: read deadlines are left out.
- Results.ReadColumns: the fields of a column definition are not parsed; the packets are consumed.
- Results.ReadResultSetHeaderPacket: a LOAD DATA LOCAL INFILE request is an error value, also where a row that starts with NULL is taken for one; mysql/infile.go, which answers requests for registered files, is left out.
- Results.ReadUntilEOF: an error packet is returned as a whole; its number, state and message are not cut out, and closing the connection for RejectReadOnly is left out.
- Rows.MysqlRows.Next: ERR packets among the rows or in a later result set are outside the error-free responses considered; nextResultSet leaves done unset after one.
- Rows.MysqlRows.Close: the call of the watcher's finish is in Watcher, not here.
- Queries.UseAndClose: the rows object is the text one; binary Next lacks the done check and reads on behind the end of its rows.
- BinaryRow.ReadBinaryRow: floats are bit patterns, and time.Date, which turns fields into an instant of a location, is left out.
- DateTime.ParseUndoesAppendDateTime: times are wall-clock fields in one location.
- Statement.MysqlStmt.WriteCommandLongData: maxAllowedPacket is at least 9; below that the source does not terminate or sends no data.
- Statement.MysqlStmt.WriteExecutePacket: conversion of named values and driver.Valuer (mysql/statement.go:147-220) is left out.
- Escape.EscapeTo: the source has the loop twice per mode, for byte slices and for strings; here it is one method with the mode as a parameter. Multi-byte character sets in which a trail byte equals a backslash are not modelled.
- Interpolate.InterpolateParams: the text of a float is a parameter, and nothing is claimed about how it reads back.
- Dsn.ParseDSN: cfg.tls and cfg.pubKey, which normalize derives, are left out; the eleven boolean fields are a set of flags; lower-casing is ASCII only.
- Dsn.FormatDSN: the sorted order of the parameter keys is a parameter; the result is proved for every order.
- Watcher.WatcherSafe: one goroutine at a time uses a connection, as the pool has it; connections without a started watcher are left out.
- TxProtocol.TxSafe: a pending writer does not hold back new readers in the model, which allows more runs than sync.RWMutex; closing prepared statements is a step without effect. Conn.grabConn tests done before it locks and has no such theorem.
- Pool.ConnPool.PutBack: the handlers that run when a connection is put, the test hook, the start of the cleaner and the driverConn.Close of a discarded connection (which panics for one that was never idle) are left out.
- Handoff.PutSucceeds: whether the facade's call returns is a choice in each step of a run; `Facade` proves when it does, for every state of the facade, but the facade's state is not part of the run.
- Handoff.AnswerableFromWithin: the opener is left out of the claim, because it acts on the facade's commands, and stops when the facade is closed (conn_pool_facade.go:154-157).
- Handoff.ConnectionsConserved: closing a connection is a sink; driverConn.Close, finalClose and the error path of the opener are left out. A response channel is named by its request's key. The facade's mutex, which a put stuck in the facade may hold, is not modelled; so more runs are possible than in the source.
- StmtProtocol.FinalCloseOnce: statements of a Tx or Conn, and Tx.StmtContext with its parent dependency, are left out; the driver's closing of rows is a step without effect.
- Facade.MaybeOpenReturns: the mutexes held by others and the room the opener makes in the channel are parameters; the map of pools is the order in which its iteration delivers them.
- The limit over whole runs: canAddNewConn and the counting behind it are two critical sections, so the code does not keep numOpened within totalMax.
- Authentication, TLS, dialling, argument conversion by reflection, collation tables and column-type metadata.
