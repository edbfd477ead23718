// The connection: readPacket and writePacket on a shared buffer (mysql/packets.go).
module Connection {
  import opened Bytes
  import opened GoSlice
  import opened Buffers
  import opened Wire

  class MysqlConn {
    const buf: Buffer
    const nc: Net
    const maxAllowedPacket: nat
    var sequence: byte
    var closed: bool
    var canceled: ConnError       // set by the cancel watcher; Ok while unset
    // mc.status, mc.affectedRows and mc.insertId: the last OK or EOF packet
    var status: nat
    var affectedRows: nat
    var insertId: nat

    ghost predicate Valid()
      reads buf
    {
      buf.Valid() && buf.nc == nc
    }

    ghost function Unread(): seq<byte>
      requires Valid()
      reads buf, buf.buf, nc
    {
      buf.Unread()
    }

    /** The server's next packets are ps, in step with the sequence number, and nothing fails. */
    ghost predicate InSync(ps: seq<seq<byte>>)
      requires Valid()
      reads this`sequence, buf, buf.buf, nc
    {
      nc.reliable && [] !in ps && Unread() == FrameAll(ps, sequence)
    }

    constructor (buf: Buffer, maxAllowedPacket: nat)
      requires buf.Valid()
      ensures Valid() && this.buf == buf && this.nc == buf.nc && this.maxAllowedPacket == maxAllowedPacket
      ensures sequence == 0 && !closed && canceled == Ok && status == affectedRows == insertId == 0
    {
      this.buf, this.nc, this.maxAllowedPacket := buf, buf.nc, maxAllowedPacket;
      sequence, closed, canceled, status, affectedRows, insertId := 0, false, Ok, 0, 0, 0;
    }

    /** The error of a read that failed: the watcher's, or a closed connection. */
    method ReadFailed() returns (err: ConnError)
      modifies this`closed
      ensures err == if canceled != Ok then canceled else InvalidConn
      ensures closed == (old(closed) || canceled == Ok)
    {
      if canceled != Ok {
        return canceled;
      }
      closed := true;
      err := InvalidConn;
    }

    /** mc.buf.readNext, with the connection given up on failure. */
    method ReadBytes(need: nat) returns (err: ConnError, data: Slice)
      requires Valid()
      modifies this`closed
      modifies buf`buf, buf`idx, buf`length, buf`dbuf, nc`incoming, buf.CurSlot()
      ensures Valid() && data.Valid()
      ensures buf.OtherSlot() == old(buf.OtherSlot())
      ensures buf.CurSlot() == old(buf.CurSlot()) || fresh(buf.CurSlot())
      ensures buf.buf == old(buf.buf) || buf.buf == old(buf.CurSlot()) || fresh(buf.buf)
      ensures old(buf.FilledThisEpoch()) || (old(buf.length) < need && err == Ok) ==> buf.FilledThisEpoch()
      ensures err == Ok ==> need <= |old(Unread())| && closed == old(closed)
      ensures err == Ok ==> data.arr == buf.buf && data.Contents() == old(Unread())[..need]
      ensures err == Ok ==> Unread() == old(Unread())[need..]
      ensures nc.reliable && need <= |old(Unread())| ==> err == Ok
      ensures err != Ok ==> (err == canceled || (err == InvalidConn && canceled == Ok && closed))
    {
      var ioerr;
      ioerr, data := buf.ReadNext(need);
      err := Ok;
      if ioerr != NoError {
        err := ReadFailed();
      }
    }

    /** The 3-byte length and the sequence check. */
    method ReadHeader() returns (err: ConnError, pktLen: nat)
      requires Valid() && (canceled == Ok || canceled.Canceled?)
      modifies this`closed, this`sequence
      modifies buf`buf, buf`idx, buf`length, buf`dbuf, nc`incoming, buf.CurSlot()
      ensures Valid()
      ensures buf.OtherSlot() == old(buf.OtherSlot())
      ensures buf.CurSlot() == old(buf.CurSlot()) || fresh(buf.CurSlot())
      ensures buf.buf == old(buf.buf) || buf.buf == old(buf.CurSlot()) || fresh(buf.buf)
      ensures old(buf.FilledThisEpoch()) || (old(buf.length) == 0 && err == Ok) ==> buf.FilledThisEpoch()
      ensures err == Ok ==>
                && var s := old(Unread());
                && 4 <= |s| && pktLen == FromLE(s[..3]) && s[3] == old(sequence)
                && Unread() == s[4..] && sequence == (old(sequence) + 1) % 256 && closed == old(closed)
      ensures err == PktSync || err == PktSyncMul ==>
                && var s := old(Unread());
                && 4 <= |s| && s[3] != old(sequence) && (err == PktSyncMul <==> s[3] > old(sequence))
      ensures nc.reliable && 4 <= |old(Unread())| && old(Unread())[3] == old(sequence) ==> err == Ok
      ensures err != Ok ==>
                || err == PktSync || err == PktSyncMul || err == canceled
                || (err == InvalidConn && canceled == Ok && closed)
    {
      hide FromLE, Buffer.FilledThisEpoch, Buffer.CurSlot, Buffer.OtherSlot, MysqlConn.Unread, Buffer.Unread;
      ghost var s := Unread();
      var data;
      err, data := ReadBytes(4);
      pktLen := 0;
      if err != Ok {
        return;
      }
      var a, o := data.arr, data.off;
      assert data.Contents() == s[..4];
      assert a[o..o + 3] == s[..3];
      pktLen := FromLE(a[o..o + 3]);
      var got := a[o + 3];
      assert got == data.Contents()[3];
      if got != sequence {
        return if got > sequence then PktSyncMul else PktSync, pktLen;
      }
      sequence := (sequence + 1) % 256;
    }

    /** A header and the bytes it announces. */
    method ReadChunk() returns (err: ConnError, body: Slice)
      requires Valid() && (canceled == Ok || canceled.Canceled?)
      modifies this`closed, this`sequence
      modifies buf`buf, buf`idx, buf`length, buf`dbuf, nc`incoming, buf.CurSlot()
      ensures Valid() && body.Valid()
      ensures buf.OtherSlot() == old(buf.OtherSlot())
      ensures buf.CurSlot() == old(buf.CurSlot()) || fresh(buf.CurSlot())
      ensures buf.buf == old(buf.buf) || buf.buf == old(buf.CurSlot()) || fresh(buf.buf)
      ensures old(buf.FilledThisEpoch()) || (old(buf.length) == 0 && err == Ok) ==> buf.FilledThisEpoch()
      ensures err == Ok ==>
                && ChunkAt(old(Unread()), old(sequence))
                && var s := old(Unread());
                && body.Contents() == ChunkBody(s) && Unread() == s[4 + |ChunkBody(s)|..]
                && body.arr == buf.buf
                && sequence == (old(sequence) + 1) % 256 && closed == old(closed)
      ensures err == PktSync || err == PktSyncMul ==>
                && var s := old(Unread());
                && 4 <= |s| && s[3] != old(sequence) && (err == PktSyncMul <==> s[3] > old(sequence))
      ensures nc.reliable && ChunkAt(old(Unread()), old(sequence)) ==> err == Ok
      ensures err != Ok ==>
                || err == PktSync || err == PktSyncMul || err == canceled
                || (err == InvalidConn && canceled == Ok && closed)
    {
      hide FromLE, Buffer.FilledThisEpoch, Buffer.CurSlot, Buffer.OtherSlot, MysqlConn.Unread, Buffer.Unread;
      ghost var s := Unread();
      var pktLen;
      err, pktLen := ReadHeader();
      body := Slice(buf.buf, 0, 0);
      if err == Ok && pktLen != 0 {
        err, body := ReadBytes(pktLen);
        if err == Ok {
          assert s[4..][..pktLen] == s[4..4 + pktLen];
          assert s[4..][pktLen..] == s[4 + pktLen..];
        }
      }
    }

    /** One round of readPacket's loop: the next chunk ends the payload (last) or is joined to
        prevData, which is empty exactly while the source's prevData is nil. */
    method JoinChunk(prevData: seq<byte>) returns (err: ConnError, last: bool, data: Slice, joined: seq<byte>)
      requires Valid() && (canceled == Ok || canceled.Canceled?)
      modifies this`sequence, this`closed
      modifies buf`buf, buf`idx, buf`length, buf`dbuf, nc`incoming, buf.CurSlot()
      ensures Valid() && data.Valid()
      ensures buf.OtherSlot() == old(buf.OtherSlot())
      ensures buf.CurSlot() == old(buf.CurSlot()) || fresh(buf.CurSlot())
      ensures buf.buf == old(buf.buf) || buf.buf == old(buf.CurSlot()) || fresh(buf.buf)
      ensures old(buf.FilledThisEpoch()) || (old(buf.length) == 0 && err == Ok) ==> buf.FilledThisEpoch()
      ensures err == Ok ==> closed == old(closed)
      ensures err == Ok && last ==> data.arr == buf.buf || fresh(data.arr)
      ensures err == Ok && last ==>
                Parse(old(Unread()), old(sequence), prevData) == Packet(data.Contents(), Unread(), sequence)
      ensures err == Ok && !last ==>
                && |Unread()| < |old(Unread())|
                && Parse(old(Unread()), old(sequence), prevData) == Parse(Unread(), sequence, joined)
      ensures err != Ok ==> Failure(err, Parse(old(Unread()), old(sequence), prevData))
    {
      hide Parse, FromLE, Buffer.FilledThisEpoch, Buffer.CurSlot, Buffer.OtherSlot, MysqlConn.Unread, Buffer.Unread;
      ghost var s, q := Unread(), sequence;
      joined, last := prevData, true;
      err, data := ReadChunk();
      if err != Ok {
        if !ChunkAt(s, q) {
          ParseNoChunk(s, q, prevData);
        }
        return;
      }
      var bytes := data.arr[data.off..data.off + data.len];
      if |bytes| >= MAX_PACKET_SIZE {
        ParseFullChunk(s, q, prevData, bytes, Unread(), sequence);
        last, joined := false, prevData + bytes;
        return;
      }
      ParseLastChunk(s, q, prevData);
      if prevData != [] {
        data := NewSlice(prevData + bytes);
      } else if bytes == [] {
        closed, err := true, InvalidConn;
      } else {
        assert prevData + bytes == bytes;
      }
    }

    /** How a read can fail when parse is what the stream holds. */
    ghost predicate Failure(err: ConnError, parse: Parsed)
      reads this
    {
      && (nc.reliable ==> !parse.Packet?)
      && (err == PktSync || err == PktSyncMul ==> parse == OutOfSync(err == PktSyncMul))
      && (err == PktSync || err == PktSyncMul || err == canceled || (err == InvalidConn && closed))
    }

    /** Reads one payload, joining split packets. The result shares the read buffer unless the
        packet was split. */
    method ReadPacket() returns (err: ConnError, data: Slice)
      requires Valid() && (canceled == Ok || canceled.Canceled?)
      modifies this`sequence, this`closed
      modifies buf`buf, buf`idx, buf`length, buf`dbuf, nc`incoming, buf.CurSlot()
      ensures Valid() && data.Valid()
      ensures buf.OtherSlot() == old(buf.OtherSlot())
      ensures buf.CurSlot() == old(buf.CurSlot()) || fresh(buf.CurSlot())
      ensures buf.buf == old(buf.buf) || buf.buf == old(buf.CurSlot()) || fresh(buf.buf)
      ensures old(buf.FilledThisEpoch()) || (old(buf.length) == 0 && err == Ok) ==> buf.FilledThisEpoch()
      ensures err == Ok ==> closed == old(closed) && (data.arr == buf.buf || fresh(data.arr))
      ensures err == Ok ==> Parse(old(Unread()), old(sequence), []) == Packet(data.Contents(), Unread(), sequence)
      ensures err != Ok ==> Failure(err, Parse(old(Unread()), old(sequence), []))
    {
      hide Parse;
      var prevData: seq<byte> := [];
      ghost var outcome := Parse(Unread(), sequence, prevData);
      while true
        invariant Valid() && closed == old(closed)
        invariant buf.OtherSlot() == old(buf.OtherSlot())
        invariant buf.CurSlot() == old(buf.CurSlot()) || fresh(buf.CurSlot())
        invariant buf.buf == old(buf.buf) || buf.buf == old(buf.CurSlot()) || fresh(buf.buf)
        invariant old(buf.FilledThisEpoch()) || old(buf.length) == 0 ==> buf.FilledThisEpoch() || buf.length == 0
        invariant outcome == Parse(Unread(), sequence, prevData)
        decreases |Unread()|
      {
        var last;
        err, last, data, prevData := JoinChunk(prevData);
        if err != Ok || last {
          return;
        }
      }
    }

    /** Puts the header of the next chunk into the first four bytes of data, over bytes that
        were sent before, and writes the chunk. */
    method WriteChunk(data: Slice, size: nat) returns (ioerr: IOError, n: nat)
      requires Valid() && data.Valid() && 4 <= data.len
      requires size == if data.len - 4 < MAX_PACKET_SIZE then data.len - 4 else MAX_PACKET_SIZE
      modifies data.arr, nc`sent, nc`room
      ensures var chunk := FirstChunk(old(Payload(data)), sequence);
              && n == (if |chunk| <= old(nc.room) then |chunk| else old(nc.room))
              && nc.sent == old(nc.sent) + chunk[..n] && nc.room == old(nc.room) - n
      ensures ioerr == if n < 4 + size && !nc.quiet then Broken else NoError
      ensures data.arr[data.off + 4 + size..data.off + data.len] == old(Payload(data))[size..]
      ensures forall k | 0 <= k < data.arr.Length && !(data.off <= k < data.off + 4) :: data.arr[k] == old(data.arr[k])
    {
      hide LE;
      var a, o := data.arr, data.off;
      ghost var before := a[..];
      assert Payload(data) == before[o + 4..o + data.len];
      PutChunkHeader(a, o, size);
      HeadStays(before, a[..], o + 4, size, o + data.len);
      RestStays(before, a[..], o + 4, size, o + data.len);
      CutAt(a[..], o, o + 4, o + 4 + size);
      n, ioerr := nc.Write(a[o..o + 4 + size]);
    }

    method PutChunkHeader(a: array<byte>, o: nat, size: nat)
      requires o + 4 <= a.Length
      modifies a
      ensures a[o..o + 4] == LE(size, 3) + [sequence]
      ensures forall k | 0 <= k < a.Length && !(o <= k < o + 4) :: a[k] == old(a[k])
    {
      a[o], a[o + 1], a[o + 2] := size % 256, size / 256 % 256, size / 256 / 256 % 256;
      a[o + 3] := sequence;
      LE3(size);
    }

    ghost function Payload(data: Slice): seq<byte>
      requires data.Valid() && 4 <= data.len
      reads data.arr
    {
      data.arr[data.off + 4..data.off + data.len]
    }

    /** What writing the payload p now would do. */
    ghost function Outcome(p: seq<byte>): (seq<byte>, ConnError)
      reads this`sequence, this`canceled, nc
    {
      WriteOutcome(p, sequence, nc.room, nc.quiet, canceled)
    }

    /** The error of a chunk that did not go out in full. */
    method WriteFailed(ioerr: IOError, nothing: bool) returns (err: ConnError)
      requires canceled == Ok || canceled.Canceled?
      modifies this`closed
      ensures err == if ioerr == NoError then InvalidConn
                     else if canceled != Ok then canceled
                     else if nothing then BadConnNoWrite
                     else InvalidConn
      ensures closed == (old(closed) || err == InvalidConn)
    {
      if ioerr == NoError {
        closed := true;
      } else {
        if canceled != Ok {
          return canceled;
        }
        if nothing {
          return BadConnNoWrite;
        }
        closed := true;
      }
      err := InvalidConn;
    }

    /** Behind a chunk that went out in full: p was the payload, sent and room tell what was
        before the chunk. */
    method NextWindow(data: Slice, size: nat, ghost p: seq<byte>, ghost sent: seq<byte>, ghost room: nat)
      returns (last: bool, next: Slice)
      requires data.Valid() && 4 <= data.len && |p| == data.len - 4
      requires size == if |p| < MAX_PACKET_SIZE then |p| else MAX_PACKET_SIZE
      requires nc.sent == sent + FirstChunk(p, sequence)[..4 + size] && room == nc.room + 4 + size
      requires data.arr[data.off + 4 + size..data.off + data.len] == p[size..]
      modifies this`sequence
      ensures var (w, code) := WriteOutcome(p, old(sequence), room, nc.quiet, canceled);
              if last then nc.sent == sent + w && code == Ok && sequence == NextSequence(data.len - 4, old(sequence))
              else
                && next.Valid() && next.arr == data.arr && 4 <= next.len < data.len
                && data.off <= next.off && next.off + next.len == data.off + data.len
                && nc.sent + Outcome(Payload(next)).0 == sent + w && Outcome(Payload(next)).1 == code
                && NextSequence(next.len - 4, sequence) == NextSequence(data.len - 4, old(sequence))
    {
      hide NextSequence, WriteOutcome, FirstChunk;
      ghost var q := sequence;
      last, next := true, data;
      sequence := (sequence + 1) % 256;
      if size != MAX_PACKET_SIZE {
        AfterLastChunk(sent, p, q, room, nc.quiet, canceled);
        NextSequenceLast(data.len - 4, q);
      } else {
        AfterFullChunk(sent, p, q, room, nc.quiet, canceled);
        NextSequenceStep(data.len - 4, q);
        last, next := false, data.Sub(size, data.len);
        assert Payload(next) == p[size..];
      }
    }

    /** One round of writePacket's loop: last tells that it returns err, next is the window of
        the next round. In the end target is on the wire and code is returned. */
    method WriteStep(data: Slice, ghost target: seq<byte>, ghost code: ConnError)
      returns (err: ConnError, last: bool, next: Slice)
      requires Valid() && data.Valid() && 4 <= data.len && (canceled == Ok || canceled.Canceled?)
      requires nc.sent + Outcome(Payload(data)).0 == target && Outcome(Payload(data)).1 == code
      modifies data.arr, nc`sent, nc`room, this`sequence, this`closed
      ensures last ==> nc.sent == target && err == code
      ensures last && err == Ok ==> sequence == NextSequence(data.len - 4, old(sequence))
      ensures !last ==>
                && next.Valid() && next.arr == data.arr && 4 <= next.len < data.len
                && data.off <= next.off && next.off + next.len == data.off + data.len
                && nc.sent + Outcome(Payload(next)).0 == target && Outcome(Payload(next)).1 == code
                && NextSequence(next.len - 4, sequence) == NextSequence(data.len - 4, old(sequence))
      ensures closed == (old(closed) || (last && err == InvalidConn))
      ensures nc.room + |nc.sent| == old(nc.room + |nc.sent|)
      ensures forall k | 0 <= k < data.arr.Length && !(data.off <= k < data.off + 4) :: data.arr[k] == old(data.arr[k])
    {
      var pktLen: nat := data.len - 4;
      var size := if pktLen >= MAX_PACKET_SIZE then MAX_PACKET_SIZE else pktLen;
      hide LE, Buffer.Valid, NextSequence, WriteOutcome, FirstChunk;
      ghost var p, q, sent, room := Payload(data), sequence, nc.sent, nc.room;
      var ioerr, n := WriteChunk(data, size);
      err, last, next := Ok, true, data;
      if ioerr == NoError && n == 4 + size {
        last, next := NextWindow(data, size, p, sent, room);
      } else {
        AfterShortWrite(sent, p, q, room, nc.quiet, canceled);
        err := WriteFailed(ioerr, n == 0 && pktLen == data.len - 4);
      }
    }

    /** Sends the payload data[4..] in chunks whose headers are written in place. */
    method WritePacket(data: Slice) returns (err: ConnError)
      requires Valid() && data.Valid() && 4 <= data.len && (canceled == Ok || canceled.Canceled?)
      modifies data.arr, nc`sent, nc`room, this`sequence, this`closed
      ensures data.len - 4 > maxAllowedPacket ==>
                err == PktTooLarge && nc.sent == old(nc.sent) && sequence == old(sequence)
      ensures data.len - 4 <= maxAllowedPacket ==>
                nc.sent == old(nc.sent) + old(Outcome(Payload(data))).0 && err == old(Outcome(Payload(data))).1
      ensures err == Ok ==> sequence == NextSequence(data.len - 4, old(sequence))
      ensures closed == (old(closed) || err == InvalidConn)
      ensures nc.room + |nc.sent| == old(nc.room + |nc.sent|)
      ensures forall k | 0 <= k < data.arr.Length && !(data.off <= k < data.off + data.len)
              :: data.arr[k] == old(data.arr[k])
    {
      if data.len - 4 > maxAllowedPacket {
        return PktTooLarge;
      }
      hide WriteOutcome, NextSequence;
      ghost var target, code := nc.sent + Outcome(Payload(data)).0, Outcome(Payload(data)).1;
      ghost var q := NextSequence(data.len - 4, sequence);
      var window := data;
      while true
        invariant Valid() && closed == old(closed)
        invariant window.Valid() && window.arr == data.arr && 4 <= window.len
        invariant data.off <= window.off && window.off + window.len == data.off + data.len
        invariant nc.sent + Outcome(Payload(window)).0 == target && Outcome(Payload(window)).1 == code
        invariant NextSequence(window.len - 4, sequence) == q
        invariant nc.room + |nc.sent| == old(nc.room + |nc.sent|)
        invariant forall k | 0 <= k < data.arr.Length && !(data.off <= k < data.off + data.len)
                  :: data.arr[k] == old(data.arr[k])
        decreases window.len
      {
        var last;
        err, last, window := WriteStep(window, target, code);
        if last {
          return;
        }
      }
    }
  }
}
