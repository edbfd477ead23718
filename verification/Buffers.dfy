// The double-buffered read/write buffer (mysql/buffer.go) over a network connection.
module Buffers {
  import opened Bytes
  import opened GoSlice

  const DEFAULT_BUF_SIZE: nat := 4096
  const MAX_CACHED_BUF_SIZE: nat := 256 * 1024
  const MAX_PACKET_SIZE: nat := 0xff_ffff

  datatype IOError = NoError | EOF | UnexpectedEOF | Broken | BusyBuffer

  /** The network connection. Reads deliver what the peer sent, in portions of any positive
      size; writes are accepted until room runs out. */
  class Net {
    var incoming: seq<byte>     // sent by the peer and not yet returned by Read
    var sent: seq<byte>         // accepted by Write so far
    var room: nat               // how many more bytes Write will accept
    const reliable: bool              // Read reports no error but the end of the stream
    const quiet: bool                 // a short Write reports no error (against io.Writer)

    constructor (reliable: bool, quiet: bool, incoming: seq<byte>, room: nat)
      ensures this.reliable == reliable && this.quiet == quiet
      ensures this.incoming == incoming && this.room == room && sent == []
    {
      this.reliable, this.quiet := reliable, quiet;
      this.incoming, this.room, this.sent := incoming, room, [];
    }

    /** io.Reader on dst[lo..]: some bytes, and possibly an error along with them. */
    method Read(dst: array<byte>, lo: nat) returns (nn: nat, err: IOError)
      requires lo < dst.Length
      modifies this`incoming, dst
      ensures nn <= |old(incoming)| && lo + nn <= dst.Length
      ensures incoming == old(incoming)[nn..]
      ensures dst[..] == old(dst[..lo]) + old(incoming)[..nn] + old(dst[lo + nn..])
      ensures err == NoError ==> nn > 0
      ensures err == NoError || (err == EOF && incoming == []) || (err == Broken && !reliable)
    {
      var failing: bool, early: bool := *, *;
      nn :| 0 <= nn <= |incoming| && lo + nn <= dst.Length && (|incoming| > 0 ==> nn > 0);
      forall k | 0 <= k < nn {
        dst[lo + k] := incoming[k];
      }
      incoming := incoming[nn..];
      err := if failing && !reliable then Broken
             else if nn == 0 || (early && incoming == []) then EOF
             else NoError;
    }

    /** io.Writer: accepts as much as there is room for. */
    method Write(bytes: seq<byte>) returns (n: nat, err: IOError)
      modifies this`sent, this`room
      ensures n == if |bytes| <= old(room) then |bytes| else old(room)
      ensures sent == old(sent) + bytes[..n] && room == old(room) - n
      ensures err == if n < |bytes| && !quiet then Broken else NoError
    {
      n := if |bytes| <= room then |bytes| else room;
      sent := sent + bytes[..n];
      room := room - n;
      err := if n < |bytes| && !quiet then Broken else NoError;
    }
  }

  class Buffer {
    var buf: array<byte>          // the active buffer; its length and capacity are equal
    const nc: Net
    var idx: nat
    var length: nat
    var dbuf: seq<array<byte>>    // the two backing arrays; empty stands for nil
    var flipcnt: nat              // only its lowest bit is ever looked at

    /** dbuf[flipcnt & 1], the array the next fill reads into. */
    function CurSlot(): array<byte>
      requires Valid()
      reads this
    {
      if flipcnt % 2 == 0 then dbuf[0] else dbuf[1]
    }

    function OtherSlot(): array<byte>
      requires Valid()
      reads this
    {
      if flipcnt % 2 == 0 then dbuf[1] else dbuf[0]
    }

    ghost predicate Valid()
      reads this
    {
      && |dbuf| == 2 && dbuf[0] != dbuf[1]
      && idx + length <= buf.Length
      && 4096 <= buf.Length
      && (forall i | 0 <= i < 2 :: dbuf[i].Length == 0 || 4096 <= dbuf[i].Length <= 0x4_0000)
    }

    /** What is still to be read: the buffered bytes, then what the network will deliver. */
    ghost function Unread(): seq<byte>
      requires Valid()
      reads this, buf, nc
    {
      buf[idx..idx + length] + nc.incoming
    }

    /** The active buffer was filled since the last flip. */
    ghost predicate FilledThisEpoch()
      requires Valid()
      reads this
    {
      buf != OtherSlot()
    }

    /** No fill before the next flip writes into a. */
    ghost predicate Protects(a: array<byte>)
      requires Valid()
      reads this
    {
      a != CurSlot()
    }

    constructor (nc: Net)
      ensures Valid() && this.nc == nc
      ensures fresh(buf) && fresh(dbuf[0]) && fresh(dbuf[1])
      ensures Unread() == nc.incoming && FilledThisEpoch() && buf.Length == 4096 && dbuf[1].Length == 0 && idx == 0
    {
      var fg := new byte[DEFAULT_BUF_SIZE];
      var none := new byte[0];
      this.nc := nc;
      buf, idx, length, dbuf, flipcnt := fg, 0, 0, [fg, none], 0;
    }

    /** The delayed flip. It protects the active buffer from all later fills of the epoch if
        that buffer was filled in the epoch that ends, and only then. */
    method Flip()
      requires Valid()
      modifies this`flipcnt
      ensures Valid() && flipcnt == old(flipcnt) + 1
      ensures Unread() == old(Unread())
      ensures CurSlot() == old(OtherSlot()) && OtherSlot() == old(CurSlot())
      ensures Protects(buf) <==> old(FilledThisEpoch())
    {
      flipcnt := flipcnt + 1;
    }

    /** The array the coming fill reads into: the slot of this epoch, or a larger new array,
        which becomes that slot unless it is too large to keep. */
    method Destination(need: nat) returns (dest: array<byte>)
      requires Valid()
      modifies this`dbuf
      ensures Valid() && OtherSlot() == old(OtherSlot())
      ensures need <= dest.Length && (need > 0 ==> 4096 <= dest.Length)
      ensures if need <= old(CurSlot()).Length then dest == old(CurSlot())
              else fresh(dest) && dest.Length == (need / 4096 + 1) * 4096
      ensures CurSlot() == if dest.Length <= 0x4_0000 then dest else old(CurSlot())
      ensures dest != OtherSlot()
    {
      dest := CurSlot();
      if need > dest.Length {
        dest := new byte[(need / DEFAULT_BUF_SIZE + 1) * DEFAULT_BUF_SIZE];
        if dest.Length <= MAX_CACHED_BUF_SIZE {
          dbuf := dbuf[flipcnt % 2 := dest];
        }
      }
    }

    /** Reads into the array from position n until it holds need bytes. */
    method ReadUntil(n0: nat, need: nat) returns (err: IOError, n: nat)
      requires n0 < need <= buf.Length
      modifies nc`incoming, buf
      ensures n0 <= n <= buf.Length && buf[..n0] == old(buf[..n0])
      ensures err == NoError ==> n >= need
      ensures err == NoError ==> buf[..n] + nc.incoming == old(buf[..n0] + nc.incoming)
      ensures err != NoError && nc.reliable ==> nc.incoming == [] && old(n0 + |nc.incoming|) < need
      ensures err == NoError || (err == UnexpectedEOF && nc.incoming == []) || (err == Broken && !nc.reliable)
    {
      ghost var all := buf[..n0] + nc.incoming;
      n := n0;
      while true
        invariant n0 <= n < need && buf[..n0] == old(buf[..n0])
        invariant all == buf[..n] + nc.incoming
        decreases need - n
      {
        ghost var before, pending := buf[..n], nc.incoming;
        var nn;
        nn, err := nc.Read(buf, n);
        n := n + nn;
        assert buf[..n] == before + pending[..nn];
        assert pending == pending[..nn] + nc.incoming;
        if err == NoError {
          if n >= need {
            return;
          }
        } else if err == EOF {
          assert |all| == n;
          if n >= need {
            err := NoError;
            return;
          }
          err := UnexpectedEOF;
          return;
        } else {
          return;
        }
      }
    }

    /** The unread bytes move to the front of dest, which may be the active buffer itself and
        is the active buffer from now on. */
    method MoveTo(dest: array<byte>)
      requires Valid() && length <= dest.Length
      modifies dest, this`buf, this`idx
      ensures buf == dest && idx == 0 && buf[..length] == old(buf[idx..idx + length])
    {
      var n := length;
      forall k | 0 <= k < n {
        dest[k] := buf[idx + k];
      }
      buf := dest;
      idx := 0;
    }

    /** Reads behind the unread bytes, which are at the front of the active buffer. */
    method ReadMore(need: nat) returns (err: IOError)
      requires Valid() && idx == 0 && length < need <= buf.Length
      modifies this`length, nc`incoming, buf
      ensures Valid()
      ensures err == NoError ==> length >= need && Unread() == old(Unread())
      ensures err != NoError ==> length == old(length) && buf[..length] == old(buf[..length])
      ensures err != NoError && nc.reliable ==> |old(Unread())| < need && nc.incoming == []
    {
      assert Unread() == buf[..length] + nc.incoming;
      var n;
      err, n := ReadUntil(length, need);
      if err == NoError {
        length := n;
        assert buf[idx..idx + length] == buf[..n];
      }
    }

    /** Reads until at least need bytes are buffered, into this epoch's slot; the unread bytes
        move there first. On failure the bytes already buffered stay. */
    method Fill(need: nat) returns (err: IOError)
      requires Valid() && length < need
      modifies this`buf, this`idx, this`length, this`dbuf, nc`incoming, CurSlot()
      ensures Valid() && OtherSlot() == old(OtherSlot())
      ensures CurSlot() == old(CurSlot()) || fresh(CurSlot())
      ensures buf == old(CurSlot()) || fresh(buf)
      ensures FilledThisEpoch() && idx == 0
      ensures err == NoError ==> length >= need && Unread() == old(Unread())
      ensures err != NoError ==> length == old(length) && buf[..length] == old(buf[idx..idx + length])
      ensures err != NoError && nc.reliable ==> |old(Unread())| < need && nc.incoming == []
    {
      var dest := Destination(need);
      MoveTo(dest);
      assert buf[idx..idx + length] == buf[..length];
      err := ReadMore(need);
    }

    /** The next need bytes. The slice shares the active buffer: see Flip. */
    method ReadNext(need: nat) returns (err: IOError, data: Slice)
      requires Valid()
      modifies this`buf, this`idx, this`length, this`dbuf, nc`incoming, CurSlot()
      ensures Valid() && OtherSlot() == old(OtherSlot())
      ensures CurSlot() == old(CurSlot()) || fresh(CurSlot())
      ensures buf == old(buf) || buf == old(CurSlot()) || fresh(buf)
      ensures old(FilledThisEpoch()) || (old(length) < need && err == NoError) ==> FilledThisEpoch()
      ensures data.Valid()
      ensures err == NoError ==> need <= |old(Unread())|
      ensures err == NoError ==> data.arr == buf && data.Contents() == old(Unread())[..need]
      ensures err == NoError ==> Unread() == old(Unread())[need..]
      ensures err != NoError && nc.reliable ==> |old(Unread())| < need
    {
      err := NoError;
      if length < need {
        err := Fill(need);
        if err != NoError {
          return err, Slice(buf, 0, 0);
        }
      }
      data := Advance(need);
    }

    /** buf[idx:idx+need], which counts as read from now on. */
    method Advance(need: nat) returns (data: Slice)
      requires Valid() && need <= length
      modifies this`idx, this`length
      ensures Valid() && data.Valid() && data.arr == buf
      ensures data.Contents() == old(Unread())[..need] && Unread() == old(Unread())[need..]
    {
      ghost var all := Unread();
      var offset := idx;
      assert buf[idx..idx + length] == buf[offset..offset + need] + buf[offset + need..offset + length];
      idx := idx + need;
      length := length - need;
      data := Slice(buf, offset, need);
      assert Unread() == all[need..];
    }

    /** A write buffer of the given size: a slice of the active buffer if that is long enough. */
    method TakeBuffer(size: nat) returns (err: IOError, data: Slice)
      requires Valid()
      modifies this`buf
      ensures Valid() && Unread() == old(Unread())
      ensures data.Valid() && (err == BusyBuffer <==> length > 0) && (err == BusyBuffer || err == NoError)
      ensures err == NoError ==> data.off == 0 && data.len == size
      ensures err == NoError ==> data.arr == old(buf) || fresh(data.arr)
      ensures buf == if err == NoError && old(buf).Length < size < 0xff_ffff then data.arr else old(buf)
      ensures err == NoError && size <= old(buf).Length ==> data.arr == buf
      ensures old(buf).Length <= buf.Length
    {
      if length > 0 {
        return BusyBuffer, Slice(buf, 0, 0);
      }
      if size <= buf.Length {
        return NoError, Slice(buf, 0, size);
      }
      if size < MAX_PACKET_SIZE {
        buf := new byte[size];
        return NoError, Slice(buf, 0, size);
      }
      var big := new byte[size];
      return NoError, Slice(big, 0, size);
    }

    method TakeCompleteBuffer() returns (err: IOError, data: Slice)
      requires Valid()
      ensures data == Slice(buf, 0, buf.Length)
      ensures err == if length > 0 then BusyBuffer else NoError
    {
      return if length > 0 then BusyBuffer else NoError, Slice(buf, 0, buf.Length);
    }

    /** Keeps a grown write buffer for later: exactly if nothing is buffered and the array is
        larger than the present one and not too large. */
    method Store(data: Slice) returns (err: IOError)
      requires Valid() && data.Valid() && data.off == 0
      modifies this`buf
      ensures Valid() && Unread() == old(Unread())
      ensures err == if length > 0 then BusyBuffer else NoError
      ensures buf == if old(length == 0 && buf.Length < data.arr.Length <= 0xff_ffff) then data.arr else old(buf)
    {
      if length > 0 {
        return BusyBuffer;
      }
      if data.Cap() <= MAX_PACKET_SIZE && data.Cap() > buf.Length {
        buf := data.arr;
      }
      return NoError;
    }
  }

  function Concat(parts: seq<seq<byte>>): seq<byte>
  {
    if parts == [] then [] else parts[0] + Concat(parts[1..])
  }

  lemma NothingRead(rest: seq<byte>)
    ensures rest == Concat([]) + rest
  {}

  lemma ConcatCons(part: seq<byte>, more: seq<seq<byte>>, rest: seq<byte>)
    ensures Concat([part] + more) + rest == part + (Concat(more) + rest)
  {
    assert ([part] + more)[1..] == more;
  }

  /** Any number of readNext calls refine a plain byte stream: together they return the
      stream's next bytes, cut as asked, while the slices of a protected array stay as they are. */
  method ReadMany(b: Buffer, needs: seq<nat>, h: Slice) returns (err: IOError, parts: seq<seq<byte>>)
    requires b.Valid() && h.Valid() && b.Protects(h.arr)
    modifies b, b.nc, b.CurSlot()
    ensures b.Valid() && b.Protects(h.arr) && h.Contents() == old(h.Contents())
    ensures b.CurSlot() == old(b.CurSlot()) || fresh(b.CurSlot())
    ensures err == NoError ==> old(b.Unread()) == Concat(parts) + b.Unread()
    ensures err == NoError ==> |parts| == |needs| && forall i | 0 <= i < |needs| :: |parts[i]| == needs[i]
    decreases |needs|
  {
    hide Concat;
    if needs == [] {
      assert b.Unread() == Concat([]) + b.Unread() by {
        NothingRead(b.Unread());
      }
      return NoError, [];
    }
    ghost var all := b.Unread();
    var data;
    err, data := b.ReadNext(needs[0]);
    parts := [];
    if err != NoError {
      return;
    }
    var part := data.arr[data.off..data.off + data.len];
    assert all == part + b.Unread();
    var more;
    err, more := ReadMany(b, needs[1..], h);
    parts := [part] + more;
    if err == NoError {
      ConcatCons(part, more, b.Unread());
    }
  }
}
