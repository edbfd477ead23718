// Prepared statements: sending arguments (mysql/packets.go: writeCommandLongData,
// writeExecutePacket) through the shared write buffer.
module Statement {
  import opened Bytes
  import opened GoSlice
  import opened Buffers
  import opened LenEnc
  import opened Wire
  import opened Connection
  import opened LongData
  import opened ExecuteFormat
  import DateTime

  const MIN_PKT_LEN: nat := 14      // packet header, command, statement id, flags, iteration count

  /** Where the flag, the types and the values of n parameters start. */
  function FlagPos(n: nat): nat { MIN_PKT_LEN + MaskLen(n) }
  function TypesPos(n: nat): nat { FlagPos(n) + 1 }
  function ValuesPos(n: nat): nat { TypesPos(n) + 2 * n }

  /** The packet buffer d holds the fixed regions for the parameters bs of n. */
  predicate Laid(d: seq<byte>, id: nat, n: nat, bs: seq<Binding>)
  {
    && |bs| <= n && ValuesPos(n) <= |d|
    && d[4..MIN_PKT_LEN] == Header(id)
    && d[MIN_PKT_LEN..FlagPos(n)] == Mask(bs, MaskLen(n))
    && d[FlagPos(n)] == 1
    && d[TypesPos(n)..TypesPos(n) + 2 * |bs|] == ExecuteFormat.Types(bs)
  }

  lemma LaidDependsOnPrefix(d: seq<byte>, d': seq<byte>, id: nat, n: nat, bs: seq<Binding>)
    requires Laid(d, id, n, bs) && ValuesPos(n) <= |d'| && d'[..ValuesPos(n)] == d[..ValuesPos(n)]
    ensures Laid(d', id, n, bs)
  {
    hide Header, Mask, ExecuteFormat.Types;
    var k := ValuesPos(n);
    SliceOfPrefix(d, d', k, 4, MIN_PKT_LEN);
    SliceOfPrefix(d, d', k, MIN_PKT_LEN, FlagPos(n));
    SliceOfPrefix(d, d', k, TypesPos(n), TypesPos(n) + 2 * |bs|);
    assert d'[FlagPos(n)] == d'[..k][FlagPos(n)] && d[FlagPos(n)] == d[..k][FlagPos(n)];
  }

  lemma SliceOfPrefix(a: seq<byte>, b: seq<byte>, k: nat, lo: nat, hi: nat)
    requires lo <= hi <= k <= |a| && k <= |b| && a[..k] == b[..k]
    ensures a[lo..hi] == b[lo..hi]
  {
    forall i | lo <= i < hi
      ensures a[i] == b[i]
    {
      assert a[i] == a[..k][i] && b[i] == b[..k][i];
    }
  }

  /** d with the type of parameter i. */
  function WithType(d: seq<byte>, n: nat, i: nat, t: seq<byte>): seq<byte>
    requires i < n && ValuesPos(n) <= |d| && |t| == 2
  {
    d[TypesPos(n) + 2 * i := t[0]][TypesPos(n) + 2 * i + 1 := t[1]]
  }

  /** d with the NULL bit of parameter i. */
  function WithNull(d: seq<byte>, n: nat, i: nat): seq<byte>
    requires i < n && ValuesPos(n) <= |d|
  {
    var at := MIN_PKT_LEN + i / 8;
    var v := SetBit(d[at], i % 8);
    if v < 256 then d[at := v] else d
  }

  /** The bitmap takes the NULL bit of one more parameter; the bytes around it stay. */
  lemma {:induction false} NullRegion(d: seq<byte>, n: nat, bs: seq<Binding>, b: Binding)
    requires |bs| < n && ValuesPos(n) <= |d| && d[MIN_PKT_LEN..FlagPos(n)] == Mask(bs, MaskLen(n))
    ensures b.BindNull? ==> SetBit(d[MIN_PKT_LEN + |bs| / 8], |bs| % 8) < 256
    ensures var d1 := if b.BindNull? then WithNull(d, n, |bs|) else d;
            && |d1| == |d| && d1[4..MIN_PKT_LEN] == d[4..MIN_PKT_LEN] && d1[FlagPos(n)..] == d[FlagPos(n)..]
            && d1[MIN_PKT_LEN..FlagPos(n)] == Mask(bs + [b], MaskLen(n))
  {
    hide MaskByte, SetBit;
    MaskSnoc(bs, b, MaskLen(n));
    assert d[MIN_PKT_LEN..FlagPos(n)][|bs| / 8] == d[MIN_PKT_LEN + |bs| / 8];
  }

  /** The types of the parameters so far get one more behind them. */
  lemma {:induction false} TypeRegion(d: seq<byte>, n: nat, i: nat, t: seq<byte>)
    requires i < n && ValuesPos(n) <= |d| && |t| == 2
    ensures var d2, at := WithType(d, n, i, t), TypesPos(n) + 2 * i;
            |d2| == |d| && d2[..at] == d[..at] && d2[at..at + 2] == t
  {}

  lemma {:induction false} Regions(d: seq<byte>, d1: seq<byte>, d2: seq<byte>, n: nat, i: nat, t: seq<byte>)
    requires i < n && ValuesPos(n) <= |d| == |d1| == |d2| && |t| == 2
    requires d1[4..MIN_PKT_LEN] == d[4..MIN_PKT_LEN] && d1[FlagPos(n)..] == d[FlagPos(n)..]
    requires var at := TypesPos(n) + 2 * i; d2[..at] == d1[..at] && d2[at..at + 2] == t
    ensures d2[4..MIN_PKT_LEN] == d[4..MIN_PKT_LEN] && d2[MIN_PKT_LEN..FlagPos(n)] == d1[MIN_PKT_LEN..FlagPos(n)]
    ensures d2[FlagPos(n)] == d[FlagPos(n)]
    ensures d2[TypesPos(n)..TypesPos(n) + 2 * i + 2] == d[TypesPos(n)..TypesPos(n) + 2 * i] + t
  {
    var at := TypesPos(n) + 2 * i;
    SliceOfPrefix(d2, d1, at, 4, MIN_PKT_LEN);
    SliceOfPrefix(d2, d1, at, MIN_PKT_LEN, FlagPos(n));
    SliceOfPrefix(d2, d1, at, TypesPos(n), at);
    SliceOfSuffix(d1, d, FlagPos(n), TypesPos(n), at);
    assert d2[FlagPos(n)] == d2[..at][FlagPos(n)] && d1[FlagPos(n)] == d1[..at][FlagPos(n)];
    assert d1[FlagPos(n)] == d1[FlagPos(n)..][0] && d[FlagPos(n)] == d[FlagPos(n)..][0];
    CutAt(d2, TypesPos(n), at, at + 2);
  }

  lemma SliceOfSuffix(a: seq<byte>, b: seq<byte>, k: nat, lo: nat, hi: nat)
    requires k <= lo <= hi <= |a| == |b| && a[k..] == b[k..]
    ensures a[lo..hi] == b[lo..hi]
  {
    forall i | lo <= i < hi
      ensures a[i] == b[i]
    {
      assert a[i] == a[k..][i - k] && b[i] == b[k..][i - k];
    }
  }

  lemma {:induction false} LaidType(d: seq<byte>, id: nat, n: nat, bs: seq<Binding>, b: Binding)
    requires |bs| < n && Laid(d, id, n, bs)
    ensures var d1 := if b.BindNull? then WithNull(d, n, |bs|) else d;
            Laid(WithType(d1, n, |bs|, TypeBytes(b)), id, n, bs + [b])
    ensures b.BindNull? ==> SetBit(d[MIN_PKT_LEN + |bs| / 8], |bs| % 8) < 256
  {
    hide Mask, SetBit, Header, TypeBytes, WithNull, WithType, ExecuteFormat.Types;
    NullRegion(d, n, bs, b);
    TypesSnoc(bs, b);
    var d1 := if b.BindNull? then WithNull(d, n, |bs|) else d;
    TypeRegion(d1, n, |bs|, TypeBytes(b));
    Regions(d, d1, WithType(d1, n, |bs|, TypeBytes(b)), n, |bs|, TypeBytes(b));
  }

  lemma LaidIsPayload(d: seq<byte>, id: nat, n: nat, bs: seq<Binding>, limit: nat)
    requires Laid(d, id, n, bs) && n == |bs| > 0 && AllSmall(bs)
    ensures d[4..ValuesPos(n)] + Values(bs, limit) == ExecutePayload(id, bs, limit)
  {
    hide Header, Mask, ExecuteFormat.Types, Values;
    var h, m, t := d[4..MIN_PKT_LEN], d[MIN_PKT_LEN..FlagPos(n)], d[TypesPos(n)..ValuesPos(n)];
    assert d[FlagPos(n)..TypesPos(n)] == [1];
    assert d[4..ValuesPos(n)] == h + m + [1] + t;
  }

  datatype ExecError =
    | Sent
    | ArgumentCount                // "argument count mismatch"
    | Busy                         // the buffer still holds unread data: errBadConnNoWrite
    | Unbindable(arg: Arg)         // a year out of range, or a type the driver cannot convert
    | Network(e: ConnError)

  class MysqlStmt {
    const mc: MysqlConn
    const id: nat
    const paramCount: nat

    constructor (mc: MysqlConn, id: nat, paramCount: nat)
      ensures this.mc == mc && this.id == id && this.paramCount == paramCount
    {
      this.mc, this.id, this.paramCount := mc, id, paramCount;
    }

    ghost predicate Ready()
      reads mc, mc.buf
    {
      mc.Valid() && id < 0x1_0000_0000 && (mc.canceled == Ok || mc.canceled.Canceled?)
    }

    /** The payload of a portion of k bytes: its header goes in front of the data. */
    method PutPortion(data: Slice, paramID: nat, k: nat)
      requires data.Valid() && 11 + k <= data.len
      modifies data.arr
      ensures data.arr[data.off + 4..data.off + 11 + k] == LongDataHeader(id, paramID) + old(Arg(data))[..k]
      ensures Arg(data) == old(Arg(data))
    {
      hide LongDataHeader;
      ghost var arg := Arg(data);
      PutHeader(data, paramID);
      PortionPayload(data.arr[..], data.off, data.len, k);
      assert arg == data.arr[..][data.off + 11..data.off + data.len];
    }

    /** The seven bytes in front of a portion. */
    method PutHeader(data: Slice, paramID: nat)
      requires data.Valid() && 11 <= data.len
      modifies data.arr
      ensures data.arr[data.off + 4..data.off + 11] == LongDataHeader(id, paramID) && Arg(data) == old(Arg(data))
      ensures forall k | 0 <= k < data.arr.Length && !(data.off + 4 <= k < data.off + 11)
              :: data.arr[k] == old(data.arr[k])
    {
      var a, o := data.arr, data.off;
      a[o + 4] := COM_STMT_SEND_LONG_DATA;
      a[o + 5], a[o + 6], a[o + 7], a[o + 8] := LE(id, 4)[0], LE(id, 4)[1], LE(id, 4)[2], LE(id, 4)[3];
      a[o + 9], a[o + 10] := LE(paramID, 2)[0], LE(paramID, 2)[1];
      hide LE;
      var h := LongDataHeader(id, paramID);
      assert forall k | 0 <= k < 7 :: a[o + 4..o + 11][k] == h[k];
    }

    ghost function Arg(data: Slice): seq<byte>
      requires data.Valid() && 11 <= data.len
      reads data.arr
    {
      data.arr[data.off + 11..data.off + data.len]
    }

    /** One round of writeCommandLongData's loop, for k bytes of data: the header overwrites the
        end of what the last round sent, and writePacket may overwrite more of it. */
    method SendPortion(paramID: nat, data: Slice, k: nat) returns (err: ConnError, next: Slice)
      requires Ready() && data.Valid() && 11 + k <= data.len && DATA_OFFSET + k < mc.maxAllowedPacket
      modifies data.arr, mc`sequence, mc`closed, mc.nc`sent, mc.nc`room
      ensures var frame := Frame(LongDataHeader(id, paramID) + old(Arg(data))[..k], 0);
              && (err == Ok <==> |frame| <= old(mc.nc.room))
              && (err == Ok ==> mc.nc.sent == old(mc.nc.sent) + frame && mc.closed == old(mc.closed))
      ensures mc.nc.room + |mc.nc.sent| == old(mc.nc.room + |mc.nc.sent|)
      ensures next.Valid() && next.arr == data.arr && next.len == data.len - k && Arg(next) == old(Arg(data))[k..]
    {
      hide Frame, LongDataHeader, Buffer.Valid;
      ghost var arg := Arg(data);
      mc.sequence := 0;
      PutPortion(data, paramID, k);
      var packet := Slice(data.arr, data.off, 11 + k);
      ghost var lo, hi := data.off + 11 + k, data.off + data.len;
      assert data.arr[lo..hi] == arg[k..];
      HeaderLength(id, paramID);
      err := SendCommand(packet, LongDataHeader(id, paramID) + arg[..k]);
      next := data.Sub(k, data.len);
      assert next.off + 11 == lo && next.off + next.len == hi;
    }

    /** One command, whose packets start at sequence number 0. */
    method SendCommand(data: Slice, ghost p: seq<byte>) returns (err: ConnError)
      requires Ready() && data.Valid() && 4 <= data.len && mc.Payload(data) == p && mc.sequence == 0
      modifies data.arr, mc`sequence, mc`closed, mc.nc`sent, mc.nc`room
      ensures err == Ok <==> |p| <= mc.maxAllowedPacket && |Frame(p, 0)| <= old(mc.nc.room)
      ensures err == Ok ==> mc.nc.sent == old(mc.nc.sent) + Frame(p, 0) && mc.closed == old(mc.closed)
      ensures mc.nc.room + |mc.nc.sent| == old(mc.nc.room + |mc.nc.sent|)
      ensures forall k | 0 <= k < data.arr.Length && !(data.off <= k < data.off + data.len)
              :: data.arr[k] == old(data.arr[k])
    {
      hide Frame, WriteOutcome, NextSequence, Buffer.Valid;
      WriteOutcomeIsFrame(p, 0, mc.nc.room, mc.nc.quiet, mc.canceled);
      err := mc.WritePacket(data);
    }

    lemma PortionPayload(a: seq<byte>, off: nat, len: nat, k: nat)
      requires off + len <= |a| && 11 + k <= len
      ensures a[off + 4..off + 11 + k] == a[off + 4..off + 11] + a[off + 11..off + len][..k]
    {}

    /** Streams one argument ahead of the statement, in packets below maxAllowedPacket. */
    method WriteCommandLongData(paramID: nat, arg: seq<byte>) returns (err: ConnError)
      requires Ready() && mc.maxAllowedPacket >= 9
      modifies mc`sequence, mc`closed, mc.nc`sent, mc.nc`room
      ensures var wire := Commands(LongDataPackets(id, paramID, arg, mc.maxAllowedPacket));
              && (err == Ok <==> |wire| <= old(mc.nc.room))
              && (err == Ok ==> mc.nc.sent == old(mc.nc.sent) + wire && mc.sequence == 0 && mc.closed == old(mc.closed))
      ensures mc.nc.room + |mc.nc.sent| == old(mc.nc.room + |mc.nc.sent|)
    {
      hide Commands, Frame, LongDataHeader, Buffer.Valid;
      var m := mc.maxAllowedPacket;
      var maxLen := m - 1;
      var pktLen := maxLen;
      var data := NewSlice(seq(11, _ => 0) + arg);
      var argLen: nat := |arg|;
      ghost var rest := arg;
      assert Arg(data) == data.Contents()[11..] == arg;
      ghost var target := mc.nc.sent + Commands(LongDataPackets(id, paramID, rest, m));
      while argLen > 0
        invariant data.Valid() && fresh(data.arr) && data.len == 11 + argLen && Arg(data) == rest && Ready()
        invariant argLen > 0 ==> pktLen == maxLen
        invariant mc.nc.sent + Commands(LongDataPackets(id, paramID, rest, m)) == target
        invariant mc.nc.room + |mc.nc.sent| == old(mc.nc.room + |mc.nc.sent|)
        invariant mc.closed == old(mc.closed)
        decreases argLen
      {
        if DATA_OFFSET + argLen < maxLen {
          pktLen := DATA_OFFSET + argLen;
        }
        var k: nat := pktLen - DATA_OFFSET;
        OnePortion(paramID, rest, m, mc.nc.sent);
        err, data := SendPortion(paramID, data, k);
        if err != Ok {
          return;
        }
        argLen := argLen - k;
        rest := rest[k..];
      }
      OnePortion(paramID, rest, m, mc.nc.sent);
      mc.sequence := 0;
      err := Ok;
    }

    lemma OnePortion(param: nat, rest: seq<byte>, m: nat, sent: seq<byte>)
      requires m >= 9
      ensures var wire := Commands(LongDataPackets(id, param, rest, m));
              if rest == [] then sent + wire == sent
              else
                && var k := Portion(|rest|, m);
                && var frame, more :=
                  Frame(LongDataHeader(id, param) + rest[..k], 0), Commands(LongDataPackets(id, param, rest[k..], m));
                && wire == frame + more && sent + wire == sent + frame + more
    {
      hide Frame, LongDataHeader;
      if rest != [] {
        var k := Portion(|rest|, m);
        var head, tail := LongDataHeader(id, param) + rest[..k], LongDataPackets(id, param, rest[k..], m);
        assert ([head] + tail)[1..] == tail;
        AssocBytes(sent, Frame(head, 0), Commands(tail));
      }
    }

    // ---- writeExecutePacket ------------------------------------------------------------

    /** The value bytes live behind the fixed regions of d, or outgrew them. */
    ghost predicate Held(d: array<byte>, n: nat, values: Slice)
    {
      && values.Valid() && ValuesPos(n) <= d.Length
      && (values.arr == d ==> values.off == ValuesPos(n))
      && (values.arr != d ==> values.Cap() > d.Length - ValuesPos(n))
    }

    /** Everything before the values, for no parameter yet: in the shared buffer if the fixed
        regions fit, otherwise in an array of their exact size. */
    method LayOut(data: Slice, n: nat) returns (d: array<byte>)
      requires id < 0x1_0000_0000 && n > 0 && data.off == 0 && data.len == data.arr.Length && MIN_PKT_LEN <= data.len
      modifies data.arr
      ensures if 14 + MaskLen(n) + 1 + 2 * n < data.arr.Length then d == data.arr
              else fresh(d) && d.Length == 14 + MaskLen(n) + 1 + 2 * n
      ensures Laid(d[..], id, n, [])
    {
      d := data.arr;
      PutStart(d);
      var pos := MIN_PKT_LEN;
      var maskLen, typesLen := MaskLen(n), 1 + 2 * n;
      if pos + maskLen + typesLen >= data.Cap() {
        var tmp := new byte[pos + maskLen + typesLen](_ => 0);
        forall k | 0 <= k < pos {
          tmp[k] := d[k];
        }
        assert tmp[4..pos] == d[4..pos];
        d := tmp;
      } else {
        forall k | pos <= k < pos + maskLen {
          d[k] := 0;
        }
        assert d[4..pos] == Header(id);
      }
      EmptyMask(maskLen);
      assert d[pos..pos + maskLen] == Mask([], maskLen);
      d[pos + maskLen] := 0x01;
      assert d[4..pos] == Header(id);
      assert d[pos..pos + maskLen] == Mask([], maskLen);
      assert d[TypesPos(n)..TypesPos(n)] == [];
    }

    method PutStart(d: array<byte>)
      requires MIN_PKT_LEN <= d.Length
      modifies d
      ensures d[4..MIN_PKT_LEN] == Header(id)
    {
      hide LE;
      d[4] := COM_STMT_EXECUTE;
      d[5], d[6], d[7], d[8] := LE(id, 4)[0], LE(id, 4)[1], LE(id, 4)[2], LE(id, 4)[3];
      d[9], d[10], d[11], d[12], d[13] := 0, 1, 0, 0, 0;
      var h := Header(id);
      assert forall k | 0 <= k < 10 :: d[4..MIN_PKT_LEN][k] == h[k];
    }

    /** Writes to the fixed regions, which never reach the values. */
    method PutType(d: array<byte>, n: nat, i: nat, tag: byte, flag: byte, ghost values: Slice)
      requires i < n && Held(d, n, values)
      modifies d
      ensures d[..] == WithType(old(d[..]), n, i, [tag, flag]) && values.Contents() == old(values.Contents())
    {
      d[TypesPos(n) + i + i] := tag;
      d[TypesPos(n) + i + i + 1] := flag;
      assert values.Contents() == old(values.Contents());
    }

    method PutNull(d: array<byte>, n: nat, i: nat, ghost values: Slice)
      requires i < n && Held(d, n, values) && SetBit(d[MIN_PKT_LEN + i / 8], i % 8) < 256
      modifies d
      ensures d[..] == WithType(WithNull(old(d[..]), n, i), n, i, [TYPE_NULL, 0])
              && values.Contents() == old(values.Contents())
    {
      hide SetBit;
      d[MIN_PKT_LEN + i / 8] := SetBit(d[MIN_PKT_LEN + i / 8], i % 8);
      assert values.Contents() == old(values.Contents());
      PutType(d, n, i, TYPE_NULL, 0, values);
    }

    /** append(paramValues, bytes...): the fixed regions stay, wherever the values go. */
    method AppendValue(d: array<byte>, n: nat, values: Slice, bytes: seq<byte>, ghost bs: seq<Binding>)
      returns (r: Slice)
      requires Held(d, n, values) && Laid(d[..], id, n, bs)
      modifies d, values.arr
      ensures Held(d, n, r) && Laid(d[..], id, n, bs)
      ensures r.arr == values.arr || fresh(r.arr)
      ensures r.Contents() == old(values.Contents()) + bytes
    {
      hide Laid, MaskLen;
      ghost var before := d[..];
      r := Append(values, bytes);
      if values.arr == d {
        ShorterPrefix(before, d[..], values.off + values.len, ValuesPos(n));
      }
      LaidDependsOnPrefix(before, d[..], id, n, bs);
    }

    lemma ShorterPrefix(a: seq<byte>, b: seq<byte>, k: nat, n: nat)
      requires n <= k <= |a| && k <= |b| && a[..k] == b[..k]
      ensures a[..n] == b[..n]
    {
      assert a[..n] == a[..k][..n] && b[..n] == b[..k][..n];
    }

    /** The state after the parameters bs: fixed regions, values so far. */
    ghost predicate Encoded(d: array<byte>, n: nat, values: Slice, bs: seq<Binding>, limit: nat)
      reads d, values.arr
    {
      Held(d, n, values) && Laid(d[..], id, n, bs) && AllSmall(bs) && values.Contents() == Values(bs, limit)
    }

    method BindNullParam(d: array<byte>, n: nat, values: Slice, i: nat, limit: nat, ghost bs: seq<Binding>)
      requires i == |bs| < n && Encoded(d, n, values, bs, limit)
      modifies d
      ensures Encoded(d, n, values, bs + [BindNull], limit)
    {
      hide Laid, WithType, WithNull, Values, SetBit, MaskLen;
      LaidType(d[..], id, n, bs, BindNull);
      ValuesSnoc(bs, BindNull, limit);
      NothingAdded(Values(bs, limit));
      PutNull(d, n, i, values);
    }

    lemma NothingAdded(s: seq<byte>)
      ensures s + [] == s
    {}

    /** An eight-byte number, or the one byte of a bool. */
    method BindFixedParam(d: array<byte>, n: nat, values: Slice, i: nat, limit: nat, b: Binding, ghost bs: seq<Binding>)
      returns (r: Slice)
      requires b.BindFixed? && i == |bs| < n && Encoded(d, n, values, bs, limit)
      modifies d, values.arr
      ensures Encoded(d, n, r, bs + [b], limit) && (r.arr == values.arr || fresh(r.arr))
    {
      hide Laid, WithType, WithNull, Values, SetBit, MaskLen;
      LaidType(d[..], id, n, bs, b);
      ValuesSnoc(bs, b, limit);
      PutType(d, n, i, b.tag, b.flag, values);
      r := AppendValue(d, n, values, b.bytes, bs + [b]);
    }

    /** A string: in line below the threshold, otherwise ahead of the statement. */
    method BindStringParam(d: array<byte>, n: nat, values: Slice, i: nat, limit: nat, s: seq<byte>,
        ghost bs: seq<Binding>)
      returns (err: ExecError, r: Slice)
      requires Ready() && mc.maxAllowedPacket >= 9 && |s| <= MAX_STRING
      requires i == |bs| < n && Encoded(d, n, values, bs, limit)
      modifies d, values.arr, mc`sequence, mc`closed, mc.nc`sent, mc.nc`room
      ensures var ahead := Commands(Ahead(id, i, BindString(s), limit, mc.maxAllowedPacket));
              && (err == Sent <==> |ahead| <= old(mc.nc.room))
              && (err == Sent ==> mc.nc.sent == old(mc.nc.sent) + ahead && mc.closed == old(mc.closed))
              && (err == Sent && old(mc.sequence) == 0 ==> mc.sequence == 0)
      ensures err == Sent ==> Encoded(d, n, r, bs + [BindString(s)], limit) && (r.arr == values.arr || fresh(r.arr))
      ensures err != Sent ==> err.Network?
      ensures mc.nc.room + |mc.nc.sent| == old(mc.nc.room + |mc.nc.sent|)
    {
      hide Laid, WithType, WithNull, Values, SetBit, MaskLen, LenEncInt, LongDataPackets, Commands, Buffer.Valid;
      var b := BindString(s);
      LaidType(d[..], id, n, bs, b);
      ValuesSnoc(bs, b, limit);
      PutType(d, n, i, TYPE_STRING, 0, values);
      ghost var bs' := bs + [b];
      r := values;
      if |s| < limit {
        NoCommands();
        NothingAdded(mc.nc.sent);
        ghost var vs := values.Contents();
        r := AppendValue(d, n, r, LenEncInt(|s|), bs');
        r := AppendValue(d, n, r, s, bs');
        AssocBytes(vs, LenEncInt(|s|), s);
        err := Sent;
      } else {
        NothingAdded(Values(bs, limit));
        var e := WriteCommandLongData(i, s);
        err := if e == Ok then Sent else Network(e);
      }
    }

    lemma NoCommands()
      ensures Commands([]) == []
    {}

    lemma NoneAhead(limit: nat, m: nat)
      requires m >= 9
      ensures LongPackets(id, [], limit, m) == []
    {}

    /** One argument: its NULL bit or type in the fixed regions, its value in line or ahead. */
    method BindParam(d: array<byte>, n: nat, values: Slice, i: nat, limit: nat, arg: Arg, ghost bs: seq<Binding>)
      returns (err: ExecError, r: Slice)
      requires Ready() && mc.maxAllowedPacket >= 9 && limit >= 64 && InRange(arg)
      requires i == |bs| < n && Encoded(d, n, values, bs, limit)
      modifies d, values.arr, mc`sequence, mc`closed, mc.nc`sent, mc.nc`room
      ensures var ahead := Commands(Ahead(id, i, Bind(arg), limit, mc.maxAllowedPacket));
              && (err == Sent <==> !Bind(arg).BindError? && |ahead| <= old(mc.nc.room))
              && (err == Sent ==> mc.nc.sent == old(mc.nc.sent) + ahead && mc.closed == old(mc.closed))
              && (err == Sent && old(mc.sequence) == 0 ==> mc.sequence == 0)
      ensures err == Sent ==> Encoded(d, n, r, bs + [Bind(arg)], limit) && (r.arr == values.arr || fresh(r.arr))
      ensures err != Sent ==> err == Unbindable(arg) || err.Network?
      ensures err.Unbindable? <==> Bind(arg).BindError?
      ensures mc.nc.room + |mc.nc.sent| == old(mc.nc.room + |mc.nc.sent|)
    {
      hide Encoded, Commands, LE, Buffer.Valid, DateTime.AppendDateTime, DateTime.ValidTime, DateTime.ZeroDateTime;
      var b := Bind(arg);
      err, r := Sent, values;
      match b {
        case BindNull =>
          BindNullParam(d, n, values, i, limit, bs);
        case BindFixed(_, _, _) =>
          r := BindFixedParam(d, n, values, i, limit, b, bs);
        case BindString(s) =>
          err, r := BindStringParam(d, n, values, i, limit, s, bs);
        case BindError =>
          err := Unbindable(arg);
      }
      NoCommands();
      if err == Sent && !b.BindString? {
        NothingAdded(mc.nc.sent);
      }
    }

    /** Binds every argument in turn; long strings leave on the way. */
    method BindParams(d: array<byte>, args: seq<Arg>, limit: nat) returns (err: ExecError, values: Slice)
      requires Ready() && mc.maxAllowedPacket >= 9 && limit >= 64 && |args| > 0 && (forall a | a in args :: InRange(a))
      requires Laid(d[..], id, |args|, [])
      modifies d, mc`sequence, mc`closed, mc.nc`sent, mc.nc`room
      ensures var bs := Bindings(args);
              var ahead := Commands(LongPackets(id, bs, limit, mc.maxAllowedPacket));
              && (err == Sent <==> (forall b | b in bs :: !b.BindError?) && |ahead| <= old(mc.nc.room))
              && (err == Sent ==> mc.nc.sent == old(mc.nc.sent) + ahead && mc.closed == old(mc.closed))
              && (err == Sent && old(mc.sequence) == 0 ==> mc.sequence == 0)
              && (err == Sent ==> Encoded(d, |args|, values, bs, limit))
      ensures err == Sent ==> values.arr == d || fresh(values.arr)
      ensures err != Sent ==> err.Network? || (err.Unbindable? && err.arg in args && Bind(err.arg).BindError?)
      ensures mc.nc.room + |mc.nc.sent| == old(mc.nc.room + |mc.nc.sent|)
    {
      hide Encoded, Commands, Bind, Laid, Ahead, InRange, LongPackets, Buffer.Valid;
      var n, m := |args|, mc.maxAllowedPacket;
      values := Slice(d, ValuesPos(n), 0);
      StartEncoded(d, n, values, limit);
      var i := 0;
      ghost var bs: seq<Binding> := [];
      ghost var done: seq<byte> := [];
      NoCommands();
      NoneAhead(limit, m);
      err := Sent;
      while i < n
        invariant 0 <= i <= n && bs == Bindings(args[..i]) && done == Commands(LongPackets(id, bs, limit, m))
        invariant err == Sent && Ready() && Encoded(d, n, values, bs, limit) && (values.arr == d || fresh(values.arr))
        invariant forall b | b in bs :: !b.BindError?
        invariant mc.nc.sent == old(mc.nc.sent) + done && mc.closed == old(mc.closed)
        invariant old(mc.sequence) == 0 ==> mc.sequence == 0
        invariant mc.nc.room + |mc.nc.sent| == old(mc.nc.room + |mc.nc.sent|)
      {
        OneMore(args, i, limit, m);
        ghost var ahead := Commands(Ahead(id, i, Bind(args[i]), limit, m));
        AssocBytes(old(mc.nc.sent), done, ahead);
        err, values := BindParam(d, n, values, i, limit, args[i], bs);
        if err != Sent {
          if Bind(args[i]).BindError? {
            assert Bindings(args)[i] in Bindings(args);
          }
          return;
        }
        bs, done := bs + [Bind(args[i])], done + ahead;
        i := i + 1;
      }
      assert args[..i] == args;
    }

    lemma StartEncoded(d: array<byte>, n: nat, values: Slice, limit: nat)
      requires n > 0 && Laid(d[..], id, n, []) && values == Slice(d, ValuesPos(n), 0)
      ensures Encoded(d, n, values, [], limit)
    {}

    /** The bindings and the packets ahead for one more argument; later packets only add bytes. */
    lemma OneMore(args: seq<Arg>, i: nat, limit: nat, m: nat)
      requires i < |args| && (forall a | a in args :: InRange(a)) && m >= 9
      ensures Bindings(args[..i + 1]) == Bindings(args[..i]) + [Bind(args[i])]
      ensures var (bs, b) := (Bindings(args[..i]), Bind(args[i]));
              && var (done, ahead) := (Commands(LongPackets(id, bs, limit, m)), Commands(Ahead(id, i, b, limit, m)));
              && Commands(LongPackets(id, bs + [b], limit, m)) == done + ahead
              && |Commands(LongPackets(id, Bindings(args), limit, m))| >= |done + ahead|
    {
      hide Bind, Commands, Ahead, Bindings, InRange, LongPackets;
      FirstBindings(args, i);
      FirstBindings(args, i + 1);
      SnocPrefix(Bindings(args), i);
      var bs, b := Bindings(args[..i]), Bind(args[i]);
      OneMorePacket(bs, b, limit, m);
      CommandsSplit(LongPackets(id, bs, limit, m), Ahead(id, i, b, limit, m));
      PrefixOfPackets(Bindings(args), i + 1, limit, m);
    }

    lemma SnocPrefix(bs: seq<Binding>, i: nat)
      requires i < |bs|
      ensures bs[..i + 1] == bs[..i] + [bs[i]]
    {}

    lemma FirstBindings(args: seq<Arg>, k: nat)
      requires k <= |args| && forall a | a in args :: InRange(a)
      ensures Bindings(args[..k]) == Bindings(args)[..k]
    {
      hide Bind, InRange, Bindings;
      var some, all := Bindings(args[..k]), Bindings(args);
      forall j | 0 <= j < k
        ensures some[j] == all[j]
      {
        assert args[..k][j] == args[j];
      }
    }

    lemma OneMorePacket(bs: seq<Binding>, b: Binding, limit: nat, m: nat)
      requires m >= 9
      ensures LongPackets(id, bs + [b], limit, m) == LongPackets(id, bs, limit, m) + Ahead(id, |bs|, b, limit, m)
    {
      hide Ahead;
      assert (bs + [b])[..|bs|] == bs;
    }

    lemma {:induction false} PrefixOfPackets(bs: seq<Binding>, k: nat, limit: nat, m: nat)
      requires k <= |bs| && m >= 9
      ensures |Commands(LongPackets(id, bs[..k], limit, m))| <= |Commands(LongPackets(id, bs, limit, m))|
      decreases |bs|
    {
      hide Commands, Ahead;
      if k == |bs| {
        assert bs[..k] == bs;
      } else {
        var i := |bs| - 1;
        assert bs[..i][..k] == bs[..k];
        PrefixOfPackets(bs[..i], k, limit, m);
        CommandsSplit(LongPackets(id, bs[..i], limit, m), Ahead(id, i, bs[i], limit, m));
      }
    }

    /** The finished packet: in place if the values stayed behind the fixed regions, otherwise
        joined with the regions in a new array, which the connection keeps if it is small enough. */
    method JoinValues(d: array<byte>, n: nat, values: Slice, limit: nat, ghost bs: seq<Binding>) returns (data: Slice)
      requires mc.Valid() && n == |bs| > 0 && Encoded(d, n, values, bs, limit)
      modifies d, mc.buf`buf
      ensures mc.Valid() && data.Valid() && (data.arr == d || fresh(data.arr)) && 4 <= data.len
      ensures mc.Payload(data) == ExecutePayload(id, bs, limit)
      ensures mc.buf.buf ==
              if values.Cap() != d.Length - ValuesPos(n) && mc.buf.length == 0
                 && old(mc.buf.buf).Length < data.arr.Length <= 0xff_ffff
              then data.arr else old(mc.buf.buf)
    {
      hide Laid, Values, Mask, ExecuteFormat.Types, Header, ExecutePayload;
      var pos := ValuesPos(n);
      var valuesCap := d.Length - pos;
      ghost var vs := values.Contents();
      ghost var fixed := d[..pos];
      LaidIsPayload(d[..], id, n, bs, limit);
      assert d[..][4..pos] == fixed[4..];
      if valuesCap != values.Cap() {
        data := Append(Slice(d, 0, pos), values.arr[values.off..values.off + values.len]);
        assert data.Contents() == fixed + vs;
        var e := mc.buf.Store(data);
      } else {
        data := Slice(d, 0, pos + values.len);
        assert data.Contents() == fixed + vs;
      }
      BehindHeader(data, fixed, vs);
    }

    lemma BehindHeader(data: Slice, fixed: seq<byte>, vs: seq<byte>)
      requires data.Valid() && data.Contents() == fixed + vs && 4 <= |fixed|
      ensures mc.Payload(data) == fixed[4..] + vs
    {
      assert mc.Payload(data) == data.Contents()[4..];
    }

    /** The packet for the arguments, in the write buffer or in an array of its own; long strings
        leave on the way. */
    method EncodeArgs(args: seq<Arg>, limit: nat, buf: Slice) returns (err: ExecError, data: Slice)
      requires Ready() && mc.maxAllowedPacket >= 9 && limit >= 64 && (forall a | a in args :: InRange(a))
      requires buf.off == 0 && MIN_PKT_LEN <= buf.len <= buf.arr.Length && mc.sequence == 0
      requires if args == [] then buf.len == MIN_PKT_LEN else buf.len == buf.arr.Length
      modifies buf.arr, mc`sequence, mc`closed, mc.buf`buf, mc.nc`sent, mc.nc`room
      ensures mc.Valid() && data.Valid() && mc.nc.room + |mc.nc.sent| == old(mc.nc.room + |mc.nc.sent|)
      ensures data.arr == buf.arr || fresh(data.arr)
      ensures var bs := Bindings(args);
              var front := Commands(LongPackets(id, bs, limit, mc.maxAllowedPacket));
              && AllSmall(bs)
              && (err == Sent <==> (forall b | b in bs :: !b.BindError?) && |front| <= old(mc.nc.room))
              && (err == Sent ==>
                   && 4 <= data.len && mc.Payload(data) == ExecutePayload(id, bs, limit)
                   && mc.nc.sent == old(mc.nc.sent) + front && mc.sequence == 0)
      ensures err != Sent ==> err.Network? || (err.Unbindable? && err.arg in args && Bind(err.arg).BindError?)
    {
      hide Encoded, Commands, Bind, Laid, Ahead, InRange, ExecutePayload, LongPackets, Buffer.Valid, Small;
      data := buf;
      AllBindingsSmall(args);
      if |args| > 0 {
        var d := LayOut(buf, |args|);
        var values;
        err, values := BindParams(d, args, limit);
        if err == Sent {
          data := JoinValues(d, |args|, values, limit, Bindings(args));
        }
      } else {
        PutStart(buf.arr);
        NoArgs(limit, mc.nc.sent);
        assert Bindings(args) == [];
        err := Sent;
      }
    }

    /** Sends the statement with its arguments. On success the network has taken the long data
        and the statement, command by command, and nothing else; it fails only for the reasons
        listed. */
    method WriteExecutePacket(args: seq<Arg>) returns (err: ExecError)
      requires Ready() && mc.maxAllowedPacket >= 9 && (forall a | a in args :: InRange(a))
      modifies mc`sequence, mc`closed, mc.buf`buf, mc.buf.buf, mc.nc`sent, mc.nc`room
      ensures mc.Valid()
      ensures var bs, limit := Bindings(args), LongDataSize(mc.maxAllowedPacket, paramCount);
              var ahead := LongPackets(id, bs, limit, mc.maxAllowedPacket);
              && (err == Sent ==>
                   && AllSmall(bs) && (forall b | b in bs :: !b.BindError?)
                   && mc.nc.sent == old(mc.nc.sent) + Commands(ahead + [ExecutePayload(id, bs, limit)]))
              && (err == Sent <==>
                   && |args| == paramCount && old(mc.buf.length) == 0
                   && (forall b | b in bs :: !b.BindError?) && AllSmall(bs)
                   && |ExecutePayload(id, bs, limit)| <= mc.maxAllowedPacket
                   && |Commands(ahead + [ExecutePayload(id, bs, limit)])| <= old(mc.nc.room))
      ensures err == ArgumentCount <==> |args| != paramCount
      ensures err == Busy <==> |args| == paramCount && old(mc.buf.length) > 0
      ensures err == ArgumentCount || err == Busy ==> mc.nc.sent == old(mc.nc.sent)
      ensures err.Unbindable? ==> err.arg in args && Bind(err.arg).BindError?
    {
      hide Commands, Bind, Frame, ExecutePayload, LongPackets, InRange, Small;
      if |args| != paramCount {
        return ArgumentCount;
      }
      var limit := mc.maxAllowedPacket / (paramCount + 1);
      if limit < 64 {
        limit := 64;
      }
      mc.sequence := 0;
      var ioerr, data;
      if |args| == 0 {
        ioerr, data := mc.buf.TakeBuffer(MIN_PKT_LEN);
      } else {
        ioerr, data := mc.buf.TakeCompleteBuffer();
      }
      if ioerr != NoError {
        return Busy;
      }
      AllBindingsSmall(args);
      ghost var p := ExecutePayload(id, Bindings(args), limit);
      ghost var front := LongPackets(id, Bindings(args), limit, mc.maxAllowedPacket);
      LastCommand(front, p);
      AssocBytes(mc.nc.sent, Commands(front), Frame(p, 0));
      err, data := EncodeArgs(args, limit, data);
      if err != Sent {
        return;
      }
      err := SendStatement(data, p);
    }

    /** The packet itself, as one command. */
    method SendStatement(data: Slice, ghost p: seq<byte>) returns (err: ExecError)
      requires Ready() && data.Valid() && 4 <= data.len && mc.Payload(data) == p && mc.sequence == 0
      modifies data.arr, mc`sequence, mc`closed, mc.nc`sent, mc.nc`room
      ensures err == Sent || err.Network?
      ensures err == Sent <==> |p| <= mc.maxAllowedPacket && |Frame(p, 0)| <= old(mc.nc.room)
      ensures err == Sent ==> mc.nc.sent == old(mc.nc.sent) + Frame(p, 0)
    {
      hide Frame, Buffer.Valid;
      var e := SendCommand(data, p);
      err := if e == Ok then Sent else Network(e);
    }

    lemma NoArgs(limit: nat, sent: seq<byte>)
      requires mc.maxAllowedPacket >= 9
      ensures ExecutePayload(id, [], limit) == Header(id)
      ensures sent == sent + Commands(LongPackets(id, [], limit, mc.maxAllowedPacket))
    {}

    lemma AllBindingsSmall(args: seq<Arg>)
      requires forall a | a in args :: InRange(a)
      ensures AllSmall(Bindings(args))
    {
      hide Bind;
      forall b | b in Bindings(args)
        ensures Small(b)
      {
        var i :| 0 <= i < |args| && b == Bindings(args)[i];
        assert b == Bind(args[i]);
      }
    }

    /** The statement itself is one more command. */
    lemma LastCommand(front: seq<seq<byte>>, p: seq<byte>)
      ensures Commands(front + [p]) == Commands(front) + Frame(p, 0)
    {
      hide Frame;
      CommandsSplit(front, [p]);
      assert Commands([p]) == Frame(p, 0) + Commands([]);
    }
  }
}
