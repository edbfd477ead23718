// COM_STMT_EXECUTE: the payload writeExecutePacket builds (mysql/packets.go), and the reading
// of section 14.7.6 of the MySQL Internals Manual that a server applies to it.
module ExecuteFormat {
  import opened Bytes
  import opened LenEnc
  import opened LongData
  import DateTime

  const COM_STMT_EXECUTE: byte := 23
  const TYPE_TINY: byte := 0x01
  const TYPE_DOUBLE: byte := 0x05
  const TYPE_NULL: byte := 0x06
  const TYPE_LONG_LONG: byte := 0x08
  const TYPE_STRING: byte := 0xfe
  const UNSIGNED: byte := 0x80

  /** A driver.Value. A nil slice is Null; a time without value is the zero time.Time. */
  datatype Arg =
    | Nil
    | Int64(v: int)
    | Uint64(u: nat)
    | Float64(bits: nat)
    | Bool(b: bool)
    | ByteSlice(bytes: Nullable)
    | RawJson(json: Nullable)
    | Str(s: seq<byte>)
    | Time(t: DateTime.Option<DateTime.Time>)
    | Unsupported

  predicate InRange(a: Arg)
  {
    match a
    case Int64(v) => 0 - Pow256(8) <= 2 * v < Pow256(8)
    case Uint64(u) => u < Pow256(8)
    case Float64(bits) => bits < Pow256(8)
    case ByteSlice(Val(s)) => |s| <= MAX_STRING
    case RawJson(Val(s)) => |s| <= MAX_STRING
    case Str(s) => |s| <= MAX_STRING
    case Time(Some(t)) => DateTime.ValidTime(t)
    case _ => true
  }

  /** What an argument becomes: NULL, a value of fixed form, a string, or an error. */
  datatype Binding =
    | BindNull
    | BindFixed(tag: byte, flag: byte, bytes: seq<byte>)
    | BindString(s: seq<byte>)
    | BindError

  function Bind(a: Arg): (r: Binding)
    requires InRange(a)
    ensures r.BindString? ==> |r.s| <= MAX_STRING
  {
    match a
    case Nil => BindNull
    case Int64(v) => BindFixed(TYPE_LONG_LONG, 0, LE(Unsigned(v, 8), 8))
    case Uint64(u) => BindFixed(TYPE_LONG_LONG, UNSIGNED, LE(u, 8))
    case Float64(bits) => BindFixed(TYPE_DOUBLE, 0, LE(bits, 8))
    case Bool(b) => BindFixed(TYPE_TINY, 0, [if b then 1 else 0])
    case ByteSlice(Val(s)) => BindString(s)
    case RawJson(Val(s)) => BindString(s)
    case Str(s) => BindString(s)
    case Time(None) => BindString(DateTime.ZeroDateTime(0, 10))
    case Time(Some(t)) =>
      DateTime.AppendLength(t);
      (match DateTime.AppendDateTime(t)
       case Text(b) => BindString(b)
       case _ => BindError)
    case Unsupported => BindError
    case _ => BindNull
  }

  predicate IsLong(b: Binding, limit: nat)
  {
    b.BindString? && |b.s| >= limit
  }

  /** The threshold above which strings travel ahead of the statement. */
  function LongDataSize(maxAllowedPacket: nat, n: nat): nat
  {
    var size := maxAllowedPacket / (n + 1);
    if size < 64 then 64 else size
  }

  function TypeBytes(b: Binding): (t: seq<byte>)
    ensures |t| == 2
  {
    match b
    case BindFixed(tag, flag, _) => [tag, flag]
    case BindString(_) => [TYPE_STRING, 0]
    case _ => [TYPE_NULL, 0]
  }

  predicate Small(b: Binding)
  {
    b.BindString? ==> |b.s| <= MAX_STRING
  }

  function ValueBytes(b: Binding, limit: nat): seq<byte>
    requires Small(b)
  {
    match b
    case BindFixed(_, _, bytes) => bytes
    case BindString(s) => if |s| < limit then LenEncInt(|s|) + s else []
    case _ => []
  }

  predicate AllSmall(bs: seq<Binding>)
  {
    forall b | b in bs :: Small(b)
  }

  function Types(bs: seq<Binding>): (t: seq<byte>)
    ensures |t| == 2 * |bs|
  {
    if bs == [] then [] else TypeBytes(bs[0]) + Types(bs[1..])
  }

  function Values(bs: seq<Binding>, limit: nat): seq<byte>
    requires AllSmall(bs)
  {
    if bs == [] then [] else ValueBytes(bs[0], limit) + Values(bs[1..], limit)
  }

  /** The lowest k bits of byte j of the NULL bitmap. */
  function MaskBits(bs: seq<Binding>, j: nat, k: nat): (m: nat)
    ensures m < Pow2(k)
  {
    if k == 0 then 0
    else
      var at := 8 * j + k - 1;
      MaskBits(bs, j, k - 1) + if at < |bs| && bs[at].BindNull? then Pow2(k - 1) else 0
  }

  function MaskLen(n: nat): nat
  {
    (n + 7) / 8
  }

  function MaskByte(bs: seq<Binding>, j: nat): byte
  {
    assert Pow2(8) == 256 by { PowersOf2(); }
    MaskBits(bs, j, 8)
  }

  /** The first bytes of a NULL bitmap of the given length. */
  function Mask(bs: seq<Binding>, len: nat): (m: seq<byte>)
    ensures |m| == len && forall j | 0 <= j < len :: m[j] == MaskByte(bs, j)
  {
    if len == 0 then [] else Mask(bs, len - 1) + [MaskByte(bs, len - 1)]
  }

  lemma PowersOf2()
    ensures Pow2(1) == 2 && Pow2(2) == 4 && Pow2(3) == 8 && Pow2(4) == 16
    ensures Pow2(5) == 32 && Pow2(6) == 64 && Pow2(7) == 128 && Pow2(8) == 256
  {
    assert Pow2(4) == 2 * Pow2(3) && Pow2(3) == 2 * Pow2(2) && Pow2(2) == 2 * Pow2(1);
    assert Pow2(8) == 2 * Pow2(7) && Pow2(7) == 2 * Pow2(6) && Pow2(6) == 2 * Pow2(5);
  }

  function Header(id: nat): (h: seq<byte>)
    ensures |h| == 10
  {
    [COM_STMT_EXECUTE] + LE(id, 4) + [0] + [1, 0, 0, 0]
  }

  function ExecutePayload(id: nat, bs: seq<Binding>, limit: nat): seq<byte>
    requires AllSmall(bs)
  {
    if bs == [] then Header(id)
    else Header(id) + Mask(bs, MaskLen(|bs|)) + [1] + Types(bs) + Values(bs, limit)
  }

  // ---------------------------------------------------------------------------------------
  // The server's side, by the numbers of the protocol

  datatype ParamValue = PNull | PInt(v: int) | PFloat(bits: nat) | PDouble(bits: nat) | PString(s: seq<byte>)

  datatype Option<T> = None | Some(value: T)

  /** An integer of the given width, unsigned if bit 7 of the flag byte is set. */
  function DecodeInteger(flag: byte, data: seq<byte>, width: nat): (r: Option<(ParamValue, nat)>)
    ensures r.Some? ==> r.value.1 <= |data|
  {
    if |data| < width then None
    else
      var u := FromLE(data[..width]);
      Some((PInt(if flag / 128 == 1 then u else Signed(u, width)), width))
  }

  /** One parameter value of the given type, and the bytes it takes (section 14.7.3 of the MySQL
      Internals Manual). Dates and times in binary form are not among them. */
  function DecodeParam(tag: byte, flag: byte, data: seq<byte>): (r: Option<(ParamValue, nat)>)
    ensures r.Some? ==> r.value.1 <= |data|
  {
    if flag != 0 && flag != 0x80 then None
    else if tag == 0x01 then DecodeInteger(flag, data, 1)
    else if tag == 0x02 || tag == 0x0d then DecodeInteger(flag, data, 2)
    else if tag == 0x03 || tag == 0x09 then DecodeInteger(flag, data, 4)
    else if tag == 0x08 then DecodeInteger(flag, data, 8)
    else if tag == 0x04 then
      if |data| < 4 then None else Some((PFloat(FromLE(data[..4])), 4))
    else if tag == 0x05 then
      if |data| < 8 then None else Some((PDouble(FromLE(data[..8])), 8))
    else if tag == 0x06 then Some((PNull, 0))
    else if tag == 0x00 || tag == 0x0f || tag == 0x10 || 0xf6 <= tag then
      match ReadLengthEncodedString(data)
      case LenStr(s, false, n) => if 0 <= n <= |data| then Some((PString(s), n)) else None
      case _ => None
    else None
  }

  /** The values of parameters i to n, from the bitmap, the types, the value bytes and the data
      that came ahead. */
  function DecodeParams(mask: seq<byte>, types: seq<byte>, data: seq<byte>, long: map<nat, seq<byte>>, i: nat, n: nat)
    : Option<seq<ParamValue>>
    requires i <= n && |mask| == MaskLen(n) && |types| == 2 * n
    decreases n - i
  {
    if i == n then (if data == [] then Some([]) else None)
    else if Bit(mask[i / 8], i % 8) then
      Cons(PNull, DecodeParams(mask, types, data, long, i + 1, n))
    else if i in long then
      Cons(PString(long[i]), DecodeParams(mask, types, data, long, i + 1, n))
    else match DecodeParam(types[2 * i], types[2 * i + 1], data)
         case None => None
         case Some((v, k)) => Cons(v, DecodeParams(mask, types, data[k..], long, i + 1, n))
  }

  function Cons(v: ParamValue, rest: Option<seq<ParamValue>>): Option<seq<ParamValue>>
  {
    if rest.None? then None else Some([v] + rest.value)
  }

  /** The statement and the parameter values a COM_STMT_EXECUTE payload stands for. */
  function DecodeExecute(p: seq<byte>, n: nat, long: map<nat, seq<byte>>): Option<(nat, seq<ParamValue>)>
  {
    var ml := MaskLen(n);
    if |p| < 10 || p[0] != 0x17 || p[5] != 0 || FromLE(p[6..10]) != 1 then None
    else if n == 0 then (if |p| == 10 then Some((FromLE(p[1..5]), [])) else None)
    else if |p| < 11 + ml + 2 * n || p[10 + ml] != 1 then None
    else
      match DecodeParams(p[10..10 + ml], p[11 + ml..11 + ml + 2 * n], p[11 + ml + 2 * n..], long, 0, n)
      case None => None
      case Some(vs) => Some((FromLE(p[1..5]), vs))
  }

  /** The value an argument stands for. */
  function ArgValue(a: Arg): ParamValue
    requires InRange(a)
  {
    match a
    case Int64(v) => PInt(v)
    case Uint64(u) => PInt(u)
    case Float64(bits) => PDouble(bits)
    case Bool(b) => PInt(if b then 1 else 0)
    case ByteSlice(Val(s)) => PString(s)
    case RawJson(Val(s)) => PString(s)
    case Str(s) => PString(s)
    case Time(None) => PString(DateTime.ZeroDateTime(0, 10))
    case Time(Some(t)) => (match DateTime.AppendDateTime(t) case Text(b) => PString(b) case _ => PNull)
    case _ => PNull
  }

  function ArgValues(args: seq<Arg>): (vs: seq<ParamValue>)
    requires forall a | a in args :: InRange(a)
    ensures |vs| == |args|
  {
    if args == [] then [] else [ArgValue(args[0])] + ArgValues(args[1..])
  }

  function Bindings(args: seq<Arg>): (bs: seq<Binding>)
    requires forall a | a in args :: InRange(a)
    ensures |bs| == |args| && forall i | 0 <= i < |bs| :: bs[i] == Bind(args[i])
  {
    if args == [] then [] else [Bind(args[0])] + Bindings(args[1..])
  }

  /** The data sent ahead is exactly that of the long strings. */
  predicate LongMatches(bs: seq<Binding>, limit: nat, long: map<nat, seq<byte>>)
  {
    forall i | 0 <= i < |bs| :: (i in long <==> IsLong(bs[i], limit)) && (i in long ==> long[i] == bs[i].s)
  }

  lemma {:induction false} MaskBitsAt(bs: seq<Binding>, j: nat, k: nat, m: nat)
    requires k < m
    ensures Bit(MaskBits(bs, j, m), k) <==> 8 * j + k < |bs| && bs[8 * j + k].BindNull?
    decreases m
  {
    hide Bit, Pow2;
    var low := MaskBits(bs, j, m - 1);
    if k < m - 1 {
      MaskBitsAt(bs, j, k, m - 1);
      HighBitIrrelevant(low, m - 1, k);
    } else {
      SmallBits(low, k);
    }
  }

  /** Adding 2^m leaves the bits below m alone. */
  lemma {:induction false} HighBitIrrelevant(b: nat, m: nat, k: nat)
    requires k < m
    ensures Bit(b + Pow2(m), k) == Bit(b, k)
    decreases k
  {
    hide Bit;
    if k == 0 {
      LowBitStays(b, Pow2(m - 1));
    } else {
      HighBitIrrelevant(b / 2, m - 1, k - 1);
      BitStays(b, Pow2(m - 1), k);
    }
  }

  lemma {:induction false} LowBitStays(b: nat, half: nat)
    ensures Bit(b + 2 * half, 0) == Bit(b, 0)
  {
    hide Bit;
    EvenPlus(b, half);
    LowBit(b + 2 * half);
    LowBit(b);
  }

  lemma {:induction false} BitStays(b: nat, half: nat, k: nat)
    requires k > 0 && Bit(b / 2 + half, k - 1) == Bit(b / 2, k - 1)
    ensures Bit(b + 2 * half, k) == Bit(b, k)
  {
    hide Bit;
    EvenPlus(b, half);
    HalveBit(b + 2 * half, k);
    HalveBit(b, k);
  }

  lemma {:induction false} LowBit(b: nat)
    ensures Bit(b, 0) <==> b % 2 == 1
  {}

  lemma {:induction false} EvenPlus(b: nat, x: nat)
    ensures (b + 2 * x) % 2 == b % 2 && (b + 2 * x) / 2 == b / 2 + x
  {}

  lemma {:induction false} HalveBit(b: nat, k: nat)
    requires k > 0
    ensures Bit(b, k) == Bit(b / 2, k - 1)
  {
    DivDiv(b, Pow2(k - 1));
  }

  lemma {:induction false} DivDiv(b: nat, p: nat)
    requires p > 0
    ensures b / (2 * p) == b / 2 / p
  {
    var q, r := b / 2 / p, b / 2 % p;
    assert b / 2 == p * q + r;
    var t := 2 * r + b % 2;
    assert b == (2 * p) * q + t by {
      assert b == 2 * (p * q + r) + b % 2;
      assert 2 * (p * q) == (2 * p) * q;
    }
    QuotientIs(b, 2 * p, q, t);
  }

  lemma {:induction false} SmallBits(b: nat, k: nat)
    requires b < Pow2(k)
    ensures !Bit(b, k) && Bit(b + Pow2(k), k)
  {
    QuotientIs(b, Pow2(k), 0, b);
    QuotientIs(b + Pow2(k), Pow2(k), 1, b);
  }

  lemma {:induction false} TypesAt(bs: seq<Binding>, i: nat)
    requires i < |bs|
    ensures Types(bs)[2 * i] == TypeBytes(bs[i])[0] && Types(bs)[2 * i + 1] == TypeBytes(bs[i])[1]
  {
    if i > 0 {
      TypesAt(bs[1..], i - 1);
    }
  }

  /** A value sent in line decodes to the argument and takes exactly its own bytes. */
  lemma {:induction false} InlineRoundTrip(a: Arg, limit: nat, rest: seq<byte>)
    requires InRange(a) && !Bind(a).BindNull? && !Bind(a).BindError? && !IsLong(Bind(a), limit)
    ensures var (t, v) := (TypeBytes(Bind(a)), ValueBytes(Bind(a), limit));
            DecodeParam(t[0], t[1], v + rest) == Some((ArgValue(a), |v|))
  {
    hide DateTime.AppendDateTime, DateTime.ValidTime, ReadLengthEncodedString;
    var b := Bind(a);
    var v := ValueBytes(b, limit);
    if b.BindString? {
      LenEncStrRoundTrip(Val(b.s), rest);
    } else {
      assert v == b.bytes;
      assert (v + rest)[..|v|] == v;
      if a.Int64? {
        LERoundTrip(Unsigned(a.v, 8), 8);
        SignedRoundTrip(a.v, 8);
      } else if a.Uint64? {
        LERoundTrip(a.u, 8);
      } else if a.Float64? {
        LERoundTrip(a.bits, 8);
      } else if a.Bool? {
        OneByte(v[0]);
      }
    }
  }

  lemma {:induction false} OneByte(c: byte)
    requires c < 128
    ensures FromLE([c]) == c && Pow256(1) == 256 && Signed(FromLE([c]), 1) == c
  {
    assert [c][1..] == [];
    PowersOf256();
  }

  lemma {:induction false} LongRoundTrip(a: Arg, limit: nat)
    requires InRange(a) && IsLong(Bind(a), limit)
    ensures ArgValue(a) == PString(Bind(a).s)
  {
    hide DateTime.AppendDateTime, DateTime.ValidTime;
  }

  /** One parameter decodes to its argument and leaves the values of the others. */
  lemma {:induction false} ParamRoundTrip(args: seq<Arg>, limit: nat, long: map<nat, seq<byte>>, i: nat,
      rest: seq<byte>)
    requires forall a | a in args :: InRange(a)
    requires i < |args| && LongMatches(Bindings(args), limit, long) && !Bind(args[i]).BindError?
    ensures var bs := Bindings(args);
            && var (mask, types, v) := (Mask(bs, MaskLen(|bs|)), Types(bs), ValueBytes(bs[i], limit));
            && i / 8 < |mask|
            && (Bit(mask[i / 8], i % 8) ==> ArgValue(args[i]) == PNull && v == [])
            && (!Bit(mask[i / 8], i % 8) && i in long ==> ArgValue(args[i]) == PString(long[i]) && v == [])
            && (!Bit(mask[i / 8], i % 8) && i !in long ==>
                 DecodeParam(types[2 * i], types[2 * i + 1], v + rest) == Some((ArgValue(args[i]), |v|)))
  {
    hide DecodeParam, ArgValue, TypeBytes, ValueBytes, Mask, Types, Bit;
    var bs := Bindings(args);
    MaskAt(bs, i);
    TypesAt(bs, i);
    BindNullValue(args[i], limit);
    if IsLong(bs[i], limit) {
      LongRoundTrip(args[i], limit);
    } else if !bs[i].BindNull? {
      InlineRoundTrip(args[i], limit, rest);
    }
  }

  /** From parameter i on, decoding undoes encoding. */
  lemma {:induction false} ParamsRoundTrip(args: seq<Arg>, limit: nat, long: map<nat, seq<byte>>, i: nat)
    requires forall a | a in args :: InRange(a)
    requires var bs := Bindings(args);
             AllSmall(bs) && LongMatches(bs, limit, long) && forall b | b in bs :: !b.BindError?
    requires i <= |args|
    ensures var bs := Bindings(args);
            && AllSmall(bs[i..])
            && DecodeParams(Mask(bs, MaskLen(|bs|)), Types(bs), Values(bs[i..], limit), long, i, |bs|)
              == Some(ArgValues(args[i..]))
    decreases |args| - i
  {
    hide DecodeParam, Bind, Bindings, ArgValue, TypeBytes, ValueBytes, Mask, Types, Bit, LongMatches, MaskLen, InRange;
    var bs := Bindings(args);
    SmallSuffix(bs, i);
    if i < |bs| {
      assert bs[i] in bs && args[i] in args;
      ParamsRoundTrip(args, limit, long, i + 1);
      FromHere(args, bs, i, limit);
      var v, rest := ValueBytes(bs[i], limit), Values(bs[i + 1..], limit);
      hide Values, ArgValues;
      ParamRoundTrip(args, limit, long, i, rest);
      assert (v + rest)[|v|..] == rest;
    }
  }

  lemma {:induction false} SmallSuffix(bs: seq<Binding>, i: nat)
    requires AllSmall(bs) && i <= |bs|
    ensures AllSmall(bs[i..]) && (i < |bs| ==> AllSmall(bs[i + 1..]) && Small(bs[i]))
  {}

  /** The values and the arguments from parameter i on start with those of i. */
  lemma {:induction false} FromHere(args: seq<Arg>, bs: seq<Binding>, i: nat, limit: nat)
    requires i < |args| == |bs| && AllSmall(bs[i..]) && AllSmall(bs[i + 1..]) && Small(bs[i])
    requires forall a | a in args :: InRange(a)
    ensures Values(bs[i..], limit) == ValueBytes(bs[i], limit) + Values(bs[i + 1..], limit)
    ensures ArgValues(args[i..]) == [ArgValue(args[i])] + ArgValues(args[i + 1..])
  {
    hide ValueBytes, ArgValue, InRange, Small;
    assert bs[i..][1..] == bs[i + 1..] && args[i..][1..] == args[i + 1..];
  }

  lemma BindNullValue(a: Arg, limit: nat)
    requires InRange(a)
    ensures Bind(a).BindNull? ==> ArgValue(a) == PNull
    ensures Bind(a).BindNull? || IsLong(Bind(a), limit) ==> ValueBytes(Bind(a), limit) == []
  {
    hide DateTime.AppendDateTime, DateTime.ValidTime;
  }

  lemma MaskAt(bs: seq<Binding>, i: nat)
    requires i < |bs|
    ensures i / 8 < MaskLen(|bs|)
    ensures Bit(Mask(bs, MaskLen(|bs|))[i / 8], i % 8) <==> bs[i].BindNull?
  {
    MaskBitsAt(bs, i / 8, i % 8, 8);
  }

  /** The payload of COM_STMT_EXECUTE, with the data sent ahead of it, stands for exactly the
      statement and the arguments: NULLs, types, signedness and values. */
  lemma {:induction false} ExecuteRoundTrip(id: nat, args: seq<Arg>, limit: nat, long: map<nat, seq<byte>>)
    requires id < 0x1_0000_0000 && forall a | a in args :: InRange(a)
    requires var bs := Bindings(args); LongMatches(bs, limit, long) && forall b | b in bs :: !b.BindError?
    ensures AllSmall(Bindings(args))
    ensures DecodeExecute(ExecutePayload(id, Bindings(args), limit), |args|, long) == Some((id, ArgValues(args)))
  {
    var bs := Bindings(args);
    var p := ExecutePayload(id, bs, limit);
    HeaderFields(id, p);
    if bs != [] {
      var mask, types, values := Mask(bs, MaskLen(|bs|)), Types(bs), Values(bs, limit);
      Regions(Header(id), mask, types, values);
      ParamsRoundTrip(args, limit, long, 0);
      assert bs[0..] == bs && args[0..] == args;
    }
  }

  lemma HeaderFields(id: nat, p: seq<byte>)
    requires id < 0x1_0000_0000 && Header(id) <= p
    ensures p[0] == 0x17 && p[5] == 0 && FromLE(p[6..10]) == 1 && FromLE(p[1..5]) == id
  {
    PowersOf256();
    LERoundTrip(id, 4);
    LERoundTrip(1, 4);
    var h := Header(id);
    assert p[1..5] == h[1..5] == LE(id, 4);
    assert p[6..10] == h[6..10] == [1, 0, 0, 0];
    assert FromLE([1, 0, 0, 0]) == 1 + 256 * FromLE([0, 0, 0]) by {
      assert [1, 0, 0, 0][1..] == [0, 0, 0];
    }
    assert FromLE([0, 0, 0]) == 0 by {
      assert [0, 0, 0][1..] == [0, 0] && [0, 0][1..] == [0] && [0][1..] == [];
    }
  }

  lemma Regions(h: seq<byte>, mask: seq<byte>, types: seq<byte>, values: seq<byte>)
    requires |h| == 10
    ensures var p, m, t := h + mask + [1] + types + values, |mask|, |types|;
            && h <= p && |p| >= 11 + m + t && p[10..10 + m] == mask && p[10 + m] == 1
            && p[11 + m..11 + m + t] == types && p[11 + m + t..] == values
  {}

  /** Statement 1 with a signed 1 and an unsigned 2, byte by byte. */
  lemma {:induction false} TwoIntegersExample()
    ensures ExecutePayload(1, Bindings([Int64(1), Uint64(2)]), 64)
            == [23, 1, 0, 0, 0, 0, 1, 0, 0, 0] + [0] + [1] + ([8, 0] + [8, 0x80])
               + ([1, 0, 0, 0, 0, 0, 0, 0] + [2, 0, 0, 0, 0, 0, 0, 0])
  {
    var a, b := BindFixed(8, 0, [1, 0, 0, 0, 0, 0, 0, 0]), BindFixed(8, 0x80, [2, 0, 0, 0, 0, 0, 0, 0]);
    BindIntegers();
    BindingsOfThree(Int64(1), Uint64(2), Nil);
    TwoRegions(a, b, 64);
    NullsAre([a, b], 8, false);
    HeaderOf(1);
    assert TypeBytes(a) == [8, 0] && TypeBytes(b) == [8, 0x80];
    assert ValueBytes(a, 64) == a.bytes && ValueBytes(b, 64) == b.bytes;
    hide Types, Values, Bindings, Header, LE, MaskBits, TypeBytes, ValueBytes, Bind, ExecutePayload;
    PayloadIs(1, [a, b], 0);
  }

  /** Statement 2 with a NULL, a true and a string, byte by byte. */
  lemma {:induction false} MixedExample()
    ensures ExecutePayload(2, Bindings([Nil, Bool(true), Str([0x41])]), 64)
            == [23, 2, 0, 0, 0, 0, 1, 0, 0, 0] + [1] + [1] + ([6, 0] + [1, 0] + [0xfe, 0]) + ([] + [1] + [1, 0x41])
  {
    var a, b, c := BindNull, BindFixed(1, 0, [1]), BindString([0x41]);
    assert Bind(Nil) == a && Bind(Bool(true)) == b && Bind(Str([0x41])) == c;
    BindingsOfThree(Nil, Bool(true), Str([0x41]));
    TwoRegions(a, b, 64);
    TypesSnoc([a, b], c);
    ValuesSnoc([a, b], c, 64);
    assert ValueBytes(c, 64) == [1, 0x41];
    NullsAre([a, b] + [c], 8, true);
    HeaderOf(2);
    hide Types, Values, Bindings, Header, LE, MaskBits, ValueBytes, Bind;
    PayloadIs(2, [a, b] + [c], 1);
  }

  lemma {:induction false} BindIntegers()
    ensures Bind(Int64(1)) == BindFixed(8, 0, [1, 0, 0, 0, 0, 0, 0, 0])
    ensures Bind(Uint64(2)) == BindFixed(8, 0x80, [2, 0, 0, 0, 0, 0, 0, 0])
    ensures InRange(Int64(1)) && InRange(Uint64(2))
  {
    hide LE;
    PowersOf256();
    SmallLE(1);
    SmallLE(2);
  }

  lemma {:induction false} HeaderOf(n: byte)
    ensures Header(n) == [23, n, 0, 0, 0, 0, 1, 0, 0, 0]
  {
    SmallLE(n);
  }

  /** A payload of at most eight parameters, region by region. */
  lemma {:induction false} PayloadIs(id: nat, bs: seq<Binding>, mask: byte)
    requires 0 < |bs| <= 8 && AllSmall(bs) && MaskBits(bs, 0, 8) == mask
    ensures ExecutePayload(id, bs, 64) == Header(id) + [mask] + [1] + Types(bs) + Values(bs, 64)
  {
    assert Mask(bs, 1) == [mask];
  }

  lemma {:induction false} BindingsOfThree(a: Arg, b: Arg, c: Arg)
    requires InRange(a) && InRange(b) && InRange(c)
    ensures Bindings([a, b]) == [Bind(a), Bind(b)] && Bindings([a, b, c]) == [Bind(a), Bind(b)] + [Bind(c)]
  {
    hide Bind, InRange;
  }

  lemma {:induction false} TwoRegions(a: Binding, b: Binding, limit: nat)
    requires Small(a) && Small(b)
    ensures Types([a, b]) == TypeBytes(a) + TypeBytes(b)
    ensures AllSmall([a, b]) && Values([a, b], limit) == ValueBytes(a, limit) + ValueBytes(b, limit)
  {
    hide TypeBytes, ValueBytes, Small;
    TypesSnoc([], a);
    TypesSnoc([a], b);
    ValuesSnoc([], a, limit);
    ValuesSnoc([a], b, limit);
    assert [] + [a] == [a] && [a] + [b] == [a, b];
  }

  lemma {:induction false} SmallLE(n: byte)
    ensures LE(n, 4) == [n, 0, 0, 0] && LE(n, 8) == [n, 0, 0, 0, 0, 0, 0, 0]
  {
    assert LE(0, 3) == [0, 0, 0];
    assert LE(0, 7) == [0] + ([0] + ([0] + ([0] + LE(0, 3))));
  }

  /** The first byte of a bitmap in which at most the first parameter is NULL. */
  lemma {:induction false} NullsAre(bs: seq<Binding>, k: nat, first: bool)
    requires bs != [] && k > 0 && (bs[0].BindNull? <==> first) && forall b | b in bs[1..] :: !b.BindNull?
    ensures MaskBits(bs, 0, k) == if first then 1 else 0
    decreases k
  {
    if k > 1 {
      NullsAre(bs, k - 1, first);
      assert k - 1 < |bs| ==> bs[k - 1] in bs[1..];
    }
  }

  /** The packets sent ahead of the statement, parameter by parameter. */
  function Ahead(id: nat, param: nat, b: Binding, limit: nat, m: nat): seq<seq<byte>>
    requires m >= 9
  {
    if IsLong(b, limit) then LongDataPackets(id, param, b.s, m) else []
  }

  function LongPackets(id: nat, bs: seq<Binding>, limit: nat, m: nat): seq<seq<byte>>
    requires m >= 9
  {
    if bs == [] then []
    else
      var i := |bs| - 1;
      LongPackets(id, bs[..i], limit, m) + Ahead(id, i, bs[i], limit, m)
  }

  /** Exactly the long strings among the first parameters are in the store, in full. */
  ghost predicate HoldsLong(store: LongDataStore, id: nat, bs: seq<Binding>, limit: nat)
  {
    && (forall i: nat :: (id, i) in store <==> i < |bs| && IsLong(bs[i], limit))
    && (forall i: nat | (id, i) in store :: store[(id, i)] == bs[i].s)
  }

  lemma {:induction false} ParameterArrives(store: LongDataStore, id: nat, bs: seq<Binding>, limit: nat, m: nat)
    requires id < 0x1_0000_0000 && 0 < |bs| <= 0x1_0000 && m >= 9 && limit > 0
    requires HoldsLong(store, id, bs[..|bs| - 1], limit)
    ensures HoldsLong(ReceiveAll(store, Ahead(id, |bs| - 1, bs[|bs| - 1], limit, m)), id, bs, limit)
  {
    hide ReceiveAll, LongDataPackets;
    var i := |bs| - 1;
    if IsLong(bs[i], limit) {
      LongDataArrives(store, id, i, bs[i].s, m);
      assert [] + bs[i].s == bs[i].s;
    } else {
      NothingReceived(store);
    }
  }

  lemma {:induction false} LongPacketsArrive(id: nat, bs: seq<Binding>, limit: nat, m: nat)
    requires id < 0x1_0000_0000 && |bs| <= 0x1_0000 && m >= 9 && limit > 0
    ensures HoldsLong(ReceiveAll(map[], LongPackets(id, bs, limit, m)), id, bs, limit)
  {
    if bs != [] {
      hide ReceiveAll, Ahead, HoldsLong;
      var i := |bs| - 1;
      LongPacketsArrive(id, bs[..i], limit, m);
      ReceiveAllSplit(map[], LongPackets(id, bs[..i], limit, m), Ahead(id, i, bs[i], limit, m));
      ParameterArrives(ReceiveAll(map[], LongPackets(id, bs[..i], limit, m)), id, bs, limit, m);
    } else {
      NothingReceived(map[]);
    }
  }

  /** The long data the server holds for the parameters of one statement. */
  function LongOf(store: LongDataStore, id: nat, n: nat): map<nat, seq<byte>>
  {
    map i: nat | 0 <= i < n && (id, i) in store :: store[(id, i)]
  }

  /** Everything writeExecutePacket puts on the wire, read by the server from the first byte to
      the last, gives back the statement and its arguments. */
  lemma {:induction false} ExecuteArrives(id: nat, args: seq<Arg>, limit: nat, m: nat, rest: seq<byte>)
    requires id < 0x1_0000_0000 && |args| <= 0x1_0000 && m >= 9 && limit > 0
    requires forall a | a in args :: InRange(a)
    requires forall b | b in Bindings(args) :: !b.BindError?
    ensures AllSmall(Bindings(args))
    ensures var bs := Bindings(args);
            var ps := LongPackets(id, bs, limit, m) + [ExecutePayload(id, bs, limit)];
            && ReadCommands(Commands(ps) + rest, |ps|) == (ps, rest)
            && DecodeExecute(ps[|ps| - 1], |args|, LongOf(ReceiveAll(map[], ps[..|ps| - 1]), id, |args|))
               == Some((id, ArgValues(args)))
  {
    hide Bind, Commands, ReadCommands, DecodeExecute, ExecutePayload, ReceiveAll, ArgValues, IsLong;
    var bs := Bindings(args);
    assert AllSmall(bs);
    var front := LongPackets(id, bs, limit, m);
    var ps := front + [ExecutePayload(id, bs, limit)];
    LongPacketsNonEmpty(id, bs, limit, m);
    PayloadNonEmpty(id, bs, limit);
    ReadCommandsUndoesCommands(ps, rest);
    LongPacketsArrive(id, bs, limit, m);
    assert ps[..|ps| - 1] == front;
    ExecuteRoundTrip(id, args, limit, LongOf(ReceiveAll(map[], front), id, |args|));
  }

  lemma PayloadNonEmpty(id: nat, bs: seq<Binding>, limit: nat)
    requires AllSmall(bs)
    ensures |ExecutePayload(id, bs, limit)| >= 10
  {}

  lemma {:induction false} LongPacketsNonEmpty(id: nat, bs: seq<Binding>, limit: nat, m: nat)
    requires m >= 9
    ensures [] !in LongPackets(id, bs, limit, m)
  {
    if bs != [] {
      var i := |bs| - 1;
      LongPacketsNonEmpty(id, bs[..i], limit, m);
      if IsLong(bs[i], limit) {
        LongDataNonEmpty(id, i, bs[i].s, m);
      }
    }
  }

  lemma {:induction false} LongDataNonEmpty(id: nat, param: nat, arg: seq<byte>, m: nat)
    requires m >= 9
    ensures [] !in LongDataPackets(id, param, arg, m)
    decreases |arg|
  {
    if arg != [] {
      LongDataNonEmpty(id, param, arg[Portion(|arg|, m)..], m);
    }
  }

  // ---------------------------------------------------------------------------------------
  // Growing the regions by one parameter

  lemma {:induction false} TypesSnoc(bs: seq<Binding>, b: Binding)
    ensures Types(bs + [b]) == Types(bs) + TypeBytes(b)
  {
    if bs == [] {
      assert (bs + [b])[1..] == [];
    } else {
      assert (bs + [b])[1..] == bs[1..] + [b];
      TypesSnoc(bs[1..], b);
    }
  }

  lemma {:induction false} ValuesSnoc(bs: seq<Binding>, b: Binding, limit: nat)
    requires AllSmall(bs) && Small(b)
    ensures AllSmall(bs + [b]) && Values(bs + [b], limit) == Values(bs, limit) + ValueBytes(b, limit)
  {
    if bs == [] {
      assert (bs + [b])[1..] == [];
    } else {
      assert (bs + [b])[1..] == bs[1..] + [b];
      ValuesSnoc(bs[1..], b, limit);
      AssocBytes(ValueBytes(bs[0], limit), Values(bs[1..], limit), ValueBytes(b, limit));
    }
  }

  lemma {:induction false} MaskBitsSnoc(bs: seq<Binding>, b: Binding, j: nat, k: nat)
    requires k <= 8
    ensures MaskBits(bs + [b], j, k) ==
            MaskBits(bs, j, k) + if b.BindNull? && j == |bs| / 8 && |bs| % 8 < k then Pow2(|bs| % 8) else 0
    decreases k
  {
    if k > 0 {
      MaskBitsSnoc(bs, b, j, k - 1);
      var at := 8 * j + k - 1;
      if at == |bs| {
        assert j == |bs| / 8 && k - 1 == |bs| % 8;
      }
    }
  }

  /** Setting bit |bs| of the bitmap when the next parameter is NULL. */
  lemma {:induction false} MaskSnoc(bs: seq<Binding>, b: Binding, len: nat)
    requires |bs| / 8 < len
    ensures Mask(bs + [b], len) == if b.BindNull? then Mask(bs, len)[|bs| / 8 := MaskByte(bs + [b], |bs| / 8)]
            else Mask(bs, len)
    ensures b.BindNull? ==> MaskByte(bs + [b], |bs| / 8) == SetBit(MaskByte(bs, |bs| / 8), |bs| % 8)
  {
    forall j | 0 <= j < len
      ensures MaskByte(bs + [b], j) == MaskByte(bs, j) + if b.BindNull? && j == |bs| / 8 then Pow2(|bs| % 8) else 0
    {
      MaskBitsSnoc(bs, b, j, 8);
    }
    MaskBitsAt(bs, |bs| / 8, |bs| % 8, 8);
  }

  lemma {:induction false} EmptyMask(len: nat)
    ensures forall j | 0 <= j < len :: Mask([], len)[j] == 0
  {
    forall j | 0 <= j < len
      ensures MaskByte([], j) == 0
    {
      NoBits(j, 8);
    }
  }

  lemma {:induction false} NoBits(j: nat, k: nat)
    ensures MaskBits([], j, k) == 0
    decreases k
  {
    if k > 0 {
      NoBits(j, k - 1);
    }
  }
}
