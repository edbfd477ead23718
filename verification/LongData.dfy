// COM_STMT_SEND_LONG_DATA (mysql/packets.go: writeCommandLongData). The standard is section
// 14.7.5 of the MySQL Internals Manual.
module LongData {
  import opened Bytes
  import opened Wire

  const COM_STMT_SEND_LONG_DATA: byte := 24
  const DATA_OFFSET: nat := 7       // command, statement id and parameter id

  /** How many of n remaining bytes the next packet carries, with maxAllowedPacket m. */
  function Portion(n: nat, m: nat): (k: nat)
    requires m >= 9
    ensures k <= n && (n > 0 ==> k > 0)
  {
    if DATA_OFFSET + n < m - 1 then n else m - 1 - DATA_OFFSET
  }

  function LongDataHeader(id: nat, param: nat): (h: seq<byte>)
    ensures |h| == DATA_OFFSET
  {
    [COM_STMT_SEND_LONG_DATA] + LE(id, 4) + LE(param, 2)
  }

  /** The payloads that carry arg. */
  function LongDataPackets(id: nat, param: nat, arg: seq<byte>, m: nat): (ps: seq<seq<byte>>)
    requires m >= 9
    decreases |arg|
  {
    if arg == [] then []
    else
      var k := Portion(|arg|, m);
      [LongDataHeader(id, param) + arg[..k]] + LongDataPackets(id, param, arg[k..], m)
  }

  /** Commands on the wire: each starts at sequence number 0. */
  function Commands(ps: seq<seq<byte>>): seq<byte>
  {
    if ps == [] then [] else Frame(ps[0], 0) + Commands(ps[1..])
  }

  lemma {:induction false} CommandsSplit(ps: seq<seq<byte>>, qs: seq<seq<byte>>)
    ensures Commands(ps + qs) == Commands(ps) + Commands(qs)
  {
    if ps == [] {
      assert ps + qs == qs;
    } else {
      assert (ps + qs)[1..] == ps[1..] + qs;
      CommandsSplit(ps[1..], qs);
      AssocBytes(Frame(ps[0], 0), Commands(ps[1..]), Commands(qs));
    }
  }

  lemma AssocBytes(a: seq<byte>, b: seq<byte>, c: seq<byte>)
    ensures a + (b + c) == a + b + c
  {}

  /** What the server keeps for each (statement, parameter) until the statement runs. */
  type LongDataStore = map<(nat, nat), seq<byte>>

  function Pending(store: LongDataStore, id: nat, param: nat): seq<byte>
  {
    if (id, param) in store then store[(id, param)] else []
  }

  /** The server's reading of one payload: long data is appended, anything else is not long data. */
  function Receive(store: LongDataStore, p: seq<byte>): LongDataStore
  {
    if |p| < 7 || p[0] != 0x18 then store
    else
      var id, param := FromLE(p[1..5]), FromLE(p[5..7]);
      store[(id, param) := Pending(store, id, param) + p[7..]]
  }

  function ReceiveAll(store: LongDataStore, ps: seq<seq<byte>>): LongDataStore
    decreases |ps|
  {
    if ps == [] then store else ReceiveAll(Receive(store, ps[0]), ps[1..])
  }

  lemma {:induction false} ReceiveAllSplit(store: LongDataStore, ps: seq<seq<byte>>, qs: seq<seq<byte>>)
    ensures ReceiveAll(store, ps + qs) == ReceiveAll(ReceiveAll(store, ps), qs)
    decreases |ps|
  {
    if ps == [] {
      assert ps + qs == qs;
    } else {
      assert (ps + qs)[1..] == ps[1..] + qs;
      ReceiveAllSplit(Receive(store, ps[0]), ps[1..], qs);
    }
  }

  lemma ReceivePortion(store: LongDataStore, id: nat, param: nat, data: seq<byte>)
    requires id < 0x1_0000_0000 && param < 0x1_0000
    ensures Receive(store, LongDataHeader(id, param) + data) == store[(id, param) := Pending(store, id, param) + data]
  {
    var p := LongDataHeader(id, param) + data;
    PowersOf256();
    LERoundTrip(id, 4);
    LERoundTrip(param, 2);
    assert p[1..5] == LE(id, 4) && p[5..7] == LE(param, 2) && p[DATA_OFFSET..] == data;
  }

  /** The server ends up with exactly the argument; every packet is below the limit and none is
      empty of data. */
  lemma {:induction false} LongDataArrives(store: LongDataStore, id: nat, param: nat, arg: seq<byte>, m: nat)
    requires id < 0x1_0000_0000 && param < 0x1_0000 && m >= 9 && arg != []
    ensures ReceiveAll(store, LongDataPackets(id, param, arg, m))
            == store[(id, param) := Pending(store, id, param) + arg]
    ensures forall p | p in LongDataPackets(id, param, arg, m) :: DATA_OFFSET < |p| <= m - 1
    decreases |arg|
  {
    hide Receive, LongDataHeader, ReceiveAll;
    var k := Portion(|arg|, m);
    var p, rest := LongDataHeader(id, param) + arg[..k], LongDataPackets(id, param, arg[k..], m);
    ReceivePortion(store, id, param, arg[..k]);
    ReceiveFirst(store, p, rest);
    var store' := Receive(store, p);
    assert Pending(store', id, param) == Pending(store, id, param) + arg[..k];
    HeaderLength(id, param);
    if arg[k..] != [] {
      LongDataArrives(store', id, param, arg[k..], m);
      AssocBytes(Pending(store, id, param), arg[..k], arg[k..]);
      assert arg[..k] + arg[k..] == arg;
    } else {
      NothingReceived(store');
      assert arg[..k] == arg;
    }
  }

  lemma {:induction false} NothingReceived(store: LongDataStore)
    ensures ReceiveAll(store, []) == store
  {}

  lemma {:induction false} HeaderLength(id: nat, param: nat)
    ensures |LongDataHeader(id, param)| == DATA_OFFSET
  {}

  lemma {:induction false} ReceiveFirst(store: LongDataStore, p: seq<byte>, rest: seq<seq<byte>>)
    ensures ReceiveAll(store, [p] + rest) == ReceiveAll(Receive(store, p), rest)
  {
    hide Receive;
    assert ([p] + rest)[1..] == rest;
  }

  /** The server's reading of n commands: each one is a payload that starts at sequence 0. */
  function ReadCommands(s: seq<byte>, n: nat): (seq<seq<byte>>, seq<byte>)
    decreases n
  {
    if n == 0 then ([], s)
    else match Parse(s, 0, [])
         case Packet(p, rest, _) =>
           var (ps, rest') := ReadCommands(rest, n - 1);
           ([p] + ps, rest')
         case _ => ([], s)
  }

  lemma {:induction false} ReadCommandsUndoesCommands(ps: seq<seq<byte>>, rest: seq<byte>)
    requires [] !in ps
    ensures ReadCommands(Commands(ps) + rest, |ps|) == (ps, rest)
    decreases |ps|
  {
    hide Frame, Parse;
    if ps == [] {
      assert Commands(ps) + rest == rest;
    } else {
      var tail := Commands(ps[1..]) + rest;
      AssocBytes(Frame(ps[0], 0), Commands(ps[1..]), rest);
      assert ps[0] in ps;
      assert [] + ps[0] == ps[0];
      ParseUndoesFrame(ps[0], 0, [], tail);
      ReadCommandsUndoesCommands(ps[1..], rest);
      assert ps == [ps[0]] + ps[1..];
    }
  }
}
