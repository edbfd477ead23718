// Packet splitting and reassembly (mysql/packets.go: readPacket, writePacket). The standard
// is section 14.1.2 "MySQL Packets" of the MySQL Internals Manual.
module Wire {
  import opened Bytes
  import opened Buffers

  /** The wire form of a payload: chunks of at most 2^24 - 1 bytes, each behind a
      3-byte length and a sequence number; a chunk shorter than the maximum, possibly empty,
      comes last. */
  function Frame(p: seq<byte>, q: byte): seq<byte>
    decreases |p|
  {
    if |p| < 0xff_ffff then LE(|p|, 3) + [q] + p
    else LE(0xff_ffff, 3) + [q] + p[..0xff_ffff] + Frame(p[0xff_ffff..], (q + 1) % 256)
  }

  /** The sequence number after a payload of n bytes that started at q. */
  function NextSequence(n: nat, q: byte): byte
  {
    (q + n / MAX_PACKET_SIZE + 1) % 256
  }

  function FrameAll(ps: seq<seq<byte>>, q: byte): seq<byte>
  {
    if ps == [] then [] else Frame(ps[0], q) + FrameAll(ps[1..], NextSequence(|ps[0]|, q))
  }

  function SequenceAfter(ps: seq<seq<byte>>, q: byte): byte
  {
    if ps == [] then q else SequenceAfter(ps[1..], NextSequence(|ps[0]|, q))
  }

  /** What readPacket finds at the head of a stream when prev has been read so far. */
  datatype Parsed =
    | Packet(payload: seq<byte>, rest: seq<byte>, sequence: byte)
    | OutOfSync(multiple: bool)     // ErrPktSyncMul or ErrPktSync
    | Malformed                     // an empty packet that ends nothing
    | Truncated                     // the stream ends inside a packet

  function Parse(s: seq<byte>, q: byte, prev: seq<byte>): Parsed
    decreases |s|
  {
    if |s| < 4 then Truncated
    else
      var n := FromLE(s[..3]);
      if s[3] != q then OutOfSync(s[3] > q)
      else if n == 0 then
        if prev == [] then Malformed else Packet(prev, s[4..], (q + 1) % 256)
      else if |s| < 4 + n then Truncated
      else if n < MAX_PACKET_SIZE then Packet(prev + s[4..4 + n], s[4 + n..], (q + 1) % 256)
      else Parse(s[4 + n..], (q + 1) % 256, prev + s[4..4 + n])
  }

  /** A complete chunk in sequence at the head of the stream, and the bytes it carries. */
  predicate ChunkAt(s: seq<byte>, q: byte)
  {
    4 <= |s| && s[3] == q && 4 + FromLE(s[..3]) <= |s|
  }

  function ChunkBody(s: seq<byte>): seq<byte>
    requires 4 <= |s| && 4 + FromLE(s[..3]) <= |s|
  {
    s[4..4 + FromLE(s[..3])]
  }

  lemma ParseNoChunk(s: seq<byte>, q: byte, prev: seq<byte>)
    requires !ChunkAt(s, q)
    ensures Parse(s, q, prev) == if 4 <= |s| && s[3] != q then OutOfSync(s[3] > q) else Truncated
  {}

  lemma ParseLastChunk(s: seq<byte>, q: byte, prev: seq<byte>)
    requires ChunkAt(s, q) && |ChunkBody(s)| < MAX_PACKET_SIZE
    ensures var body := ChunkBody(s);
            Parse(s, q, prev) == if body == [] && prev == [] then Malformed
                                 else Packet(prev + body, s[4 + |body|..], (q + 1) % 256)
  {
    if ChunkBody(s) == [] {
      assert prev + ChunkBody(s) == prev;
    }
  }

  lemma ParseFullChunk(s: seq<byte>, q: byte, prev: seq<byte>, body: seq<byte>, rest: seq<byte>, q': byte)
    requires ChunkAt(s, q) && body == ChunkBody(s) && |body| >= MAX_PACKET_SIZE
    requires rest == s[4 + |body|..] && q' == (q + 1) % 256
    ensures Parse(s, q, prev) == Parse(rest, q', prev + body)
  {}

  lemma NextSequenceLast(n: nat, q: byte)
    requires n < MAX_PACKET_SIZE
    ensures NextSequence(n, q) == (q + 1) % 256
  {
    assert n / MAX_PACKET_SIZE == 0;
  }

  lemma NextSequenceStep(n: nat, q: byte)
    requires n >= MAX_PACKET_SIZE
    ensures NextSequence(n - MAX_PACKET_SIZE, (q + 1) % 256) == NextSequence(n, q)
  {
    assert (n - MAX_PACKET_SIZE) / MAX_PACKET_SIZE == n / MAX_PACKET_SIZE - 1;
  }

  /** The head of a chunk of n bytes. */
  lemma ChunkHead(n: nat, q: byte, body: seq<byte>, tail: seq<byte>)
    requires n == |body| <= MAX_PACKET_SIZE
    ensures var s := LE(n, 3) + [q] + body + tail;
            ChunkAt(s, q) && ChunkBody(s) == body && s[4 + n..] == tail
  {
    PowersOf256();
    LERoundTrip(n, 3);
    hide LE, FromLE;
    var s := LE(n, 3) + [q] + body + tail;
    assert s[..3] == LE(n, 3);
    assert s[4..4 + n] == body;
  }

  lemma FrameHead(p: seq<byte>, q: byte, rest: seq<byte>)
    ensures var s := Frame(p, q) + rest;
            && ChunkAt(s, q)
            && if |p| < MAX_PACKET_SIZE then ChunkBody(s) == p && s[4 + |p|..] == rest
               else ChunkBody(s) == p[..MAX_PACKET_SIZE]
                    && s[4 + MAX_PACKET_SIZE..] == Frame(p[MAX_PACKET_SIZE..], (q + 1) % 256) + rest
  {
    hide LE, FromLE, ChunkAt, ChunkBody;
    if |p| < MAX_PACKET_SIZE {
      ChunkHead(|p|, q, p, rest);
    } else {
      var head, more := p[..MAX_PACKET_SIZE], Frame(p[MAX_PACKET_SIZE..], (q + 1) % 256);
      ChunkHead(MAX_PACKET_SIZE, q, head, more + rest);
      assert Frame(p, q) + rest == LE(MAX_PACKET_SIZE, 3) + [q] + head + (more + rest);
    }
  }

  /** Parsing undoes framing for every payload, across splits and the empty terminator, and
      leaves whatever follows. */
  lemma {:induction false} ParseUndoesFrame(p: seq<byte>, q: byte, prev: seq<byte>, rest: seq<byte>)
    requires prev + p != []
    ensures Parse(Frame(p, q) + rest, q, prev) == Packet(prev + p, rest, NextSequence(|p|, q))
    decreases |p|
  {
    hide Parse, Frame, LE, FromLE, ChunkAt, ChunkBody;
    var s := Frame(p, q) + rest;
    FrameHead(p, q, rest);
    if |p| < MAX_PACKET_SIZE {
      ParseLastChunk(s, q, prev);
    } else {
      var q', head, tail := (q + 1) % 256, p[..MAX_PACKET_SIZE], p[MAX_PACKET_SIZE..];
      ParseFullChunk(s, q, prev, head, Frame(tail, q') + rest, q');
      ParseUndoesFrame(tail, q', prev + head, rest);
      assert prev + head + tail == prev + p;
      NextSequenceStep(|p|, q);
    }
  }

  /** Repeated parsing. */
  function ParseAll(s: seq<byte>, q: byte, n: nat): (r: (seq<seq<byte>>, seq<byte>, byte))
    decreases n
  {
    if n == 0 then ([], s, q)
    else match Parse(s, q, [])
         case Packet(p, rest, q') =>
           var (ps, rest', q'') := ParseAll(rest, q', n - 1);
           ([p] + ps, rest', q'')
         case _ => ([], s, q)
  }

  /** A peer with the same starting sequence number reads back exactly the payloads sent, and
      both sides end at the same sequence number. */
  lemma {:induction false} ParseAllUndoesFrameAll(ps: seq<seq<byte>>, q: byte, rest: seq<byte>)
    requires [] !in ps
    ensures ParseAll(FrameAll(ps, q) + rest, q, |ps|) == (ps, rest, SequenceAfter(ps, q))
  {
    if ps != [] {
      var q' := NextSequence(|ps[0]|, q);
      var tail := FrameAll(ps[1..], q') + rest;
      assert FrameAll(ps, q) + rest == Frame(ps[0], q) + tail;
      assert [] + ps[0] == ps[0];
      ParseUndoesFrame(ps[0], q, [], tail);
      ParseAllUndoesFrameAll(ps[1..], q', rest);
      assert ps == [ps[0]] + ps[1..];
    }
    else {
      assert FrameAll(ps, q) + rest == rest;
    }
  }

  lemma {:induction false} FrameAllSplit(ps: seq<seq<byte>>, qs: seq<seq<byte>>, q: byte)
    ensures FrameAll(ps + qs, q) == FrameAll(ps, q) + FrameAll(qs, SequenceAfter(ps, q))
    ensures SequenceAfter(ps + qs, q) == SequenceAfter(qs, SequenceAfter(ps, q))
  {
    if ps == [] {
      assert ps + qs == qs;
    } else {
      assert (ps + qs)[1..] == ps[1..] + qs;
      FrameAllSplit(ps[1..], qs, NextSequence(|ps[0]|, q));
    }
  }

  datatype ConnError =
    | Ok
    | Canceled(cause: nat)      // the error stored by the cancel watcher
    | PktSync | PktSyncMul
    | InvalidConn
    | PktTooLarge
    | BadConnNoWrite            // "nothing was written": database/sql may retry

  /** The first chunk of a payload. */
  function FirstChunk(p: seq<byte>, q: byte): (c: seq<byte>)
    ensures |c| == 4 + if |p| < MAX_PACKET_SIZE then |p| else MAX_PACKET_SIZE
  {
    var size := if |p| < MAX_PACKET_SIZE then |p| else MAX_PACKET_SIZE;
    LE(size, 3) + [q] + p[..size]
  }

  /** What writePacket leaves on the wire and returns when the network accepts room more
      bytes; canceled is what the watcher stored, quiet says that short writes report no error. */
  function WriteOutcome(p: seq<byte>, q: byte, room: nat, quiet: bool, canceled: ConnError): (r: (seq<byte>, ConnError))
    decreases |p|
  {
    var chunk := FirstChunk(p, q);
    if room < |chunk| then
      (chunk[..room],
       if quiet then InvalidConn
       else if canceled != Ok then canceled
       else if room == 0 then BadConnNoWrite
       else InvalidConn)
    else if |p| < MAX_PACKET_SIZE then (chunk, Ok)
    else
      var (more, err) := WriteOutcome(p[MAX_PACKET_SIZE..], (q + 1) % 256, room - |chunk|, quiet, canceled);
      (chunk + more, err)
  }

  /** How the outcome goes on when n bytes of the first chunk are behind the bytes sent before. */
  lemma {:induction false} AfterChunk(sent: seq<byte>, p: seq<byte>, q: byte, room: nat, n: nat, quiet: bool,
      canceled: ConnError)
    requires n == if |FirstChunk(p, q)| <= room then |FirstChunk(p, q)| else room
    ensures var (w, err) := WriteOutcome(p, q, room, quiet, canceled);
            var now := sent + FirstChunk(p, q)[..n];
            if n < |FirstChunk(p, q)| then
              now == sent + w
              && err == if quiet then InvalidConn
                        else if canceled != Ok then canceled
                        else if n == 0 then BadConnNoWrite
                        else InvalidConn
            else if |p| < MAX_PACKET_SIZE then now == sent + w && err == Ok
            else
              var (more, err') := WriteOutcome(p[MAX_PACKET_SIZE..], (q + 1) % 256, room - n, quiet, canceled);
              now + more == sent + w && err == err'
  {
    hide FirstChunk;
    var chunk := FirstChunk(p, q);
    if n == |chunk| {
      assert chunk[..n] == chunk;
      if |p| >= MAX_PACKET_SIZE {
        var more := WriteOutcome(p[MAX_PACKET_SIZE..], (q + 1) % 256, room - n, quiet, canceled).0;
        assert sent + chunk + more == sent + (chunk + more);
      }
    }
  }

  lemma {:induction false} AfterLastChunk(sent: seq<byte>, p: seq<byte>, q: byte, room: nat, quiet: bool,
      canceled: ConnError)
    requires |p| < MAX_PACKET_SIZE && |FirstChunk(p, q)| <= room
    ensures var (w, err) := WriteOutcome(p, q, room, quiet, canceled);
            sent + FirstChunk(p, q)[..|p| + 4] == sent + w && err == Ok
  {
    AfterChunk(sent, p, q, room, |p| + 4, quiet, canceled);
  }

  lemma {:induction false} AfterFullChunk(sent: seq<byte>, p: seq<byte>, q: byte, room: nat, quiet: bool,
      canceled: ConnError)
    requires |p| >= MAX_PACKET_SIZE && |FirstChunk(p, q)| <= room
    ensures var (w, err) := WriteOutcome(p, q, room, quiet, canceled);
            var n := MAX_PACKET_SIZE + 4;
            var (more, err') := WriteOutcome(p[MAX_PACKET_SIZE..], (q + 1) % 256, room - n, quiet, canceled);
            sent + FirstChunk(p, q)[..n] + more == sent + w && err == err'
  {
    AfterChunk(sent, p, q, room, MAX_PACKET_SIZE + 4, quiet, canceled);
  }

  lemma {:induction false} AfterShortWrite(sent: seq<byte>, p: seq<byte>, q: byte, room: nat, quiet: bool,
      canceled: ConnError)
    requires room < |FirstChunk(p, q)|
    ensures var (w, err) := WriteOutcome(p, q, room, quiet, canceled);
            && sent + FirstChunk(p, q)[..room] == sent + w
            && err == if quiet then InvalidConn
                      else if canceled != Ok then canceled
                      else if room == 0 then BadConnNoWrite
                      else InvalidConn
  {
    AfterChunk(sent, p, q, room, room, quiet, canceled);
  }

  /** With enough room the bytes written are exactly the frame; otherwise a proper prefix of it. */
  lemma {:induction false} WriteOutcomeIsFrame(p: seq<byte>, q: byte, room: nat, quiet: bool, canceled: ConnError)
    ensures var (w, err) := WriteOutcome(p, q, room, quiet, canceled);
            && w <= Frame(p, q)
            && |w| == (if room < |Frame(p, q)| then room else |Frame(p, q)|)
            && (err == Ok <==> room >= |Frame(p, q)|)
    decreases |p|
  {
    if |p| >= MAX_PACKET_SIZE && room >= 4 + MAX_PACKET_SIZE {
      WriteOutcomeIsFrame(p[MAX_PACKET_SIZE..], (q + 1) % 256, room - 4 - MAX_PACKET_SIZE, quiet, canceled);
    } else if |p| < MAX_PACKET_SIZE {
      assert p[..|p|] == p;
    }
  }

  /** The comment at mysql/packets.go:171 promises errBadConnNoWrite only when nothing was
      written yet, but its guard holds in every iteration: the error also comes back when the
      network fails exactly between two chunks of a split packet, and then only. */
  lemma {:induction false} NoWriteWithBytesOnTheWire(p: seq<byte>, q: byte, room: nat, quiet: bool, canceled: ConnError)
    requires canceled != BadConnNoWrite
    ensures var (w, err) := WriteOutcome(p, q, room, quiet, canceled);
            err == BadConnNoWrite && w != []
            <==> canceled == Ok && !quiet && 0 < room && BetweenChunks(|p|, room)
    ensures var (w, err) := WriteOutcome(p, q, room, quiet, canceled);
            err == BadConnNoWrite && w == [] <==> canceled == Ok && !quiet && room == 0
    decreases |p|
  {
    BetweenStep(|p|, room);
    hide FirstChunk, BetweenChunks;
    if |p| >= MAX_PACKET_SIZE && room >= 4 + MAX_PACKET_SIZE {
      NoWriteWithBytesOnTheWire(p[MAX_PACKET_SIZE..], (q + 1) % 256, room - 4 - MAX_PACKET_SIZE, quiet, canceled);
    }
  }

  /** The first room bytes of the frame of n payload bytes end with a full chunk that is not the last. */
  predicate BetweenChunks(n: nat, room: nat)
  {
    room % (MAX_PACKET_SIZE + 4) == 0 && room / (MAX_PACKET_SIZE + 4) <= n / MAX_PACKET_SIZE
  }

  lemma {:induction false} BetweenStep(n: nat, room: nat)
    ensures BetweenChunks(n, 0) && (n >= MAX_PACKET_SIZE ==> BetweenChunks(n - MAX_PACKET_SIZE, 0))
    ensures room > 0 && (n < MAX_PACKET_SIZE || room < MAX_PACKET_SIZE + 4) ==> !BetweenChunks(n, room)
    ensures n >= MAX_PACKET_SIZE && room >= MAX_PACKET_SIZE + 4 ==>
              (BetweenChunks(n, room) <==> BetweenChunks(n - MAX_PACKET_SIZE, room - MAX_PACKET_SIZE - 4))
  {}

  /** A concrete case: a payload of the maximum size, whose first chunk goes out in full. */
  lemma NoWriteExample()
    ensures var (w, err) := WriteOutcome(seq(MAX_PACKET_SIZE, _ => 0), 0, MAX_PACKET_SIZE + 4, false, Ok);
            err == BadConnNoWrite && |w| == MAX_PACKET_SIZE + 4
  {
    var p: seq<byte> := seq(MAX_PACKET_SIZE, _ => 0);
    NoWriteWithBytesOnTheWire(p, 0, MAX_PACKET_SIZE + 4, false, Ok);
    WriteOutcomeIsFrame(p, 0, MAX_PACKET_SIZE + 4, false, Ok);
  }
}
