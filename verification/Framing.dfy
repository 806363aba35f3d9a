/** Packets as messages, both ways: the framing of the server (MakeSendBuffer) with the client's
    receive loop and unframing (OnRecvPacket, MakePacket), and the framing of the client
    (ServerSession.Send) with the server's receive loop and unframing (HandlePacket). */
module Framing {
  import opened Packets
  import opened Seqs
  import opened Stream
  import opened Wrappers
  import ServerReceive

  const PACKET_HEADER_SIZE := 4
  const SEND_BUFFER_CHUNK_SIZE := 6000
  const MAX_PAYLOAD := 65531

  type UInt16 = x: int | 0 <= x < 0x1_0000

  datatype Message = Message(id: UInt16, payload: seq<Byte>)

  /** The two bytes of BitConverter.GetBytes. */
  function Bytes(n: UInt16): (b: seq<Byte>)
    ensures |b| == 2 && SizeOf(b) == n
  {
    [n % 0x100, n / 0x100]
  }

  /** The frame of a message that fits one. */
  function Frame(m: Message): (f: seq<Byte>)
    requires |m.payload| <= MAX_PAYLOAD
    ensures |f| == |m.payload| + PACKET_HEADER_SIZE
  {
    Bytes(|m.payload| + PACKET_HEADER_SIZE) + Bytes(m.id) + m.payload
  }

  /** The id and the body of a delivered segment; shorter segments have no id of their own. */
  function Unframe(segment: seq<Byte>): Option<Message> {
    if |segment| < PACKET_HEADER_SIZE then None
    else Some(Message(SizeOf(segment[2..4]), segment[4..]))
  }

  function UnframeAll(segments: seq<seq<Byte>>): seq<Option<Message>> {
    seq(|segments|, i requires 0 <= i < |segments| => Unframe(segments[i]))
  }

  ghost predicate Fit(ms: seq<Message>) { forall m :: m in ms ==> |m.payload| <= MAX_PAYLOAD }

  ghost function Frames(ms: seq<Message>): seq<seq<Byte>>
    requires Fit(ms)
  {
    seq(|ms|, i requires 0 <= i < |ms| => Frame(ms[i]))
  }

  /** The bytes of a frame: size and id, low byte first, and the payload. */
  lemma FrameLayout(m: Message)
    requires |m.payload| <= 65531
    ensures var f, size := Frame(m), |m.payload| + 4;
            && |f| == size && f[0] as int == size % 256 && f[1] as int == size / 256
            && f[2] as int == m.id % 256 && f[3] as int == m.id / 256 && f[4..] == m.payload
    ensures ClientFrame(m) == Frame(m)
  {}

  lemma FrameIsPacket(m: Message)
    requires |m.payload| <= MAX_PAYLOAD
    ensures IsPacket(Frame(m)) && Unframe(Frame(m)) == Some(m)
  {
    var f := Frame(m);
    assert f[..2] == Bytes(|f|) && f[2..4] == Bytes(m.id) && f[4..] == m.payload;
    assert SizeOf(f) == SizeOf(f[..2]);
  }

  /** Messages framed, joined to one stream, cut anywhere and put together again are the same
      messages in the same order, and nothing is left over. */
  lemma MessagesRoundTrip(ms: seq<Message>, chunks: seq<seq<Byte>>)
    requires Fit(ms) && Concat(chunks) == Concat(Frames(ms))
    ensures var r := Feed(chunks);
            r.rest == [] && |r.packets| == |ms| && forall i :: 0 <= i < |ms| ==> UnframeAll(r.packets)[i] == Some(ms[i])
  {
    var frames := Frames(ms);
    forall i | 0 <= i < |ms| ensures IsPacket(frames[i]) && Unframe(frames[i]) == Some(ms[i]) {
      assert ms[i] in ms;
      FrameIsPacket(ms[i]);
    }
    ChunksDoNotMatter(chunks);
    ParseUnique(frames, []);
    assert Concat(frames) + [] == Concat(frames);
  }

  /** What the client's Send puts on the wire: both lengths are cut to 16 bits. */
  function ClientFrame(m: Message): seq<Byte> {
    var size := |m.payload| % 0x1_0000;
    Bytes((size + PACKET_HEADER_SIZE) % 0x1_0000) + Bytes(m.id) + m.payload[..size]
  }

  /** The size in the header of a client's frame. */
  lemma ClientHeader(m: Message)
    ensures var f, size := ClientFrame(m), |m.payload| % 0x1_0000;
            |f| == size + PACKET_HEADER_SIZE && SizeOf(f) == if size <= MAX_PAYLOAD then |f| else |f| - 0x1_0000
  {
    var f := ClientFrame(m);
    assert SizeOf(f) == SizeOf(f[..2]);
  }

  /** What the server's loop makes of the frame of any message, whatever follows. With `size` the
      length that is left of the payload after the cut to 16 bits: one packet with so much of the
      payload; or, just below 64 KiB, a loop that never ends, or a packet of 1, 2 or 3 bytes of the
      header, behind which the loop looks for the next packet. */
  lemma ClientFrameFate(m: Message, t: seq<Byte>)
    ensures var f, size, r := ClientFrame(m), |m.payload| % 0x1_0000, ServerReceive.Parse(ClientFrame(m) + t);
            if size <= MAX_PAYLOAD then
              && r == Parsed([f] + ServerReceive.Parse(t).packets, ServerReceive.Parse(t).rest)
              && Unframe(f) == Some(Message(m.id, m.payload[..size]))
            else if size == 65532 then r == Parsed([], f + t) && !ServerReceive.Ends(f + t)
            else
              var later := ServerReceive.Parse(f[size - 65532..] + t);
              r == Parsed([f[..size - 65532]] + later.packets, later.rest)
  {
    ClientHeader(m);
    UnframeClient(m);
    hide ClientFrame, Unframe, ServerReceive.Parse, ServerReceive.Ends, SizeOf;
    var f, size := ClientFrame(m), |m.payload| % 0x1_0000;
    HeaderFirst(f, t);
    if size == 65532 {
      ServerReceive.LoopEndsExactly(f + t);
      ServerReceive.ParseStops(f + t, [], 0);
      assert (f + t)[0..] == f + t && [] + ServerReceive.Parse(f + t).packets == ServerReceive.Parse(f + t).packets;
    } else {
      ServerReceive.ParseFront(f, t);
      assert size <= MAX_PAYLOAD ==> f[|f|..] + t == t && f[..|f|] == f;
    }
  }

  lemma HeaderFirst(f: seq<Byte>, t: seq<Byte>)
    requires |f| >= 2
    ensures SizeOf(f + t) == SizeOf(f)
  {}

  lemma UnframeClient(m: Message)
    ensures Unframe(ClientFrame(m)) == Some(Message(m.id, m.payload[..|m.payload| % 0x1_0000]))
  {
    var f := ClientFrame(m);
    assert f[2..4] == Bytes(m.id) && f[4..] == m.payload[..|m.payload| % 0x1_0000];
  }

  ghost function ClientFrames(ms: seq<Message>): seq<seq<Byte>> {
    seq(|ms|, i requires 0 <= i < |ms| => ClientFrame(ms[i]))
  }

  /** What has been delivered are these messages, and nothing is left over. */
  ghost predicate Arrived(ms: seq<Message>, r: Parsed) {
    r.rest == [] && |r.packets| == |ms| && forall i :: 0 <= i < |ms| ==> Unframe(r.packets[i]) == Some(ms[i])
  }

  lemma FirstFrame(ms: seq<Message>)
    requires ms != []
    ensures Concat(ClientFrames(ms)) == ClientFrame(ms[0]) + Concat(ClientFrames(ms[1..]))
    ensures Fit(ms) <==> |ms[0].payload| <= MAX_PAYLOAD && Fit(ms[1..])
  {
    assert ms == [ms[0]] + ms[1..];
    var first := ClientFrame(ms[0]);
    assert ClientFrames(ms) == [first] + ClientFrames(ms[1..]);
    hide ClientFrame, ClientFrames;
    ConcatAppend([first], ClientFrames(ms[1..]));
    ConcatOne(first);
  }

  lemma FirstArrived(m: Message, later: seq<Message>, f: seq<Byte>, r: Parsed)
    requires Unframe(f) == Some(m)
    ensures Arrived([m] + later, Parsed([f] + r.packets, r.rest)) <==> Arrived(later, r)
  {
    var ms, packets := [m] + later, [f] + r.packets;
    hide Unframe;
    assert forall i :: 0 <= i < |later| ==> ms[i + 1] == later[i];
    assert forall i :: 0 <= i < |r.packets| ==> packets[i + 1] == r.packets[i];
  }

  lemma OverlongDoesNotArrive(ms: seq<Message>, t: seq<Byte>)
    requires ms != [] && |ms[0].payload| > MAX_PAYLOAD
    ensures !Arrived(ms, ServerReceive.Parse(ClientFrame(ms[0]) + t))
  {
    var m, r := ms[0], ServerReceive.Parse(ClientFrame(ms[0]) + t);
    ClientFrameFate(m, t);
    ClientHeader(m);
    hide ServerReceive.Parse, ClientFrame, ServerReceive.Ends;
    if r.packets != [] {
      assert Unframe(r.packets[0]) != Some(m);
    }
  }

  lemma {:induction false} ClientFramesArrive(ms: seq<Message>)
    ensures Arrived(ms, ServerReceive.Parse(Concat(ClientFrames(ms)))) <==> Fit(ms)
  {
    hide ServerReceive.Parse, ClientFrame, ServerReceive.Ends, Concat, Unframe, Fit;
    if ms == [] {
      NothingArrives();
    } else {
      var m, later, f, t := ms[0], ms[1..], ClientFrame(ms[0]), Concat(ClientFrames(ms[1..]));
      assert ms == [m] + later;
      FirstFrame(ms);
      if |m.payload| <= MAX_PAYLOAD {
        ClientFrameFate(m, t);
        assert m.payload[..|m.payload|] == m.payload;
        ClientFramesArrive(later);
        FirstArrived(m, later, f, ServerReceive.Parse(t));
      } else {
        OverlongDoesNotArrive(ms, t);
      }
    }
  }

  lemma NothingArrives()
    ensures Fit([]) && Arrived([], ServerReceive.Parse(Concat(ClientFrames([]))))
  {
    assert Concat(ClientFrames([])) == [];
  }

  /** Messages that the client sends, joined to one stream and cut anywhere, arrive at the server as
      themselves, in order, and nothing else does, exactly when all payloads have at most 65531
      bytes; and then the server's loop ends on every piece. */
  lemma ClientMessagesArrive(ms: seq<Message>, chunks: seq<seq<Byte>>)
    requires Concat(chunks) == Concat(ClientFrames(ms))
    ensures Arrived(ms, ServerReceive.Feed(chunks)) <==> Fit(ms)
    ensures Fit(ms) ==> forall n :: 0 <= n <= |chunks| ==> !ServerReceive.Stuck(ServerReceive.Feed(chunks[..n]).rest)
  {
    hide ServerReceive.Parse, ClientFrames, Concat, Fit, ServerReceive.Feed;
    ServerReceive.ChunksDoNotMatter(chunks);
    ClientFramesArrive(ms);
  }

  /** What becomes of a message that the server wants to send: a buffer, a failed ASSERT_CRASH, or
      a write past the end of the chunk that the buffer was to be part of. */
  datatype Outcome = Buffer(bytes: array<Byte>) | AssertFailed | Overrun

  /** MakeSendBuffer of the server. Sizes are cut to 16 bits; Open asserts that the packet fits a
      chunk, and serialising fails if the payload is larger than the cut size. For payloads of
      65532 to 65535 bytes the size of the packet wraps to 0..3 and both checks pass. */
  method MakeSendBuffer(m: Message) returns (r: Outcome)
    ensures r.Buffer? <==> |m.payload| <= 5996
    ensures r.Overrun? <==> 65532 <= |m.payload| <= 65535
    ensures r.Buffer? ==> fresh(r.bytes) && r.bytes[..] == Frame(m)
  {
    var dataSize := |m.payload| % 0x1_0000;
    var packetSize := (dataSize + PACKET_HEADER_SIZE) % 0x1_0000;
    if packetSize > SEND_BUFFER_CHUNK_SIZE {
      return AssertFailed;
    }
    if dataSize < |m.payload| {
      return AssertFailed;
    }
    if PACKET_HEADER_SIZE + dataSize > SEND_BUFFER_CHUNK_SIZE {
      return Overrun;
    }
    var buffer := new Byte[packetSize](_ => 0);
    PutPacket(buffer, packetSize, m.id, m.payload);
    return Buffer(buffer);
  }

  /** ServerSession.Send of the client, up to the queue. */
  method ClientSendBuffer(m: Message) returns (buffer: array<Byte>)
    ensures fresh(buffer) && buffer[..] == ClientFrame(m)
  {
    var size := |m.payload| % 0x1_0000;
    buffer := new Byte[size + PACKET_HEADER_SIZE](_ => 0);
    PutPacket(buffer, (size + PACKET_HEADER_SIZE) % 0x1_0000, m.id, m.payload[..size]);
  }

  method PutPacket(buffer: array<Byte>, size: UInt16, id: UInt16, payload: seq<Byte>)
    requires buffer.Length == PACKET_HEADER_SIZE + |payload|
    modifies buffer
    ensures buffer[..] == Bytes(size) + Bytes(id) + payload
  {
    hide Bytes, SizeOf;
    PutUInt16(buffer, 0, size);
    PutUInt16(buffer, 2, id);
    PutBytes(buffer, PACKET_HEADER_SIZE, payload);
    assert buffer[..] == buffer[..2] + buffer[2..4] + buffer[4..];
  }

  method PutUInt16(buffer: array<Byte>, at: nat, n: UInt16)
    requires at + 2 <= buffer.Length
    modifies buffer
    ensures buffer[at..at + 2] == Bytes(n)
    ensures forall i :: 0 <= i < buffer.Length && !(at <= i < at + 2) ==> buffer[i] == old(buffer[i])
  {
    buffer[at], buffer[at + 1] := n % 0x100, n / 0x100;
  }

  /** Array.Copy of a whole byte array to a position of another. */
  method PutBytes(buffer: array<Byte>, at: nat, bytes: seq<Byte>)
    requires at + |bytes| <= buffer.Length
    modifies buffer
    ensures buffer[at..at + |bytes|] == bytes
    ensures forall i :: 0 <= i < buffer.Length && !(at <= i < at + |bytes|) ==> buffer[i] == old(buffer[i])
  {
    for k := 0 to |bytes|
      invariant buffer[at..at + k] == bytes[..k]
      invariant forall i :: 0 <= i < buffer.Length && !(at <= i < at + k) ==> buffer[i] == old(buffer[i])
    {
      buffer[at + k] := bytes[k];
    }
  }
}
