/** Reassembly of packets from a byte stream (Session.cs, RecvBuffer.cs of the client): what is
    delivered does not depend on how the stream was cut into received pieces. */
module Stream {
  import opened Packets
  import opened Seqs

  const HEADER_SIZE := 2
  const RECV_BUFFER_SIZE := 65535

  /** The first packet of a stream is complete and has a usable size. */
  predicate HasPacket(s: seq<Byte>) {
    |s| >= HEADER_SIZE && HEADER_SIZE <= SizeOf(s) <= |s|
  }

  /** One-shot parsing of a whole stream: the complete packets, and what is left. */
  function Parse(s: seq<Byte>): Parsed
    decreases |s|
  {
    if !HasPacket(s) then Parsed([], s)
    else
      var tail := Parse(s[SizeOf(s)..]);
      Parsed([s[..SizeOf(s)]] + tail.packets, tail.rest)
  }

  /** A packet's own length is the size in its header. */
  ghost predicate IsPacket(p: seq<Byte>) { |p| >= HEADER_SIZE && SizeOf(p) == |p| }

  /** Parsing the rest of a stream, one packet further. */
  lemma ParseMore(s: seq<Byte>, before: seq<seq<Byte>>, k: nat)
    requires k <= |s| && HasPacket(s[k..])
    requires Parse(s) == Parsed(before + Parse(s[k..]).packets, Parse(s[k..]).rest)
    ensures var here := s[k..];
            var later := Parse(s[k + SizeOf(here)..]);
            Parse(s) == Parsed(before + [here[..SizeOf(here)]] + later.packets, later.rest)
  {
    var here := s[k..];
    assert here[SizeOf(here)..] == s[k + SizeOf(here)..];
  }

  lemma ParseStops(s: seq<Byte>, before: seq<seq<Byte>>, k: nat)
    requires k <= |s| && !HasPacket(s[k..])
    requires Parse(s) == Parsed(before + Parse(s[k..]).packets, Parse(s[k..]).rest)
    ensures Parse(s) == Parsed(before, s[k..])
  {
    assert before + [] == before;
  }

  /** Nothing is lost, invented or reordered: the packets followed by the rest are the stream;
      every packet is well-formed and the rest does not begin with one. */
  lemma {:induction false} ParseConserves(s: seq<Byte>)
    ensures var r := Parse(s);
            Concat(r.packets) + r.rest == s && (forall p :: p in r.packets ==> IsPacket(p)) && !HasPacket(r.rest)
    decreases |s|
  {
    if HasPacket(s) {
      var n := SizeOf(s);
      var tail := Parse(s[n..]);
      assert Parse(s) == Parsed([s[..n]] + tail.packets, tail.rest);
      assert IsPacket(s[..n]);
      hide *;
      ParseConserves(s[n..]);
      ConcatAppend([s[..n]], tail.packets);
      ConcatOne(s[..n]);
      FrontBack(s, n, Concat(tail.packets), tail.rest);
    } else {
      assert Concat([]) + s == s;
    }
  }

  /** ... and there is only one way to cut a stream like that. */
  lemma {:induction false} ParseUnique(packets: seq<seq<Byte>>, rest: seq<Byte>)
    requires (forall p :: p in packets ==> IsPacket(p)) && !HasPacket(rest)
    ensures Parse(Concat(packets) + rest) == Parsed(packets, rest)
  {
    if packets == [] {
      assert Concat(packets) + rest == rest;
    } else {
      var p, later := packets[0], packets[1..];
      assert packets == [p] + later;
      ConcatAppend([p], later);
      ConcatOne(p);
      var s := Concat(packets) + rest;
      assert s == p + (Concat(later) + rest);
      assert s[..|p|] == p && s[|p|..] == Concat(later) + rest;
      assert p in packets && SizeOf(s) == SizeOf(p);
      ParseUnique(later, rest);
    }
  }

  /** Parsing a stream in two pieces, keeping the rest of the first, is parsing it at once. */
  lemma ParseSplit(s: seq<Byte>, t: seq<Byte>)
    ensures var first := Parse(s); var second := Parse(first.rest + t);
            Parse(s + t) == Parsed(first.packets + second.packets, second.rest)
  {
    hide *;
    var first := Parse(s);
    var second := Parse(first.rest + t);
    ParseConserves(s);
    ParseConserves(first.rest + t);
    ConcatAppend(first.packets, second.packets);
    Regroup(Concat(first.packets), first.rest, t, Concat(second.packets), second.rest);
    ParseUnique(first.packets + second.packets, second.rest);
  }

  /** What has been delivered and kept after receiving some pieces, one after the other. */
  function Feed(chunks: seq<seq<Byte>>): Parsed {
    if chunks == [] then Parsed([], [])
    else
      var before := Feed(chunks[..|chunks| - 1]);
      var now := Parse(before.rest + chunks[|chunks| - 1]);
      Parsed(before.packets + now.packets, now.rest)
  }

  /** For every way of cutting the stream: the outcome is that of parsing it at once. */
  lemma {:induction false} ChunksDoNotMatter(chunks: seq<seq<Byte>>)
    ensures Feed(chunks) == Parse(Concat(chunks))
  {
    if chunks != [] {
      ChunksDoNotMatter(chunks[..|chunks| - 1]);
      ParseSplit(Concat(chunks[..|chunks| - 1]), chunks[|chunks| - 1]);
    }
  }

  /** A header that promises fewer bytes than the header itself. */
  predicate Parked(s: seq<Byte>) { |s| >= HEADER_SIZE && SizeOf(s) < HEADER_SIZE }

  /** A stream never delivers anything again, whatever follows, exactly when it is parked on such a
      header, and then it stays parked. */
  lemma ParkedForever(s: seq<Byte>)
    ensures Parked(Parse(s).rest) <==> forall t :: Parse(s + t).packets == Parse(s).packets
    ensures Parked(Parse(s).rest) <==> var rest := Parse(s).rest; |rest| >= 2 && rest[0] < 2 && rest[1] == 0
    ensures Parked(Parse(s).rest) ==> forall t :: Parse(s + t).rest == Parse(s).rest + t && Parked(Parse(s + t).rest)
  {
    var rest := Parse(s).rest;
    if Parked(rest) {
      forall t ensures Parse(s + t) == Parsed(Parse(s).packets, rest + t) && Parked(rest + t) {
        ParseSplit(s, t);
        assert Parse(rest + t) == Parsed([], rest + t);
        assert Parse(s).packets + [] == Parse(s).packets;
      }
    } else {
      ParseSplit(s, Plenty());
      SizeBeforePlenty(rest);
      assert |Parse(rest + Plenty()).packets| > 0;
    }
  }

  /** What is kept back is shorter than the receive buffer unless the stream is parked. */
  lemma RestFits(s: seq<Byte>)
    ensures var rest := Parse(s).rest; |rest| < RECV_BUFFER_SIZE || Parked(rest)
  {
    ParseConserves(s);
  }

  /** RecvBuffer: received bytes wait between the two positions. */
  class RecvBuffer {
    const buffer: array<Byte>
    var readPos: nat
    var writePos: nat

    ghost predicate Valid()
      reads this
    {
      readPos <= writePos <= buffer.Length
    }

    ghost function Contents(): seq<Byte>
      requires Valid()
      reads this, buffer
    {
      buffer[readPos..writePos]
    }

    constructor (bufferSize: nat)
      ensures Valid() && Contents() == [] && fresh(buffer) && buffer.Length == bufferSize && readPos == 0
    {
      buffer := new Byte[bufferSize](_ => 0);
      readPos, writePos := 0, 0;
    }

    function DataSize(): int
      reads `readPos, `writePos
    {
      writePos - readPos
    }

    function FreeSize(): int
      reads `writePos
    {
      buffer.Length - writePos
    }

    /** The waiting bytes as the packet loop sees them. */
    function ReadSegment(): (s: seq<Byte>)
      requires Valid()
      reads this, buffer
      ensures s == Contents()
    {
      buffer[readPos..writePos]
    }

    /** The waiting bytes move to the front. */
    method Clean()
      requires Valid()
      modifies this, buffer
      ensures Valid() && Contents() == old(Contents()) && readPos == 0
      ensures FreeSize() == buffer.Length - |Contents()|
    {
      var dataSize := DataSize();
      if dataSize == 0 {
        readPos, writePos := 0, 0;
      } else {
        ghost var waiting := Contents();
        var i := 0;
        while i < dataSize
          invariant 0 <= i <= dataSize && readPos == old(readPos) && writePos == old(writePos)
          invariant forall k :: 0 <= k < i ==> buffer[k] == waiting[k]
          invariant forall k :: readPos + i <= k < writePos ==> buffer[k] == waiting[k - readPos]
        {
          buffer[i] := buffer[readPos + i];
          i := i + 1;
        }
        readPos, writePos := 0, dataSize;
        assert Contents() == waiting;
      }
    }

    method OnRead(numOfBytes: nat) returns (ok: bool)
      requires Valid()
      modifies `readPos
      ensures Valid() && ok == (numOfBytes <= old(DataSize()))
      ensures Contents() == if ok then old(Contents())[numOfBytes..] else old(Contents())
    {
      if numOfBytes > DataSize() {
        return false;
      }
      readPos := readPos + numOfBytes;
      return true;
    }

    /** The socket puts bytes behind the waiting ones, without moving the position. */
    method Fill(chunk: seq<Byte>)
      requires Valid() && |chunk| <= FreeSize()
      modifies buffer
      ensures Contents() == old(Contents()) && buffer[writePos..writePos + |chunk|] == chunk
    {
      for i := 0 to |chunk|
        invariant Contents() == old(Contents()) && buffer[writePos..writePos + i] == chunk[..i]
      {
        buffer[writePos + i] := chunk[i];
      }
    }

    method OnWrite(numOfBytes: nat) returns (ok: bool)
      requires Valid()
      modifies `writePos
      ensures Valid() && ok == (numOfBytes <= old(FreeSize()))
      ensures ok ==> Contents() == old(Contents()) + buffer[old(writePos)..old(writePos) + numOfBytes]
      ensures !ok ==> Contents() == old(Contents())
    {
      if numOfBytes > FreeSize() {
        return false;
      }
      writePos := writePos + numOfBytes;
      return true;
    }
  }

  /** The receiving half of Session with the packet loop of PacketSession. */
  class ReceiveSession {
    const recvBuffer: RecvBuffer
    var disconnected: bool
    /** The segments that OnRecvPacket has been called with. */
    var delivered: seq<seq<Byte>>
    /** Everything the socket has handed over. */
    ghost var received: seq<Byte>

    /** Delivered and kept bytes are those of parsing everything received so far at once. */
    ghost predicate Valid()
      reads this, recvBuffer, recvBuffer.buffer
    {
      && recvBuffer.Valid() && recvBuffer.buffer.Length == RECV_BUFFER_SIZE
      && Parse(received) == Parsed(delivered, recvBuffer.Contents())
    }

    constructor ()
      ensures Valid() && !disconnected && delivered == [] && received == [] && fresh(recvBuffer)
      ensures fresh(recvBuffer.buffer)
      ensures recvBuffer.FreeSize() == 65535
    {
      recvBuffer := new RecvBuffer(RECV_BUFFER_SIZE);
      disconnected, delivered, received := false, [], [];
    }

    /** PacketSession::OnRecv on a segment: how many of its bytes were used up. */
    method OnRecv(segment: seq<Byte>) returns (processLen: nat)
      modifies `delivered
      ensures var r := Parse(segment);
              && delivered == old(delivered) + r.packets
              && processLen <= |segment| && segment[processLen..] == r.rest
    {
      hide Parse;
      processLen := 0;
      var buffer := segment;
      ghost var parsed: seq<seq<Byte>> := [];
      while true
        invariant processLen <= |segment| && buffer == segment[processLen..] && delivered == old(delivered) + parsed
        invariant Parse(segment) == Parsed(parsed + Parse(buffer).packets, Parse(buffer).rest)
        decreases |buffer|
      {
        if |buffer| < HEADER_SIZE {
          break;
        }
        var dataSize := SizeOf(buffer);
        if |buffer| < dataSize {
          break;
        }
        if dataSize < HEADER_SIZE {
          break;
        }
        ParseMore(segment, parsed, processLen);
        parsed := parsed + [buffer[..dataSize]];
        delivered := delivered + [buffer[..dataSize]];
        processLen := processLen + dataSize;
        buffer := buffer[dataSize..];
      }
      ParseStops(segment, parsed, processLen);
    }

    /** RegisterRecv makes room and posts the rest of the buffer to the socket. */
    method RegisterRecv()
      requires Valid()
      modifies recvBuffer, recvBuffer.buffer
      ensures Valid() && recvBuffer.Contents() == old(recvBuffer.Contents())
      ensures !disconnected ==> recvBuffer.FreeSize() == RECV_BUFFER_SIZE - |recvBuffer.Contents()|
    {
      if disconnected {
        return;
      }
      recvBuffer.Clean();
    }

    /** OnRecvCompleted for `chunk`, which the socket has put into the posted space. As long as
        the connection lives, the next receive has room unless the stream is parked. */
    method OnRecvCompleted(chunk: seq<Byte>, success: bool)
      requires Valid() && |chunk| <= recvBuffer.FreeSize()
      modifies this, recvBuffer, recvBuffer.buffer
      ensures Valid()
      ensures success && chunk != [] ==> received == old(received) + chunk && disconnected == old(disconnected)
      ensures !success || chunk == [] ==> disconnected && delivered == old(delivered) && received == old(received)
      ensures !disconnected ==> recvBuffer.FreeSize() == RECV_BUFFER_SIZE - |recvBuffer.Contents()|
      ensures !disconnected && recvBuffer.FreeSize() == 0 ==> Parked(recvBuffer.Contents())
    {
      if !(|chunk| > 0 && success) {
        disconnected := true;
        return;
      }
      hide Parse, Concat, HasPacket, Parked;
      ParseSplit(received, chunk);
      ParseConserves(received + chunk);
      RestFits(received + chunk);
      received := received + chunk;
      Absorb(chunk);
      Deliver();
      RegisterRecv();
    }

    method Absorb(chunk: seq<Byte>)
      requires recvBuffer.Valid() && |chunk| <= recvBuffer.FreeSize()
      modifies recvBuffer, recvBuffer.buffer
      ensures recvBuffer.Valid() && recvBuffer.Contents() == old(recvBuffer.Contents()) + chunk
    {
      recvBuffer.Fill(chunk);
      var ok := recvBuffer.OnWrite(|chunk|);
    }

    method Deliver()
      requires recvBuffer.Valid()
      modifies `delivered, recvBuffer`readPos
      ensures var r := Parse(old(recvBuffer.Contents()));
              recvBuffer.Valid() && delivered == old(delivered) + r.packets && recvBuffer.Contents() == r.rest
    {
      hide Parse;
      var processLen := OnRecv(recvBuffer.ReadSegment());
      var ok := recvBuffer.OnRead(processLen);
    }
  }
}
