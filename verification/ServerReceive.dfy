/** The receiving half of the server's sessions (Session.cpp, RecvBuffer.cpp): its packet loop has
    no check for sizes below that of the header, so it may deliver short packets or never end. */
module ServerReceive {
  import opened Packets
  import opened Seqs

  /** The size and the id. */
  const HEADER_SIZE := 4
  const BUFFER_SIZE := 0x1_0000
  const BUFFER_COUNT := 10

  // ---------- The packet loop ----------

  /** The guard of the loop: it goes on with a packet of this size, be it 0. */
  predicate Ready(s: seq<Byte>) { |s| >= HEADER_SIZE && SizeOf(s) <= |s| }

  /** A whole header with size 0: the loop does not get past it. */
  predicate Stuck(s: seq<Byte>) { |s| >= HEADER_SIZE && SizeOf(s) == 0 }

  /** One round of the loop. GameSession ignores a packet of length 0. */
  function Round(l: Parsed): Parsed
    requires Ready(l.rest)
  {
    var size := SizeOf(l.rest);
    Parsed(if size == 0 then l.packets else l.packets + [l.rest[..size]], l.rest[size..])
  }

  /** The loop after `n` rounds, or when it has ended earlier. */
  function Rounds(s: seq<Byte>, n: nat): Parsed {
    if n == 0 then Parsed([], s)
    else
      var before := Rounds(s, n - 1);
      if Ready(before.rest) then Round(before) else before
  }

  ghost predicate Ends(s: seq<Byte>) { exists n: nat :: !Ready(Rounds(s, n).rest) }

  /** What is delivered before the loop ends or gets stuck, and what is left then. */
  function Parse(s: seq<Byte>): Parsed
    decreases |s|
  {
    if !Ready(s) || Stuck(s) then Parsed([], s)
    else
      var tail := Parse(s[SizeOf(s)..]);
      Parsed([s[..SizeOf(s)]] + tail.packets, tail.rest)
  }

  lemma {:induction false} RestEndsOrSticks(s: seq<Byte>)
    ensures !Ready(Parse(s).rest) || Stuck(Parse(s).rest)
    decreases |s|
  {
    if Ready(s) && !Stuck(s) {
      RestEndsOrSticks(s[SizeOf(s)..]);
    }
  }

  lemma {:induction false} RoundsFromFront(s: seq<Byte>, n: nat)
    requires Ready(s) && !Stuck(s)
    ensures var later := Rounds(s[SizeOf(s)..], n);
            Rounds(s, n + 1) == Parsed([s[..SizeOf(s)]] + later.packets, later.rest)
  {
    var size := SizeOf(s);
    if n == 0 {
      assert Rounds(s, 1) == Round(Rounds(s, 0));
      assert [] + [s[..size]] == [s[..size]] + [];
    } else {
      RoundsFromFront(s, n - 1);
      var before := Rounds(s[size..], n - 1);
      if Ready(before.rest) {
        var p := before.rest[..SizeOf(before.rest)];
        assert [s[..size]] + before.packets + [p] == [s[..size]] + (before.packets + [p]);
      }
    }
  }

  /** As many rounds as there are packets lead exactly there. */
  lemma {:induction false} RoundsReachRest(s: seq<Byte>)
    ensures Rounds(s, |Parse(s).packets|) == Parse(s)
    decreases |s|
  {
    if Ready(s) && !Stuck(s) {
      var tail := s[SizeOf(s)..];
      RoundsReachRest(tail);
      RoundsFromFront(s, |Parse(tail).packets|);
    }
  }

  lemma {:induction false} EndedStays(s: seq<Byte>, n: nat, k: nat)
    requires !Ready(Rounds(s, n).rest)
    ensures Rounds(s, n + k) == Rounds(s, n)
  {
    if k > 0 {
      EndedStays(s, n, k - 1);
      assert Rounds(s, n + k) == Rounds(s, n + k - 1);
    }
  }

  lemma {:induction false} StuckStays(s: seq<Byte>, n: nat, k: nat)
    requires Stuck(Rounds(s, n).rest)
    ensures Rounds(s, n + k) == Rounds(s, n)
  {
    if k > 0 {
      StuckStays(s, n, k - 1);
      var before := Rounds(s, n + k - 1);
      assert Rounds(s, n + k) == Round(before) && before.rest[0..] == before.rest;
    }
  }

  lemma NotBothEndedAndStuck(s: seq<Byte>, m: nat, n: nat)
    ensures Ready(Rounds(s, m).rest) || !Stuck(Rounds(s, n).rest)
  {
    if m <= n && !Ready(Rounds(s, m).rest) {
      EndedStays(s, m, n - m);
    }
    if n < m && Stuck(Rounds(s, n).rest) {
      StuckStays(s, n, m - n);
    }
  }

  /** The loop ends exactly when no packet boundary that it reaches with a whole header left has
      size 0, and then it has delivered and left what Parse says. */
  lemma LoopEndsExactly(s: seq<Byte>)
    ensures Ends(s) <==> forall n: nat :: !Stuck(Rounds(s, n).rest)
    ensures Ends(s) <==> !Stuck(Parse(s).rest)
    ensures forall n: nat :: !Ready(Rounds(s, n).rest) ==> Rounds(s, n) == Parse(s)
  {
    var m := |Parse(s).packets|;
    RoundsReachRest(s);
    RestEndsOrSticks(s);
    forall n: nat | !Ready(Rounds(s, n).rest) ensures Rounds(s, n) == Parse(s) && !Stuck(Parse(s).rest) {
      NotBothEndedAndStuck(s, n, m);
      if m <= n {
        EndedStays(s, m, n - m);
      } else {
        EndedStays(s, n, m - n);
      }
    }
    forall n: nat | Stuck(Rounds(s, n).rest) ensures Stuck(Parse(s).rest) {
      NotBothEndedAndStuck(s, m, n);
    }
    hide Ready, Stuck, Parse, Rounds;
  }

  /** Nothing is lost, invented or reordered, and no packet is empty. */
  lemma {:induction false} ParseConserves(s: seq<Byte>)
    ensures var r := Parse(s); Concat(r.packets) + r.rest == s && forall p :: p in r.packets ==> p != []
    decreases |s|
  {
    if !Ready(s) || Stuck(s) {
      assert Concat([]) + s == s;
    } else {
      var n := SizeOf(s);
      var tail := Parse(s[n..]);
      assert Parse(s) == Parsed([s[..n]] + tail.packets, tail.rest);
      hide *;
      ParseConserves(s[n..]);
      ConcatAppend([s[..n]], tail.packets);
      ConcatOne(s[..n]);
      FrontBack(s, n, Concat(tail.packets), tail.rest);
    }
  }

  /** A loop that has not got stuck holds back less than the largest packet. */
  lemma RestFits(s: seq<Byte>)
    ensures Stuck(Parse(s).rest) || |Parse(s).rest| < 0xFFFF
  {
    RestEndsOrSticks(s);
  }

  lemma ParseFront(s: seq<Byte>, t: seq<Byte>)
    requires Ready(s) && !Stuck(s)
    ensures |s| >= 2 && 0 < SizeOf(s) <= |s|
    ensures var later := Parse(s[SizeOf(s)..] + t);
            Parse(s + t) == Parsed([s[..SizeOf(s)]] + later.packets, later.rest)
  {
    var n := SizeOf(s);
    assert (s + t)[..n] == s[..n] && (s + t)[n..] == s[n..] + t;
    assert Ready(s + t) && !Stuck(s + t) && SizeOf(s + t) == n;
  }

  /** Parsing in two pieces, keeping the rest of the first, is parsing at once. */
  lemma {:induction false} ParseSplit(s: seq<Byte>, t: seq<Byte>)
    ensures var first := Parse(s); var second := Parse(first.rest + t);
            Parse(s + t) == Parsed(first.packets + second.packets, second.rest)
    decreases |s|
  {
    hide *;
    if !Ready(s) || Stuck(s) {
      ParseStops(s, [], 0);
      assert [] + Parse(s + t).packets == Parse(s + t).packets && s[0..] == s;
    } else {
      ParseFront(s, t);
      ParseFront(s, []);
      var p, tail := s[..SizeOf(s)], s[SizeOf(s)..];
      assert s + [] == s && tail + [] == tail;
      ParseSplit(tail, t);
      var second := Parse(Parse(tail).rest + t);
      assert [p] + (Parse(tail).packets + second.packets) == [p] + Parse(tail).packets + second.packets;
    }
  }

  /** What has been delivered and kept after receiving some pieces, one after the other. */
  function Feed(chunks: seq<seq<Byte>>): Parsed {
    if chunks == [] then Parsed([], [])
    else
      var before := Feed(chunks[..|chunks| - 1]);
      var now := Parse(before.rest + chunks[|chunks| - 1]);
      Parsed(before.packets + now.packets, now.rest)
  }

  /** However the stream is cut: the outcome is that of one parse, and the loop got stuck on some
      piece exactly when the whole stream gets it stuck. */
  lemma {:induction false} ChunksDoNotMatter(chunks: seq<seq<Byte>>)
    ensures Feed(chunks) == Parse(Concat(chunks))
    ensures (exists n :: 0 <= n <= |chunks| && Stuck(Feed(chunks[..n]).rest)) <==> Stuck(Parse(Concat(chunks)).rest)
  {
    assert chunks[..|chunks|] == chunks;
    if chunks != [] {
      var front, last := chunks[..|chunks| - 1], chunks[|chunks| - 1];
      ChunksDoNotMatter(front);
      ParseSplit(Concat(front), last);
      if Stuck(Feed(front).rest) {
        assert Stuck(Feed(front).rest + last);
      }
      forall n | 0 <= n < |chunks| ensures front[..n] == chunks[..n] {}
      hide Parse, Stuck;
    }
  }

  /** Size 0, whether or not the rest of the header is there yet. */
  predicate Doomed(s: seq<Byte>) { |s| >= 2 && SizeOf(s) == 0 }

  /** The guards in bytes: the size is in the first two of at least four bytes, low byte first. */
  lemma HeaderBytes(s: seq<Byte>)
    ensures Ready(s) <==> |s| >= 4 && s[0] as int + 256 * s[1] as int <= |s|
    ensures Stuck(s) <==> |s| >= 4 && s[0] == 0 && s[1] == 0
    ensures Doomed(s) <==> |s| >= 2 && s[0] == 0 && s[1] == 0
  {}

  /** A stream never delivers anything again exactly when what is left begins with size 0; the loop
      is stuck as soon as there are four bytes of it. */
  lemma SilentExactly(s: seq<Byte>)
    ensures Doomed(Parse(s).rest) <==> forall t :: Parse(s + t).packets == Parse(s).packets
    ensures Stuck(Parse(s).rest) <==> Doomed(Parse(s).rest) && |Parse(s).rest| >= 4
  {
    var rest := Parse(s).rest;
    if Doomed(rest) {
      forall t ensures Parse(s + t).packets == Parse(s).packets {
        ParseSplit(s, t);
        assert Parse(rest + t) == Parsed([], rest + t);
      }
    } else {
      ParseSplit(s, Plenty());
      SizeBeforePlenty(rest);
      assert |Parse(rest + Plenty()).packets| > 0;
    }
  }

  // ---------- The buffer ----------

  /** RecvBuffer of the server: ten times as large as what it keeps free for one receive. */
  class RecvBuffer {
    const bufferSize: nat
    const buffer: array<Byte>
    var readPos: nat
    var writePos: nat

    ghost predicate Valid()
      reads this
    {
      readPos <= writePos <= buffer.Length == bufferSize * BUFFER_COUNT
    }

    ghost function Contents(): seq<Byte>
      requires Valid()
      reads this, buffer
    {
      buffer[readPos..writePos]
    }

    constructor (bufferSize: nat)
      ensures Valid() && Contents() == [] && fresh(buffer) && this.bufferSize == bufferSize
      ensures FreeSize() == bufferSize * BUFFER_COUNT
    {
      this.bufferSize := bufferSize;
      buffer := new Byte[bufferSize * BUFFER_COUNT](_ => 0);
      readPos, writePos := 0, 0;
    }

    function DataSize(): int
      reads `readPos, `writePos
    {
      writePos - readPos
    }

    function FreeSize(): int
      reads `writePos
    {
      buffer.Length - writePos
    }

    function ReadSegment(): (s: seq<Byte>)
      requires Valid()
      reads this, buffer
      ensures s == Contents()
    {
      buffer[readPos..writePos]
    }

    /** The waiting bytes move to the front when less than one receive would fit behind them.
        memcpy wants regions that do not overlap. */
    method Clean()
      requires Valid()
      requires 0 < DataSize() && FreeSize() < bufferSize ==> DataSize() <= readPos
      modifies this, buffer
      ensures Valid() && Contents() == old(Contents())
      ensures FreeSize() == if old(DataSize()) == 0 then buffer.Length
                            else if old(FreeSize()) < bufferSize then buffer.Length - |Contents()|
                            else old(FreeSize())
    {
      var dataSize := DataSize();
      if dataSize == 0 {
        readPos, writePos := 0, 0;
      } else if FreeSize() < bufferSize {
        ghost var waiting := Contents();
        forall k | 0 <= k < dataSize {
          buffer[k] := buffer[readPos + k];
        }
        readPos, writePos := 0, dataSize;
        assert Contents() == waiting;
      }
    }

    method OnRead(numOfBytes: nat) returns (ok: bool)
      requires Valid()
      modifies `readPos
      ensures Valid() && ok == (numOfBytes <= old(DataSize()))
      ensures Contents() == if ok then old(Contents())[numOfBytes..] else old(Contents())
      ensures readPos == if ok then old(readPos) + numOfBytes else old(readPos)
    {
      if numOfBytes > DataSize() {
        return false;
      }
      readPos := readPos + numOfBytes;
      return true;
    }

    /** The socket puts bytes behind the waiting ones, without moving the position. */
    method Fill(chunk: seq<Byte>)
      requires Valid() && |chunk| <= FreeSize()
      modifies buffer
      ensures Contents() == old(Contents()) && buffer[writePos..writePos + |chunk|] == chunk
    {
      for i := 0 to |chunk|
        invariant Contents() == old(Contents()) && buffer[writePos..writePos + i] == chunk[..i]
      {
        buffer[writePos + i] := chunk[i];
      }
    }

    method OnWrite(numOfBytes: nat) returns (ok: bool)
      requires Valid()
      modifies `writePos
      ensures Valid() && ok == (numOfBytes <= old(FreeSize()))
      ensures ok ==> Contents() == old(Contents()) + buffer[old(writePos)..old(writePos) + numOfBytes]
      ensures ok ==> writePos == old(writePos) + numOfBytes
      ensures !ok ==> Contents() == old(Contents()) && writePos == old(writePos)
    {
      if numOfBytes > FreeSize() {
        return false;
      }
      writePos := writePos + numOfBytes;
      return true;
    }
  }

  // ---------- The session ----------

  /** What the packet loop answers, if it ever does. */
  datatype Outcome = Used(processLen: nat) | NeverEnds

  class Receiver {
    const recvBuffer: RecvBuffer
    var connected: bool
    /** The thread that serves this connection is in the packet loop for ever. */
    var hangs: bool
    /** The packets that GameSession has put into its queue. */
    var delivered: seq<seq<Byte>>
    /** Everything the socket has handed over. */
    ghost var received: seq<Byte>

    /** Delivered bytes, and kept ones unless the thread hangs, are those of one parse of everything
        received; the next receive always has 64 KiB. */
    ghost predicate Valid()
      reads this, recvBuffer, recvBuffer.buffer
    {
      && recvBuffer.Valid() && recvBuffer.bufferSize == BUFFER_SIZE
      && Parse(received).packets == delivered
      && (hangs <==> Stuck(Parse(received).rest))
      && (!hangs ==> Parse(received).rest == recvBuffer.Contents() && recvBuffer.FreeSize() >= BUFFER_SIZE)
    }

    constructor ()
      ensures Valid() && connected && !hangs && delivered == [] && received == []
      ensures fresh(recvBuffer) && fresh(recvBuffer.buffer) && recvBuffer.FreeSize() == 655360
    {
      recvBuffer := new RecvBuffer(BUFFER_SIZE);
      connected, hangs, delivered, received := true, false, [], [];
    }

    /** PacketSession::OnRecv. The source has no test for size 0: there its loop goes round for ever,
        which is the answer NeverEnds here. */
    method OnRecv(segment: seq<Byte>) returns (r: Outcome)
      modifies `delivered
      ensures delivered == old(delivered) + Parse(segment).packets
      ensures r.NeverEnds? <==> !Ends(segment)
      ensures r.NeverEnds? <==> Stuck(Parse(segment).rest)
      ensures r.Used? ==> r.processLen <= |segment| && segment[r.processLen..] == Parse(segment).rest
    {
      LoopEndsExactly(segment);
      hide Parse, Ends;
      var processLen := 0;
      ghost var parsed: seq<seq<Byte>> := [];
      while true
        invariant processLen <= |segment| && delivered == old(delivered) + parsed
        invariant Parse(segment)
                  == Parsed(parsed + Parse(segment[processLen..]).packets, Parse(segment[processLen..]).rest)
        decreases |segment| - processLen
      {
        var dataSize := |segment| - processLen;
        if dataSize < HEADER_SIZE {
          ParseStops(segment, parsed, processLen);
          return Used(processLen);
        }
        var size := SizeOf(segment[processLen..processLen + HEADER_SIZE]);
        HeaderAt(segment, processLen);
        hide Ready, Stuck, SizeOf;
        if dataSize < size {
          ParseStops(segment, parsed, processLen);
          return Used(processLen);
        }
        if size == 0 {
          ParseStops(segment, parsed, processLen);
          return NeverEnds;
        }
        ParseMore(segment, parsed, processLen);
        parsed := parsed + [segment[processLen..][..size]];
        OnRecvPacket(segment[processLen..processLen + size]);
        processLen := processLen + size;
      }
    }

    /** GameSession::OnRecvPacket: the packet is copied and queued. */
    method OnRecvPacket(packet: seq<Byte>)
      modifies `delivered
      ensures delivered == if packet == [] then old(delivered) else old(delivered) + [packet]
    {
      if |packet| <= 0 {
        return;
      }
      delivered := delivered + [packet];
    }

    /** ProcessRecv for `chunk`, which the socket has put into the posted space. The test for an
        overflow never fires (the answers are asserted), the copy never overlaps, and the thread
        hangs exactly when the stream has size 0 at a packet boundary. */
    method ProcessRecv(chunk: seq<Byte>)
      requires Valid() && connected && !hangs && |chunk| <= recvBuffer.FreeSize()
      modifies this, recvBuffer, recvBuffer.buffer
      ensures Valid() && received == old(received) + chunk
      ensures connected <==> chunk != []
      ensures chunk == [] ==> delivered == old(delivered) && !hangs
    {
      hide Parse, Stuck, Concat;
      assert received + [] == received;
      if |chunk| == 0 {
        connected := false;
        return;
      }
      ParseSplit(received, chunk);
      RestFits(received + chunk);
      received := received + chunk;
      Absorb(chunk);
      Deliver();
    }

    method Absorb(chunk: seq<Byte>)
      requires recvBuffer.Valid() && |chunk| <= recvBuffer.FreeSize()
      modifies recvBuffer, recvBuffer.buffer
      ensures recvBuffer.Valid() && recvBuffer.Contents() == old(recvBuffer.Contents()) + chunk
    {
      recvBuffer.Fill(chunk);
      var ok := recvBuffer.OnWrite(|chunk|);
      assert ok;
    }

    method Deliver()
      requires recvBuffer.Valid() && recvBuffer.bufferSize == BUFFER_SIZE && !hangs
      requires var rest := Parse(recvBuffer.Contents()).rest; Stuck(rest) || |rest| < 0xFFFF
      modifies `delivered, `hangs, recvBuffer, recvBuffer.buffer
      ensures var r := Parse(old(recvBuffer.Contents()));
              && recvBuffer.Valid() && delivered == old(delivered) + r.packets && (hangs <==> Stuck(r.rest))
              && (!hangs ==> recvBuffer.Contents() == r.rest && recvBuffer.FreeSize() >= BUFFER_SIZE)
    {
      hide Parse, Stuck, Ends;
      var r := OnRecv(recvBuffer.ReadSegment());
      match r {
        case NeverEnds =>
          hangs := true;
        case Used(processLen) =>
          var ok := recvBuffer.OnRead(processLen);
          assert ok;
          recvBuffer.Clean();
      }
    }
  }

  lemma ParseMore(s: seq<Byte>, before: seq<seq<Byte>>, k: nat)
    requires k <= |s| && Ready(s[k..]) && !Stuck(s[k..])
    requires Parse(s) == Parsed(before + Parse(s[k..]).packets, Parse(s[k..]).rest)
    ensures var here := s[k..];
            var later := Parse(s[k + SizeOf(here)..]);
            Parse(s) == Parsed(before + [here[..SizeOf(here)]] + later.packets, later.rest)
  {
    var here := s[k..];
    assert here[SizeOf(here)..] == s[k + SizeOf(here)..];
  }

  /** The header that the loop reads at a boundary. */
  lemma HeaderAt(s: seq<Byte>, k: nat)
    requires k + HEADER_SIZE <= |s|
    ensures var here := s[k..]; var size := SizeOf(s[k..k + HEADER_SIZE]);
            && SizeOf(here) == size
            && (Ready(here) <==> size <= |s| - k) && (Stuck(here) <==> size == 0)
            && (size <= |s| - k ==> here[..size] == s[k..k + size])
  {}

  lemma ParseStops(s: seq<Byte>, before: seq<seq<Byte>>, k: nat)
    requires k <= |s| && (!Ready(s[k..]) || Stuck(s[k..]))
    requires Parse(s) == Parsed(before + Parse(s[k..]).packets, Parse(s[k..]).rest)
    ensures Parse(s) == Parsed(before, s[k..])
  {
    assert before + [] == before;
  }
}
