/** Streams of bytes that begin with the size of their first packet. */
module Packets {
  type Byte = x: int | 0 <= x < 0x100

  /** The 16-bit number at the start of a segment, low byte first. */
  function SizeOf(s: seq<Byte>): (n: nat)
    requires |s| >= 2
    ensures n < 0x1_0000
  {
    s[0] as int + 0x100 * (s[1] as int)
  }

  /** What a packet loop hands over, and what it leaves. */
  datatype Parsed = Parsed(packets: seq<seq<Byte>>, rest: seq<Byte>)

  /** Bytes that complete any packet, whatever its size. */
  function Plenty(): (t: seq<Byte>)
    ensures |t| > 0x1_0000 && t[0] == 1 && t[1] == 1
  {
    [1, 1] + seq(0x1_0000, _ => 0)
  }

  /** Behind fewer than two bytes they make a size of at least 256; a size that is there stays. */
  lemma SizeBeforePlenty(s: seq<Byte>)
    ensures SizeOf(s + Plenty()) <= |s + Plenty()|
    ensures if |s| >= 2 then SizeOf(s + Plenty()) == SizeOf(s) else SizeOf(s + Plenty()) >= 0x100
  {}
}
