/** The 16-byte over-the-air header (firmware/Mesh/mesh_packet.c). */
module MeshPacket {
  import opened Bytes

  const HEADER_SIZE := 16
  const BROADCAST: u32 := 0xFFFF_FFFF

  datatype Header = Header(toId: u32, fromId: u32, packetId: u32,
                           flags: byte, channel: byte, nextHop: byte, relay: byte)

  /** The low four flag bits. */
  function HopLimit(flags: byte): byte {
    flags % 16
  }

  function Parse(buf: seq<byte>): Header
    requires |buf| >= HEADER_SIZE
  {
    Header(LeWord(buf[0..4]), LeWord(buf[4..8]), LeWord(buf[8..12]), buf[12], buf[13], buf[14], buf[15])
  }

  function Build(h: Header): (buf: seq<byte>)
    ensures |buf| == HEADER_SIZE
  {
    LeBytes(h.toId) + LeBytes(h.fromId) + LeBytes(h.packetId) + [h.flags, h.channel, h.nextHop, h.relay]
  }

  lemma HopLimitIsMask(flags: bv8)
    ensures HopLimit(flags as int) == (flags & 0x0F) as int
  {
  }

  /** Where the fields stand in the 16 bytes, numbers low byte first. */
  lemma HeaderOnWire(buf: seq<byte>)
    requires |buf| >= 16
    ensures var h := Parse(buf);
            && h.toId as int ==
               buf[0] as int + 0x100 * (buf[1] as int) + 0x1_0000 * (buf[2] as int) + 0x100_0000 * (buf[3] as int)
            && h.fromId as int ==
               buf[4] as int + 0x100 * (buf[5] as int) + 0x1_0000 * (buf[6] as int) + 0x100_0000 * (buf[7] as int)
            && h.packetId as int ==
               buf[8] as int + 0x100 * (buf[9] as int) + 0x1_0000 * (buf[10] as int) + 0x100_0000 * (buf[11] as int)
            && h.flags == buf[12] && h.channel == buf[13] && h.nextHop == buf[14] && h.relay == buf[15]
  {
  }

  lemma ParseAfterBuild(h: Header, payload: seq<byte>)
    ensures Parse(Build(h) + payload) == h
  {
    var buf := Build(h) + payload;
    assert buf[0..4] == LeBytes(h.toId) && buf[4..8] == LeBytes(h.fromId) && buf[8..12] == LeBytes(h.packetId);
    LeRoundTrip(h.toId);
    LeRoundTrip(h.fromId);
    LeRoundTrip(h.packetId);
  }

  lemma BuildAfterParse(buf: seq<byte>)
    requires |buf| >= HEADER_SIZE
    ensures Build(Parse(buf)) == buf[..HEADER_SIZE]
  {
    LeRoundTripBytes(buf[0..4]);
    LeRoundTripBytes(buf[4..8]);
    LeRoundTripBytes(buf[8..12]);
    assert buf[..16] == buf[0..4] + buf[4..8] + buf[8..12] + [buf[12], buf[13], buf[14], buf[15]];
  }

  method HeaderFromBuf(buf: array<byte>) returns (h: Header)
    requires buf.Length >= HEADER_SIZE
    ensures Build(h) == buf[..HEADER_SIZE]
    ensures h == Parse(buf[..])
  {
    var to := buf[0] as int + buf[1] as int * 0x100 + buf[2] as int * 0x1_0000 + buf[3] as int * 0x100_0000;
    var from := buf[4] as int + buf[5] as int * 0x100 + buf[6] as int * 0x1_0000 + buf[7] as int * 0x100_0000;
    var id := buf[8] as int + buf[9] as int * 0x100 + buf[10] as int * 0x1_0000 + buf[11] as int * 0x100_0000;
    h := Header(to, from, id, buf[12], buf[13], buf[14], buf[15]);
    BuildAfterParse(buf[..]);
    hide LeBytes;
    assert buf[..][..16] == buf[..16];
  }

  method StoreWord(buf: array<byte>, at: nat, v: u32)
    requires at + 4 <= buf.Length
    modifies buf
    ensures forall i :: 0 <= i < buf.Length ==>
              buf[i] == if at <= i < at + 4 then LeBytes(v)[i - at] else old(buf[i])
  {
    buf[at], buf[at + 1], buf[at + 2], buf[at + 3] :=
      v % 0x100, v / 0x100 % 0x100, v / 0x1_0000 % 0x100, v / 0x100_0000 % 0x100;
  }

  /** Writes the header in place; nothing beyond byte 15 is touched. */
  method HeaderToBuf(h: Header, buf: array<byte>)
    requires buf.Length >= HEADER_SIZE
    modifies buf
    ensures Parse(buf[..]) == h
    ensures buf[..] == Build(h) + old(buf[HEADER_SIZE..])
  {
    ghost var tail := buf[HEADER_SIZE..];
    StoreWord(buf, 0, h.toId);
    StoreWord(buf, 4, h.fromId);
    StoreWord(buf, 8, h.packetId);
    buf[12], buf[13], buf[14], buf[15] := h.flags, h.channel, h.nextHop, h.relay;
    ghost var built := Build(h) + tail;
    assert forall i :: 0 <= i < 16 ==> buf[i] == built[i];
    assert forall i :: 16 <= i < buf.Length ==> buf[i] == built[i];
    assert buf[..] == built;
    ParseAfterBuild(h, tail);
  }
}
