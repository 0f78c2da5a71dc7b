/** What a packet says, wherever in the mesh it is decoded. */
module Delivery {
  import opened Bytes
  import opened MeshPacket
  import opened FloodRouter
  import opened AesMeshtastic
  import opened PbData
  import opened LineInput
  import opened MeshNode

  /** Block operations that cover the longest payload. */
  const FULL := 16

  /** Enough block operations succeed for the payload of a packet. */
  predicate Covers(blocks: nat, packet: Packet) {
    |packet| <= HEADER_SIZE + 16 * blocks
  }

  lemma ContentCovered(cfg: Config, packet: Packet, blocks: nat)
    requires |packet| >= HEADER_SIZE && Covers(blocks, packet)
    ensures ContentOf(cfg, packet, blocks) == ContentOf(cfg, packet, FULL)
  {
    var h := Parse(packet);
    var payload := packet[HEADER_SIZE..];
    CtrCovered(cfg.hal, cfg.key, payload, h.packetId, h.fromId, blocks);
    CtrCovered(cfg.hal, cfg.key, payload, h.packetId, h.fromId, FULL);
    var data := Crypt(cfg, payload, h.packetId, h.fromId, blocks);
    hide Decode, Parse, Ctr;
    assert data == Crypt(cfg, payload, h.packetId, h.fromId, FULL);
  }

  /** Relays change nothing that decoding looks at. */
  lemma RelayedContent(cfg: Config, packet: Packet, relays: seq<byte>, blocks: nat)
    requires |packet| >= HEADER_SIZE
    ensures ContentOf(cfg, RelayedBy(packet, relays), blocks) == ContentOf(cfg, packet, blocks)
    ensures Parse(RelayedBy(packet, relays)).toId == Parse(packet).toId
    ensures KeyOf(RelayedBy(packet, relays)) == KeyOf(packet)
  {
    RelayChain(packet, relays);
    hide Decode, Parse, RelayedBy, Ctr;
  }

  lemma ForwardedContent(cfg: Config, packet: Packet, me: byte, blocks: nat)
    requires |packet| >= HEADER_SIZE
    ensures ContentOf(cfg, PrepareForward(packet, me), blocks) == ContentOf(cfg, packet, blocks)
  {
    assert [me][..0] == [] && RelayedBy(packet, [me]) == PrepareForward(RelayedBy(packet, []), me);
    RelayedContent(cfg, packet, [me], blocks);
  }

  function Min(a: nat, b: nat): nat {
    if a <= b then a else b
  }

  /** Blocks in the payload of a text. */
  function BlocksOf(text: seq<byte>): nat {
    (4 + |text| + 15) / 16
  }

  /** Encryption and decryption of the text stop after the same block. */
  predicate StopAlike(text: seq<byte>, encrypt: nat, decrypt: nat) {
    Min(encrypt, BlocksOf(text)) == Min(decrypt, BlocksOf(text))
  }

  /** Block operations beyond the end of the data make no difference. */
  lemma CryptStops(cfg: Config, data: seq<byte>, packetId: u32, from: u32, blocks: nat)
    ensures Crypt(cfg, data, packetId, from, blocks) ==
            Crypt(cfg, data, packetId, from, Min(blocks, (|data| + 15) / 16))
  {
    if blocks > (|data| + 15) / 16 {
      CtrCovered(cfg.hal, cfg.key, data, packetId, from, blocks);
      CtrCovered(cfg.hal, cfg.key, data, packetId, from, (|data| + 15) / 16);
    }
  }

  /** The bytes of a packet whose first block operation fails: header, then the text in the clear. */
  lemma PacketInClear(cfg: Config, id: u32, packetId: u32, to: u32, text: seq<byte>)
    requires |text| <= 127
    ensures MakePacket(cfg, id, packetId, to, text, 0) ==
            [to % 0x100, to / 0x100 % 0x100, to / 0x1_0000 % 0x100, to / 0x100_0000,
             id % 0x100, id / 0x100 % 0x100, id / 0x1_0000 % 0x100, id / 0x100_0000,
             packetId % 0x100, packetId / 0x100 % 0x100, packetId / 0x1_0000 % 0x100, packetId / 0x100_0000,
             0x03, 0, 0, 0, 0x08, 0x01, 0x12, |text|] + text
  {
    var plain := Encoded(TEXT_PORT, text);
    assert Crypt(cfg, plain, packetId, id, 0) == plain;
    hide Crypt;
  }

  /** A packet whose decryption stops where its encryption stopped decodes to what was put in. */
  lemma AlikeIsRead(cfg: Config, id: u32, packetId: u32, to: u32, text: seq<byte>, blocks: nat, decrypt: nat)
    requires 1 <= |text| <= MAX_TEXT && StopAlike(text, blocks, decrypt)
    ensures var p := MakePacket(cfg, id, packetId, to, text, blocks);
            ContentOf(cfg, p, decrypt) == Text(TEXT_PORT, text)
  {
    var plain := Encoded(TEXT_PORT, text);
    var p := MakePacket(cfg, id, packetId, to, text, blocks);
    SentHeader(cfg, id, packetId, to, text, blocks);
    EncodeThenDecode(TEXT_PORT, text);
    hide Decode, Parse, Ctr, Encoded;
    var cipher := Crypt(cfg, plain, packetId, id, blocks);
    assert p[HEADER_SIZE..] == cipher;
    CryptStops(cfg, plain, packetId, id, blocks);
    CryptStops(cfg, cipher, packetId, id, blocks);
    CryptStops(cfg, cipher, packetId, id, decrypt);
    CtrTwice(cfg.hal, cfg.key, plain, packetId, id, blocks);
    ContentOfPlain(cfg, p, decrypt, plain, text);
  }

  /** A packet whose encryption was not cut short decodes to what was put in. */
  lemma SentContent(cfg: Config, id: u32, packetId: u32, to: u32, text: seq<byte>, blocks: nat)
    requires 1 <= |text| <= MAX_TEXT && 4 + |text| <= 16 * blocks
    ensures var p := MakePacket(cfg, id, packetId, to, text, blocks);
            ContentOf(cfg, p, FULL) == Text(TEXT_PORT, text)
  {
    AlikeIsRead(cfg, id, packetId, to, text, blocks, FULL);
  }

  /** An empty text is no text. */
  lemma EmptyIsNoText(cfg: Config, id: u32, packetId: u32, to: u32, blocks: nat, decrypt: nat)
    requires StopAlike([], blocks, decrypt)
    ensures ContentOf(cfg, MakePacket(cfg, id, packetId, to, [], blocks), decrypt) == NoText
  {
    var plain := Encoded(TEXT_PORT, []);
    var p := MakePacket(cfg, id, packetId, to, [], blocks);
    SentHeader(cfg, id, packetId, to, [], blocks);
    EncodeThenDecode(TEXT_PORT, []);
    hide Decode, Parse, Ctr, Encoded;
    var cipher := Crypt(cfg, plain, packetId, id, blocks);
    assert p[HEADER_SIZE..] == cipher;
    CryptStops(cfg, plain, packetId, id, blocks);
    CryptStops(cfg, cipher, packetId, id, blocks);
    CryptStops(cfg, cipher, packetId, id, decrypt);
    CtrTwice(cfg.hal, cfg.key, plain, packetId, id, blocks);
    ContentIs(cfg, p, decrypt, plain);
  }

  lemma ContentOfPlain(cfg: Config, p: Packet, blocks: nat, plain: seq<byte>, text: seq<byte>)
    requires |p| >= HEADER_SIZE && text != []
    requires Crypt(cfg, p[HEADER_SIZE..], Parse(p).packetId, Parse(p).fromId, blocks) == plain
    requires DecodesTo(plain, TEXT_PORT, text)
    ensures ContentOf(cfg, p, blocks) == Text(TEXT_PORT, text)
  {
    hide Decode, Parse, Ctr;
  }

  lemma SentHeader(cfg: Config, id: u32, packetId: u32, to: u32, text: seq<byte>, blocks: nat)
    requires |text| <= MAX_TEXT
    ensures var p := MakePacket(cfg, id, packetId, to, text, blocks);
            && Parse(p) == Header(to, id, packetId, 3, 0, 0, 0)
            && KeyOf(p) == Key(id, packetId) && Hop(p) == 3
  {
    var h := Header(to, id, packetId, 3, 0, 0, 0);
    var p := MakePacket(cfg, id, packetId, to, text, blocks);
    ParseAfterBuild(h, Crypt(cfg, Encoded(TEXT_PORT, text), packetId, id, blocks));
  }

  /**
   * Any text of 1 to 127 bytes that a node sends is shown, byte for byte and with the text portnum, by any addressed
   * node with the same key that hears it after any chain of relays, provided that decryption stops where encryption
   * stopped; it is answered by a pong to the sender unless it is "pong" itself.
   */
  lemma MultiHopDelivery(cfg: Config, sender: Trace, to: u32, text: seq<byte>, blocks: nat,
                         relays: seq<byte>, receiver: Trace, env: HearEnv)
    requires 1 <= |text| <= MAX_TEXT && StopAlike(text, blocks, env.decrypt)
    requires (to == BROADCAST || to == receiver.id) && !receiver.halted
    ensures var sent := Send(cfg, sender, to, text, blocks);
            var heard := RelayedBy(sent.out[|sender.out|].packet, relays);
            var r := Hear(cfg, receiver, heard, env);
            && |sent.out| == |sender.out| + 1
            && ContentOf(cfg, heard, env.decrypt) == Text(TEXT_PORT, text)
            && !r.halted && r.shown == receiver.shown + [Received(text)]
            && (text != PONG ==>
                  |r.out| > |receiver.out|
                  && r.out[|receiver.out|].packet ==
                     MakePacket(cfg, receiver.id, receiver.nextId, sender.id, PONG, env.encrypt))
  {
    var p := MakePacket(cfg, sender.id, sender.nextId, to, text, blocks);
    var heard := RelayedBy(p, relays);
    AlikeIsRead(cfg, sender.id, sender.nextId, to, text, blocks, env.decrypt);
    SentHeader(cfg, sender.id, sender.nextId, to, text, blocks);
    RelayedContent(cfg, p, relays, env.decrypt);
    HeardText(cfg, receiver, heard, env, text);
  }

  lemma HeardText(cfg: Config, t: Trace, p: Packet, env: HearEnv, text: seq<byte>)
    requires |p| > HEADER_SIZE && Addressed(p, t.id) && !t.halted
    requires ContentOf(cfg, p, env.decrypt) == Text(TEXT_PORT, text)
    ensures var r := Hear(cfg, t, p, env);
            && !r.halted && r.shown == t.shown + [Received(text)]
            && (text != PONG ==>
                  && |r.out| > |t.out|
                  && r.out[|t.out|].packet == MakePacket(cfg, t.id, t.nextId, Parse(p).fromId, PONG, env.encrypt))
  {
    hide ContentOf, MakePacket, PrepareForward, ShouldForward, Insert, Parse;
  }
}
