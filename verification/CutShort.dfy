/** What becomes of a text when block operations fail. */
module CutShort {
  import opened Bytes
  import opened MeshPacket
  import opened FloodRouter
  import opened AesMeshtastic
  import opened PbData
  import opened MeshNode
  import opened Delivery

  /** The block whose byte `at` is 1, all others being 0. */
  function Unit(at: nat): Block {
    seq(16, i => if i == at then 1 else 0)
  }

  /** A block operation that answers every input with this one block. */
  function Flip(at: nat): Peripheral {
    (key: Words, input: Words) => ToWords(Unit(at))
  }

  lemma FlipIs(at: nat, key: Block, packetId: u32, from: u32, i: nat)
    ensures Keystream(Flip(at), key, packetId, from, i) == if i % 16 == at then 1 else 0
  {
    WordsRoundTrip(Unit(at), [0, 0, 0, 0]);
    hide ToWords, FromWords, Nonce;
  }

  /** The data in which bit 0 of byte `at` of every block that is transformed at one end only is inverted. */
  function Garbled(data: seq<byte>, at: nat, encrypt: nat, decrypt: nat): (r: seq<byte>)
    ensures |r| == |data|
  {
    seq(|data|, i requires 0 <= i < |data| =>
      if (i < 16 * encrypt) != (i < 16 * decrypt) && i % 16 == at then Xor(data[i], 1) else data[i])
  }

  lemma FlippedTwice(at: nat, key: Block, data: seq<byte>, packetId: u32, from: u32, encrypt: nat, decrypt: nat)
    ensures var cfg := Config(Flip(at), key);
            Crypt(cfg, Crypt(cfg, data, packetId, from, encrypt), packetId, from, decrypt) ==
            Garbled(data, at, encrypt, decrypt)
  {
    hide Xor, Flip, Keystream;
    var cfg := Config(Flip(at), key);
    var r := Crypt(cfg, Crypt(cfg, data, packetId, from, encrypt), packetId, from, decrypt);
    forall i | 0 <= i < |data|
      ensures r[i] == Garbled(data, at, encrypt, decrypt)[i]
    {
      FlipIs(at, key, packetId, from, i);
      XorTwice(data[i], Keystream(Flip(at), key, packetId, from, i));
      XorZero(data[i]);
    }
  }

  /** The byte to invert: behind the four bytes of the encoding if the first block is the one transformed once. */
  function Target(encrypt: nat, decrypt: nat): nat {
    if encrypt == 0 || decrypt == 0 then 4 else 0
  }

  function Misread(text: seq<byte>, encrypt: nat, decrypt: nat): (other: seq<byte>)
    requires |text| <= MAX_TEXT
    ensures |other| == |text|
  {
    Garbled(Encoded(TEXT_PORT, text), Target(encrypt, decrypt), encrypt, decrypt)[4..]
  }

  lemma TargetIsHit(text: seq<byte>, encrypt: nat, decrypt: nat)
    requires 1 <= |text| && !StopAlike(text, encrypt, decrypt)
    ensures var at := Target(encrypt, decrypt);
            var k := 16 * Min(encrypt, decrypt) + at;
            4 <= k < 4 + |text| && k % 16 == at && (k < 16 * encrypt) != (k < 16 * decrypt)
  {
  }

  lemma GarbledIsOther(text: seq<byte>, encrypt: nat, decrypt: nat)
    requires 1 <= |text| <= MAX_TEXT && !StopAlike(text, encrypt, decrypt)
    ensures var other := Misread(text, encrypt, decrypt);
            && other != text
            && Garbled(Encoded(TEXT_PORT, text), Target(encrypt, decrypt), encrypt, decrypt) ==
               Encoded(TEXT_PORT, other)
  {
    hide Xor, StopAlike, BlocksOf;
    var plain, at := Encoded(TEXT_PORT, text), Target(encrypt, decrypt);
    var r := Garbled(plain, at, encrypt, decrypt);
    assert r[..4] == plain[..4];
    assert r == r[..4] + r[4..];
    TargetIsHit(text, encrypt, decrypt);
    var k := 16 * Min(encrypt, decrypt) + at;
    XorOne(plain[k]);
    assert r[k] == r[4..][k - 4] && plain[k] == text[k - 4];
  }

  /**
   * For every text whose encryption and decryption do not stop alike there is a cipher under which the packet, after
   * any relays, decodes to another text.
   */
  lemma UnlikeIsMisread(key: Block, id: u32, packetId: u32, to: u32, text: seq<byte>, blocks: nat,
                        relays: seq<byte>, decrypt: nat)
    requires 1 <= |text| <= MAX_TEXT && !StopAlike(text, blocks, decrypt)
    ensures var cfg := Config(Flip(Target(blocks, decrypt)), key);
            var other := Misread(text, blocks, decrypt);
            && other != text
            && ContentOf(cfg, RelayedBy(MakePacket(cfg, id, packetId, to, text, blocks), relays), decrypt) ==
               Text(TEXT_PORT, other)
  {
    var at := Target(blocks, decrypt);
    var cfg := Config(Flip(at), key);
    var plain, other := Encoded(TEXT_PORT, text), Misread(text, blocks, decrypt);
    var p := MakePacket(cfg, id, packetId, to, text, blocks);
    SentHeader(cfg, id, packetId, to, text, blocks);
    GarbledIsOther(text, blocks, decrypt);
    EncodeThenDecode(TEXT_PORT, other);
    hide Decode, Parse, Crypt, Encoded, Flip, Garbled;
    assert p[HEADER_SIZE..] == Crypt(cfg, plain, packetId, id, blocks);
    FlippedTwice(at, key, plain, packetId, id, blocks, decrypt);
    ContentOfPlain(cfg, p, decrypt, Encoded(TEXT_PORT, other), other);
    RelayedContent(cfg, p, relays, decrypt);
  }

  /**
   * A text of 1 to 127 bytes is read as it was sent, whatever the key and the cipher and after any relays, exactly if
   * its decryption stops where its encryption stopped.
   */
  lemma ArrivesIff(id: u32, packetId: u32, to: u32, text: seq<byte>, blocks: nat, relays: seq<byte>, decrypt: nat)
    requires 1 <= |text| <= MAX_TEXT
    ensures (forall cfg :: ContentOf(cfg, RelayedBy(MakePacket(cfg, id, packetId, to, text, blocks), relays), decrypt)
                           == Text(TEXT_PORT, text))
            <==> StopAlike(text, blocks, decrypt)
  {
    hide MakePacket, ContentOf, RelayedBy, Flip, Misread, StopAlike;
    if StopAlike(text, blocks, decrypt) {
      forall cfg
        ensures ContentOf(cfg, RelayedBy(MakePacket(cfg, id, packetId, to, text, blocks), relays), decrypt)
                == Text(TEXT_PORT, text)
      {
        AlikeIsRead(cfg, id, packetId, to, text, blocks, decrypt);
        RelayedContent(cfg, MakePacket(cfg, id, packetId, to, text, blocks), relays, decrypt);
      }
    } else {
      UnlikeIsMisread(Unit(0), id, packetId, to, text, blocks, relays, decrypt);
    }
  }

  /** And a running node that hears such a packet, addressed to it, shows a text that nobody typed. */
  lemma MisreadIsShown(key: Block, sender: Trace, to: u32, text: seq<byte>, blocks: nat, relays: seq<byte>,
                       receiver: Trace, env: HearEnv)
    requires 1 <= |text| <= MAX_TEXT && !StopAlike(text, blocks, env.decrypt)
    requires (to == BROADCAST || to == receiver.id) && !receiver.halted
    ensures var cfg := Config(Flip(Target(blocks, env.decrypt)), key);
            var sent := Send(cfg, sender, to, text, blocks);
            var other := Misread(text, blocks, env.decrypt);
            && other != text && |sent.out| == |sender.out| + 1
            && Hear(cfg, receiver, RelayedBy(sent.out[|sender.out|].packet, relays), env).shown ==
               receiver.shown + [Received(other)]
  {
    hide MakePacket, ContentOf, Hear, Flip, Misread, StopAlike, Parse;
    var cfg := Config(Flip(Target(blocks, env.decrypt)), key);
    var p := MakePacket(cfg, sender.id, sender.nextId, to, text, blocks);
    UnlikeIsMisread(key, sender.id, sender.nextId, to, text, blocks, relays, env.decrypt);
    SentHeader(cfg, sender.id, sender.nextId, to, text, blocks);
    RelayedContent(cfg, p, relays, FULL);
    HeardText(cfg, receiver, RelayedBy(p, relays), env, Misread(text, blocks, env.decrypt));
  }

  /**
   * The first block operation of the sender fails, so that its text goes out in the clear, and those who decrypt it
   * show another: with this cipher, "a" becomes a grave accent.
   */
  lemma FailedEncryptionIsMisread(key: Block, sender: Trace, receiver: Trace, env: HearEnv)
    requires env.decrypt >= 1 && !receiver.halted
    ensures var cfg := Config(Flip(4), key);
            var p := MakePacket(cfg, sender.id, sender.nextId, BROADCAST, [0x61], 0);
            && Send(cfg, sender, BROADCAST, [0x61], 0).out == sender.out + [Tx(p, false)]
            && Hear(cfg, receiver, p, env).shown == receiver.shown + [Received([0x60])]
  {
    hide MakePacket, Hear, Flip, Xor;
    MisreadIsShown(key, sender, BROADCAST, [0x61], 0, [], receiver, env);
    XorOne(0x61);
    assert Encoded(TEXT_PORT, [0x61])[4] == 0x61;
    assert Misread([0x61], 0, env.decrypt) == [0x60];
  }
}
