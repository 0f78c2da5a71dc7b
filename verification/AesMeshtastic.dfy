/** Payload encryption: a CTR loop over the AES peripheral (firmware/Crypto/aes_meshtastic.c). */
module AesMeshtastic {
  import opened Bytes

  type Block = s: seq<byte> | |s| == 16 witness seq(16, _ => 0)
  type Words = s: seq<u32> | |s| == 4 witness [0, 0, 0, 0]

  /** The peripheral's ECB operation on key words and input words: any function at all. */
  type Peripheral = (Words, Words) -> Words

  /** Largest length for which the 16-bit offset of the CTR loop does not wrap. */
  const MAX_CTR_LEN := 65520

  function ToWords(b: Block): Words {
    [BeWord(b[0..4]), BeWord(b[4..8]), BeWord(b[8..12]), BeWord(b[12..16])]
  }

  function FromWords(w: Words): Block {
    BeBytes(w[0]) + BeBytes(w[1]) + BeBytes(w[2]) + BeBytes(w[3])
  }

  lemma WordsRoundTrip(b: Block, w: Words)
    ensures FromWords(ToWords(b)) == b
    ensures ToWords(FromWords(w)) == w
  {
    BeRoundTripBytes(b[0..4]);
    BeRoundTripBytes(b[4..8]);
    BeRoundTripBytes(b[8..12]);
    BeRoundTripBytes(b[12..16]);
    assert b == b[0..4] + b[4..8] + b[8..12] + b[12..16];
    BeRoundTrip(w[0]);
    BeRoundTrip(w[1]);
    BeRoundTrip(w[2]);
    BeRoundTrip(w[3]);
    var f := FromWords(w);
    assert f[0..4] == BeBytes(w[0]) && f[4..8] == BeBytes(w[1]);
    assert f[8..12] == BeBytes(w[2]) && f[12..16] == BeBytes(w[3]);
  }

  function EncryptBlock(hal: Peripheral, key: Block, input: Block): Block {
    FromWords(hal(ToWords(key), ToWords(input)))
  }

  function Nonce(packetId: u32, from: u32, counter: byte): Block {
    LeBytes(packetId) + [0, 0, 0, 0] + LeBytes(from) + [0, 0, 0, counter]
  }

  /** Packet id and sender, low byte first, zeros, and the counter in the last byte. */
  lemma NonceLayout(packetId: u32, from: u32, counter: byte)
    ensures Nonce(packetId, from, counter) ==
            [packetId % 0x100, packetId / 0x100 % 0x100, packetId / 0x1_0000 % 0x100, packetId / 0x100_0000,
             0, 0, 0, 0,
             from % 0x100, from / 0x100 % 0x100, from / 0x1_0000 % 0x100, from / 0x100_0000,
             0, 0, 0, counter]
  {
  }

  /** The peripheral gets the key first and then the input, each word with its high byte first, and so it answers. */
  lemma BlocksAreWords(key: Block, input: Block)
    ensures EncryptBlock((k: Words, i: Words) => k, key, input) == key
    ensures EncryptBlock((k: Words, i: Words) => i, key, input) == input
    ensures forall j :: 0 <= j < 4 ==>
              ToWords(input)[j] as int ==
              0x100_0000 * (input[4 * j] as int) + 0x1_0000 * (input[4 * j + 1] as int)
              + 0x100 * (input[4 * j + 2] as int) + input[4 * j + 3] as int
  {
    WordsRoundTrip(key, [0, 0, 0, 0]);
    WordsRoundTrip(input, [0, 0, 0, 0]);
    forall j | 0 <= j < 4
      ensures ToWords(input)[j] == BeWord(input[4 * j..4 * j + 4])
    {
    }
  }

  lemma NonceIsInjective(p: u32, f: u32, c: byte, p': u32, f': u32, c': byte)
    requires Nonce(p, f, c) == Nonce(p', f', c')
    ensures p == p' && f == f' && c == c'
  {
    var n, n' := Nonce(p, f, c), Nonce(p', f', c');
    assert n[0..4] == LeBytes(p) && n'[0..4] == LeBytes(p');
    assert n[8..12] == LeBytes(f) && n'[8..12] == LeBytes(f');
    assert n[15] == c && n'[15] == c';
    LeRoundTrip(p);
    LeRoundTrip(p');
    LeRoundTrip(f);
    LeRoundTrip(f');
  }

  /** The counter is one byte: the blocks of a payload are encrypted under different inputs exactly up to 4096 bytes. */
  lemma CounterSuffices(packetId: u32, from: u32, len: nat)
    ensures (forall k: nat, k': nat :: k < k' < (len + 15) / 16 ==>
               Nonce(packetId, from, k % 0x100) != Nonce(packetId, from, k' % 0x100))
            <==> len <= 4096
  {
    hide Nonce;
    if len <= 4096 {
      forall k: nat, k': nat | k < k' < (len + 15) / 16
        ensures Nonce(packetId, from, k % 0x100) != Nonce(packetId, from, k' % 0x100)
      {
        if Nonce(packetId, from, k % 0x100) == Nonce(packetId, from, k' % 0x100) {
          NonceIsInjective(packetId, from, k % 0x100, packetId, from, k' % 0x100);
        }
      }
    } else {
      assert Nonce(packetId, from, 0 % 0x100) == Nonce(packetId, from, 0x100 % 0x100);
    }
  }

  /** Incrementing the last byte moves to the next counter, wrapping after 256 blocks. */
  lemma NextNonce(packetId: u32, from: u32, k: nat)
    ensures var n := Nonce(packetId, from, k % 0x100);
            n[15 := (n[15] as int + 1) % 0x100] == Nonce(packetId, from, (k + 1) % 0x100)
  {
    var n := Nonce(packetId, from, k % 0x100);
    assert n[15] == k % 0x100;
  }

  /** The i-th keystream byte; the block counter is a single byte. */
  function Keystream(hal: Peripheral, key: Block, packetId: u32, from: u32, i: nat): byte {
    EncryptBlock(hal, key, Nonce(packetId, from, i / 16 % 0x100))[i % 16]
  }

  /** The buffer after a CTR pass in which the first `blocks` block operations succeed and the next one fails. */
  function Ctr(hal: Peripheral, key: Block, data: seq<byte>, packetId: u32, from: u32, blocks: nat): (r: seq<byte>)
    ensures |r| == |data|
  {
    seq(|data|, i requires 0 <= i < |data| =>
      if i < 16 * blocks then Xor(data[i], Keystream(hal, key, packetId, from, i)) else data[i])
  }

  lemma CtrTwice(hal: Peripheral, key: Block, data: seq<byte>, packetId: u32, from: u32, blocks: nat)
    ensures Ctr(hal, key, Ctr(hal, key, data, packetId, from, blocks), packetId, from, blocks) == data
  {
    var once := Ctr(hal, key, data, packetId, from, blocks);
    var twice := Ctr(hal, key, once, packetId, from, blocks);
    forall i | 0 <= i < |data|
      ensures twice[i] == data[i]
    {
      XorTwice(data[i], Keystream(hal, key, packetId, from, i));
    }
  }

  /** Once every block of the buffer is covered, further successes make no difference. */
  lemma CtrCovered(hal: Peripheral, key: Block, data: seq<byte>, packetId: u32, from: u32, blocks: nat)
    requires |data| <= 16 * blocks
    ensures Ctr(hal, key, data, packetId, from, blocks) == Ctr(hal, key, data, packetId, from, |data|)
  {
  }

  // ---------------------------------------------------------------- the loop

  /** The 16-bit loop offset after n iterations. */
  function Offset(n: nat): nat {
    16 * n % 0x1_0000
  }

  /** Iterations the loop makes, if the first `blocks` block operations succeed and the next one fails. */
  function Iterations(len: u16, blocks: nat): nat {
    var needed := (len as int + 15) / 16;
    if len <= MAX_CTR_LEN && needed <= blocks then needed else blocks
  }

  /**
   * The loop ends of itself exactly for the lengths that its 16-bit offset can reach; for any other it goes on as
   * long as the block operation succeeds.
   */
  lemma CtrLoopEnds(len: u16)
    ensures (exists n: nat :: Offset(n) >= len) <==> len <= MAX_CTR_LEN
    ensures len <= MAX_CTR_LEN ==> forall blocks: nat :: Iterations(len, blocks) <= MAX_CTR_LEN / 16
    ensures len > MAX_CTR_LEN ==> forall blocks: nat :: Iterations(len, blocks) == blocks
  {
    if len <= MAX_CTR_LEN {
      assert Offset(MAX_CTR_LEN / 16) >= len;
    }
  }

  function XorAt(data: seq<byte>, at: nat, keystream: Block): (r: seq<byte>)
    ensures |r| == |data|
  {
    seq(|data|, i requires 0 <= i < |data| => if at <= i < at + 16 then Xor(data[i], keystream[i - at]) else data[i])
  }

  /** The buffer after n iterations. */
  function Loop(hal: Peripheral, key: Block, data: seq<byte>, packetId: u32, from: u32, n: nat): (r: seq<byte>)
    ensures |r| == |data|
  {
    if n == 0 then data
    else
      XorAt(Loop(hal, key, data, packetId, from, n - 1), Offset(n - 1),
            EncryptBlock(hal, key, Nonce(packetId, from, (n - 1) % 0x100)))
  }

  lemma OffsetIs(n: nat)
    ensures n < 0x1000 ==> Offset(n) == 16 * n
    ensures Offset(n) <= MAX_CTR_LEN && Offset(n + 1) == (Offset(n) + 16) % 0x1_0000
  {
  }

  /** One more block of the buffer. */
  lemma CtrStep(hal: Peripheral, key: Block, data: seq<byte>, packetId: u32, from: u32, k: nat)
    ensures XorAt(Ctr(hal, key, data, packetId, from, k), 16 * k,
                  EncryptBlock(hal, key, Nonce(packetId, from, k % 0x100)))
            == Ctr(hal, key, data, packetId, from, k + 1)
  {
    hide EncryptBlock, Nonce;
    var next := XorAt(Ctr(hal, key, data, packetId, from, k), 16 * k,
                      EncryptBlock(hal, key, Nonce(packetId, from, k % 0x100)));
    forall i | 0 <= i < |data|
      ensures next[i] == Ctr(hal, key, data, packetId, from, k + 1)[i]
    {
      if 16 * k <= i < 16 * k + 16 {
        assert i / 16 == k && i % 16 == i - 16 * k;
      }
    }
  }

  lemma CtrNothing(hal: Peripheral, key: Block, data: seq<byte>, packetId: u32, from: u32)
    ensures Ctr(hal, key, data, packetId, from, 0) == data
  {
  }

  /** Until the offset wraps, n iterations transform the first n blocks. */
  lemma {:induction false} LoopIsCtr(hal: Peripheral, key: Block, data: seq<byte>, packetId: u32, from: u32, n: nat)
    requires n <= 0x1000
    ensures Loop(hal, key, data, packetId, from, n) == Ctr(hal, key, data, packetId, from, n)
  {
    hide XorAt, EncryptBlock, Ctr, Nonce, Offset;
    if n == 0 {
      CtrNothing(hal, key, data, packetId, from);
    } else {
      LoopIsCtr(hal, key, data, packetId, from, n - 1);
      OffsetIs(n - 1);
      CtrStep(hal, key, data, packetId, from, n - 1);
    }
  }

  /** After a lap of 4096 iterations the loop is where it started: same offset, same counter. */
  lemma {:induction false} LapsAdd(hal: Peripheral, key: Block, data: seq<byte>, packetId: u32, from: u32, n: nat)
    ensures Loop(hal, key, data, packetId, from, 4096 + n) ==
            Loop(hal, key, Loop(hal, key, data, packetId, from, 4096), packetId, from, n)
  {
    hide XorAt, EncryptBlock, Nonce, Offset;
    if n > 0 {
      LapsAdd(hal, key, data, packetId, from, n - 1);
      SameInLap(n - 1);
    }
  }

  lemma SameInLap(n: nat)
    ensures Offset(4096 + n) == Offset(n) && (4096 + n) % 0x100 == n % 0x100
  {
    OneLapMore(16 * n);
    SixteenTurnsMore(n);
    assert 16 * (4096 + n) == 0x1_0000 + 16 * n;
  }

  lemma OneLapMore(x: nat)
    ensures (0x1_0000 + x) % 0x1_0000 == x % 0x1_0000
  {
  }

  lemma SixteenTurnsMore(x: nat)
    ensures (0x1000 + x) % 0x100 == x % 0x100
  {
    var q, r := x / 0x100, x % 0x100;
    assert 0x1000 + x == 0x100 * (16 + q) + r;
  }

  /**
   * For a payload too long for the 16-bit offset, a second lap undoes block by block what the first one did: every
   * 8192 iterations the buffer is back in the clear.
   */
  lemma SecondLapUndoes(hal: Peripheral, key: Block, data: seq<byte>, packetId: u32, from: u32, n: nat)
    requires n <= 4096 && |data| <= 0xFFFF
    ensures Loop(hal, key, data, packetId, from, n) == Ctr(hal, key, data, packetId, from, n)
    ensures Loop(hal, key, data, packetId, from, 4096 + n) ==
            data[..if 16 * n <= |data| then 16 * n else |data|]
            + Ctr(hal, key, data, packetId, from, 4096)[if 16 * n <= |data| then 16 * n else |data|..]
    ensures Loop(hal, key, data, packetId, from, 8192) == data
  {
    hide Loop, EncryptBlock, Nonce, Keystream, Xor;
    LapsAdd(hal, key, data, packetId, from, n);
    LapsAdd(hal, key, data, packetId, from, 4096);
    LoopIsCtr(hal, key, data, packetId, from, n);
    LoopIsCtr(hal, key, data, packetId, from, 4096);
    var once := Ctr(hal, key, data, packetId, from, 4096);
    LoopIsCtr(hal, key, once, packetId, from, n);
    LoopIsCtr(hal, key, once, packetId, from, 4096);
    CtrTwice(hal, key, data, packetId, from, 4096);
    var twice := Ctr(hal, key, once, packetId, from, n);
    var cut := if 16 * n <= |data| then 16 * n else |data|;
    forall i | 0 <= i < |data|
      ensures twice[i] == if i < cut then data[i] else once[i]
    {
      XorTwice(data[i], Keystream(hal, key, packetId, from, i));
    }
    assert twice == data[..cut] + once[cut..];
  }

  lemma IterationsAreCtr(hal: Peripheral, key: Block, data: seq<byte>, packetId: u32, from: u32, blocks: nat)
    requires |data| <= MAX_CTR_LEN
    ensures Loop(hal, key, data, packetId, from, Iterations(|data|, blocks)) ==
            Ctr(hal, key, data, packetId, from, blocks)
  {
    hide Loop, Ctr;
    var n := Iterations(|data|, blocks);
    LoopIsCtr(hal, key, data, packetId, from, n);
    if n != blocks {
      CtrCovered(hal, key, data, packetId, from, n);
      CtrCovered(hal, key, data, packetId, from, blocks);
    }
  }

  // ---------------------------------------------------------------- the code

  /** The inner loop: n keystream bytes into the payload. */
  method XorInto(payload: array<byte>, at: nat, n: nat, keystream: Block)
    requires n <= 16 && at + n <= payload.Length
    modifies payload
    ensures forall i :: 0 <= i < payload.Length ==>
              payload[i] == if at <= i < at + n then Xor(old(payload[i]), keystream[i - at]) else old(payload[i])
  {
    var j := 0;
    while j < n
      invariant 0 <= j <= n
      invariant forall i :: 0 <= i < payload.Length ==>
                  payload[i] == if at <= i < at + j then Xor(old(payload[i]), keystream[i - at]) else old(payload[i])
    {
      payload[at + j] := Xor(payload[at + j], keystream[j]);
      j := j + 1;
    }
  }

  /** The rest of the loop body: a keystream block goes into the payload, up to its end. */
  method CryptBlock(payload: array<byte>, start: nat, len: u16, off: nat, keystream: Block)
    requires start + len as int <= payload.Length && off < len
    modifies payload
    ensures payload[start..start + len] == XorAt(old(payload[start..start + len]), off, keystream)
    ensures payload[..start] == old(payload[..start]) && payload[start + len..] == old(payload[start + len..])
  {
    var n := if len as int - off > 16 then 16 else len as int - off;
    XorInto(payload, start + off, n, keystream);
  }

  /** The k-th call of the block operation (counting from 0) succeeds iff k < blocks. */
  method CtrCrypt(hal: Peripheral, hwKey: Words, payload: array<byte>, start: nat, len: u16,
                  packetId: u32, from: u32, blocks: nat)
    requires start + len as int <= payload.Length
    modifies payload
    ensures payload[start..start + len] ==
              Loop(hal, FromWords(hwKey), old(payload[start..start + len]), packetId, from, Iterations(len, blocks))
    ensures len <= MAX_CTR_LEN ==>
              payload[start..start + len] ==
              Ctr(hal, FromWords(hwKey), old(payload[start..start + len]), packetId, from, blocks)
    ensures payload[..start] == old(payload[..start]) && payload[start + len..] == old(payload[start + len..])
  {
    hide Loop, XorAt, Ctr, Nonce, FromWords, Offset;
    ghost var data := payload[start..start + len];
    ghost var key := FromWords(hwKey);
    WordsRoundTrip(key, hwKey);
    StartLoop(hal, key, data, packetId, from);
    if len == 0 {
      IterationsAreCtr(hal, key, data, packetId, from, blocks);
      return;
    }
    var nonce: Block := Nonce(packetId, from, 0);
    var off: nat := 0;
    var calls := 0;
    while off < len
      invariant calls <= blocks && off == Offset(calls) && (len <= MAX_CTR_LEN ==> off == 16 * calls)
      invariant len <= MAX_CTR_LEN ==> calls <= (len as int + 15) / 16
      invariant nonce == Nonce(packetId, from, calls % 0x100)
      invariant payload[start..start + len] == Loop(hal, key, data, packetId, from, calls)
      invariant payload[..start] == old(payload[..start]) && payload[start + len..] == old(payload[start + len..])
      decreases blocks - calls
    {
      if calls >= blocks {
        break;
      }
      var keystream: Block := FromWords(hal(hwKey, ToWords(nonce)));
      NextNonce(packetId, from, calls);
      nonce := nonce[15 := (nonce[15] as int + 1) % 0x100];
      CryptBlock(payload, start, len, off, keystream);
      OffsetIs(calls);
      LoopNext(hal, key, data, packetId, from, calls);
      off := (off + 16) % 0x1_0000;
      calls := calls + 1;
    }
    if off >= len && calls > 0 {
      OffsetIs(calls);
    }
    if len <= MAX_CTR_LEN {
      IterationsAreCtr(hal, key, data, packetId, from, blocks);
    }
  }

  lemma StartLoop(hal: Peripheral, key: Block, data: seq<byte>, packetId: u32, from: u32)
    ensures Loop(hal, key, data, packetId, from, 0) == data && Offset(0) == 0
  {
  }

  lemma LoopNext(hal: Peripheral, key: Block, data: seq<byte>, packetId: u32, from: u32, n: nat)
    ensures Loop(hal, key, data, packetId, from, n + 1) ==
            XorAt(Loop(hal, key, data, packetId, from, n), Offset(n),
                  EncryptBlock(hal, key, Nonce(packetId, from, n % 0x100)))
  {
  }
}
