/** The frequency register of the radio (firmware/Radio/radio_stm32wl.c). */
module RadioFreq {
  import opened Bytes

  /** The first frequency whose register value does not fit in 32 bits. */
  const FIRST_TRUNCATED: nat := 4_096_000_000

  /**
   * The frequency in steps of the 32 MHz crystal's 2^25th part: a 64-bit quotient truncated to 32 bits. The shifted
   * frequency fits in 57 bits.
   */
  function RfReg(freq: u32): u32 {
    Shl(freq, 25) / 32_000_000 % 0x1_0000_0000
  }

  /** The four parameter bytes of the set-frequency command. */
  method FreqCommand(freq: u32) returns (buf: array<byte>)
    ensures fresh(buf) && buf.Length == 4
    ensures buf[..] == BeBytes(RfReg(freq))
  {
    var rf := RfReg(freq);
    buf := new byte[4](_ => 0);
    buf[0] := rf / 0x100_0000;
    buf[1] := rf / 0x1_0000 % 0x100;
    buf[2] := rf / 0x100 % 0x100;
    buf[3] := rf % 0x100;
  }

  lemma ShlTwentyFive(x: nat)
    ensures Shl(x, 25) == 0x200_0000 * x
  {
    ShlSeven(x);
    ShlTwice(x, 7, 7);
    ShlSeven(Shl(x, 7));
    ShlTwice(x, 7, 14);
    ShlSeven(Shl(x, 14));
    assert Shl(x, 22) == 2 * Shl(x, 21);
    assert Shl(x, 24) == 4 * Shl(x, 22);
    assert Shl(x, 25) == 2 * Shl(x, 24);
  }

  /** The register is the frequency in steps of 15625/16384 Hz, rounded down. */
  lemma RegisterSteps(freq: u32)
    ensures Shl(freq, 25) / 32_000_000 == freq as int * 16384 / 15625
    ensures freq as int * 16384 / 15625 < 0x1_0000_0000 <==> freq as int < FIRST_TRUNCATED
  {
    ShlTwentyFive(freq);
    var q := freq as int * 16384 / 15625;
    assert q * 15625 <= freq as int * 16384 < (q + 1) * 15625;
    assert q * 32_000_000 <= freq as int * 0x200_0000 < (q + 1) * 32_000_000;
  }

  /** 868 MHz is 0x36400000 steps. */
  lemma EuropeanBand()
    ensures RfReg(868_000_000) == 0x3640_0000 && BeBytes(RfReg(868_000_000)) == [0x36, 0x40, 0x00, 0x00]
  {
    RegisterSteps(868_000_000);
    hide Shl;
  }

  /** The frequency that four command bytes stand for: a ceiling. */
  function FreqOf(bytes: seq<byte>): nat
    requires |bytes| == 4
  {
    (BeWord(bytes) as int * 15625 + 16383) / 16384
  }

  /** The bytes sent give back exactly the frequencies below 4.096 GHz, and no other. */
  lemma FrequencyIsRecovered(freq: u32)
    ensures FreqOf(BeBytes(RfReg(freq))) == freq as int <==> freq as int < FIRST_TRUNCATED
  {
    RegisterSteps(freq);
    BeRoundTrip(RfReg(freq));
    hide Shl, BeBytes, BeWord;
    var q := freq as int * 16384 / 15625;
    assert q * 15625 <= freq as int * 16384 < (q + 1) * 15625;
    if freq as int >= FIRST_TRUNCATED {
      assert RfReg(freq) as int == q - 0x1_0000_0000;
    }
  }

  /** Below that bound a higher frequency gives a higher register value. */
  lemma RegisterIsMonotone(f: u32, g: u32)
    requires f < g && g as int < FIRST_TRUNCATED
    ensures RfReg(f) < RfReg(g)
  {
    RegisterSteps(f);
    RegisterSteps(g);
    hide Shl;
    assert f as int * 16384 + 15625 <= g as int * 16384;
  }
}
