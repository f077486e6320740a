/** The 32-bit words in which `leb_u32` collects a number, and what `|` and `<<` make of
    them as long as the bits put in start above those already there. */
module WasmWords {
  import opened WasmGrammar

  function Value(word: bv32): nat {
    word as nat
  }

  /** `result |= bits << shift`. */
  function PutIn(word: bv32, bits: bv32, shift: bv32): bv32
    requires shift < 32
  {
    word | (bits << shift)
  }

  /** The byte as an 8-bit word. */
  function Word8(byte: Byte): (word: bv8)
    ensures word as nat == byte
  {
    if byte == 0 then 0
    else
      OneMore(Word8(byte - 1));
      Word8(byte - 1) + 1
  }

  lemma OneMore(word: bv8)
    requires word as nat < 255
    ensures (word + 1) as nat == word as nat + 1
  {
  }

  /** `byte & 0x7f`. */
  function Payload(byte: Byte): bv32 {
    (Word8(byte) & 0x7f) as bv32
  }

  /** `byte & 0x80 != 0`. */
  predicate HasMore(byte: Byte) {
    Word8(byte) & 0x80 != 0
  }

  function Weight(k: nat): nat {
    if k == 0 then 1 else 128 * Weight(k - 1)
  }

  /** How far the `k`th byte's bits are shifted. */
  function Shift(k: nat): (shift: bv32)
    requires k <= 4
    ensures shift < 32
  {
    if k == 0 then 0 else if k == 1 then 7 else if k == 2 then 14 else if k == 3 then 21 else 28
  }

  lemma Weights()
    ensures Weight(0) == 1 && Weight(1) == 0x80 && Weight(2) == 0x4000 && Weight(3) == 0x20_0000
    ensures Weight(4) == 0x1000_0000 && Weight(5) == 0x8_0000_0000
  {
    assert Weight(2) == 128 * Weight(1);
    assert Weight(3) == 128 * Weight(2);
    assert Weight(4) == 128 * Weight(3);
    assert Weight(5) == 128 * Weight(4);
  }

  lemma PayloadIs(byte: Byte)
    ensures Value(Payload(byte)) == byte % 128
    ensures HasMore(byte) <==> byte >= 128
  {
    LowBits(Word8(byte));
  }

  lemma LowBits(y: bv8)
    ensures ((y & 0x7f) as bv32) as nat == (y as nat) % 128
    ensures y & 0x80 == 0 <==> y as nat < 128
  {
  }

  lemma Below(word: bv32)
    ensures Value(word) < 1 <==> word < 1
    ensures Value(word) < 16 <==> word < 16
    ensures Value(word) < 0x80 <==> word < 0x80
    ensures Value(word) < 0x4000 <==> word < 0x4000
    ensures Value(word) < 0x20_0000 <==> word < 0x20_0000
    ensures Value(word) < 0x1000_0000 <==> word < 0x1000_0000
  {
  }

  lemma AsValues(word: bv32, bits: bv32, sum: bv32, weight: nat)
    requires sum as nat == word as nat + weight * (bits as nat)
    ensures Value(sum) == Value(word) + weight * Value(bits)
  {
  }

  lemma Or0(word: bv32, bits: bv32)
    requires bits < 0x80 && word < 1
    ensures Value(PutIn(word, bits, 0)) == Value(word) + Value(bits)
  {
  }

  lemma Word7(word: bv32, bits: bv32)
    requires bits < 0x80 && word < 0x80
    ensures (word | (bits << 7)) as nat == word as nat + 0x80 * (bits as nat)
  {
  }

  lemma Or7(word: bv32, bits: bv32)
    requires bits < 0x80 && word < 0x80
    ensures Value(PutIn(word, bits, 7)) == Value(word) + 0x80 * Value(bits)
  {
    hide Value;
    Word7(word, bits);
    AsValues(word, bits, word | (bits << 7), 0x80);
  }

  lemma Word14(word: bv32, bits: bv32)
    requires bits < 0x80 && word < 0x4000
    ensures (word | (bits << 14)) as nat == word as nat + 0x4000 * (bits as nat)
  {
  }

  lemma Or14(word: bv32, bits: bv32)
    requires bits < 0x80 && word < 0x4000
    ensures Value(PutIn(word, bits, 14)) == Value(word) + 0x4000 * Value(bits)
  {
    hide Value;
    Word14(word, bits);
    AsValues(word, bits, word | (bits << 14), 0x4000);
  }

  lemma Word21(word: bv32, bits: bv32)
    requires bits < 0x80 && word < 0x20_0000
    ensures (word | (bits << 21)) as nat == word as nat + 0x20_0000 * (bits as nat)
  {
  }

  lemma Or21(word: bv32, bits: bv32)
    requires bits < 0x80 && word < 0x20_0000
    ensures Value(PutIn(word, bits, 21)) == Value(word) + 0x20_0000 * Value(bits)
  {
    hide Value;
    Word21(word, bits);
    AsValues(word, bits, word | (bits << 21), 0x20_0000);
  }

  lemma Word28(word: bv32, bits: bv32)
    requires bits < 16 && word < 0x1000_0000
    ensures (word | (bits << 28)) as nat == word as nat + 0x1000_0000 * (bits as nat)
  {
  }

  lemma Or28(word: bv32, bits: bv32)
    requires bits < 16 && word < 0x1000_0000
    ensures Value(PutIn(word, bits, 28)) == Value(word) + 0x1000_0000 * Value(bits)
  {
    hide Value;
    Word28(word, bits);
    AsValues(word, bits, word | (bits << 28), 0x1000_0000);
  }

  /** On every path of the loop that gets there nothing overlaps and nothing is shifted
      out: `|` and `<<` are a sum and a product, and the word stays below the next weight. */
  lemma OrIsPlus(word: bv32, bits: bv32, k: nat)
    requires k <= 4 && Value(word) < Weight(k) && Value(bits) < (if k == 4 then 16 else 128)
    ensures Value(PutIn(word, bits, Shift(k))) == Value(word) + Weight(k) * Value(bits)
    ensures Value(PutIn(word, bits, Shift(k))) < (if k == 4 then 0x1_0000_0000 else Weight(k + 1))
  {
    hide Value, PutIn;
    Weights();
    Below(word);
    Below(bits);
    if k == 0 {
      Or0(word, bits);
    } else if k == 1 {
      Or7(word, bits);
    } else if k == 2 {
      Or14(word, bits);
    } else if k == 3 {
      Or21(word, bits);
    } else {
      Or28(word, bits);
    }
  }

  lemma ShiftSteps(k: nat)
    requires k <= 4
    ensures Shift(k) == 28 <==> k == 4
    ensures Shift(k) + 7 >= 32 <==> k == 4
    ensures k < 4 ==> Shift(k) + 7 == Shift(k + 1)
  {
  }
}
