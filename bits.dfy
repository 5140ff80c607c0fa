/**
 * Byte-level arithmetic of the bit-banged I2C master: the C `uint8_t` and
 * `uint16_t` values it shifts, the order in which a byte's bits go on the
 * wire, and the accumulator that rebuilds a byte from sampled bits.
 * Bit-vector types give the C wrap-around of `<<=`, `++` and `addr + 1`.
 */
module Bits {

  /** A C `uint8_t`. */
  type Byte = bv8

  /** A C `uint16_t`. */
  type Word = bv16

  /** Bit number `i` (0 is the least significant) of `x`. */
  function BitAt(x: Byte, i: nat): bool
    requires i < 8
  {
    (x >> i) & 1 == 1
  }

  /** `(txd & 0x80) >> 7`: the level `_iic_send_byte` puts on SDA. */
  function Msb(x: Byte): bool { (x & 0x80) >> 7 == 1 }

  /** The value of `txd` after `t` turns of the send loop (`txd <<= 1` each turn). */
  function Shifted(x: Byte, t: nat): Byte
  {
    if t == 0 then x else Shifted(x, t - 1) << 1
  }

  /** The levels `_iic_send_byte(x)` drives on SDA, one per clock, in order. */
  function TxBits(x: Byte): (bits: seq<bool>)
    ensures |bits| == 8
  {
    seq(8, t requires 0 <= t < 8 => Msb(Shifted(x, t)))
  }

  /** One turn of the `_iic_read_byte` loop: `receive <<= 1`, then `receive++` on a high level. */
  function ShiftIn(acc: Byte, level: bool): Byte
  {
    if level then (acc << 1) + 1 else acc << 1
  }

  /** The `uint8_t` accumulator of `_iic_read_byte` after the given sampled levels. */
  function Accumulate(levels: seq<bool>): Byte
  {
    if levels == [] then 0
    else ShiftIn(Accumulate(levels[..|levels| - 1]), levels[|levels| - 1])
  }

  /** `(reg >> 8) & 0xFF` on a `uint16_t`. */
  function HighByte(reg: Word): Byte { ((reg >> 8) & 0xFF) as Byte }

  /** `reg & 0xFF` on a `uint16_t`. */
  function LowByte(reg: Word): Byte { (reg & 0xFF) as Byte }

  /** `addr + 1` passed on as a `uint8_t`: the read form of a write address. */
  function ReadAddress(addr: Byte): Byte { addr + 1 }

  // ---------------------------------------------------------------------------
  // Lemmas
  // ---------------------------------------------------------------------------

  /** After t turns of the send loop, `txd` is the original byte shifted left by t. */
  lemma {:induction false} ShiftedIsShift(x: Byte, t: nat)
    requires t <= 8
    ensures Shifted(x, t) == x << t
  {
    if t > 0 {
      ShiftedIsShift(x, t - 1);
      ShiftTwice(x, t - 1);
    }
  }

  lemma ShiftTwice(x: Byte, t: nat)
    requires t < 8
    ensures (x << t) << 1 == x << (t + 1)
  {
  }

  /**
   * `_iic_send_byte` is MSB-first: the level it drives at clock t is bit
   * number 7 - t of the byte it was given.
   */
  lemma TxBitsMsbFirst(x: Byte, t: nat)
    requires t < 8
    ensures TxBits(x)[t] == BitAt(x, 7 - t)
  {
    ShiftedIsShift(x, t);
    MsbOfShift(x, t);
  }

  lemma MsbOfShift(x: Byte, t: nat)
    requires t < 8
    ensures Msb(x << t) == BitAt(x, 7 - t)
  {
  }

  /**
   * The accumulator is MSB-first: the i-th of n sampled levels is bit
   * n - 1 - i of the result.
   */
  lemma {:induction false} AccumulateBits(levels: seq<bool>, i: nat)
    requires |levels| <= 8 && i < |levels|
    ensures BitAt(Accumulate(levels), |levels| - 1 - i) == levels[i]
  {
    var n := |levels|;
    var init := levels[..n - 1];
    AccumulateHigh(init);
    if i < n - 1 {
      AccumulateBits(init, i);
      ShiftInKeeps(Accumulate(init), |init| - 1 - i, levels[n - 1]);
    } else {
      ShiftInLow(Accumulate(init), levels[n - 1]);
    }
  }

  /** n samples set no bit at or above bit n. */
  lemma {:induction false} AccumulateHigh(levels: seq<bool>)
    requires |levels| <= 8
    ensures Accumulate(levels) >> |levels| == 0
  {
    if levels != [] {
      var init := levels[..|levels| - 1];
      AccumulateHigh(init);
      ShiftInHigh(Accumulate(init), |init|, levels[|levels| - 1]);
    }
  }

  lemma ShiftInHigh(a: Byte, n: nat, b: bool)
    requires n < 8 && a >> n == 0
    ensures ShiftIn(a, b) >> (n + 1) == 0
  {
  }

  lemma ShiftInKeeps(a: Byte, j: nat, b: bool)
    requires j < 7
    ensures BitAt(ShiftIn(a, b), j + 1) == BitAt(a, j)
  {
  }

  lemma ShiftInLow(a: Byte, b: bool)
    ensures BitAt(ShiftIn(a, b), 0) == b
  {
  }

  /** Two bytes with the same eight bits are equal. */
  lemma BitsDetermine(a: Byte, b: Byte)
    requires forall i :: 0 <= i < 8 ==> BitAt(a, i) == BitAt(b, i)
    ensures a == b
  {
    assert BitAt(a, 0) == BitAt(b, 0) && BitAt(a, 1) == BitAt(b, 1);
    assert BitAt(a, 2) == BitAt(b, 2) && BitAt(a, 3) == BitAt(b, 3);
    assert BitAt(a, 4) == BitAt(b, 4) && BitAt(a, 5) == BitAt(b, 5);
    assert BitAt(a, 6) == BitAt(b, 6) && BitAt(a, 7) == BitAt(b, 7);
  }

  /**
   * Round trip of the byte engine: accumulating, the way `_iic_read_byte`
   * does, the levels that `_iic_send_byte(x)` drives gives back x.
   */
  lemma TxRoundTrip(x: Byte)
    ensures Accumulate(TxBits(x)) == x
  {
    var s := TxBits(x);
    forall i | 0 <= i < 8
      ensures BitAt(Accumulate(s), i) == BitAt(x, i)
    {
      AccumulateBits(s, 7 - i);
      TxBitsMsbFirst(x, 7 - i);
    }
    BitsDetermine(Accumulate(s), x);
  }

  /** The two bytes of a 16-bit register address, high byte first, rebuild it. */
  lemma WordSplit(reg: Word)
    ensures ((HighByte(reg) as Word) << 8) | (LowByte(reg) as Word) == reg
  {
  }
}
