/** Bit-level helpers of the CPU: two's-complement field widening, the
    byte swap of the image loader, and the byte views of a word. */
module Bits {

  /** Widens the low `bitCount` bits of `x` to 16 bits: when bit
      `bitCount - 1` is set every higher bit is forced to 1, otherwise `x`
      is returned unchanged. Callers pass field widths 5, 6, 9 and 11. */
  function SignExtend(x: bv16, bitCount: bv16): (r: bv16)
    requires 1 <= bitCount < 16
    // the low bitCount bits are kept
    ensures r << (16 - bitCount) == x << (16 - bitCount)
    // a set sign bit makes every higher bit 1
    ensures (x >> (bitCount - 1)) & 1 == 1 ==> r >> bitCount == 0xFFFF >> bitCount
    // a clear sign bit leaves x as it was
    ensures (x >> (bitCount - 1)) & 1 == 0 ==> r == x
  {
    if (x >> (bitCount - 1)) & 1 == 1 then x | (0xFFFF << bitCount) else x
  }

  /** For a field value `x < 2^n`, the widened word is the two's-complement
      reading of the n-bit field taken modulo 2^16. */
  lemma SignExtendIsTwosComplement(x: bv16, n: bv16)
    requires 1 <= n < 16 && x < 1 << n
    ensures SignExtend(x, n) == if x >= 1 << (n - 1) then x - (1 << n) else x
  {
    if x >= 1 << (n - 1) {
      assert (x >> (n - 1)) & 1 == 1;
    } else {
      assert (x >> (n - 1)) & 1 == 0;
    }
  }

  /** Sum of two words as `uint16_t` arithmetic computes it: modulo 2^16. */
  function Add16(a: bv16, b: bv16): bv16
  {
    a + b
  }

  /** How many increments take the address `from` to `to`. */
  function Distance(from: bv16, to: bv16): nat
  {
    Value(to - from)
  }

  /** The number a word stands for, counted one decrement at a time. */
  function Value(x: bv16): nat
    decreases x as int
  {
    if x == 0 then 0 else WordDecrement(x); 1 + Value(x - 1)
  }

  /** Counting down agrees with the built-in conversion, so no distance
      is 65536 or more. */
  lemma {:induction false} ValueIsNumber(x: bv16)
    ensures Value(x) == x as int < 0x1_0000
    decreases x as int
  {
    if x != 0 {
      WordDecrement(x);
      ValueIsNumber(x - 1);
    }
  }

  lemma DistanceBound(from: bv16, to: bv16)
    ensures Distance(from, to) < 0x1_0000
  {
    ValueIsNumber(to - from);
  }

  /** One increment brings a different address one step closer. */
  lemma DistanceStep(from: bv16, to: bv16)
    requires from != to
    ensures Distance(Add16(from, 1), to) == Distance(from, to) - 1
  {
    StepCloser(from, to);
  }

  lemma StepCloser(from: bv16, to: bv16)
    requires from != to
    ensures to - from != 0 && to - Add16(from, 1) == (to - from) - 1
  {
  }

  /** A nonzero word decrements as the number it stands for does. */
  lemma WordDecrement(d: bv16)
    requires d != 0
    ensures (d - 1) as int == d as int - 1
  {
    if d & 0xFF != 0 { LowByteDecrement(d); } else { HighByteDecrement(d); }
  }

  /** A word is 256 times its high byte plus its low byte. */
  lemma WordValue(d: bv16)
    ensures d as int == (d >> 8) as int * 256 + (d & 0xFF) as int
  {
  }

  /** A byte-sized word decrements as a number does. */
  lemma SmallDecrement(x: bv16)
    requires 0 < x < 256
    ensures (x - 1) as int == x as int - 1
  {
    var b := x as bv8;
    assert b as bv16 == x && (b - 1) as bv16 == x - 1;
  }

  /** Decrementing a word whose low byte is nonzero decrements that byte. */
  lemma LowByteBorrowFree(d: bv16)
    requires d & 0xFF != 0
    ensures (d - 1) >> 8 == d >> 8 && (d - 1) & 0xFF == (d & 0xFF) - 1 && 0 < d & 0xFF < 256
  {
  }

  lemma LowByteDecrement(d: bv16)
    requires d & 0xFF != 0
    ensures (d - 1) as int == d as int - 1
  {
    var e := d - 1;
    LowByteBorrowFree(d);
    SmallDecrement(d & 0xFF);
    calc {
      e as int;
      { WordValue(e); }
      (e >> 8) as int * 256 + (e & 0xFF) as int;
      (d >> 8) as int * 256 + ((d & 0xFF) - 1) as int;
      (d >> 8) as int * 256 + (d & 0xFF) as int - 1;
      { WordValue(d); }
      d as int - 1;
    }
  }

  /** Decrementing a word whose low byte is zero borrows from the high byte. */
  lemma HighByteDecrement(d: bv16)
    requires d != 0 && d & 0xFF == 0
    ensures (d - 1) as int == d as int - 1
  {
    var e := d - 1;
    assert e >> 8 == (d >> 8) - 1 && e & 0xFF == 0xFF && 0 < d >> 8 < 256;
    WordValue(d);
    WordValue(e);
    SmallDecrement(d >> 8);
  }

  /** The signed value a 16-bit word stands for. */
  function Signed(w: bv16): int
  {
    if w < 0x8000 then w as int else w as int - 0x1_0000
  }

  /** Read as signed numbers, widening a 5-bit immediate keeps its value. */
  lemma SignExtendKeepsImm5Value(x: bv16)
    requires x < 32
    ensures Signed(SignExtend(x, 5)) == if x < 16 then x as int else x as int - 32
  {
  }

  function LowByte(w: bv16): bv8
  {
    (w & 0xFF) as bv8
  }

  function HighByte(w: bv16): bv8
  {
    (w >> 8) as bv8
  }

  /** The word whose first (high) byte is `hi` and second byte is `lo`. */
  function BigEndian(hi: bv8, lo: bv8): (w: bv16)
    ensures HighByte(w) == hi && LowByte(w) == lo
  {
    ((hi as bv16) << 8) | (lo as bv16)
  }

  /** The word a little-endian host reads from the two bytes `b0`, `b1`. */
  function LittleEndian(b0: bv8, b1: bv8): (w: bv16)
    ensures LowByte(w) == b0 && HighByte(w) == b1
  {
    ((b1 as bv16) << 8) | (b0 as bv16)
  }

  /** Exchanges the high and low bytes of a word. */
  function Swap16(x: bv16): (r: bv16)
    ensures HighByte(r) == LowByte(x) && LowByte(r) == HighByte(x)
  {
    (x << 8) | (x >> 8)
  }

  /** Swapping twice gives the word back. */
  lemma Swap16Involution(x: bv16)
    ensures Swap16(Swap16(x)) == x
  {
  }

  /** Swapping the host's reading of two image bytes gives their big-endian
      value: this is how the loader decodes the image. */
  lemma SwapDecodesBigEndian(b0: bv8, b1: bv8)
    ensures Swap16(LittleEndian(b0, b1)) == BigEndian(b0, b1)
  {
  }
}
