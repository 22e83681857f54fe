/** The fixed-point arithmetic of show_temperature.  The raw register value
    holds a 12-bit temperature code in its upper twelve bits, one unit of the
    code being 0.0625 degrees Celsius.  The routine turns it into whole
    degrees and hundredths of a degree using integers only: drop the low
    nibble, multiply by 625 (0.0625 scaled by 10000), divide by 100, and split
    the result at 100.  All of it is done on a C `unsigned long` (32 bits on
    the 6502 target), so a code with its top bit set is NOT read as a
    negative temperature. */
module Temperature {

  /** 0.0625 degrees per bit, scaled by 10000. */
  const DEGREES_PER_BIT: nat := 0x271
  /** The divisor that rescales to hundredths, and splits off the fraction. */
  const FIXED_POINT: nat := 0x64
  /** Values of a 32-bit `unsigned long` are taken modulo this. */
  const ULONG_MODULUS: nat := 0x1_0000_0000

  type UShort = w: int | 0 <= w < 0x1_0000
  type ULong = v: int | 0 <= v < ULONG_MODULUS

  /** The global `fixed_point`: whole degrees and hundredths of a degree. */
  datatype FixedPoint = FixedPoint(integer: int, fraction: int)

  /** The decimal value of a fixed-point temperature, in hundredths of a degree. */
  function Hundredths(t: FixedPoint): int
  {
    t.integer * FIXED_POINT + t.fraction
  }

  /** What `value` holds after the three in-place steps of show_temperature:
      `>>= 4`, `*= DEGREES_PER_BIT` (wrapping at 32 bits), `/= FIXED_POINT`. */
  function Scaled(value: ULong): nat
  {
    (value / 16 * DEGREES_PER_BIT % ULONG_MODULUS) / FIXED_POINT
  }

  /** The fixed-point reading show_temperature stores for `value`. */
  function Decode(value: ULong): (t: FixedPoint)
    ensures 0 <= t.integer && 0 <= t.fraction < FIXED_POINT
    ensures Hundredths(t) == Scaled(value)
  {
    FixedPoint(Scaled(value) / FIXED_POINT, Scaled(value) % FIXED_POINT)
  }

  /** For every 16-bit register value the product stays below 2,559,376, so
      the 32-bit multiplication never wraps. */
  lemma ProductFits(raw: UShort)
    ensures raw / 16 * DEGREES_PER_BIT <= 2559375 < ULONG_MODULUS
    ensures Scaled(raw) == raw / 16 * DEGREES_PER_BIT / FIXED_POINT
  {
  }

  /** The whole-degree part of a 16-bit register value is at most 255. */
  lemma DecodeBounds(raw: UShort)
    ensures 0 <= Decode(raw).integer <= 255
    ensures 0 <= Decode(raw).fraction <= 99
  {
  }

  /** The reading is the exact temperature `code * 0.0625` truncated to
      hundredths of a degree. */
  lemma DecodeTruncates(raw: UShort)
    ensures var h := Hundredths(Decode(raw));
      100 * h <= raw / 16 * DEGREES_PER_BIT < 100 * h + 100
  {
  }

  /** The four low (status) bits of the register do not affect the reading. */
  lemma LowNibbleIgnored(value: ULong)
    ensures Decode(value - value % 16) == Decode(value)
  {
  }

  /** The worked example in the source comment (0x1490 reads as 20.56), and
      three further round values for 25, 30 and 31 degrees. */
  lemma KnownValues()
    ensures Decode(0x1490) == FixedPoint(20, 56)
    ensures Decode(0x1900) == FixedPoint(25, 0)
    ensures Decode(0x1E00) == FixedPoint(30, 0)
    ensures Decode(0x1F00) == FixedPoint(31, 0)
  {
  }

  /** Because the arithmetic is unsigned, a code with its sign bit set reads
      as 128 degrees or more; the code for -0.0625 degrees reads as 255.93. */
  lemma SignBitReadsHot(raw: UShort)
    requires raw >= 0x8000
    ensures 128 <= Decode(raw).integer
    ensures Decode(0xFFF0) == FixedPoint(255, 93)
  {
  }

  /** Distinct temperature codes give distinct readings: one step of the
      code moves the reading by at least six hundredths. */
  lemma DecodeStrictlyIncreasing(a: UShort, b: UShort)
    requires a / 16 < b / 16
    ensures Hundredths(Decode(a)) + 6 <= Hundredths(Decode(b))
  {
  }

  /** The 12-bit code a reading came from: the least code whose exact
      temperature is not below the reading. */
  function RecoverCode(t: FixedPoint): int
  {
    (Hundredths(t) * 100 + 624) / 625
  }

  /** Decoding loses nothing but the low nibble: the reading determines the
      temperature code. */
  lemma CodeRecovered(raw: UShort)
    ensures RecoverCode(Decode(raw)) == raw / 16
  {
  }
}
