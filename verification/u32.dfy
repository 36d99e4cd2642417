/** Unsigned 32-bit arithmetic as C++ `uint32_t` performs it: every result is
    reduced modulo 2^32, so subtraction wraps instead of going negative. */
module U32 {

  const Modulus: int := 0x1_0000_0000
  const HalfModulus: int := 0x8000_0000

  type u32 = x: int | 0 <= x < 0x1_0000_0000
  type byte = x: int | 0 <= x < 0x100

  /** `a + b` on `uint32_t`. */
  function Add(a: u32, b: u32): (r: u32)
    ensures a + b < Modulus ==> r == a + b
    ensures a + b >= Modulus ==> r == a + b - Modulus
  {
    (a + b) % Modulus
  }

  /** `a - b` on `uint32_t`: wraps around when `b > a`. */
  function Sub(a: u32, b: u32): (r: u32)
    ensures Add(r, b) == a
    ensures b <= a ==> r == a - b
    ensures a < b ==> r == Modulus - (b - a)
  {
    (a - b) % Modulus
  }

  /** `a << 16` on `uint32_t`: the bits shifted past bit 31 are lost. */
  function Shl16(a: u32): (r: u32)
    ensures r % 0x1_0000 == 0
    ensures r / 0x1_0000 == a % 0x1_0000
  {
    (a * 0x1_0000) % Modulus
  }

  /** Reads the 32 bits of `v` as a two's-complement `int32_t`. */
  function AsInt32(v: u32): (r: int)
    ensures -HalfModulus <= r < HalfModulus
    ensures r % Modulus == v
  {
    if v < HalfModulus then v else v - Modulus
  }

  /** A 16.16 fixed-point value read back as its whole-pixel part, `v >> 16`. */
  function WholePart(v: u32): (r: u32)
    ensures r < 0x1_0000
    ensures r * 0x1_0000 <= v < (r + 1) * 0x1_0000
  {
    v / 0x1_0000
  }

  /** A wrapped difference read as `int32_t` is the exact signed difference
      whenever that difference fits in 32 signed bits. */
  lemma SubAsInt32(a: u32, b: u32)
    requires -HalfModulus <= a - b < HalfModulus
    ensures AsInt32(Sub(a, b)) == a - b
  {
  }

  /** Shifting left by 16 and reading the whole part back returns the
      original value exactly when it fits in 16 bits. */
  lemma {:induction false} Shl16RoundTrip(a: u32)
    ensures WholePart(Shl16(a)) == a <==> a < 0x1_0000
  {
  }
}
