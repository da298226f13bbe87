/** Fixed-width machine values shared by every component.

    The C++ source works on `std::uint8_t` .. `std::uint64_t`; arithmetic that can
    wrap is written out with an explicit modulus. */
module Machine {

  const TWO_16: int := 0x1_0000
  const TWO_31: int := 0x8000_0000
  const TWO_32: int := 0x1_0000_0000
  const TWO_64: int := 0x1_0000_0000_0000_0000

  type Byte = x: int | 0 <= x < 0x100
  type U16 = x: int | 0 <= x < 0x1_0000
  type U32 = x: int | 0 <= x < 0x1_0000_0000
  type U64 = x: int | 0 <= x < 0x1_0000_0000_0000_0000

  type Bytes = seq<Byte>

  datatype Option<+T> = None | Some(value: T)

  /** `std::min` on sizes. */
  function Min(a: int, b: int): int {
    if a <= b then a else b
  }

  /** Unsigned 32-bit addition. */
  function Add32(a: U32, b: int): U32 {
    (a + b) % TWO_32
  }

  /** Unsigned 64-bit subtraction. */
  function Sub64(a: U64, b: U64): U64 {
    (a - b) % TWO_64
  }

  /** Reinterpretation of a 32-bit word as `std::int32_t`. */
  function Signed32(x: U32): int {
    if x < TWO_31 then x else x - TWO_32
  }

  /** `lhs - rhs` in 32-bit serial-number arithmetic (section 3.4 of RFC 9293). */
  function SequenceDistance(lhs: U32, rhs: U32): int {
    Signed32((lhs - rhs) % TWO_32)
  }

  /** How far `sequence` lies after `origin`, walking forward around the ring. */
  function Offset(origin: U32, sequence: U32): U32 {
    (sequence - origin) % TWO_32
  }

  /** Forward walking and offsets are inverse to each other. */
  lemma OffsetOfAdd(origin: U32, a: nat)
    requires a < TWO_32
    ensures Offset(origin, Add32(origin, a)) == a
  {}

  lemma AddOfOffset(origin: U32, sequence: U32)
    ensures Add32(origin, Offset(origin, sequence)) == sequence
  {}

  lemma AddAssociates(origin: U32, a: nat, b: nat)
    ensures Add32(Add32(origin, a), b) == Add32(origin, a + b)
  {
    AddModulus(origin + a, b);
  }

  lemma AddModulus(x: int, b: int)
    ensures (x % TWO_32 + b) % TWO_32 == (x + b) % TWO_32
  {
    assert x == TWO_32 * (x / TWO_32) + x % TWO_32;
  }

  lemma ZeroDistance(x: U32, y: U32)
    ensures SequenceDistance(x, y) == 0 <==> x == y
  {}

  /** Two positions less than half the ring apart keep their true distance, whether or
      not the sequence space wraps between them. */
  lemma DistanceIsOffsetDifference(origin: U32, x: U32, y: U32)
    requires -TWO_31 <= Offset(origin, x) - Offset(origin, y) < TWO_31
    ensures SequenceDistance(x, y) == Offset(origin, x) - Offset(origin, y)
  {}
}
