/** Go's fixed-width integers and the optional-value wrapper used across the model.

    Go's `int` is taken to be 64 bits wide, as on 64-bit targets; 32-bit
    targets are not modelled. Conversions and additions that can overflow are
    written out with explicit two's-complement wrap-around.
 */
module GoTypes {

  datatype Option<+T> = None | Some(value: T)

  const TwoTo63: int := 0x8000_0000_0000_0000
  const TwoTo64: int := 0x1_0000_0000_0000_0000

  /** Go `int` (64-bit) */
  type Int64 = x: int | -0x8000_0000_0000_0000 <= x < 0x8000_0000_0000_0000
  /** Go `uint` (64-bit) */
  type Uint64 = x: int | 0 <= x < 0x1_0000_0000_0000_0000
  /** Go `uint8` */
  type Uint8 = x: int | 0 <= x < 0x100

  /** The Int64 that is congruent to x modulo 2^64: what a 64-bit register holds. */
  function Wrap64(x: int): (r: Int64)
    ensures (r - x) % TwoTo64 == 0
    ensures -TwoTo63 <= x < TwoTo63 ==> r == x
  {
    (x + TwoTo63) % TwoTo64 - TwoTo63
  }

  /** Go's conversion `int(u)` of a `uint`: values of 2^63 and above turn negative. */
  function UintToInt(u: Uint64): (r: Int64)
    ensures r >= 0 <==> u < TwoTo63
    ensures u < TwoTo63 ==> r == u
  {
    if u < TwoTo63 then u else u - TwoTo64
  }

  /** Go's `a + b` on `int`, which wraps on overflow. */
  function AddInt(a: Int64, b: Int64): (r: Int64)
    ensures -TwoTo63 <= a + b < TwoTo63 ==> r == a + b
  {
    if a + b >= TwoTo63 then a + b - TwoTo64
    else if a + b < -TwoTo63 then a + b + TwoTo64
    else a + b
  }

  /** Both Go operations agree with 64-bit two's-complement arithmetic. */
  lemma GoIntIsTwosComplement(u: Uint64, a: Int64, b: Int64)
    ensures UintToInt(u) == Wrap64(u)
    ensures AddInt(a, b) == Wrap64(a + b)
  {
  }

  /** Wrapping once at the end is the same as wrapping after every step. */
  lemma Wrap64Absorbs(x: int, y: int)
    ensures Wrap64(Wrap64(x) + y) == Wrap64(x + y)
  {
    var w := Wrap64(x);
    var k := (x + TwoTo63) / TwoTo64;
    assert w == x - k * TwoTo64;
    assert w + y + TwoTo63 == (x + y + TwoTo63) - k * TwoTo64;
    ModShift(x + y + TwoTo63, k);
  }

  lemma ModShift(a: int, k: int)
    ensures (a - k * TwoTo64) % TwoTo64 == a % TwoTo64
  {
    var q := a / TwoTo64;
    var r := a % TwoTo64;
    assert a - k * TwoTo64 == (q - k) * TwoTo64 + r;
  }

  function Min(a: int, b: int): int
  {
    if a <= b then a else b
  }
}
