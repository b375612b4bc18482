/** Go's fixed-width integers and the operators on them that the panel
    adapter uses: wrap-around multiplication, division that truncates toward
    zero, and the bit-reinterpreting conversions `uint64(x)` and `uint32(x)`. */
module GoInt {

  const TWO_32: int := 0x1_0000_0000
  const TWO_63: int := 0x8000_0000_0000_0000
  const TWO_64: int := 0x1_0000_0000_0000_0000

  type uint32 = x: int | 0 <= x < TWO_32
  type uint64 = x: int | 0 <= x < TWO_64
  type int64 = x: int | -TWO_63 <= x < TWO_63

  /** The int64 that a Go int64 computation with mathematical value `x`
      produces (two's-complement wrap-around). */
  function WrapInt64(x: int): (r: int64)
    ensures (x - r) % TWO_64 == 0
    ensures -TWO_63 <= x < TWO_63 ==> r == x
  {
    var m := x % TWO_64;
    if m >= TWO_63 then m - TWO_64 else m
  }

  /** `uint64(x)` for an integer `x`, and uint64 arithmetic wrap-around. */
  function WrapUint64(x: int): (r: uint64)
    ensures (x - r) % TWO_64 == 0
    ensures 0 <= x < TWO_64 ==> r == x
    ensures -TWO_64 <= x < 0 ==> r == x + TWO_64
  {
    x % TWO_64
  }

  /** `uint32(x)` for an int64 `x`: keeps the low 32 bits. */
  function ToUint32(x: int64): (r: uint32)
    ensures (x - r) % TWO_32 == 0
    ensures 0 <= x < TWO_32 ==> r == x
    ensures -TWO_32 <= x < 0 ==> r == x + TWO_32
  {
    x % TWO_32
  }

  /** Go's integer `/`, which truncates toward zero (Dafny's `/` is Euclidean). */
  function Quo(x: int, d: int): (q: int)
    requires d > 0
    ensures 0 <= x ==> 0 <= q && x - d < q * d <= x
    ensures x < 0 ==> q <= 0 && x <= q * d < x + d
  {
    if x >= 0 then x / d else -((-x) / d)
  }

  /** Dividing a multiple of 8 by 8 is exact, whatever the sign. */
  lemma QuoExact8(y: int)
    ensures Quo(y * 8, 8) == y
  {
    if y < 0 {
      assert -(y * 8) == (-y) * 8;
    }
  }
}
