/** Java's 32-bit two's-complement `int`: the model keeps integers unbounded and
    truncates explicitly wherever the source adds or subtracts two `int`s. */
module JavaInt {

  const MIN_INT: int := -0x8000_0000
  const MAX_INT: int := 0x7fff_ffff
  const MODULUS: int := 0x1_0000_0000

  /** True of the values a Java `int` can hold. */
  predicate IsInt(x: int) {
    MIN_INT <= x <= MAX_INT
  }

  /** The `int` that Java's arithmetic leaves when the exact result is `x`. */
  function Wrap(x: int): (r: int)
    ensures IsInt(r)
    ensures (x - r) % MODULUS == 0
    ensures IsInt(x) ==> r == x
    ensures MAX_INT < x <= MAX_INT + MODULUS ==> r == x - MODULUS
  {
    var q := (x - MIN_INT) / MODULUS;
    assert x - MIN_INT == q * MODULUS + (x - MIN_INT) % MODULUS;
    (x - MIN_INT) % MODULUS + MIN_INT
  }

  /** Java's `a + b` on `int`. */
  function Add(a: int, b: int): (r: int)
    ensures IsInt(r)
    ensures IsInt(a + b) ==> r == a + b
    ensures IsInt(a) && IsInt(b) && a + b > MAX_INT ==> r == a + b - MODULUS < 0
  {
    Wrap(a + b)
  }

  /** Java's `a - b` on `int`. */
  function Sub(a: int, b: int): (r: int)
    ensures IsInt(r)
    ensures IsInt(a - b) ==> r == a - b
  {
    Wrap(a - b)
  }
}
