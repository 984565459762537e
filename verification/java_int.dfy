/** Java's 32-bit two's-complement `int`, as the fields and results of `Node` use it. */
module JavaInt {

  /** 2^32: Java's `int` arithmetic is exact modulo this number. */
  const Modulus: int := 0x1_0000_0000

  newtype i32 = x: int | -0x8000_0000 <= x < 0x8000_0000

  /** Two numbers that Java's `int` cannot tell apart. */
  ghost predicate Congruent(x: int, y: int) {
    (x - y) % Modulus == 0
  }

  /** The `int` that Java's wrapping arithmetic yields when the exact result is `x`:
      the one 32-bit value congruent to `x`, and `x` itself whenever it fits. */
  function Wrap(x: int): (r: i32)
    ensures Congruent(r as int, x)
    ensures -0x8000_0000 <= x < 0x8000_0000 ==> r as int == x
  {
    ((x + 0x8000_0000) % Modulus - 0x8000_0000) as i32
  }

  /** Java's `a + b` on two `int`s that already hold the wrapped values of `x` and `y`
      is the wrapped value of the exact sum `x + y`: wrapping after every step of a sum
      is the same as wrapping once at the end. */
  lemma WrapAdd(x: int, y: int)
    ensures Wrap(Wrap(x) as int + Wrap(y) as int) == Wrap(x + y)
  {
  }
}
