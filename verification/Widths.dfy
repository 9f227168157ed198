/** Bounds of the machine's integers, and conversion to `int`. */
module Widths {
  import opened Modular

  const INT_MAX: int := 0x7fff_ffff
  const TWO32: nat := 0x1_0000_0000
  const TWO64: nat := 0x1_0000_0000_0000_0000

  /** Conversion of an unsigned size or offset to `int`: modulo 2^32, read as signed. */
  function ToInt(n: nat): (r: int)
    ensures r <= n && r <= INT_MAX && (r == n <==> n <= INT_MAX)
  {
    var r := Mod(n, TWO32);
    if r > INT_MAX then r - TWO32 else r
  }

  lemma {:induction false} ToIntLow(n: nat)
    ensures -INT_MAX - 1 <= ToInt(n)
  {
  }

  /** The result is the number congruent modulo 2^32 that a 32-bit signed integer can be. */
  lemma {:induction false} ToIntExact(n: nat)
    ensures -0x8000_0000 <= ToInt(n) <= 0x7fff_ffff && ToInt(n) % 0x1_0000_0000 == n % 0x1_0000_0000
  {
    ModIsRemainder(n, TWO32);
  }
}
