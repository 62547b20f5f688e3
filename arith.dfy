/** Unsigned machine-word sizes and the uniqueness of Euclidean division,
    shared by the modules that model fixed-width integer code. */
module Arith {

  const Two32: nat := 0x1_0000_0000
  const Two64: nat := 0x1_0000_0000_0000_0000

  /** Euclidean division is determined by its quotient and remainder. */
  lemma DivModUnique(x: int, d: int, q: int, rem: int)
    requires 0 < d && 0 <= rem < d && x == q * d + rem
    ensures x / d == q && x % d == rem
  {
    var k := x / d - q;
    assert k * d == rem - x % d;
    MultipleBelowDivisor(k, d);
  }

  /** The only multiple of `d` strictly between `-d` and `d` is zero. */
  lemma MultipleBelowDivisor(k: int, d: int)
    requires 0 < d && -d < k * d < d
    ensures k == 0
  {
  }
}
