/** The program's single pseudo-random generator, made explicit.

    Both `random.random()` and `random.choice([-1, 1])` advance the same
    generator. The model reads the generator as an infinite stream indexed by
    a position counter: a call at position k reads `unit(k)` or `coin(k)` and
    moves the counter to k + 1. Every function that draws takes the position
    to start from and returns the position after its last draw, so draws are
    consumed exactly in program order. */
module Randomness {

  /** A value of `random.random()`: a real in [0, 1). */
  type Unit = u: real | 0.0 <= u < 1.0 witness 0.0

  /** A value of `random.choice([-1, 1])`. */
  type Sign = s: int | s == -1 || s == 1 witness 1

  datatype Rng = Rng(unit: nat -> Unit, coin: nat -> Sign)

  /** Sum of the coins drawn at positions [lo, hi). */
  function CoinSum(rng: Rng, lo: nat, hi: nat): int
    decreases hi - lo
  {
    if hi <= lo then 0 else rng.coin(lo) + CoinSum(rng, lo + 1, hi)
  }

  /** A sum of k signs lies in [-k, k]. */
  lemma {:induction false} CoinSumBounded(rng: Rng, lo: nat, hi: nat)
    requires lo <= hi
    ensures -(hi - lo) <= CoinSum(rng, lo, hi) <= hi - lo
    decreases hi - lo
  {
    if lo < hi {
      CoinSumBounded(rng, lo + 1, hi);
    }
  }
}
