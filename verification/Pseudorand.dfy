/** The kernel's pseudo-random device: Park and Miller's generator. */
module Pseudorand {

  const MULTIPLIER := 16807
  const MODULUS := 0x7fff_ffff
  const K1 := 127773     // MODULUS / MULTIPLIER
  const K2 := 2836       // MODULUS % MULTIPLIER

  predicate Int32(x: int) { -0x8000_0000 <= x < 0x8000_0000 }

  /** A seed the generator can be in. */
  predicate Seed(x: int) { 1 <= x < MODULUS }

  /** Schrage's decomposition neither overflows nor hits zero. */
  lemma Schrage(seed: int)
    requires Seed(seed)
    ensures var hi, lo := seed / K1, seed % K1;
      && Int32(MULTIPLIER * lo) && Int32(K2 * hi) && Int32(MULTIPLIER * lo - K2 * hi)
      && -MODULUS < MULTIPLIER * lo - K2 * hi < MODULUS
      && MULTIPLIER * lo != K2 * hi
      && MULTIPLIER * seed == MODULUS * hi + (MULTIPLIER * lo - K2 * hi)
  {
    var hi, lo := seed / K1, seed % K1;
    assert seed == K1 * hi + lo && hi <= 16807;
    NoCommonFactor(hi, lo);
  }

  /** The multiplier and K2 have no common factor: -977 * MULTIPLIER + 5790 * K2 == 1. */
  lemma NoCommonFactor(hi: int, lo: int)
    ensures MULTIPLIER * lo == K2 * hi ==> hi == MULTIPLIER * (-977 * hi + 5790 * lo)
  {
  }

  lemma ModPositive(x: int, q: int, r: int)
    requires x == MODULUS * q + r && 0 <= r < MODULUS
    ensures x % MODULUS == r
  {
  }

  class Softc {
    var seed: int

    /** pseudorand_random: the seed times the multiplier, modulo the modulus. */
    method Random() returns (val: int)
      requires Seed(seed)
      modifies this
      ensures Seed(seed) && seed == MULTIPLIER * old(seed) % MODULUS
      ensures val == seed - 1 && 0 <= val <= MODULUS - 2
    {
      var hi, lo := seed / K1, seed % K1;
      Schrage(seed);
      var tmp := MULTIPLIER * lo - K2 * hi;
      if tmp <= 0 {
        tmp := tmp + MODULUS;
        ModPositive(MULTIPLIER * seed, hi - 1, tmp);
      } else {
        ModPositive(MULTIPLIER * seed, hi, tmp);
      }
      seed := tmp;
      val := seed - 1;
    }

    /** After k calls the seed is MULTIPLIER^k times the first one. */
    method Draw(k: nat) returns (vals: seq<int>)
      requires Seed(seed)
      modifies this
      ensures Seed(seed) && seed == Power(k) * old(seed) % MODULUS && |vals| == k
      ensures forall i :: 0 <= i < k ==>
        vals[i] == Power(i + 1) * old(seed) % MODULUS - 1 && 0 <= vals[i] <= MODULUS - 2
    {
      vals := [];
      for i := 0 to k
        invariant Seed(seed) && seed == Power(i) * old(seed) % MODULUS && |vals| == i
        invariant forall j :: 0 <= j < i ==>
          vals[j] == Power(j + 1) * old(seed) % MODULUS - 1 && 0 <= vals[j] <= MODULUS - 2
      {
        PowerStep(i, old(seed));
        var val := Random();
        vals := vals + [val];
      }
    }
  }

  /** MULTIPLIER to the k. */
  function Power(k: nat): int { if k == 0 then 1 else MULTIPLIER * Power(k - 1) }

  lemma PowerStep(k: nat, seed: int)
    ensures MULTIPLIER * (Power(k) * seed % MODULUS) % MODULUS == Power(k + 1) * seed % MODULUS
  {
    var x := Power(k) * seed;
    var q, r := x / MODULUS, x % MODULUS;
    assert x == MODULUS * q + r;
    assert MULTIPLIER * x == MODULUS * (MULTIPLIER * q) + MULTIPLIER * r;
    ModShift(MULTIPLIER * q, MULTIPLIER * r);
    assert Power(k + 1) * seed == MULTIPLIER * x;
  }

  lemma ModShift(q: int, r: int)
    ensures (MODULUS * q + r) % MODULUS == r % MODULUS
  {
  }
}
