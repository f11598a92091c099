/** Where the constants of SHA-256 come from, and what its bit functions do.

    FIPS 180-4 takes them from the roots of the first primes.
 */
module Sha256Constants {
  import opened Sha256Standard

  /** The first sixty-four primes. */
  const PRIMES: seq<int> :=
    [2, 3, 5, 7, 11, 13, 17, 19]
    + [23, 29, 31, 37, 41, 43, 47, 53]
    + [59, 61, 67, 71, 73, 79, 83, 89]
    + [97, 101, 103, 107, 109, 113, 127, 131]
    + [137, 139, 149, 151, 157, 163, 167, 173]
    + [179, 181, 191, 193, 197, 199, 211, 223]
    + [227, 229, 233, 239, 241, 251, 257, 263]
    + [269, 271, 277, 281, 283, 293, 307, 311]

  // ---------------------------------------------------------------- Section 4.2.2

  /** r is the cube root of p in units of 2^-32, rounded down. */
  predicate CubeRoot(r: int, p: int) {
    r * r * r <= p * MODULUS * MODULUS * MODULUS < (r + 1) * (r + 1) * (r + 1)
  }

  /** The first 32 bits of the fractional part of a number's cube root. */
  ghost predicate CubeFraction(k: bv32, p: int) {
    exists whole: nat :: CubeRoot(whole * MODULUS + Value(k), p)
  }

  ghost predicate CubeFractions(k: seq<bv32>, p: seq<int>) {
    |k| == |p| && forall t :: 0 <= t < |k| ==> CubeFraction(k[t], p[t])
  }

  lemma OneRoot(k: bv32, p: int, whole: nat)
    requires CubeRoot(whole * MODULUS + Value(k), p)
    ensures CubeFraction(k, p)
  {
  }

  lemma FractionsConcat(k: seq<bv32>, p: seq<int>, l: seq<bv32>, q: seq<int>)
    requires CubeFractions(k, p) && CubeFractions(l, q)
    ensures CubeFractions(k + l, p + q)
  {
    hide CubeFraction;
  }

  lemma Row0()
    ensures CubeFractions(
              [0x428a2f98, 0x71374491, 0xb5c0fbcf, 0xe9b5dba5, 0x3956c25b, 0x59f111f1, 0x923f82a4, 0xab1c5ed5],
              [2, 3, 5, 7, 11, 13, 17, 19])
  {
    hide CubeFraction;
    OneRoot(0x428a2f98, 2, 1);
    OneRoot(0x71374491, 3, 1);
    OneRoot(0xb5c0fbcf, 5, 1);
    OneRoot(0xe9b5dba5, 7, 1);
    OneRoot(0x3956c25b, 11, 2);
    OneRoot(0x59f111f1, 13, 2);
    OneRoot(0x923f82a4, 17, 2);
    OneRoot(0xab1c5ed5, 19, 2);
  }

  lemma Row1()
    ensures CubeFractions(
              [0xd807aa98, 0x12835b01, 0x243185be, 0x550c7dc3, 0x72be5d74, 0x80deb1fe, 0x9bdc06a7, 0xc19bf174],
              [23, 29, 31, 37, 41, 43, 47, 53])
  {
    hide CubeFraction;
    OneRoot(0xd807aa98, 23, 2);
    OneRoot(0x12835b01, 29, 3);
    OneRoot(0x243185be, 31, 3);
    OneRoot(0x550c7dc3, 37, 3);
    OneRoot(0x72be5d74, 41, 3);
    OneRoot(0x80deb1fe, 43, 3);
    OneRoot(0x9bdc06a7, 47, 3);
    OneRoot(0xc19bf174, 53, 3);
  }

  lemma Row2()
    ensures CubeFractions(
              [0xe49b69c1, 0xefbe4786, 0x0fc19dc6, 0x240ca1cc, 0x2de92c6f, 0x4a7484aa, 0x5cb0a9dc, 0x76f988da],
              [59, 61, 67, 71, 73, 79, 83, 89])
  {
    hide CubeFraction;
    OneRoot(0xe49b69c1, 59, 3);
    OneRoot(0xefbe4786, 61, 3);
    OneRoot(0x0fc19dc6, 67, 4);
    OneRoot(0x240ca1cc, 71, 4);
    OneRoot(0x2de92c6f, 73, 4);
    OneRoot(0x4a7484aa, 79, 4);
    OneRoot(0x5cb0a9dc, 83, 4);
    OneRoot(0x76f988da, 89, 4);
  }

  lemma Row3()
    ensures CubeFractions(
              [0x983e5152, 0xa831c66d, 0xb00327c8, 0xbf597fc7, 0xc6e00bf3, 0xd5a79147, 0x06ca6351, 0x14292967],
              [97, 101, 103, 107, 109, 113, 127, 131])
  {
    hide CubeFraction;
    OneRoot(0x983e5152, 97, 4);
    OneRoot(0xa831c66d, 101, 4);
    OneRoot(0xb00327c8, 103, 4);
    OneRoot(0xbf597fc7, 107, 4);
    OneRoot(0xc6e00bf3, 109, 4);
    OneRoot(0xd5a79147, 113, 4);
    OneRoot(0x06ca6351, 127, 5);
    OneRoot(0x14292967, 131, 5);
  }

  lemma Row4()
    ensures CubeFractions(
              [0x27b70a85, 0x2e1b2138, 0x4d2c6dfc, 0x53380d13, 0x650a7354, 0x766a0abb, 0x81c2c92e, 0x92722c85],
              [137, 139, 149, 151, 157, 163, 167, 173])
  {
    hide CubeFraction;
    OneRoot(0x27b70a85, 137, 5);
    OneRoot(0x2e1b2138, 139, 5);
    OneRoot(0x4d2c6dfc, 149, 5);
    OneRoot(0x53380d13, 151, 5);
    OneRoot(0x650a7354, 157, 5);
    OneRoot(0x766a0abb, 163, 5);
    OneRoot(0x81c2c92e, 167, 5);
    OneRoot(0x92722c85, 173, 5);
  }

  lemma Row5()
    ensures CubeFractions(
              [0xa2bfe8a1, 0xa81a664b, 0xc24b8b70, 0xc76c51a3, 0xd192e819, 0xd6990624, 0xf40e3585, 0x106aa070],
              [179, 181, 191, 193, 197, 199, 211, 223])
  {
    hide CubeFraction;
    OneRoot(0xa2bfe8a1, 179, 5);
    OneRoot(0xa81a664b, 181, 5);
    OneRoot(0xc24b8b70, 191, 5);
    OneRoot(0xc76c51a3, 193, 5);
    OneRoot(0xd192e819, 197, 5);
    OneRoot(0xd6990624, 199, 5);
    OneRoot(0xf40e3585, 211, 5);
    OneRoot(0x106aa070, 223, 6);
  }

  lemma Row6()
    ensures CubeFractions(
              [0x19a4c116, 0x1e376c08, 0x2748774c, 0x34b0bcb5, 0x391c0cb3, 0x4ed8aa4a, 0x5b9cca4f, 0x682e6ff3],
              [227, 229, 233, 239, 241, 251, 257, 263])
  {
    hide CubeFraction;
    OneRoot(0x19a4c116, 227, 6);
    OneRoot(0x1e376c08, 229, 6);
    OneRoot(0x2748774c, 233, 6);
    OneRoot(0x34b0bcb5, 239, 6);
    OneRoot(0x391c0cb3, 241, 6);
    OneRoot(0x4ed8aa4a, 251, 6);
    OneRoot(0x5b9cca4f, 257, 6);
    OneRoot(0x682e6ff3, 263, 6);
  }

  lemma Row7()
    ensures CubeFractions(
              [0x748f82ee, 0x78a5636f, 0x84c87814, 0x8cc70208, 0x90befffa, 0xa4506ceb, 0xbef9a3f7, 0xc67178f2],
              [269, 271, 277, 281, 283, 293, 307, 311])
  {
    hide CubeFraction;
    OneRoot(0x748f82ee, 269, 6);
    OneRoot(0x78a5636f, 271, 6);
    OneRoot(0x84c87814, 277, 6);
    OneRoot(0x8cc70208, 281, 6);
    OneRoot(0x90befffa, 283, 6);
    OneRoot(0xa4506ceb, 293, 6);
    OneRoot(0xbef9a3f7, 307, 6);
    OneRoot(0xc67178f2, 311, 6);
  }

  /** The round constants are the first 32 bits of the fractional parts of the cube roots of the first
      sixty-four primes.
   */
  lemma RoundConstants(t: nat)
    requires t < 64
    ensures |K| == 64 && |PRIMES| == 64 && CubeFraction(K[t], PRIMES[t])
  {
    assert CubeFractions(K, PRIMES) by {
      hide CubeFractions;
      Row0();
      var k := [0x428a2f98, 0x71374491, 0xb5c0fbcf, 0xe9b5dba5, 0x3956c25b, 0x59f111f1, 0x923f82a4, 0xab1c5ed5];
      var p := [2, 3, 5, 7, 11, 13, 17, 19];
      Row1();
      FractionsConcat(k, p,
                      [0xd807aa98, 0x12835b01, 0x243185be, 0x550c7dc3, 0x72be5d74, 0x80deb1fe, 0x9bdc06a7, 0xc19bf174],
                      [23, 29, 31, 37, 41, 43, 47, 53]);
      k := k + [0xd807aa98, 0x12835b01, 0x243185be, 0x550c7dc3, 0x72be5d74, 0x80deb1fe, 0x9bdc06a7, 0xc19bf174];
      p := p + [23, 29, 31, 37, 41, 43, 47, 53];
      Row2();
      FractionsConcat(k, p,
                      [0xe49b69c1, 0xefbe4786, 0x0fc19dc6, 0x240ca1cc, 0x2de92c6f, 0x4a7484aa, 0x5cb0a9dc, 0x76f988da],
                      [59, 61, 67, 71, 73, 79, 83, 89]);
      k := k + [0xe49b69c1, 0xefbe4786, 0x0fc19dc6, 0x240ca1cc, 0x2de92c6f, 0x4a7484aa, 0x5cb0a9dc, 0x76f988da];
      p := p + [59, 61, 67, 71, 73, 79, 83, 89];
      Row3();
      FractionsConcat(k, p,
                      [0x983e5152, 0xa831c66d, 0xb00327c8, 0xbf597fc7, 0xc6e00bf3, 0xd5a79147, 0x06ca6351, 0x14292967],
                      [97, 101, 103, 107, 109, 113, 127, 131]);
      k := k + [0x983e5152, 0xa831c66d, 0xb00327c8, 0xbf597fc7, 0xc6e00bf3, 0xd5a79147, 0x06ca6351, 0x14292967];
      p := p + [97, 101, 103, 107, 109, 113, 127, 131];
      Row4();
      FractionsConcat(k, p,
                      [0x27b70a85, 0x2e1b2138, 0x4d2c6dfc, 0x53380d13, 0x650a7354, 0x766a0abb, 0x81c2c92e, 0x92722c85],
                      [137, 139, 149, 151, 157, 163, 167, 173]);
      k := k + [0x27b70a85, 0x2e1b2138, 0x4d2c6dfc, 0x53380d13, 0x650a7354, 0x766a0abb, 0x81c2c92e, 0x92722c85];
      p := p + [137, 139, 149, 151, 157, 163, 167, 173];
      Row5();
      FractionsConcat(k, p,
                      [0xa2bfe8a1, 0xa81a664b, 0xc24b8b70, 0xc76c51a3, 0xd192e819, 0xd6990624, 0xf40e3585, 0x106aa070],
                      [179, 181, 191, 193, 197, 199, 211, 223]);
      k := k + [0xa2bfe8a1, 0xa81a664b, 0xc24b8b70, 0xc76c51a3, 0xd192e819, 0xd6990624, 0xf40e3585, 0x106aa070];
      p := p + [179, 181, 191, 193, 197, 199, 211, 223];
      Row6();
      FractionsConcat(k, p,
                      [0x19a4c116, 0x1e376c08, 0x2748774c, 0x34b0bcb5, 0x391c0cb3, 0x4ed8aa4a, 0x5b9cca4f, 0x682e6ff3],
                      [227, 229, 233, 239, 241, 251, 257, 263]);
      k := k + [0x19a4c116, 0x1e376c08, 0x2748774c, 0x34b0bcb5, 0x391c0cb3, 0x4ed8aa4a, 0x5b9cca4f, 0x682e6ff3];
      p := p + [227, 229, 233, 239, 241, 251, 257, 263];
      Row7();
      FractionsConcat(k, p,
                      [0x748f82ee, 0x78a5636f, 0x84c87814, 0x8cc70208, 0x90befffa, 0xa4506ceb, 0xbef9a3f7, 0xc67178f2],
                      [269, 271, 277, 281, 283, 293, 307, 311]);
      k := k + [0x748f82ee, 0x78a5636f, 0x84c87814, 0x8cc70208, 0x90befffa, 0xa4506ceb, 0xbef9a3f7, 0xc67178f2];
      p := p + [269, 271, 277, 281, 283, 293, 307, 311];
    }
  }

  // ---------------------------------------------------------------- Section 5.3.3

  predicate SquareRoot(r: int, p: int) {
    r * r <= p * MODULUS * MODULUS < (r + 1) * (r + 1)
  }

  ghost predicate SquareFraction(h: bv32, p: int) {
    exists whole: nat :: SquareRoot(whole * MODULUS + Value(h), p)
  }

  lemma OneSquareRoot(h: bv32, p: int, whole: nat)
    requires SquareRoot(whole * MODULUS + Value(h), p)
    ensures SquareFraction(h, p)
  {
  }

  /** The initial hash value is made of those of the square roots of the first eight. */
  lemma InitialValue()
    ensures var h := INITIAL;
            && SquareFraction(h.a, 2) && SquareFraction(h.b, 3) && SquareFraction(h.c, 5) && SquareFraction(h.d, 7)
            && SquareFraction(h.e, 11) && SquareFraction(h.f, 13) && SquareFraction(h.g, 17) && SquareFraction(h.h, 19)
  {
    hide SquareFraction;
    OneSquareRoot(0x6a09e667, 2, 1);
    OneSquareRoot(0xbb67ae85, 3, 1);
    OneSquareRoot(0x3c6ef372, 5, 2);
    OneSquareRoot(0xa54ff53a, 7, 2);
    OneSquareRoot(0x510e527f, 11, 3);
    OneSquareRoot(0x9b05688c, 13, 3);
    OneSquareRoot(0x1f83d9ab, 17, 4);
    OneSquareRoot(0x5be0cd19, 19, 4);
  }

  // ---------------------------------------------------------------- Section 4.1.2

  /** Choice takes the bits of y where x has ones, and those of z elsewhere; the majority goes with any
      two that agree.
   */
  lemma ChoiceAndMajority(x: bv32, y: bv32, z: bv32)
    ensures Ch(x, y, z) & x == y & x && Ch(x, y, z) & !x == z & !x
    ensures Maj(x, x, z) == x && Maj(x, z, x) == x && Maj(z, x, x) == x
  {
  }

  /** Where the lowest bit, or the highest, goes. */
  lemma SingleBits()
    ensures BigSigma0(1) == 0x40080400 && BigSigma1(1) == 0x04200080
    ensures SmallSigma0(0x8000_0000) == 0x11002000 && SmallSigma1(0x8000_0000) == 0x00205000
  {
  }
}
