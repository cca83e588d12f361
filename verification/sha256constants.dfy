/**
 What FIPS 180-4 says the functions and constants of SHA-256 are, without writing them again: choice and majority bit
 by bit (section 4.1.2), and the constants as the fractional parts of roots of primes (sections 4.2.2 and 5.3.3).
 */
module Sha256Constants {
  import opened Bytes
  import opened Sha256

  /** Where x has ones, choice takes the bits of y; where it has zeros, those of z. */
  lemma ChoiceIsBitwise(x: word, y: word, z: word, mask: word)
    ensures x & mask == mask ==> Ch(x, y, z) & mask == y & mask
    ensures x & mask == 0 ==> Ch(x, y, z) & mask == z & mask
  {
  }

  /** Wherever two of the words agree, majority is what they agree on. */
  lemma MajorityOfFirst(x: word, y: word, z: word, mask: word)
    requires x & mask == y & mask
    ensures Maj(x, y, z) & mask == x & mask
  {
    assert Maj(x, y, z) & mask == ((x & mask) & (y & mask)) ^ ((x & mask) & (z & mask)) ^ ((y & mask) & (z & mask));
  }

  lemma MajorityOfOuter(x: word, y: word, z: word, mask: word)
    requires x & mask == z & mask
    ensures Maj(x, y, z) & mask == x & mask
  {
    assert Maj(x, y, z) & mask == ((x & mask) & (y & mask)) ^ ((x & mask) & (z & mask)) ^ ((y & mask) & (z & mask));
  }

  lemma MajorityOfLast(x: word, y: word, z: word, mask: word)
    requires y & mask == z & mask
    ensures Maj(x, y, z) & mask == y & mask
  {
    assert Maj(x, y, z) & mask == ((x & mask) & (y & mask)) ^ ((x & mask) & (z & mask)) ^ ((y & mask) & (z & mask));
  }

  /** The octets of a word, most significant first, are its digits. */
  lemma OctetsAreDigits(w: word)
    ensures var s := OctetsOf(w);
            |s| == 4 && 0x100_0000 * s[0] as int + 0x1_0000 * s[1] as int + 0x100 * s[2] as int + s[3] as int == w as int
  {
    Digits(w as int);
  }

  lemma Keys0()
    ensures K[0] == 0x428a2f98 && K[1] == 0x71374491 && K[2] == 0xb5c0fbcf && K[3] == 0xe9b5dba5
    ensures K[4] == 0x3956c25b && K[5] == 0x59f111f1 && K[6] == 0x923f82a4 && K[7] == 0xab1c5ed5
    ensures K[8] == 0xd807aa98 && K[9] == 0x12835b01 && K[10] == 0x243185be && K[11] == 0x550c7dc3
    ensures K[12] == 0x72be5d74 && K[13] == 0x80deb1fe && K[14] == 0x9bdc06a7 && K[15] == 0xc19bf174
  {
  }

  lemma Keys1()
    ensures K[16] == 0xe49b69c1 && K[17] == 0xefbe4786 && K[18] == 0x0fc19dc6 && K[19] == 0x240ca1cc
    ensures K[20] == 0x2de92c6f && K[21] == 0x4a7484aa && K[22] == 0x5cb0a9dc && K[23] == 0x76f988da
    ensures K[24] == 0x983e5152 && K[25] == 0xa831c66d && K[26] == 0xb00327c8 && K[27] == 0xbf597fc7
    ensures K[28] == 0xc6e00bf3 && K[29] == 0xd5a79147 && K[30] == 0x06ca6351 && K[31] == 0x14292967
  {
  }

  lemma Keys2()
    ensures K[32] == 0x27b70a85 && K[33] == 0x2e1b2138 && K[34] == 0x4d2c6dfc && K[35] == 0x53380d13
    ensures K[36] == 0x650a7354 && K[37] == 0x766a0abb && K[38] == 0x81c2c92e && K[39] == 0x92722c85
    ensures K[40] == 0xa2bfe8a1 && K[41] == 0xa81a664b && K[42] == 0xc24b8b70 && K[43] == 0xc76c51a3
    ensures K[44] == 0xd192e819 && K[45] == 0xd6990624 && K[46] == 0xf40e3585 && K[47] == 0x106aa070
  {
  }

  lemma Keys3()
    ensures K[48] == 0x19a4c116 && K[49] == 0x1e376c08 && K[50] == 0x2748774c && K[51] == 0x34b0bcb5
    ensures K[52] == 0x391c0cb3 && K[53] == 0x4ed8aa4a && K[54] == 0x5b9cca4f && K[55] == 0x682e6ff3
    ensures K[56] == 0x748f82ee && K[57] == 0x78a5636f && K[58] == 0x84c87814 && K[59] == 0x8cc70208
    ensures K[60] == 0x90befffa && K[61] == 0xa4506ceb && K[62] == 0xbef9a3f7 && K[63] == 0xc67178f2
  {
  }

  lemma Hashes()
    ensures H0[0] == 0x6a09e667 && H0[1] == 0xbb67ae85 && H0[2] == 0x3c6ef372 && H0[3] == 0xa54ff53a
    ensures H0[4] == 0x510e527f && H0[5] == 0x9b05688c && H0[6] == 0x1f83d9ab && H0[7] == 0x5be0cd19
  {
  }

  function Square(n: nat): nat { n * n }
  function Cube(n: nat): nat { n * n * n }

  // k is the first 32 bits of the fractional part of the cube root, or square root, of p.
  ghost predicate CubeRoot(k: word, p: nat) {
    exists a: nat :: Cube(a * 0x1_0000_0000 + k as int) <= p * Cube(0x1_0000_0000) < Cube(a * 0x1_0000_0000 + k as int + 1)
  }

  ghost predicate SquareRoot(k: word, p: nat) {
    exists a: nat ::
      Square(a * 0x1_0000_0000 + k as int) <= p * Square(0x1_0000_0000) < Square(a * 0x1_0000_0000 + k as int + 1)
  }

  lemma CubeRootIs(k: word, p: nat, a: nat)
    requires Cube(a * 0x1_0000_0000 + k as int) <= p * Cube(0x1_0000_0000) < Cube(a * 0x1_0000_0000 + k as int + 1)
    ensures CubeRoot(k, p)
  {
  }

  lemma SquareRootIs(k: word, p: nat, a: nat)
    requires Square(a * 0x1_0000_0000 + k as int) <= p * Square(0x1_0000_0000) < Square(a * 0x1_0000_0000 + k as int + 1)
    ensures SquareRoot(k, p)
  {
  }

  /** The round constants are the cube roots of the first 64 primes, sixteen at a time. */
  lemma CubeRoots0()
    ensures CubeRoot(K[0], 2) && CubeRoot(K[1], 3) && CubeRoot(K[2], 5) && CubeRoot(K[3], 7)
    ensures CubeRoot(K[4], 11) && CubeRoot(K[5], 13) && CubeRoot(K[6], 17) && CubeRoot(K[7], 19)
    ensures CubeRoot(K[8], 23) && CubeRoot(K[9], 29) && CubeRoot(K[10], 31) && CubeRoot(K[11], 37)
    ensures CubeRoot(K[12], 41) && CubeRoot(K[13], 43) && CubeRoot(K[14], 47) && CubeRoot(K[15], 53)
  {
    Keys0();
    hide K, CubeRoot;
    CubeRootIs(0x428a2f98, 2, 1);
    CubeRootIs(0x71374491, 3, 1);
    CubeRootIs(0xb5c0fbcf, 5, 1);
    CubeRootIs(0xe9b5dba5, 7, 1);
    CubeRootIs(0x3956c25b, 11, 2);
    CubeRootIs(0x59f111f1, 13, 2);
    CubeRootIs(0x923f82a4, 17, 2);
    CubeRootIs(0xab1c5ed5, 19, 2);
    CubeRootIs(0xd807aa98, 23, 2);
    CubeRootIs(0x12835b01, 29, 3);
    CubeRootIs(0x243185be, 31, 3);
    CubeRootIs(0x550c7dc3, 37, 3);
    CubeRootIs(0x72be5d74, 41, 3);
    CubeRootIs(0x80deb1fe, 43, 3);
    CubeRootIs(0x9bdc06a7, 47, 3);
    CubeRootIs(0xc19bf174, 53, 3);
  }

  lemma CubeRoots1()
    ensures CubeRoot(K[16], 59) && CubeRoot(K[17], 61) && CubeRoot(K[18], 67) && CubeRoot(K[19], 71)
    ensures CubeRoot(K[20], 73) && CubeRoot(K[21], 79) && CubeRoot(K[22], 83) && CubeRoot(K[23], 89)
    ensures CubeRoot(K[24], 97) && CubeRoot(K[25], 101) && CubeRoot(K[26], 103) && CubeRoot(K[27], 107)
    ensures CubeRoot(K[28], 109) && CubeRoot(K[29], 113) && CubeRoot(K[30], 127) && CubeRoot(K[31], 131)
  {
    Keys1();
    hide K, CubeRoot;
    CubeRootIs(0xe49b69c1, 59, 3);
    CubeRootIs(0xefbe4786, 61, 3);
    CubeRootIs(0x0fc19dc6, 67, 4);
    CubeRootIs(0x240ca1cc, 71, 4);
    CubeRootIs(0x2de92c6f, 73, 4);
    CubeRootIs(0x4a7484aa, 79, 4);
    CubeRootIs(0x5cb0a9dc, 83, 4);
    CubeRootIs(0x76f988da, 89, 4);
    CubeRootIs(0x983e5152, 97, 4);
    CubeRootIs(0xa831c66d, 101, 4);
    CubeRootIs(0xb00327c8, 103, 4);
    CubeRootIs(0xbf597fc7, 107, 4);
    CubeRootIs(0xc6e00bf3, 109, 4);
    CubeRootIs(0xd5a79147, 113, 4);
    CubeRootIs(0x06ca6351, 127, 5);
    CubeRootIs(0x14292967, 131, 5);
  }

  lemma CubeRoots2()
    ensures CubeRoot(K[32], 137) && CubeRoot(K[33], 139) && CubeRoot(K[34], 149) && CubeRoot(K[35], 151)
    ensures CubeRoot(K[36], 157) && CubeRoot(K[37], 163) && CubeRoot(K[38], 167) && CubeRoot(K[39], 173)
    ensures CubeRoot(K[40], 179) && CubeRoot(K[41], 181) && CubeRoot(K[42], 191) && CubeRoot(K[43], 193)
    ensures CubeRoot(K[44], 197) && CubeRoot(K[45], 199) && CubeRoot(K[46], 211) && CubeRoot(K[47], 223)
  {
    Keys2();
    hide K, CubeRoot;
    CubeRootIs(0x27b70a85, 137, 5);
    CubeRootIs(0x2e1b2138, 139, 5);
    CubeRootIs(0x4d2c6dfc, 149, 5);
    CubeRootIs(0x53380d13, 151, 5);
    CubeRootIs(0x650a7354, 157, 5);
    CubeRootIs(0x766a0abb, 163, 5);
    CubeRootIs(0x81c2c92e, 167, 5);
    CubeRootIs(0x92722c85, 173, 5);
    CubeRootIs(0xa2bfe8a1, 179, 5);
    CubeRootIs(0xa81a664b, 181, 5);
    CubeRootIs(0xc24b8b70, 191, 5);
    CubeRootIs(0xc76c51a3, 193, 5);
    CubeRootIs(0xd192e819, 197, 5);
    CubeRootIs(0xd6990624, 199, 5);
    CubeRootIs(0xf40e3585, 211, 5);
    CubeRootIs(0x106aa070, 223, 6);
  }

  lemma CubeRoots3()
    ensures CubeRoot(K[48], 227) && CubeRoot(K[49], 229) && CubeRoot(K[50], 233) && CubeRoot(K[51], 239)
    ensures CubeRoot(K[52], 241) && CubeRoot(K[53], 251) && CubeRoot(K[54], 257) && CubeRoot(K[55], 263)
    ensures CubeRoot(K[56], 269) && CubeRoot(K[57], 271) && CubeRoot(K[58], 277) && CubeRoot(K[59], 281)
    ensures CubeRoot(K[60], 283) && CubeRoot(K[61], 293) && CubeRoot(K[62], 307) && CubeRoot(K[63], 311)
  {
    Keys3();
    hide K, CubeRoot;
    CubeRootIs(0x19a4c116, 227, 6);
    CubeRootIs(0x1e376c08, 229, 6);
    CubeRootIs(0x2748774c, 233, 6);
    CubeRootIs(0x34b0bcb5, 239, 6);
    CubeRootIs(0x391c0cb3, 241, 6);
    CubeRootIs(0x4ed8aa4a, 251, 6);
    CubeRootIs(0x5b9cca4f, 257, 6);
    CubeRootIs(0x682e6ff3, 263, 6);
    CubeRootIs(0x748f82ee, 269, 6);
    CubeRootIs(0x78a5636f, 271, 6);
    CubeRootIs(0x84c87814, 277, 6);
    CubeRootIs(0x8cc70208, 281, 6);
    CubeRootIs(0x90befffa, 283, 6);
    CubeRootIs(0xa4506ceb, 293, 6);
    CubeRootIs(0xbef9a3f7, 307, 6);
    CubeRootIs(0xc67178f2, 311, 6);
  }

  /** The initial hash value holds the square roots of the first eight primes. */
  lemma InitialHash()
    ensures SquareRoot(H0[0], 2) && SquareRoot(H0[1], 3) && SquareRoot(H0[2], 5) && SquareRoot(H0[3], 7)
    ensures SquareRoot(H0[4], 11) && SquareRoot(H0[5], 13) && SquareRoot(H0[6], 17) && SquareRoot(H0[7], 19)
  {
    Hashes();
    hide H0, SquareRoot;
    SquareRootIs(0x6a09e667, 2, 1);
    SquareRootIs(0xbb67ae85, 3, 1);
    SquareRootIs(0x3c6ef372, 5, 2);
    SquareRootIs(0xa54ff53a, 7, 2);
    SquareRootIs(0x510e527f, 11, 3);
    SquareRootIs(0x9b05688c, 13, 3);
    SquareRootIs(0x1f83d9ab, 17, 4);
    SquareRootIs(0x5be0cd19, 19, 4);
  }
}
