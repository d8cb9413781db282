/**
 SHA-256 as FIPS 180-4 defines it: by recursion over the message schedule, the rounds and the blocks.
 */
module Fips180 {
  import opened Bytes

  // Sections 3.2 and 4.1.2: rotation and the six functions.

  function Rotate(n: bv32, s: bv6): bv32
    requires 0 < s < 32
  {
    (n >> s) | (n << (32 - s))
  }

  /** Addition modulo 2^32. */
  function Add(x: bv32, y: bv32): bv32 { x + y }

  function Ch(x: bv32, y: bv32, z: bv32): bv32 { (x & y) ^ (!x & z) }
  function Maj(x: bv32, y: bv32, z: bv32): bv32 { (x & y) ^ (x & z) ^ (y & z) }
  function BigSigma0(x: bv32): bv32 { Rotate(x, 2) ^ Rotate(x, 13) ^ Rotate(x, 22) }
  function BigSigma1(x: bv32): bv32 { Rotate(x, 6) ^ Rotate(x, 11) ^ Rotate(x, 25) }
  function SmallSigma0(x: bv32): bv32 { Rotate(x, 7) ^ Rotate(x, 18) ^ (x >> 3) }
  function SmallSigma1(x: bv32): bv32 { Rotate(x, 17) ^ Rotate(x, 19) ^ (x >> 10) }

  const TWO32: int := 0x1_0000_0000

  /** The round constants, in rows of eight. */
  const K0: seq<bv32> := [
    0x428a2f98, 0x71374491, 0xb5c0fbcf, 0xe9b5dba5, 0x3956c25b, 0x59f111f1, 0x923f82a4, 0xab1c5ed5]
  const K1: seq<bv32> := [
    0xd807aa98, 0x12835b01, 0x243185be, 0x550c7dc3, 0x72be5d74, 0x80deb1fe, 0x9bdc06a7, 0xc19bf174]
  const K2: seq<bv32> := [
    0xe49b69c1, 0xefbe4786, 0x0fc19dc6, 0x240ca1cc, 0x2de92c6f, 0x4a7484aa, 0x5cb0a9dc, 0x76f988da]
  const K3: seq<bv32> := [
    0x983e5152, 0xa831c66d, 0xb00327c8, 0xbf597fc7, 0xc6e00bf3, 0xd5a79147, 0x06ca6351, 0x14292967]
  const K4: seq<bv32> := [
    0x27b70a85, 0x2e1b2138, 0x4d2c6dfc, 0x53380d13, 0x650a7354, 0x766a0abb, 0x81c2c92e, 0x92722c85]
  const K5: seq<bv32> := [
    0xa2bfe8a1, 0xa81a664b, 0xc24b8b70, 0xc76c51a3, 0xd192e819, 0xd6990624, 0xf40e3585, 0x106aa070]
  const K6: seq<bv32> := [
    0x19a4c116, 0x1e376c08, 0x2748774c, 0x34b0bcb5, 0x391c0cb3, 0x4ed8aa4a, 0x5b9cca4f, 0x682e6ff3]
  const K7: seq<bv32> := [
    0x748f82ee, 0x78a5636f, 0x84c87814, 0x8cc70208, 0x90befffa, 0xa4506ceb, 0xbef9a3f7, 0xc67178f2]

  /** The first sixty-four primes, in rows of eight. */
  const P0: seq<nat> := [2, 3, 5, 7, 11, 13, 17, 19]
  const P1: seq<nat> := [23, 29, 31, 37, 41, 43, 47, 53]
  const P2: seq<nat> := [59, 61, 67, 71, 73, 79, 83, 89]
  const P3: seq<nat> := [97, 101, 103, 107, 109, 113, 127, 131]
  const P4: seq<nat> := [137, 139, 149, 151, 157, 163, 167, 173]
  const P5: seq<nat> := [179, 181, 191, 193, 197, 199, 211, 223]
  const P6: seq<nat> := [227, 229, 233, 239, 241, 251, 257, 263]
  const P7: seq<nat> := [269, 271, 277, 281, 283, 293, 307, 311]

  const K_ROWS := [K0, K1, K2, K3, K4, K5, K6, K7]
  const PRIME_ROWS := [P0, P1, P2, P3, P4, P5, P6, P7]

  const H0: seq<bv32> := [
    0x6a09e667, 0xbb67ae85, 0x3c6ef372, 0xa54ff53a, 0x510e527f, 0x9b05688c, 0x1f83d9ab, 0x5be0cd19]

  function RoundConstant(t: nat): bv32
    requires t < 64
  {
    K_ROWS[t / 8][t % 8]
  }

  predicate IsCubeRoot(n: int, x: int) { n * n * n <= x < (n + 1) * (n + 1) * (n + 1) }
  predicate IsSquareRoot(n: int, x: int) { n * n <= x < (n + 1) * (n + 1) }

  /** The integer parts of the roots of the primes in the table. */
  function CubeRootFloor(p: int): int {
    if p < 8 then 1 else if p < 27 then 2 else if p < 64 then 3 else if p < 125 then 4
    else if p < 216 then 5 else 6
  }

  function SquareRootFloor(p: int): int {
    if p < 4 then 1 else if p < 9 then 2 else if p < 16 then 3 else 4
  }

  /** k is the first thirty-two bits of the fractional part of the cube root of p. */
  predicate IsCubeRootFraction(k: bv32, p: int) {
    IsCubeRoot(CubeRootFloor(p) * TWO32 + (k as int), p * TWO32 * TWO32 * TWO32)
  }

  predicate IsSquareRootFraction(k: bv32, p: int) {
    IsSquareRoot(SquareRootFloor(p) * TWO32 + (k as int), p * TWO32 * TWO32)
  }

  predicate CubeRootRow(ks: seq<bv32>, ps: seq<nat>) {
    |ks| == |ps| == 8
    && IsCubeRootFraction(ks[0], ps[0]) && IsCubeRootFraction(ks[1], ps[1])
    && IsCubeRootFraction(ks[2], ps[2]) && IsCubeRootFraction(ks[3], ps[3])
    && IsCubeRootFraction(ks[4], ps[4]) && IsCubeRootFraction(ks[5], ps[5])
    && IsCubeRootFraction(ks[6], ps[6]) && IsCubeRootFraction(ks[7], ps[7])
  }

  lemma Row0() ensures CubeRootRow(K0, P0) {}
  lemma Row1() ensures CubeRootRow(K1, P1) {}
  lemma Row2() ensures CubeRootRow(K2, P2) {}
  lemma Row3() ensures CubeRootRow(K3, P3) {}
  lemma Row4() ensures CubeRootRow(K4, P4) {}
  lemma Row5() ensures CubeRootRow(K5, P5) {}
  lemma Row6() ensures CubeRootRow(K6, P6) {}
  lemma Row7() ensures CubeRootRow(K7, P7) {}

  /** Every entry of the two constant tables is the number that FIPS 180-4, sections 4.2.2 and 5.3.3, defines. */
  lemma ConstantsAreRootFractions()
    ensures |K_ROWS| == |PRIME_ROWS| == 8 == |H0|
    ensures forall r | 0 <= r < 8 :: CubeRootRow(K_ROWS[r], PRIME_ROWS[r])
    ensures forall t | 0 <= t < 8 :: IsSquareRootFraction(H0[t], P0[t])
  {
    Row0(); Row1(); Row2(); Row3(); Row4(); Row5(); Row6(); Row7();
    InitialWordsAreSquareRootFractions();
  }

  lemma InitialWordsAreSquareRootFractions()
    ensures forall t | 0 <= t < 8 :: IsSquareRootFraction(H0[t], P0[t])
  {
  }

  // Section 5.1.1: padding, here for messages of whole bytes.

  /** The least number of zero bytes that brings the message and the marker byte to 56 modulo 64. */
  function ZeroBytes(length: nat): nat { (119 - length % 64) % 64 }

  function LengthByte(bits: nat, i: nat): byte
    requires i < 8
  {
    (bits / Pow256(7 - i)) % 256
  }

  function LengthField(length: nat): seq<byte> {
    seq(8, i requires 0 <= i < 8 => LengthByte(length * 8 % 0x1_0000_0000_0000_0000, i))
  }

  function Pad(message: seq<byte>): seq<byte> {
    message + [0x80] + seq(ZeroBytes(|message|), i => 0) + LengthField(|message|)
  }

  // Section 6.2.2: schedule, rounds and chaining.

  datatype Vars = Vars(a: bv32, b: bv32, c: bv32, d: bv32, e: bv32, f: bv32, g: bv32, h: bv32)

  function Octet(b: byte): bv32 { (b as bv8) as bv32 }

  function BigEndian(b0: bv32, b1: bv32, b2: bv32, b3: bv32): bv32 {
    (b0 << 24) | (b1 << 16) | (b2 << 8) | b3
  }

  function BlockWord(m: seq<byte>, p: nat): bv32
    requires p + 4 <= |m|
  {
    BigEndian(Octet(m[p]), Octet(m[p + 1]), Octet(m[p + 2]), Octet(m[p + 3]))
  }

  /** W_t from W_t-16, W_t-15, W_t-7 and W_t-2. */
  function NextWord(w16: bv32, w15: bv32, w7: bv32, w2: bv32): bv32 {
    Add(Add(Add(w16, SmallSigma0(w15)), w7), SmallSigma1(w2))
  }

  /** The first n words of the message schedule of the block at p. */
  function Schedule(m: seq<byte>, p: nat, n: nat): (w: seq<bv32>)
    requires p + 64 <= |m| && n <= 64
    ensures |w| == n
  {
    if n == 0 then []
    else
      var w := Schedule(m, p, n - 1);
      if n <= 16 then w + [BlockWord(m, p + 4 * (n - 1))]
      else w + [NextWord(w[n - 17], w[n - 16], w[n - 8], w[n - 3])]
  }

  function Round(v: Vars, k: bv32, w: bv32): Vars {
    var t1 := Add(Add(Add(Add(v.h, BigSigma1(v.e)), Ch(v.e, v.f, v.g)), k), w);
    var t2 := Add(BigSigma0(v.a), Maj(v.a, v.b, v.c));
    Vars(Add(t1, t2), v.a, v.b, v.c, Add(v.d, t1), v.e, v.f, v.g)
  }

  function Rounds(v: Vars, w: seq<bv32>, n: nat): Vars
    requires n <= |w| && n <= 64
  {
    if n == 0 then v else Round(Rounds(v, w, n - 1), RoundConstant(n - 1), w[n - 1])
  }

  function Compress(v: Vars, m: seq<byte>, p: nat): Vars
    requires p + 64 <= |m|
  {
    var r := Rounds(v, Schedule(m, p, 64), 64);
    Plus(v, r)
  }

  function Plus(v: Vars, r: Vars): Vars {
    Vars(Add(v.a, r.a), Add(v.b, r.b), Add(v.c, r.c), Add(v.d, r.d),
         Add(v.e, r.e), Add(v.f, r.f), Add(v.g, r.g), Add(v.h, r.h))
  }

  function VarsOf(h: seq<bv32>): Vars
    requires |h| == 8
  {
    Vars(h[0], h[1], h[2], h[3], h[4], h[5], h[6], h[7])
  }

  /** Section 5.3.3: the initial hash value. */
  function InitialVars(): Vars {
    VarsOf(H0)
  }

  /** The hash value after the first n blocks, from v0. */
  function HashBlocks(v0: Vars, m: seq<byte>, n: nat): Vars
    requires 64 * n <= |m|
  {
    if n == 0 then v0 else Compress(HashBlocks(v0, m, n - 1), m, 64 * (n - 1))
  }

  /** Octet j of a word, most significant first. */
  function WordOctet(w: bv32, j: nat): bv8
    requires j < 4
  {
    (if j == 0 then w >> 24 else if j == 1 then (w >> 16) & 0xff else if j == 2 then (w >> 8) & 0xff
     else w & 0xff) as bv8
  }

  function WordByte(w: bv32, j: nat): byte
    requires j < 4
  {
    WordOctet(w, j) as int
  }

  function Digest(message: seq<byte>): (d: seq<byte>)
    ensures |d| == 32
  {
    var m := Pad(message);
    PadLength(message);
    DigestBytes(HashBlocks(InitialVars(), m, |m| / 64))
  }

  function DigestBytes(v: Vars): (d: seq<byte>)
    ensures |d| == 32
  {
    seq(32, k requires 0 <= k < 32 => WordByte(VarWord(v, k / 4), k % 4))
  }

  function VarWord(v: Vars, j: nat): bv32
    requires j < 8
  {
    [v.a, v.b, v.c, v.d, v.e, v.f, v.g, v.h][j]
  }

  lemma PadLength(message: seq<byte>)
    ensures |Pad(message)| % 64 == 0
    ensures |message| + 9 <= |Pad(message)| < |message| + 73
  {
    hide LengthByte;
    var n := |message|;
    assert |Pad(message)| == n + 9 + ZeroBytes(n);
  }
}
