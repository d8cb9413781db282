/** The loops of the hand-written hash, proved to compute the FIPS 180-4 digest of every message. */
module Sha256 {
  import opened Bytes
  import opened Fips180
  import Sha256Examples

  /** Every rotation the hash uses is the rotation of a 32-bit word. */
  lemma RotateIsRotation(x: bv32)
    ensures Rotate(x, 2) == x.RotateRight(2) && Rotate(x, 6) == x.RotateRight(6)
    ensures Rotate(x, 7) == x.RotateRight(7) && Rotate(x, 11) == x.RotateRight(11)
    ensures Rotate(x, 13) == x.RotateRight(13) && Rotate(x, 17) == x.RotateRight(17)
    ensures Rotate(x, 18) == x.RotateRight(18) && Rotate(x, 19) == x.RotateRight(19)
    ensures Rotate(x, 22) == x.RotateRight(22) && Rotate(x, 25) == x.RotateRight(25)
  {
  }

  function ShiftOctet(w: bv32, b: bv32): bv32 { (w << 8) | b }

  lemma ShiftIn2(b0: bv32, b1: bv32, b2: bv32, b3: bv32)
    ensures ShiftOctet(ShiftOctet(ShiftOctet(b0, b1), b2), b3) == (b0 << 24) | (b1 << 16) | (b2 << 8) | b3
  {
  }

  /** Shifting four octets into a zero word spells it big-endian. */
  lemma ShiftIn(b0: bv32, b1: bv32, b2: bv32, b3: bv32)
    ensures ShiftOctet(ShiftOctet(ShiftOctet(ShiftOctet(0, b0), b1), b2), b3) == BigEndian(b0, b1, b2, b3)
  {
    assert ShiftOctet(0, b0) == b0;
    ShiftIn2(b0, b1, b2, b3);
  }

  /** One schedule word: four octets shifted in. */
  method LoadWord(m: seq<byte>, p: nat) returns (w: bv32)
    requires p + 4 <= |m|
    ensures w == BlockWord(m, p)
  {
    w := 0;
    for j := 0 to 4
      invariant w == Shifted(m, p, j)
    {
      w := ShiftOctet(w, Octet(m[p + j]));
    }
    ShiftedIsBlockWord(m, p);
  }

  lemma ShiftedIsBlockWord(m: seq<byte>, p: nat)
    requires p + 4 <= |m|
    ensures Shifted(m, p, 4) == BlockWord(m, p)
  {
    assert Shifted(m, p, 1) == ShiftOctet(0, Octet(m[p]));
    assert Shifted(m, p, 2) == ShiftOctet(Shifted(m, p, 1), Octet(m[p + 1]));
    assert Shifted(m, p, 3) == ShiftOctet(Shifted(m, p, 2), Octet(m[p + 2]));
    ShiftIn(Octet(m[p]), Octet(m[p + 1]), Octet(m[p + 2]), Octet(m[p + 3]));
  }

  function Shifted(m: seq<byte>, p: nat, j: nat): bv32
    requires p + 4 <= |m| && j <= 4
  {
    if j == 0 then 0 else ShiftOctet(Shifted(m, p, j - 1), Octet(m[p + j - 1]))
  }

  /** The recurrence of the schedule, as the loop writes it. */
  method Mix(w16: bv32, x: bv32, w7: bv32, y: bv32) returns (w: bv32)
    ensures w == NextWord(w16, x, w7, y)
  {
    SmallSigmas(x);
    SmallSigmas(y);
    w := Add(Add(Add(w16, Rotate(x, 7) ^ Rotate(x, 18) ^ (x >> 3)), w7), Rotate(y, 17) ^ Rotate(y, 19) ^ (y >> 10));
  }

  lemma SmallSigmas(x: bv32)
    ensures Rotate(x, 7) ^ Rotate(x, 18) ^ (x >> 3) == SmallSigma0(x)
    ensures Rotate(x, 17) ^ Rotate(x, 19) ^ (x >> 10) == SmallSigma1(x)
  {}

  method FillSchedule(m: seq<byte>, p: nat) returns (w: array<bv32>)
    requires p + 64 <= |m|
    ensures fresh(w) && w[..] == Schedule(m, p, 64)
  {
    hide Schedule;
    w := new bv32[64](_ => 0);
    LoadBlock(m, p, w);
    for i := 16 to 64
      invariant w[..i] == Schedule(m, p, i)
    {
      Extend(m, p, w, i);
    }
    assert w[..64] == w[..];
  }

  method LoadBlock(m: seq<byte>, p: nat, w: array<bv32>)
    requires p + 64 <= |m| && w.Length == 64
    modifies w
    ensures w[..16] == Schedule(m, p, 16)
  {
    hide BlockWord, NextWord;
    for i := 0 to 16
      invariant w[..i] == Schedule(m, p, i)
    {
      ghost var s := w[..i];
      w[i] := LoadWord(m, p + i * 4);
      assert w[..i + 1] == s + [w[i]];
    }
  }

  method Extend(ghost m: seq<byte>, ghost p: nat, w: array<bv32>, i: nat)
    requires p + 64 <= |m| && w.Length == 64 && 16 <= i < 64
    requires w[..i] == Schedule(m, p, i)
    modifies w
    ensures w[..i + 1] == Schedule(m, p, i + 1)
  {
    hide NextWord, BlockWord;
    ghost var s := w[..i];
    assert s[i - 15] == w[i - 15] && s[i - 2] == w[i - 2] && s[i - 16] == w[i - 16] && s[i - 7] == w[i - 7];
    w[i] := Mix(w[i - 16], w[i - 15], w[i - 7], w[i - 2]);
    assert w[..i + 1] == s + [w[i]];
  }

  /** One round: the eight working variables move down by one. */
  method RunRound(a0: bv32, b0: bv32, c0: bv32, d0: bv32, e0: bv32, f0: bv32, g0: bv32, v0: bv32, k: bv32, w: bv32)
    returns (a: bv32, b: bv32, c: bv32, d: bv32, e: bv32, f: bv32, g: bv32, v: bv32)
    ensures Vars(a, b, c, d, e, f, g, v) == Round(Vars(a0, b0, c0, d0, e0, f0, g0, v0), k, w)
  {
    hide Rotate, Add;
    a, b, c, d, e, f, g, v := a0, b0, c0, d0, e0, f0, g0, v0;
    BigSigmas(a);
    BigSigmas(e);
    var t1 := Add(Add(Add(Add(v, Rotate(e, 6) ^ Rotate(e, 11) ^ Rotate(e, 25)), (e & f) ^ (!e & g)), k), w);
    var t2 := Add(Rotate(a, 2) ^ Rotate(a, 13) ^ Rotate(a, 22), (a & b) ^ (a & c) ^ (b & c));
    v := g;
    g := f;
    f := e;
    e := Add(d, t1);
    d := c;
    c := b;
    b := a;
    a := Add(t1, t2);
  }

  method RunRounds(v0: Vars, w: array<bv32>) returns (r: Vars)
    requires w.Length == 64
    ensures r == Rounds(v0, w[..], 64)
  {
    hide Round, RoundConstant;
    var a, b, c, d, e, f, g, v := v0.a, v0.b, v0.c, v0.d, v0.e, v0.f, v0.g, v0.h;
    for i := 0 to 64
      invariant Vars(a, b, c, d, e, f, g, v) == Rounds(v0, w[..], i)
    {
      a, b, c, d, e, f, g, v := RunRound(a, b, c, d, e, f, g, v, RoundConstant(i), w[i]);
    }
    r := Vars(a, b, c, d, e, f, g, v);
  }

  lemma BigSigmas(x: bv32)
    ensures Rotate(x, 6) ^ Rotate(x, 11) ^ Rotate(x, 25) == BigSigma1(x)
    ensures Rotate(x, 2) ^ Rotate(x, 13) ^ Rotate(x, 22) == BigSigma0(x)
  {
  }

  /** The whole hash: pad by pushing bytes, then add each block's rounds into h. */
  method Hash(input: seq<byte>) returns (result: seq<byte>)
    ensures result == Digest(input)
    // The two examples published with the standard.
    ensures input == [0x61, 0x62, 0x63] ==> result == [
      0xba, 0x78, 0x16, 0xbf, 0x8f, 0x01, 0xcf, 0xea, 0x41, 0x41, 0x40, 0xde, 0x5d, 0xae, 0x22, 0x23,
      0xb0, 0x03, 0x61, 0xa3, 0x96, 0x17, 0x7a, 0x9c, 0xb4, 0x10, 0xff, 0x61, 0xf2, 0x00, 0x15, 0xad]
    ensures input == Sha256Examples.Longer() ==> result == Sha256Examples.LongerAnswer()
  {
    hide Digest, Pad, HashBlocks, InitialVars, DigestBytes;
    var m := PadMessage(input);
    PadLength(input);
    var h := InitialHash();
    HashAllBlocks(m, h);
    result := WriteDigest(h[..]);
    DigestIs(input);
    Sha256Examples.AbcDigest();
    Sha256Examples.LongerDigest();
  }

  lemma DigestIs(input: seq<byte>)
    ensures Digest(input) == DigestBytes(HashBlocks(InitialVars(), Pad(input), |Pad(input)| / 64))
  {
    hide Pad, HashBlocks, InitialVars, DigestBytes;
  }

  method HashAllBlocks(m: seq<byte>, h: array<bv32>)
    requires |m| % 64 == 0 && h.Length == 8
    modifies h
    ensures VarsOf(h[..]) == HashBlocks(VarsOf(old(h[..])), m, |m| / 64)
  {
    hide Compress;
    var p := 0;
    ghost var blocks, count, v0 := 0, |m| / 64, VarsOf(h[..]);
    assert |m| == 64 * count;
    while p < |m|
      invariant p == 64 * blocks && blocks <= count
      invariant VarsOf(h[..]) == HashBlocks(v0, m, blocks)
    {
      HashBlock(m, p, h);
      p, blocks := p + 64, blocks + 1;
    }
  }

  method InitialHash() returns (h: array<bv32>)
    ensures fresh(h) && h.Length == 8 && VarsOf(h[..]) == InitialVars()
  {
    h := new bv32[8](i requires 0 <= i < 8 => H0[i]);
  }

  method HashBlock(m: seq<byte>, p: nat, h: array<bv32>)
    requires p + 64 <= |m| && h.Length == 8
    modifies h
    ensures VarsOf(h[..]) == Compress(VarsOf(old(h[..])), m, p)
  {
    var w := FillSchedule(m, p);
    var r := RunRounds(VarsOf(h[..]), w);
    AddInto(h, r);
  }

  method AddInto(h: array<bv32>, r: Vars)
    requires h.Length == 8
    modifies h
    ensures VarsOf(h[..]) == Plus(VarsOf(old(h[..])), r)
  {
    hide Add;
    h[0] := Add(h[0], r.a);
    h[1] := Add(h[1], r.b);
    h[2] := Add(h[2], r.c);
    h[3] := Add(h[3], r.d);
    h[4] := Add(h[4], r.e);
    h[5] := Add(h[5], r.f);
    h[6] := Add(h[6], r.g);
    h[7] := Add(h[7], r.h);
  }

  method WriteDigest(h: seq<bv32>) returns (result: seq<byte>)
    requires |h| == 8
    ensures result == DigestBytes(VarsOf(h))
  {
    hide WordByte, DigestBytes, VarsOf;
    ghost var d := DigestBytes(VarsOf(h));
    var bytes := new byte[32](_ => 0);
    for i := 0 to 32
      invariant forall k | 0 <= k < i :: bytes[k] == d[k]
    {
      DigestByteAt(h, i);
      bytes[i] := WordByte(h[i / 4], i % 4);
    }
    result := bytes[..];
  }

  lemma DigestByteAt(h: seq<bv32>, k: nat)
    requires |h| == 8 && k < 32
    ensures DigestBytes(VarsOf(h))[k] == WordByte(h[k / 4], k % 4)
  {
    hide WordByte;
    VarWordAt(h, k / 4);
  }

  lemma VarWordAt(h: seq<bv32>, j: nat)
    requires |h| == 8 && j < 8
    ensures VarWord(VarsOf(h), j) == h[j]
  {
    assert [h[0], h[1], h[2], h[3], h[4], h[5], h[6], h[7]][j] == h[j];
  }

  /** The octets of a word, most significant first, spell the word. */
  lemma OctetsSpellWord(w: bv32)
    ensures BigEndian(WordOctet(w, 0) as bv32, WordOctet(w, 1) as bv32,
                      WordOctet(w, 2) as bv32, WordOctet(w, 3) as bv32) == w
  {
  }

  method PadMessage(input: seq<byte>) returns (m: seq<byte>)
    ensures m == Pad(input)
  {
    var bits := |input| * 8 % 0x1_0000_0000_0000_0000;
    m := input + [0x80];
    ghost var zeros := 0;
    while |m| % 64 != 56
      invariant zeros <= ZeroBytes(|input|)
      invariant m == input + [0x80] + seq(zeros, i => 0)
      decreases ZeroBytes(|input|) - zeros
    {
      ZeroBytesIsLeast(|input|, zeros);
      m := m + [0];
      zeros := zeros + 1;
    }
    ZeroBytesIsLeast(|input|, zeros);
    ghost var body := m;
    for i := 0 to 8
      invariant m == body + LengthField(|input|)[..i]
    {
      m := m + [bits / Pow256(7 - i) % 256];
    }
  }

  /** Section 5.1.1: the padding adds the least number of zeros that leaves eight bytes in the last block. */
  lemma ZeroBytesIsLeast(length: nat, zeros: nat)
    ensures (length + 1 + ZeroBytes(length)) % 64 == 56
    ensures zeros < ZeroBytes(length) ==> (length + 1 + zeros) % 64 != 56
  {
    var q, r := length / 64, length % 64;
    assert length == 64 * q + r && ZeroBytes(length) == if r <= 55 then 55 - r else 119 - r;
    SameModulo(q, r, 1 + ZeroBytes(length));
    SameModulo(q, r, 1 + zeros);
    hide ZeroBytes;
  }

  lemma SameModulo(q: nat, r: nat, k: nat)
    ensures (64 * q + r + k) % 64 == (r + k) % 64
  {
    var high, low := (r + k) / 64, (r + k) % 64;
    assert 64 * q + r + k == 64 * (q + high) + low;
  }

  /** Two messages never pad to the same blocks, even where the 64-bit length has wrapped. */
  lemma PadIsInjective(x: seq<byte>, y: seq<byte>)
    requires Pad(x) == Pad(y)
    ensures x == y
  {
    PadLength(x);
    PadLength(y);
    LowLengthBytes(x);
    LowLengthBytes(y);
    NearLengthsAgree(|x|, |y|);
    assert Pad(x)[..|x|] == x && Pad(y)[..|y|] == y;
  }

  lemma NearLengthsAgree(x: nat, y: nat)
    requires x * 8 % 65536 == y * 8 % 65536 && -64 < x - y < 64
    ensures x == y
  {
  }

  lemma LowLengthBytes(x: seq<byte>)
    ensures var n := |Pad(x)|; n >= 9 && Pad(x)[n - 2] as int * 256 + Pad(x)[n - 1] == |x| * 8 % 65536
  {
    var n, field, bits := |Pad(x)|, LengthField(|x|), |x| * 8 % 0x1_0000_0000_0000_0000;
    assert Pad(x)[n - 8..] == field;
    assert Pad(x)[n - 2] == field[6] == LengthByte(bits, 6);
    assert Pad(x)[n - 1] == field[7] == LengthByte(bits, 7);
    LowBytes(|x| * 8);
  }

  lemma LowBytes(v: nat)
    ensures var bits := v % 0x1_0000_0000_0000_0000;
      LengthByte(bits, 6) as int * 256 + LengthByte(bits, 7) == v % 65536
  {
    var bits := v % 0x1_0000_0000_0000_0000;
    assert Pow256(0) == 1 && Pow256(1) == 256;
    LowDigits(v, v / 0x1_0000_0000_0000_0000, bits);
  }

  lemma LowDigits(v: nat, q: nat, bits: nat)
    requires v == 0x1_0000_0000_0000_0000 * q + bits
    ensures bits / 256 % 256 * 256 + bits % 256 == v % 65536
  {
    var q1 := bits / 256;
    var q2, b1 := q1 / 256, q1 % 256;
    assert bits == 65536 * q2 + (256 * b1 + bits % 256);
    Remainder(v, 0x1_0000_0000_0000 * q + q2, 256 * b1 + bits % 256);
  }

  lemma Remainder(v: nat, k: nat, low: nat)
    requires v == 65536 * k + low && low < 65536
    ensures v % 65536 == low
  {
  }
}
