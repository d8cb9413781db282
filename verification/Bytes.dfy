/** Outcomes, bytes and the little-endian words of the firmware formats. */
module Wrappers {
  datatype Option<+T> = None | Some(value: T)

  /** A thrown exception is a Failure that carries which check threw. */
  datatype Result<+T, +E> = Success(value: T) | Failure(error: E)
}

/** The application slot of the board: where images are linked and how large they may be. */
module OtaSlot {
  const ENTRY: int := 0x8004_1000
  const MAX_PAYLOAD: nat := 0xbf000
}

module Bytes {
  type byte = x: int | 0 <= x < 256
  type uint32 = x: int | 0 <= x < 0x1_0000_0000

  function Pow256(i: nat): (r: int)
    requires i <= 7
    ensures r >= 1
  {
    if i == 0 then 1 else 256 * Pow256(i - 1)
  }

  /** Byte i of v shifted right by 8 * i bits. */
  function LeByte(v: int, i: nat): byte
    requires 0 <= v && i <= 7
  {
    (v / Pow256(i)) % 256
  }

  /** The value of n little-endian bytes at offset p: the bytes do not overlap, so their bitwise or is their sum. */
  function LeValue(b: seq<byte>, p: nat, n: nat): (v: int)
    requires n <= 4 && p + n <= |b|
    ensures 0 <= v < 256 * Pow256(n) && (n > 0 ==> v < 256 * Pow256(n - 1))
  {
    if n == 0 then 0 else LeValue(b, p, n - 1) + b[p + n - 1] * Pow256(n - 1)
  }

  function Word(b: seq<byte>, p: nat): uint32
    requires p + 4 <= |b|
  {
    LeValue(b, p, 4)
  }

  lemma WordSum(b: seq<byte>, p: nat)
    requires p + 4 <= |b|
    ensures Word(b, p) == b[p] + b[p + 1] as int * 0x100 + b[p + 2] as int * 0x1_0000 + b[p + 3] as int * 0x100_0000
  {
    assert Pow256(1) == 0x100 && Pow256(2) == 0x1_0000 && Pow256(3) == 0x100_0000;
    assert LeValue(b, p, 2) == LeValue(b, p, 1) + b[p + 1] as int * 0x100 && LeValue(b, p, 1) == b[p];
    assert LeValue(b, p, 3) == LeValue(b, p, 2) + b[p + 2] as int * 0x1_0000;
  }

  lemma SplitWord(v: uint32)
    ensures v == v % 0x100 + v / 0x100 % 0x100 * 0x100 + v / 0x1_0000 % 0x100 * 0x1_0000
              + v / 0x100_0000 % 0x100 * 0x100_0000
  {
    var q1 := v / 0x100;
    var q2 := q1 / 0x100;
    var q3 := q2 / 0x100;
    NextQuotient(v, 0x100, q1, v / 0x1_0000);
    NextQuotient(v, 0x1_0000, q2, v / 0x100_0000);
    assert v == 0x100 * q1 + v % 0x100 && q1 == 0x100 * q2 + q1 % 0x100 && q2 == 0x100 * q3 + q2 % 0x100;
    assert q3 < 0x100;
  }

  /** Dividing by 256 once more. */
  lemma NextQuotient(v: int, d: int, q: int, next: int)
    requires d in {0x100, 0x1_0000} && v >= 0 && q == v / d && next == v / (256 * d)
    ensures q / 0x100 == next
  {
    if d == 0x100 { assert v / 0x1_0000 == v / 0x100 / 0x100; } else { assert v / 0x100_0000 == v / 0x1_0000 / 0x100; }
  }

  /** A word written little-endian is read back unchanged. */
  lemma WordRoundTrip(b: seq<byte>, p: nat, v: uint32)
    requires p + 4 <= |b|
    requires forall k | p <= k < p + 4 :: b[k] == LeByte(v, k - p)
    ensures Word(b, p) == v
  {
    WordSum(b, p);
    SplitWord(v);
    assert Pow256(0) == 1 && Pow256(1) == 0x100 && Pow256(2) == 0x1_0000 && Pow256(3) == 0x100_0000;
    assert b[p] == LeByte(v, 0) && b[p + 1] == LeByte(v, 1) && b[p + 2] == LeByte(v, 2) && b[p + 3] == LeByte(v, 3);
  }

  /** The in-place writer of a 32-bit field. */
  method Put(b: array<byte>, p: nat, v: uint32)
    requires p + 4 <= b.Length
    modifies b
    ensures forall k | 0 <= k < b.Length ::
      b[k] == if p <= k < p + 4 then LeByte(v, k - p) else old(b[k])
  {
    for i := 0 to 4
      invariant forall k | 0 <= k < b.Length ::
        b[k] == if p <= k < p + i then LeByte(v, k - p) else old(b[k])
    {
      b[p + i] := (v / Pow256(i)) % 256;
    }
  }
}
