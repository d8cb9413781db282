/** What the header checks mean in the bytes of the file. */
module ElfFormat {
  import opened Wrappers
  import opened Bytes
  import opened OtaSlot
  import opened ElfImage
  import opened ElfTable

  /**
   The identity check, byte by byte: ELF, 32-bit, little-endian, version 1; executable; RISC-V; entry 0x80041000.
   */
  lemma IdentityIs(x: seq<byte>)
    ensures IsOtaElf(x) <==>
      && |x| >= 52
      && x[0] == 0x7f && x[1] == 0x45 && x[2] == 0x4c && x[3] == 0x46 && x[4] == 1 && x[5] == 1 && x[6] == 1
      && x[16] == 2 && x[17] == 0 && x[18] == 0xf3 && x[19] == 0
      && x[24] == 0x00 && x[25] == 0x10 && x[26] == 0x04 && x[27] == 0x80
  {
    if |x| >= 52 {
      MagicIs(x, 0, 0x7f, 0x45, 0x4c, 0x46);
      MagicIs(x, 24, 0x00, 0x10, 0x04, 0x80);
      HalfIs(x, 16, 2, 0);
      HalfIs(x, 18, 0xf3, 0);
      hide LeValue, Word;
    }
  }

  lemma MagicIs(x: seq<byte>, p: nat, b0: byte, b1: byte, b2: byte, b3: byte)
    requires p + 4 <= |x|
    ensures Word(x, p) == b0 + b1 as int * 0x100 + b2 as int * 0x1_0000 + b3 as int * 0x100_0000 <==>
      x[p] == b0 && x[p + 1] == b1 && x[p + 2] == b2 && x[p + 3] == b3
  {
    var y := seq(p, i => 0) + [b0, b1, b2, b3];
    WordSum(y, p);
    SameWords(x[p..p + 4], y[p..p + 4], 0);
    WordSum(x, p);
    WordSum(x[p..p + 4], 0);
    WordSum(y[p..p + 4], 0);
    hide Word;
  }

  lemma HalfIs(x: seq<byte>, p: nat, b0: byte, b1: byte)
    requires p + 2 <= |x|
    ensures LeValue(x, p, 2) == b0 + b1 as int * 0x100 <==> x[p] == b0 && x[p + 1] == b1
  {
    HalfSum(x, p);
    hide LeValue;
  }

  /** The table check without the division: there is a header, and all rows lie in the file. */
  lemma TableFitsIs(x: seq<byte>)
    requires |x| >= 52
    ensures TableFits(x) <==>
      Count(x) > 0 && Stride(x) >= 32 && TableOffset(x) + Count(x) * Stride(x) <= |x|
    ensures TableOffset(x) == x[28] + x[29] as int * 0x100 + x[30] as int * 0x1_0000 + x[31] as int * 0x100_0000
    ensures Stride(x) == x[42] + x[43] as int * 0x100 && Count(x) == x[44] + x[45] as int * 0x100
  {
    WordSum(x, 28);
    HalfSum(x, 42);
    HalfSum(x, 44);
    hide LeValue, Word;
    if Stride(x) >= 32 { FitsIsProduct(|x| - TableOffset(x), Stride(x), Count(x)); }
    ProductIsNatural(Count(x), Stride(x));
  }

  lemma FitsIsProduct(room: int, stride: nat, count: nat)
    requires stride > 0
    ensures room >= 0 ==> (count <= room / stride <==> count * stride <= room)
  {
    if room >= 0 {
      var q := room / stride;
      assert q * stride <= room < q * stride + stride;
      if count <= q { TimesFits(count, q, stride); } else { TimesFits(q + 1, count, stride); }
    }
  }

  lemma ProductIsNatural(a: nat, b: nat)
    ensures a * b >= 0
  {
  }

  /** Header i of the table loads s: of type PT_LOAD and not empty, with the file's fields at their places. */
  predicate HeaderLoads(x: seq<byte>, i: nat, s: Segment)
    requires |x| >= 52
  {
    var p := HeaderAt(x, i);
    && p + 32 <= |x|
    && Word(x, p) == 1 && Word(x, p + 16) != 0
    && s.source == Word(x, p + 4) && s.address == Word(x, p + 12)
    && s.length == Word(x, p + 16) && s.memory == Word(x, p + 20)
  }

  /** The load segments are those of the headers of the table, read at the places the format gives their fields. */
  lemma {:induction false} SegmentsAreHeaders(x: seq<byte>, n: nat, s: Segment)
    requires HasTable(x) && n <= Count(x)
    ensures s in Segments(x, n) <==> exists i | 0 <= i < n :: HeaderLoads(x, i, s)
  {
    hide SegmentOf, HeaderLoads, IsOtaElf, TableFits;
    if n > 0 {
      SegmentsAreHeaders(x, n - 1, s);
      OneHeader(x, n - 1, s);
    }
  }

  lemma OneHeader(x: seq<byte>, i: nat, s: Segment)
    requires HasTable(x) && i < Count(x)
    ensures SegmentOf(x, i) == Some(s) <==> HeaderLoads(x, i, s)
  {
    RowsInFile(x, i);
    hide LeValue, Word;
  }
}
