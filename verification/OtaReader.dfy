/**
 A reader of update packages, written from the format alone: it follows the length field of each block,
 checks every marker, and takes the payload only if the stored size and digest match.
 */
module OtaReader {
  import opened Wrappers
  import opened Bytes
  import opened OtaSlot
  import opened OtaPackage
  import Fips180
  import ElfLoader
  import ElfImage

  datatype Firmware = Firmware(payload: seq<byte>, version: uint32)

  // ---------------------------------------------------------------- the reader

  /** The bytes from p to q - 1 are zero. */
  predicate ZeroFrom(b: seq<byte>, p: nat, q: nat)
    requires q <= |b|
  {
    forall k | p <= k < q :: b[k] == 0
  }

  /** Block i: the three markers, the fields, and zeros in the reserved word and after the data. */
  predicate BlockAccepted(p: seq<byte>, i: nat, version: uint32, size: uint32)
    requires 512 * (i + 1) <= |p|
  {
    var b := 512 * i;
    && Word(p, b) == 0x48504d2d && Word(p, b + 4) == 0x9e5d5157 && Word(p, b + 508) == 0x48454e44
    && Word(p, b + 8) == 0 && Word(p, b + 12) == version && Word(p, b + 16) == size && Word(p, b + 20) == i
    && Word(p, b + 24) <= 480 && ZeroFrom(p, b + 28 + Word(p, b + 24), b + 508)
  }

  /** The data of the first n blocks, each as long as its own length field says. */
  function ReadBlocks(p: seq<byte>, version: uint32, size: uint32, n: nat): Option<seq<byte>>
    requires 512 * n <= |p|
  {
    if n == 0 then Some([])
    else
      var before, b := ReadBlocks(p, version, size, n - 1), 512 * (n - 1);
      if before.None? || !BlockAccepted(p, n - 1, version, size) then None
      else Some(before.value + p[b + 28..b + 28 + Word(p, b + 24)])
  }

  /** The header: magics, size, version, the flag bytes 0, 1, 1 and 4, the digest, and zeros elsewhere. */
  function ReadImage(image: seq<byte>): Option<Firmware> {
    if |image| < 4096 then None
    else
      var payload := image[4096..];
      if Word(image, 0) == 0xbeaf5aa5 && Word(image, 4) == 0xa5a55a5a && Word(image, 8) == 0x3843414e
         && Word(image, 12) == |payload| && Word(image, 20) == 0x0401_0100 && Word(image, 24) == 0
         && image[28..60] == Fips180.Digest(payload) && ZeroFrom(image, 60, 4096)
      then Some(Firmware(payload, Word(image, 16)))
      else None
  }

  function ReadPackage(p: seq<byte>): Option<Firmware> {
    if |p| == 0 || |p| % 512 != 0 then None
    else
      var version, size := Word(p, 12), Word(p, 16);
      var image := ReadBlocks(p, version, size, |p| / 512);
      if image.None? || |image.value| != size then None
      else
        var firmware := ReadImage(image.value);
        if firmware.None? || firmware.value.version != version then None else firmware
  }

  // ---------------------------------------------------------------- reading what the packager wrote

  lemma ImageIsRead(payload: seq<byte>, version: uint32)
    requires |payload| <= MAX_PAYLOAD
    ensures ReadImage(Image(payload, version)) == Some(Firmware(payload, version))
  {
    hide LeByte, Fips180.Digest, LeValue;
    var image := Image(payload, version);
    assert forall k | 0 <= k < HEADER :: image[k] == HeaderByte(payload, version, k);
    WordRoundTrip(image, 0, 0xbeaf5aa5);
    WordRoundTrip(image, 4, 0xa5a55a5a);
    WordRoundTrip(image, 8, 0x3843414e);
    WordRoundTrip(image, 12, |payload|);
    WordRoundTrip(image, 16, version);
    FlagWord(image);
    assert image[28..60] == Fips180.Digest(payload);
    assert image[HEADER..] == payload;
  }

  lemma FlagWord(image: seq<byte>)
    requires |image| >= 28 && image[20] == 0 && image[21] == 1 && image[22] == 1 && image[23] == 4
    requires image[24] == 0 && image[25] == 0 && image[26] == 0 && image[27] == 0
    ensures Word(image, 20) == 0x0401_0100 && Word(image, 24) == 0
  {
    WordSum(image, 20);
    WordSum(image, 24);
    hide Word;
  }

  /** Block i of a package sits at 512 * i. */
  lemma BlockAt(image: seq<byte>, version: uint32, n: nat, i: nat)
    requires |image| <= HEADER + MAX_PAYLOAD && i < n <= BlockCount(|image|)
    ensures Blocks(image, version, n)[BLOCK * i..BLOCK * (i + 1)] == Block(image, version, i)
  {
    if i < n - 1 { BlockAt(image, version, n - 1, i); }
  }

  /** Every byte of block i, where it lies in the package. */
  lemma BlockBytes(image: seq<byte>, version: uint32, p: seq<byte>, i: nat)
    requires |image| <= HEADER + MAX_PAYLOAD && DATA * i < |image| && BLOCK * (i + 1) <= |p|
    requires p[BLOCK * i..BLOCK * (i + 1)] == Block(image, version, i)
    ensures forall k | BLOCK * i <= k < BLOCK * i + BLOCK :: p[k] == BlockByte(image, version, i, k - BLOCK * i)
  {
    hide BlockByte;
    var b := BLOCK * i;
    forall k | b <= k < b + BLOCK ensures p[k] == BlockByte(image, version, i, k - b) {
      assert p[k] == p[b..b + BLOCK][k - b];
    }
  }

  lemma BlockData(image: seq<byte>, version: uint32, p: seq<byte>, i: nat)
    requires |image| <= HEADER + MAX_PAYLOAD && DATA * i < |image| && BLOCK * (i + 1) <= |p|
    requires p[BLOCK * i..BLOCK * (i + 1)] == Block(image, version, i)
    ensures var b := BLOCK * i; var length := DataLength(|image|, i);
      p[b + 28..b + 28 + length] == image[DATA * i..DATA * i + length]
  {
    BlockBytes(image, version, p, i);
    hide LeByte;
    var b, length := BLOCK * i, DataLength(|image|, i);
    var read, data := p[b + 28..b + 28 + length], image[DATA * i..DATA * i + length];
    forall j | 0 <= j < length ensures read[j] == data[j] {
      assert p[b + 28 + j] == BlockByte(image, version, i, 28 + j) == image[DATA * i + j];
    }
  }

  lemma ZeroWord(b: seq<byte>, p: nat)
    requires p + 4 <= |b| && b[p] == 0 && b[p + 1] == 0 && b[p + 2] == 0 && b[p + 3] == 0
    ensures Word(b, p) == 0
  {
    WordSum(b, p);
    hide Word;
  }

  /** The fields of block i as the reader sees them. */
  lemma BlockFields(image: seq<byte>, version: uint32, p: seq<byte>, i: nat)
    requires |image| <= HEADER + MAX_PAYLOAD && DATA * i < |image| && BLOCK * (i + 1) <= |p|
    requires p[BLOCK * i..BLOCK * (i + 1)] == Block(image, version, i)
    ensures BlockAccepted(p, i, version, |image|)
    ensures var b := BLOCK * i; var length := DataLength(|image|, i);
      Word(p, b + 24) == length && p[b + 28..b + 28 + length] == image[DATA * i..DATA * i + length]
  {
    hide LeByte, LeValue, Block;
    var b, length := BLOCK * i, DataLength(|image|, i);
    BlockData(image, version, p, i);
    BlockBytes(image, version, p, i);
    WordRoundTrip(p, b, 0x48504d2d);
    WordRoundTrip(p, b + 4, 0x9e5d5157);
    ZeroWord(p, b + 8);
    WordRoundTrip(p, b + 12, version);
    WordRoundTrip(p, b + 16, |image|);
    WordRoundTrip(p, b + 20, i);
    WordRoundTrip(p, b + 24, length);
    WordRoundTrip(p, b + 508, 0x48454e44);
  }

  lemma BlocksAreRead(image: seq<byte>, version: uint32, n: nat)
    requires |image| <= HEADER + MAX_PAYLOAD && n <= BlockCount(|image|)
    ensures var p := Blocks(image, version, BlockCount(|image|));
      ReadBlocks(p, version, |image|, n) == Some(image[..if DATA * n < |image| then DATA * n else |image|])
  {
    hide BlockAccepted, Blocks, Block, LeValue, Word;
    if n > 0 {
      var p, b := Blocks(image, version, BlockCount(|image|)), BLOCK * (n - 1);
      BlocksAreRead(image, version, n - 1);
      BlockAt(image, version, BlockCount(|image|), n - 1);
      BlockFields(image, version, p, n - 1);
      var length := DataLength(|image|, n - 1);
      assert image[..DATA * (n - 1)] + image[DATA * (n - 1)..DATA * (n - 1) + length]
          == image[..DATA * (n - 1) + length];
    }
  }

  lemma ImageSize(payload: seq<byte>, version: uint32)
    requires |payload| <= MAX_PAYLOAD
    ensures |Image(payload, version)| == HEADER + |payload|
  {
  }

  /** The reader undoes the packager: it gives back the exact payload and version of every package. */
  lemma PackageRoundTrip(payload: seq<byte>, version: uint32)
    requires Packable(payload, version)
    ensures ReadPackage(Package(payload, version)) == Some(Firmware(payload, version))
  {
    hide Blocks, Block, LeValue, ReadBlocks, ReadImage, Image;
    assert |Image(payload, version)| == HEADER + |payload| by { ImageSize(payload, version); }
    var image := Image(payload, version);
    var count := BlockCount(|image|);
    var p := Package(payload, version);
    BlocksAreRead(image, version, count);
    assert image[..|image|] == image;
    BlockAt(image, version, count, 0);
    BlockFields(image, version, p, 0);
    ImageIsRead(payload, version);
  }

  /** No two firmwares share a package. */
  lemma PackageIsInjective(f: Firmware, g: Firmware)
    requires Packable(f.payload, f.version) && Packable(g.payload, g.version)
    requires Package(f.payload, f.version) == Package(g.payload, g.version)
    ensures f == g
  {
    PackageRoundTrip(f.payload, f.version);
    PackageRoundTrip(g.payload, g.version);
  }

  function TotalLength(size: nat, n: nat): nat {
    if n == 0 then 0 else TotalLength(size, n - 1) + DataLength(size, n - 1)
  }

  lemma LengthsSoFar(size: nat, n: nat)
    ensures TotalLength(size, n) == if DATA * n < size then DATA * n else size
  {
    if n > 0 { LengthsSoFar(size, n - 1); }
  }

  /**
   The framing of every package: blocks are numbered from zero, all but the last are full, the last is not empty,
   the lengths add up to the image, and no data byte reaches the end marker.
   */
  lemma Framing(payload: seq<byte>, version: uint32, i: nat)
    requires Packable(payload, version) && i < BlockCount(HEADER + |payload|)
    ensures var p := Package(payload, version); var size := HEADER + |payload|; var count := BlockCount(size);
      && |p| == BLOCK * count
      && Word(p, BLOCK * i + 20) == i
      && 0 < Word(p, BLOCK * i + 24) == DataLength(size, i) && 28 + Word(p, BLOCK * i + 24) <= 508
      && (i + 1 < count ==> Word(p, BLOCK * i + 24) == DATA)
      && Word(p, BLOCK * i + 508) == 0x48454e44
      && TotalLength(size, count) == size
  {
    var image := Image(payload, version);
    BlockAt(image, version, BlockCount(|image|), i);
    BlockFields(image, version, Package(payload, version), i);
    LengthsSoFar(|image|, BlockCount(|image|));
  }

  // ---------------------------------------------------------------- packages are not firmware

  /** What carries the magic of a package or of an image loads neither as a raw application nor as an ELF. */
  lemma MagicIsRefused(extension: ElfLoader.Extension, data: seq<byte>)
    requires |data| >= 4 && Word(data, 0) in {0x48504d2d, 0xbeaf5aa5}
    ensures ElfLoader.Loaded(extension, data).Failure?
  {
    hide LeValue, Word;
    assert !ElfImage.IsOtaElf(data);
  }

  /** Neither a package nor the image inside it can be downloaded again, under any file name. */
  lemma PackagedIsRefused(extension: ElfLoader.Extension, payload: seq<byte>, version: uint32)
    requires Packable(payload, version)
    ensures ElfLoader.Loaded(extension, Package(payload, version)).Failure?
    ensures ElfLoader.Loaded(extension, Image(payload, version)).Failure?
  {
    hide LeByte, LeValue, Fips180.Digest, ElfLoader.Loaded, Blocks, Block, Package, Image;
    PackageMagic(payload, version);
    MagicIsRefused(extension, Package(payload, version));
    MagicIsRefused(extension, Image(payload, version));
  }

  lemma PackageMagic(payload: seq<byte>, version: uint32)
    requires Packable(payload, version)
    ensures |Package(payload, version)| >= 4 && Word(Package(payload, version), 0) == 0x48504d2d
    ensures |Image(payload, version)| >= 4 && Word(Image(payload, version), 0) == 0xbeaf5aa5
  {
    hide LeByte, LeValue, Fips180.Digest, Blocks, Block;
    var image := Image(payload, version);
    assert forall k | 0 <= k < HEADER :: image[k] == HeaderByte(payload, version, k);
    WordRoundTrip(image, 0, 0xbeaf5aa5);
    BlockAt(image, version, BlockCount(|image|), 0);
    BlockFields(image, version, Package(payload, version), 0);
  }
}
