/** The update package: a 4096-byte header and the payload, cut into 512-byte blocks of 480 data bytes. */
module OtaPackage {
  import opened Wrappers
  import opened Bytes
  import opened OtaSlot
  import Fips180
  import Sha256

  const HEADER: nat := 4096
  const BLOCK: nat := 512
  const DATA: nat := 480

  datatype PackageError = BadPayloadSize | VersionExhausted

  predicate Packable(payload: seq<byte>, version: uint32) {
    0 < |payload| <= MAX_PAYLOAD && 0 < version < 0xffff_ffff
  }

  // ---------------------------------------------------------------- what the bytes are, offset by offset

  function HeaderByte(payload: seq<byte>, version: uint32, k: nat): byte
    requires k < HEADER && |payload| <= MAX_PAYLOAD
  {
    if k < 4 then LeByte(0xbeaf5aa5, k)
    else if k < 8 then LeByte(0xa5a55a5a, k - 4)
    else if k < 12 then LeByte(0x3843414e, k - 8)
    else if k < 16 then LeByte(|payload|, k - 12)
    else if k < 20 then LeByte(version, k - 16)
    else if k == 21 || k == 22 then 1
    else if k == 23 then 4
    else if 28 <= k < 60 then Fips180.Digest(payload)[k - 28]
    else 0
  }

  function Image(payload: seq<byte>, version: uint32): seq<byte>
    requires |payload| <= MAX_PAYLOAD
  {
    seq(HEADER, k requires 0 <= k < HEADER => HeaderByte(payload, version, k)) + payload
  }

  function BlockCount(size: nat): nat { (size + DATA - 1) / DATA }

  /** The number of data bytes in block i of an image of the given size. */
  function DataLength(size: nat, i: nat): nat {
    if size < DATA * i then 0 else if size - DATA * i < DATA then size - DATA * i else DATA
  }

  function BlockByte(image: seq<byte>, version: uint32, i: nat, k: nat): byte
    requires k < BLOCK && |image| <= HEADER + MAX_PAYLOAD && DATA * i < |image|
  {
    if k < 4 then LeByte(0x48504d2d, k)
    else if k < 8 then LeByte(0x9e5d5157, k - 4)
    else if k < 12 then 0
    else if k < 16 then LeByte(version, k - 12)
    else if k < 20 then LeByte(|image|, k - 16)
    else if k < 24 then LeByte(i, k - 20)
    else if k < 28 then LeByte(DataLength(|image|, i), k - 24)
    else if k < 28 + DataLength(|image|, i) then image[DATA * i + (k - 28)]
    else if k < 508 then 0
    else LeByte(0x48454e44, k - 508)
  }

  function Block(image: seq<byte>, version: uint32, i: nat): (b: seq<byte>)
    requires |image| <= HEADER + MAX_PAYLOAD && DATA * i < |image|
    ensures |b| == BLOCK
  {
    seq(BLOCK, k requires 0 <= k < BLOCK => BlockByte(image, version, i, k))
  }

  /** The first n blocks of an image. */
  function Blocks(image: seq<byte>, version: uint32, n: nat): (b: seq<byte>)
    requires |image| <= HEADER + MAX_PAYLOAD && n <= BlockCount(|image|)
    ensures |b| == BLOCK * n
  {
    if n == 0 then [] else Blocks(image, version, n - 1) + Block(image, version, n - 1)
  }

  function Package(payload: seq<byte>, version: uint32): seq<byte>
    requires |payload| <= MAX_PAYLOAD
  {
    var image := Image(payload, version);
    Blocks(image, version, BlockCount(|image|))
  }

  // ---------------------------------------------------------------- the packager

  method MakeOtaPackage(payload: seq<byte>, version: uint32) returns (r: Result<seq<byte>, PackageError>)
    ensures r.Success? <==> 1 <= |payload| <= 0xbf000 && 1 <= version <= 0xffff_fffe
    ensures r.Success? ==> r.value == Package(payload, version)
    ensures r == Failure(BadPayloadSize) <==> !(1 <= |payload| <= 0xbf000)
  {
    if !(0 < |payload| <= MAX_PAYLOAD) {
      return Failure(BadPayloadSize);
    }
    if !(0 < version < 0xffff_ffff) {
      return Failure(VersionExhausted);
    }
    var header := WriteHeader(payload, version);
    var image := header[..] + payload;
    assert image == Image(payload, version);
    var blocks := new byte[(|image| + 479) / 480 * 512](_ => 0);
    for i := 0 to blocks.Length / 512
      invariant blocks[..BLOCK * i] == Blocks(image, version, i)
      invariant forall k | BLOCK * i <= k < blocks.Length :: blocks[k] == 0
    {
      ghost var before := blocks[..];
      WriteBlock(blocks, image, version, i);
      NextBlocks(image, version, i, before, blocks[..]);
    }
    assert blocks[..blocks.Length] == blocks[..];
    r := Success(blocks[..]);
  }

  lemma NextBlocks(image: seq<byte>, version: uint32, i: nat, before: seq<byte>, after: seq<byte>)
    requires |image| <= HEADER + MAX_PAYLOAD && i < BlockCount(|image|)
    requires |before| == |after| && BLOCK * (i + 1) <= |after| && before[..BLOCK * i] == Blocks(image, version, i)
    requires forall k | 0 <= k < |after| ::
      after[k] == if BLOCK * i <= k < BLOCK * (i + 1) then BlockByte(image, version, i, k - BLOCK * i) else before[k]
    ensures after[..BLOCK * (i + 1)] == Blocks(image, version, i + 1)
  {
    hide BlockByte;
    assert after[..BLOCK * i] == before[..BLOCK * i];
    assert after[BLOCK * i..BLOCK * (i + 1)] == Block(image, version, i);
    assert after[..BLOCK * (i + 1)] == after[..BLOCK * i] + after[BLOCK * i..BLOCK * (i + 1)];
  }

  method WriteHeader(payload: seq<byte>, version: uint32) returns (image: array<byte>)
    requires |payload| <= MAX_PAYLOAD
    ensures fresh(image) && image.Length == HEADER
    ensures forall k | 0 <= k < HEADER :: image[k] == HeaderByte(payload, version, k)
  {
    hide LeByte, Fips180.Digest;
    image := new byte[4096](_ => 0);
    PutFields(image, payload, version);
    var hash := Sha256.Hash(payload);
    CopyInto(image, 28, hash);
  }

  /** Every header byte outside the digest. */
  method PutFields(image: array<byte>, payload: seq<byte>, version: uint32)
    requires image.Length == HEADER && |payload| <= MAX_PAYLOAD && forall k | 0 <= k < HEADER :: image[k] == 0
    modifies image
    ensures forall k | 0 <= k < HEADER && !(28 <= k < 60) :: image[k] == HeaderByte(payload, version, k)
  {
    hide LeByte, Fips180.Digest;
    Put(image, 0, 0xbeaf5aa5);
    Put(image, 4, 0xa5a55a5a);
    Put(image, 8, 0x3843414e);
    Put(image, 12, |payload|);
    Put(image, 16, version);
    image[21] := 1;
    image[22] := 1;
    image[23] := 4;
  }

  method CopyInto(b: array<byte>, p: nat, data: seq<byte>)
    requires p + |data| <= b.Length
    modifies b
    ensures forall k | 0 <= k < b.Length :: b[k] == if p <= k < p + |data| then data[k - p] else old(b[k])
  {
    for j := 0 to |data|
      invariant forall k | 0 <= k < b.Length :: b[k] == if p <= k < p + j then data[k - p] else old(b[k])
    {
      b[p + j] := data[j];
    }
  }

  method WriteBlock(blocks: array<byte>, image: seq<byte>, version: uint32, i: nat)
    requires |image| <= HEADER + MAX_PAYLOAD && DATA * i < |image| && BLOCK * (i + 1) <= blocks.Length
    requires forall k | BLOCK * i <= k < BLOCK * (i + 1) :: blocks[k] == 0
    modifies blocks
    ensures forall k | 0 <= k < blocks.Length ::
      blocks[k] == if BLOCK * i <= k < BLOCK * (i + 1) then BlockByte(image, version, i, k - BLOCK * i)
                   else old(blocks[k])
  {
    hide LeByte;
    var b, source := i * 512, i * 480;
    var length := if |image| - source < 480 then |image| - source else 480;
    Put(blocks, b, 0x48504d2d);
    Put(blocks, b + 4, 0x9e5d5157);
    Put(blocks, b + 12, version);
    Put(blocks, b + 16, |image|);
    Put(blocks, b + 20, i);
    Put(blocks, b + 24, length);
    Put(blocks, b + 508, 0x48454e44);
    CopyInto(blocks, b + 28, image[source..source + length]);
  }
}
