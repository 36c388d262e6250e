/** Disk sectors and the pointer blocks stored in them. */
module DiskModel {
  const SECTOR_SIZE := 512

  /** Sector pointers per pointer block. */
  const PER_BLOCK := 128

  type byte = x: nat | x < 256

  type u32 = x: nat | x < 0x1_0000_0000

  type Sector = s: seq<byte> | |s| == SECTOR_SIZE witness seq(SECTOR_SIZE, _ => 0)

  type PtrBlock = p: seq<u32> | |p| == PER_BLOCK witness seq(PER_BLOCK, _ => 0)

  /** The sector of zeros that a new data sector is filled with. */
  function ZeroSector(): Sector {
    seq(SECTOR_SIZE, _ => 0)
  }

  /** `data` with `bytes` stored from position `ofs`. */
  function Splice(data: seq<byte>, ofs: nat, bytes: seq<byte>): (r: seq<byte>)
    requires ofs + |bytes| <= |data|
    ensures |r| == |data|
    ensures r[ofs..ofs + |bytes|] == bytes
    ensures forall i :: 0 <= i < |data| && !(ofs <= i < ofs + |bytes|) ==> r[i] == data[i]
  {
    data[..ofs] + bytes + data[ofs + |bytes|..]
  }

  /** Byte `j` (0 the lowest) of a 32-bit word. */
  function ByteOf(x: u32, j: nat): byte {
    if j == 0 then x % 256
    else if j == 1 then x / 0x100 % 256
    else if j == 2 then x / 0x1_0000 % 256
    else x / 0x100_0000 % 256
  }

  /** The little-endian word in bytes `4 * i ..` of a sector. */
  function WordAt(s: Sector, i: nat): u32
    requires i < PER_BLOCK
  {
    s[4 * i] as int + 0x100 * s[4 * i + 1] as int + 0x1_0000 * s[4 * i + 2] as int + 0x100_0000 * s[4 * i + 3] as int
  }

  /** A pointer block as the sector that stores it. */
  function Pack(p: PtrBlock): Sector {
    seq(SECTOR_SIZE, k requires 0 <= k < SECTOR_SIZE => ByteOf(p[k / 4], k % 4))
  }

  /** A sector read as a pointer block. */
  function Unpack(s: Sector): (p: PtrBlock)
    ensures forall i :: 0 <= i < PER_BLOCK ==> p[i] == WordAt(s, i)
  {
    seq(PER_BLOCK, i requires 0 <= i < PER_BLOCK => WordAt(s, i))
  }

  lemma WordFromBytes(x: u32)
    ensures ByteOf(x, 0) + 0x100 * ByteOf(x, 1) + 0x1_0000 * ByteOf(x, 2) + 0x100_0000 * ByteOf(x, 3) == x
  {
    var y := x / 0x100;
    var z := y / 0x100;
    assert z == x / 0x1_0000;
    assert z / 0x100 == x / 0x100_0000;
  }

  /** Reading a pointer block back gives the pointers that were written. */
  lemma UnpackPack(p: PtrBlock)
    ensures Unpack(Pack(p)) == p
  {
    forall i | 0 <= i < PER_BLOCK
      ensures Unpack(Pack(p))[i] == p[i]
    {
      WordFromBytes(p[i]);
      assert (4 * i) / 4 == i && (4 * i + 1) / 4 == i && (4 * i + 2) / 4 == i && (4 * i + 3) / 4 == i;
    }
  }
}
