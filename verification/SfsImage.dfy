/** The superblock and the free map as they lie on the disk. */
module SfsImage {
  import opened SfsLayout
  import opened SfsState
  import B = Bitmap

  function ToByte(w: bv8): (b: byte) { w as int }
  function FromByte(b: byte): (w: bv8) { b as bv8 }

  lemma ByteRoundTrip(w: bv8)
    ensures FromByte(ToByte(w)) == w
  {
  }

  /** Byte i of the free map on disk. */
  function MapByte(disk: seq<Block>, i: nat): byte {
    if MAP_LOCATION + i / BLOCKSIZE < |disk| then disk[MAP_LOCATION + i / BLOCKSIZE][i % BLOCKSIZE] else 0
  }

  ghost predicate MapByteIs(disk: seq<Block>, v: seq<bv8>, i: nat) {
    i < |v| ==> FromByte(MapByte(disk, i)) == v[i]
  }

  /** The disk holds the map v. */
  ghost predicate MapOnDisk(disk: seq<Block>, v: seq<bv8>) {
    forall i: nat :: MapByteIs(disk, v, i)
  }

  /** The superblock describes a volume of nblocks blocks. */
  predicate Header(nblocks: nat, disk: seq<Block>) {
    |disk| > 0 && SuperMagic(disk[SB_LOCATION]) == SFS_MAGIC && SuperBlocks(disk[SB_LOCATION]) == nblocks
  }

  /** Writing a data block touches neither. */
  lemma DataWriteKeeps(nblocks: nat, disk: seq<Block>, b: nat, data: Block, v: seq<bv8>)
    requires b < |disk| && DataBlock(nblocks, b) && |v| <= BitBlocks(nblocks) * BLOCKSIZE
    ensures Header(nblocks, disk[b := data]) <==> Header(nblocks, disk)
    ensures MapOnDisk(disk[b := data], v) <==> MapOnDisk(disk, v)
  {
    var disk' := disk[b := data];
    forall i: nat ensures MapByteIs(disk', v, i) <==> MapByteIs(disk, v, i) { MapByteKept(nblocks, disk, b, data, v, i); }
  }

  lemma MapByteKept(nblocks: nat, disk: seq<Block>, b: nat, data: Block, v: seq<bv8>, i: nat)
    requires b < |disk| && DataBlock(nblocks, b) && |v| <= BitBlocks(nblocks) * BLOCKSIZE
    ensures MapByteIs(disk[b := data], v, i) <==> MapByteIs(disk, v, i)
  {
    if i < |v| { assert i / BLOCKSIZE < BitBlocks(nblocks); }
  }

  lemma MapLength(v: seq<bv8>, nblocks: nat)
    requires B.Padded(v, BitmapSize(nblocks))
    ensures |v| == BitBlocks(nblocks) * BLOCKSIZE
  {
  }

  /** Sector j of a map as it is written. */
  function MapSector(v: seq<bv8>, j: nat): (b: Block)
    requires (j + 1) * BLOCKSIZE <= |v|
  {
    var w := v[j * BLOCKSIZE..(j + 1) * BLOCKSIZE];
    seq(BLOCKSIZE, i requires 0 <= i < BLOCKSIZE => ToByte(w[i]))
  }

  /** The first n bytes of the map are on disk. */
  ghost predicate MapPrefix(disk: seq<Block>, v: seq<bv8>, n: nat) {
    forall i: nat :: i < n ==> MapByteIs(disk, v, i)
  }

  lemma MapPrefixStep(disk: seq<Block>, v: seq<bv8>, j: nat)
    requires (j + 1) * BLOCKSIZE <= |v| && MAP_LOCATION + j < |disk| && MapPrefix(disk, v, j * BLOCKSIZE)
    ensures MapPrefix(disk[MAP_LOCATION + j := MapSector(v, j)], v, (j + 1) * BLOCKSIZE)
  {
    var disk', n := disk[MAP_LOCATION + j := MapSector(v, j)], (j + 1) * BLOCKSIZE;
    forall i: nat | i < n ensures MapByteIs(disk', v, i) {
      if i < j * BLOCKSIZE {
        assert MapByteIs(disk, v, i);
        SectorOf(i, j);
      } else {
        SectorAt(i, j);
        ByteRoundTrip(v[i]);
      }
    }
  }

  lemma SectorOf(i: nat, j: nat)
    requires i < j * BLOCKSIZE
    ensures i / BLOCKSIZE < j
  {
  }

  lemma SectorAt(i: nat, j: nat)
    requires j * BLOCKSIZE <= i < (j + 1) * BLOCKSIZE
    ensures i / BLOCKSIZE == j && i % BLOCKSIZE == i - j * BLOCKSIZE
  {
  }

  /** The map as it is read back. */
  function DiskMap(nblocks: nat, disk: seq<Block>): (v: seq<bv8>) {
    seq(BitBlocks(nblocks) * BLOCKSIZE, i requires 0 <= i => FromByte(MapByte(disk, i)))
  }

  /** Reading the map gives back what was written. */
  lemma MapRoundTrip(nblocks: nat, disk: seq<Block>, v: seq<bv8>)
    requires MapOnDisk(disk, v) && |v| == BitBlocks(nblocks) * BLOCKSIZE
    ensures DiskMap(nblocks, disk) == v
  {
    forall i: nat | i < |v| ensures DiskMap(nblocks, disk)[i] == v[i] {
      assert MapByteIs(disk, v, i);
    }
  }
}
