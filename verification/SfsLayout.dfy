/** The on-disk format of SFS: blocks, big-endian words, and what they hold. */
module SfsLayout {

  const SFS_MAGIC: u32 := 0xabadf001
  const BLOCKSIZE := 512
  const NDIRECT := 15
  const DBPERIDB := 128
  const MAXBLOCKS := 143       // NDIRECT + DBPERIDB: blocks a file can have
  const NAMELEN := 60
  const DIRSIZE := 64          // sizeof(struct sfs_dir)
  const SB_LOCATION := 0
  const ROOT: nat := 1              // SFS_ROOT_LOCATION
  const MAP_LOCATION := 2
  const NOINO: nat := 0
  const BLOCKBITS := 4096      // SFS_BLOCKSIZE * CHAR_BIT

  const TYPE_INVAL: u16 := 0
  const TYPE_FILE: u16 := 1
  const TYPE_DIR: u16 := 2

  type byte = x: int | 0 <= x < 0x100
  type u16 = x: int | 0 <= x < 0x1_0000
  type u32 = x: int | 0 <= x < 0x1_0000_0000

  type Block = b: seq<byte> | |b| == BLOCKSIZE witness seq(BLOCKSIZE, _ => 0)
  type Words = w: seq<u32> | |w| == DBPERIDB witness seq(DBPERIDB, _ => 0)

  function Zeros(): (b: Block) { seq(BLOCKSIZE, _ => 0) }

  predicate AllZero(b: seq<byte>) { forall i :: 0 <= i < |b| ==> b[i] == 0 }

  lemma AllZeroIs(b: Block)
    requires AllZero(b)
    ensures b == Zeros()
  {
  }

  /** SFS_BITBLOCKS and SFS_BITMAPSIZE. */
  function BitBlocks(nblocks: nat): nat { (nblocks + BLOCKBITS - 1) / BLOCKBITS }
  function BitmapSize(nblocks: nat): nat { BitBlocks(nblocks) * BLOCKBITS }

  /** Just enough map blocks, of 4096 bits each. */
  lemma BitBlocksExact(nblocks: nat)
    ensures nblocks <= 4096 * BitBlocks(nblocks) < nblocks + 4096 && BitmapSize(nblocks) == 4096 * BitBlocks(nblocks)
  {
  }

  // Words

  function Word(b0: byte, b1: byte, b2: byte, b3: byte): u32 {
    (b0 * 0x100 + b1) * 0x1_0000 + (b2 * 0x100 + b3)
  }

  function WordByte(w: u32, i: nat): byte
    requires i < 4
  {
    var half := if i < 2 then w / 0x1_0000 else w % 0x1_0000;
    if i % 2 == 0 then half / 0x100 else half % 0x100
  }

  lemma WordRoundTrip(w: u32)
    ensures Word(WordByte(w, 0), WordByte(w, 1), WordByte(w, 2), WordByte(w, 3)) == w
  {
    var hi, lo := w / 0x1_0000, w % 0x1_0000;
    assert hi == (hi / 0x100) * 0x100 + hi % 0x100;
    assert lo == (lo / 0x100) * 0x100 + lo % 0x100;
  }

  function WordAt(b: seq<byte>, p: nat): u32
    requires p + 4 <= |b|
  {
    Word(b[p], b[p + 1], b[p + 2], b[p + 3])
  }

  /** The first n words of a byte string. */
  function ReadWords(b: seq<byte>, n: nat): (w: seq<u32>)
    requires 4 * n <= |b|
    ensures |w| == n
  {
    if n == 0 then [] else ReadWords(b, n - 1) + [WordAt(b, 4 * (n - 1))]
  }

  /** Words written as bytes. */
  function WriteWords(w: seq<u32>): (b: seq<byte>)
    ensures |b| == 4 * |w|
  {
    if w == [] then []
    else
      var x := w[|w| - 1];
      WriteWords(w[..|w| - 1]) + [WordByte(x, 0), WordByte(x, 1), WordByte(x, 2), WordByte(x, 3)]
  }

  lemma {:induction false} WordReadAt(b: seq<byte>, n: nat, j: nat)
    requires 4 * n <= |b| && j < n
    ensures ReadWords(b, n)[j] == WordAt(b, 4 * j)
  {
    if j < n - 1 { WordReadAt(b, n - 1, j); }
  }

  lemma {:induction false} WrittenAt(w: seq<u32>, j: nat)
    requires j < |w|
    ensures WordAt(WriteWords(w), 4 * j) == w[j]
  {
    var n := |w| - 1;
    if j < n {
      WrittenAt(w[..n], j);
    } else {
      WordRoundTrip(w[n]);
    }
  }

  lemma ReadWritten(w: seq<u32>)
    ensures ReadWords(WriteWords(w), |w|) == w
  {
    forall j | 0 <= j < |w| ensures ReadWords(WriteWords(w), |w|)[j] == w[j] {
      WordReadAt(WriteWords(w), |w|, j);
      WrittenAt(w, j);
    }
  }

  lemma ReadZeros(b: seq<byte>, n: nat)
    requires 4 * n <= |b| && AllZero(b)
    ensures forall j :: 0 <= j < n ==> ReadWords(b, n)[j] == 0
  {
    forall j | 0 <= j < n ensures ReadWords(b, n)[j] == 0 { WordReadAt(b, n, j); }
  }

  /** A block as an array of 128 words. */
  function WordsOf(b: Block): (w: Words) { ReadWords(b, |b| / 4) }
  function BytesOf(w: Words): (b: Block) { WriteWords(w) }

  lemma WordsRoundTrip(w: Words)
    ensures WordsOf(BytesOf(w)) == w
  {
    ReadWritten(w);
  }

  lemma ZeroWords(z: Block)
    requires AllZero(z)
    ensures forall j :: 0 <= j < DBPERIDB ==> WordsOf(z)[j] == 0
  {
    ReadZeros(z, |z| / 4);
  }

  // Inodes

  /** struct sfs_inode. */
  datatype RawInode = Inode(
    size: u32, kind: u16, links: u16, direct: seq<u32>, indirect: u32, waste: seq<u32>)

  type Inode = i: RawInode | |i.direct| == NDIRECT && |i.waste| == 110
    witness Inode(0, 0, 0, seq(NDIRECT, _ => 0), 0, seq(110, _ => 0))

  function FromWords(w: Words): (i: Inode) {
    Inode(w[0], w[1] / 0x1_0000, w[1] % 0x1_0000, w[2..17], w[17], w[18..])
  }

  function ToWords(i: Inode): (w: Words) {
    [i.size, i.kind * 0x1_0000 + i.links] + i.direct + [i.indirect] + i.waste
  }

  /** An inode is read from a whole block and written back to it. */
  function InodeOf(b: Block): (i: Inode) { FromWords(WordsOf(b)) }
  function BlockOf(i: Inode): (b: Block) { BytesOf(ToWords(i)) }

  lemma InodeWords(i: Inode)
    ensures FromWords(ToWords(i)) == i
  {
    var w := ToWords(i);
    assert w[0] == i.size && w[1] == i.kind * 0x1_0000 + i.links && w[17] == i.indirect;
    assert w[2..17] == i.direct;
    assert w[18..] == i.waste;
  }

  lemma InodeRoundTrip(i: Inode)
    ensures InodeOf(BlockOf(i)) == i
  {
    WordsRoundTrip(ToWords(i));
    InodeWords(i);
  }

  /** Where the fields of an inode lie in its block, in bytes and big-endian. */
  lemma InodeLayout(i: Inode)
    ensures WordAt(BlockOf(i), 0) == i.size && WordAt(BlockOf(i), 4) == i.kind * 0x1_0000 + i.links
    ensures (forall j: nat :: j < NDIRECT ==> WordAt(BlockOf(i), 8 + 4 * j) == i.direct[j])
    ensures WordAt(BlockOf(i), 68) == i.indirect
  {
    var w := ToWords(i);
    WrittenAt(w, 0);
    WrittenAt(w, 1);
    WrittenAt(w, 17);
    forall j: nat | j < NDIRECT ensures WordAt(BlockOf(i), 8 + 4 * j) == i.direct[j] {
      WrittenAt(w, 2 + j);
      assert w[2 + j] == i.direct[j] && 4 * (2 + j) == 8 + 4 * j;
    }
  }

  /** A word is four bytes, the most significant first. */
  lemma WordIs(b: seq<byte>, p: nat)
    requires p + 4 <= |b|
    ensures WordAt(b, p) ==
      b[p] as int * 0x100_0000 + b[p + 1] as int * 0x1_0000 + b[p + 2] as int * 0x100 + b[p + 3]
  {
  }

  predicate BlankInode(i: Inode) {
    && i.size == 0 && i.kind == TYPE_INVAL && i.links == 0 && i.indirect == 0
    && forall j :: 0 <= j < NDIRECT ==> i.direct[j] == 0
  }

  lemma ZeroFromWords(w: Words)
    requires forall j :: 0 <= j < DBPERIDB ==> w[j] == 0
    ensures BlankInode(FromWords(w))
  {
  }

  /** A cleared block reads as an inode of no type with nothing attached. */
  lemma ZeroInode(z: Block)
    requires AllZero(z)
    ensures BlankInode(InodeOf(z))
  {
    ZeroWords(z);
    ZeroFromWords(WordsOf(z));
  }

  // Superblock

  function SuperMagic(b: Block): u32 { WordAt(b, 0) }
  function SuperBlocks(b: Block): u32 { WordAt(b, 4) }

  // Directory entries

  /** A used or free slot of the directory: the inode number and the name. */
  datatype Entry = Entry(ino: u32, name: seq<byte>)

  /** The bytes before the first NUL. */
  function CString(b: seq<byte>): (s: seq<byte>)
    ensures 0 !in s && |s| <= |b|
  {
    if b == [] || b[0] == 0 then [] else [b[0]] + CString(b[1..])
  }

  /** A file name as the kernel passes it: no NUL. */
  type Name = n: seq<byte> | 0 !in n witness []

  /** struct sfs_dir as read: the last byte of the name is forced to NUL. */
  function EntryOf(b: seq<byte>): (e: Entry)
    requires |b| == DIRSIZE
  {
    Entry(WordAt(b, 0), CString(b[4..DIRSIZE - 1]))
  }

  /** struct sfs_dir as written by link and unlink: zeroed, then filled in. */
  function EntryBytes(e: Entry): (b: seq<byte>)
    requires |e.name| < NAMELEN
    ensures |b| == DIRSIZE
  {
    [WordByte(e.ino, 0), WordByte(e.ino, 1), WordByte(e.ino, 2), WordByte(e.ino, 3)]
    + e.name + seq(NAMELEN - |e.name|, _ => 0)
  }

  lemma {:induction false} CStringPadded(n: seq<byte>, zeros: seq<byte>)
    requires 0 !in n && |zeros| > 0 && zeros[0] == 0
    ensures CString(n + zeros) == n
  {
    if n != [] {
      assert (n + zeros)[1..] == n[1..] + zeros;
      CStringPadded(n[1..], zeros);
    }
  }

  lemma EntryRoundTrip(e: Entry)
    requires |e.name| < NAMELEN && 0 !in e.name
    ensures EntryOf(EntryBytes(e)) == e
  {
    WordRoundTrip(e.ino);
    if |e.name| < NAMELEN - 1 {
      CStringPadded(e.name, seq(NAMELEN - 1 - |e.name|, _ => 0));
      assert EntryBytes(e)[4..DIRSIZE - 1] == e.name + seq(NAMELEN - 1 - |e.name|, _ => 0);
    } else {
      CStringFull(e.name);
      assert EntryBytes(e)[4..DIRSIZE - 1] == e.name;
    }
  }

  /** A directory entry: the inode number, then the name up to a NUL. */
  lemma EntryLayout(e: Entry)
    requires |e.name| < NAMELEN
    ensures |EntryBytes(e)| == 64 && WordAt(EntryBytes(e), 0) == e.ino && EntryBytes(e)[4..4 + |e.name|] == e.name
    ensures forall i :: 4 + |e.name| <= i < 64 ==> EntryBytes(e)[i] == 0
  {
    WordRoundTrip(e.ino);
  }

  lemma {:induction false} CStringFull(n: seq<byte>)
    requires 0 !in n
    ensures CString(n) == n
  {
    if n != [] { CStringFull(n[1..]); }
  }

  lemma BlankEntryBytes(b: seq<byte>)
    requires |b| == DIRSIZE && AllZero(b)
    ensures b == EntryBytes(Entry(NOINO, []))
  {
    assert forall i :: 0 <= i < 4 ==> WordByte(0, i) == 0;
  }

  lemma ZeroEntry(b: seq<byte>)
    requires |b| == DIRSIZE && AllZero(b)
    ensures EntryOf(b) == Entry(NOINO, [])
  {
    BlankEntryBytes(b);
    EntryRoundTrip(Entry(NOINO, []));
  }
}
