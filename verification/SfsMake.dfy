/** mksfs: the volume every run starts from, and that it is empty and owns just
    its root. */
module SfsMake {
  import opened SfsLayout
  import opened SfsState
  import opened SfsFile
  import opened SfsCache
  import opened SfsDir
  import opened SfsImage
  import opened SfsMount
  import U = Uio
  import B = Bitmap

  const MAXBITBLOCKS := 32
  const VOLNAME_SIZE := 32
  const MAXBITS: nat := 131072     // bits in bitbuf

  // The volume name

  const COLON: byte := 58
  const SLASH: byte := 47

  /** A volume name may end in one colon, which is not part of it. */
  predicate Legal(volname: Name) {
    SLASH !in volname && forall i :: 0 <= i < |volname| - 1 ==> volname[i] != COLON
  }

  function Stripped(volname: Name): (n: Name) {
    if volname != [] && volname[|volname| - 1] == COLON then volname[..|volname| - 1] else volname
  }

  /** strchr */
  method Find(v: seq<byte>, c: byte) returns (i: nat)
    ensures i <= |v| && (i < |v| ==> v[i] == c) && forall j :: 0 <= j < i ==> v[j] != c
  {
    i := 0;
    while i < |v| && v[i] != c
      invariant i <= |v| && forall j :: 0 <= j < i ==> v[j] != c
    {
      i := i + 1;
    }
  }

  /** The checks main makes on the name. */
  method CleanName(volname: Name) returns (ok: bool, name: Name)
    ensures ok <==> Legal(volname)
    ensures ok ==> name == Stripped(volname) && COLON !in name
  {
    name := volname;
    var i := Find(volname, COLON);
    if i < |volname| {
      if |volname| - i != 1 { return false, name; }
      name := volname[..i];
    }
    var j := Find(name, SLASH);
    ok := j == |name|;
  }

  // Superblock and root directory

  function SuperOf(volname: Name, nblocks: u32): (b: Block)
    requires |volname| < VOLNAME_SIZE
  {
    var magic := SFS_MAGIC;
    [WordByte(magic, 0), WordByte(magic, 1), WordByte(magic, 2), WordByte(magic, 3),
     WordByte(nblocks, 0), WordByte(nblocks, 1), WordByte(nblocks, 2), WordByte(nblocks, 3)]
    + volname + U.ZeroBytes(BLOCKSIZE - 8 - |volname|)
  }

  lemma SuperReads(volname: Name, nblocks: u32)
    requires |volname| < VOLNAME_SIZE
    ensures SuperMagic(SuperOf(volname, nblocks)) == SFS_MAGIC && SuperBlocks(SuperOf(volname, nblocks)) == nblocks
    ensures SuperName(SuperOf(volname, nblocks)) == volname
  {
    WordRoundTrip(SFS_MAGIC);
    WordRoundTrip(nblocks);
    SuperNameReads(volname, nblocks);
  }

  /** The volume name as a mount reads it: the last byte is forced to NUL. */
  function SuperName(b: Block): Name { CString(b[8..8 + VOLNAME_SIZE - 1]) }

  lemma SuperNameReads(volname: Name, nblocks: u32)
    requires |volname| < VOLNAME_SIZE
    ensures SuperName(SuperOf(volname, nblocks)) == volname
  {
    var room, b := VOLNAME_SIZE - 1 - |volname|, SuperOf(volname, nblocks);
    assert b[8..8 + VOLNAME_SIZE - 1] == volname + U.ZeroBytes(room);
    if room > 0 {
      CStringPadded(volname, U.ZeroBytes(room));
    } else {
      assert volname + U.ZeroBytes(room) == volname;
      CStringFull(volname);
    }
  }

  function RootInode(): (i: Inode) {
    Inode(0, TYPE_DIR, 1, seq(NDIRECT, _ => 0), 0, seq(110, _ => 0))
  }

  // The map

  /** doallocbit: asserts that the bit is clear. */
  method DoAllocBit(bitbuf: array<bv8>, bit: nat) returns (ok: bool)
    requires bitbuf.Length * 8 == MAXBITS && bit < MAXBITS
    modifies bitbuf
    ensures ok <==> bit !in B.Indices(old(bitbuf[..]), MAXBITS)
    ensures ok ==> B.Indices(bitbuf[..], MAXBITS) == B.Indices(old(bitbuf[..]), MAXBITS) + {bit}
  {
    var byte, mask := bit / 8, (1 as bv8) << (bit % 8);
    ok := bitbuf[byte] & mask == 0;
    if ok {
      bitbuf[byte] := bitbuf[byte] | mask;
      B.IndicesSet(old(bitbuf[..]), MAXBITS, bit);
    }
  }

  predicate Within(a: nat, x: nat, b: nat) { a <= x < b }

  ghost function Range(a: nat, b: nat): set<nat> { set x: nat | x < b && Within(a, x, b) }

  /** Mark lo..hi, which must all be clear. */
  method AllocRange(bitbuf: array<bv8>, lo: nat, hi: nat) returns (ok: bool)
    requires bitbuf.Length * 8 == MAXBITS && hi <= MAXBITS
    modifies bitbuf
    ensures ok <==> B.Indices(old(bitbuf[..]), MAXBITS) !! Range(lo, hi)
    ensures ok ==> B.Indices(bitbuf[..], MAXBITS) == B.Indices(old(bitbuf[..]), MAXBITS) + Range(lo, hi)
  {
    ghost var before := B.Indices(bitbuf[..], MAXBITS);
    assert before + Range(lo, lo) == before;
    var i := lo;
    while i < hi
      invariant lo <= i && (i <= hi || i == lo)
      invariant before !! Range(lo, i) && B.Indices(bitbuf[..], MAXBITS) == before + Range(lo, i)
    {
      assert i in Range(lo, hi) && Range(lo, i + 1) == Range(lo, i) + {i};
      ok := DoAllocBit(bitbuf, i);
      if !ok { return; }
      i := i + 1;
    }
    assert Range(lo, i) == Range(lo, hi);
    ok := true;
  }

  /** The bits set on a new volume: superblock, root, map, and everything past the end. */
  ghost function Reserved(nblocks: nat): set<nat> {
    Range(0, MAP_LOCATION + BitBlocks(nblocks)) + Range(nblocks, BitmapSize(nblocks))
  }

  /** The marking half of writebitmap. */
  method MarkReserved(bitbuf: array<bv8>, fsblocks: nat) returns (ok: bool)
    requires bitbuf.Length * 8 == MAXBITS && B.Indices(bitbuf[..], MAXBITS) == {}
    requires BitBlocks(fsblocks) <= MAXBITBLOCKS && MAP_LOCATION <= fsblocks
    modifies bitbuf
    ensures ok <==> MAP_LOCATION + BitBlocks(fsblocks) <= fsblocks
    ensures ok ==> B.Indices(bitbuf[..], MAXBITS) == Reserved(fsblocks)
  {
    var nbits, nblocks := BitmapSize(fsblocks), BitBlocks(fsblocks);
    ok := DoAllocBit(bitbuf, SB_LOCATION);
    ok := DoAllocBit(bitbuf, ROOT);
    assert ok;
    assert B.Indices(bitbuf[..], MAXBITS) == Range(0, MAP_LOCATION);
    ok := AllocRange(bitbuf, MAP_LOCATION, MAP_LOCATION + nblocks);
    assert B.Indices(bitbuf[..], MAXBITS) == Range(0, MAP_LOCATION + nblocks);
    ok := AllocRange(bitbuf, fsblocks, nbits);
    RangesMeet(fsblocks);
  }

  lemma RangesMeet(n: nat)
    requires MAP_LOCATION <= n
    ensures Range(0, MAP_LOCATION + BitBlocks(n)) !! Range(n, BitmapSize(n)) <==> MAP_LOCATION + BitBlocks(n) <= n
  {
    if MAP_LOCATION + BitBlocks(n) > n {
      assert n in Range(0, MAP_LOCATION + BitBlocks(n)) && n in Range(n, BitmapSize(n));
    }
  }

  // The new volume

  ghost function NewOwner(): Owner { map[ROOT := (ROOT, SELF)] }

  /** A volume with only an empty root directory. */
  ghost predicate New(s: State) {
    && |s.disk| == s.nblocks >= MAP_LOCATION + BitBlocks(s.nblocks)
    && s.used == Reserved(s.nblocks) && s.vn == map[]
    && InodeOf(Disk(s, ROOT)) == RootInode()
  }

  lemma NewRoot(s: State, t: nat)
    requires New(s)
    ensures Slot(s, ROOT, t) == if t == SELF then ROOT else 0
  {
    if NDIRECT <= t < MAXBLOCKS { ZeroEntries(s, 0, t - NDIRECT); }
  }

  lemma NewMapBit(s: State, b: nat)
    requires New(s)
    ensures MapBit(s, b) && (b in s.used && DataBlock(s.nblocks, b) <==> b == ROOT)
  {
    var n := MAP_LOCATION + BitBlocks(s.nblocks);
    assert b in Range(0, n) <==> Within(0, b, n);
    assert b in Range(s.nblocks, BitmapSize(s.nblocks)) <==> Within(s.nblocks, b, BitmapSize(s.nblocks));
  }

  lemma NewBlocks(s: State)
    requires New(s)
    ensures Blocks(s, NewOwner()) && Leaked(s, NewOwner()) == {}
  {
    var own := NewOwner();
    forall b: nat ensures MapBit(s, b) { NewMapBit(s, b); }
    forall b: nat ensures BlockOk(s, own, b) {
      NewMapBit(s, b);
      NewRoot(s, SELF);
    }
    forall k: nat, t: nat ensures SlotOk(s, own, k, t) { NewRoot(s, t); }
    forall b: nat ensures b !in Leaked(s, own) { NewMapBit(s, b); }
  }

  lemma NewByte(s: State, o: nat)
    requires New(s)
    ensures FByte(s, ROOT, o) == 0
  {
    NewRoot(s, o / BLOCKSIZE);
  }

  lemma NewConsistent(s: State)
    requires New(s)
    ensures Consistent(s, NewOwner()) && Dir(s) == []
  {
    forall o: nat ensures ZeroPast(s, o) { NewByte(s, o); }
    forall i: nat, j: nat ensures NamesDiffer(Dir(s), i, j) {}
    forall k: nat ensures NodeOk(s, NewOwner(), Dir(s), NOINO, 0, k) {}
  }

  /** The map read back from disk has the bits that were set. */
  lemma MapImage(disk: seq<Block>, buf: seq<bv8>, n: nat)
    requires |buf| * 8 == MAXBITS && BitBlocks(n) <= MAXBITBLOCKS
    requires MapPrefix(disk, buf, BitBlocks(n) * BLOCKSIZE) && B.Indices(buf, MAXBITS) == Reserved(n)
      && n <= BitmapSize(n)
    requires MAP_LOCATION + BitBlocks(n) <= n
    ensures B.Indices(DiskMap(n, disk), BitmapSize(n)) == Reserved(n)
  {
    var v, nbits := DiskMap(n, disk), BitmapSize(n);
    forall i: nat ensures i in B.Indices(v, nbits) <==> i in Reserved(n) {
      if i < nbits {
        MapImageBit(disk, buf, n, i);
        assert i in B.Indices(v, nbits) <==> B.Bit(v, i);
        assert i in B.Indices(buf, MAXBITS) <==> B.Bit(buf, i);
      }
    }
  }

  lemma MapImageBit(disk: seq<Block>, buf: seq<bv8>, n: nat, i: nat)
    requires |buf| * 8 == MAXBITS && BitBlocks(n) <= MAXBITBLOCKS && i < BitmapSize(n)
    requires MapPrefix(disk, buf, BitBlocks(n) * BLOCKSIZE)
    ensures B.Bit(DiskMap(n, disk), i) == B.Bit(buf, i)
  {
    assert MapByteIs(disk, buf, i / 8);
  }

  /** The loop of writebitmap that writes the sectors out. */
  method WriteSectors(dev: seq<Block>, bitbuf: array<bv8>, nblocks: nat) returns (disk: seq<Block>)
    requires bitbuf.Length * 8 == MAXBITS && nblocks <= MAXBITBLOCKS && MAP_LOCATION + nblocks <= |dev|
    ensures |disk| == |dev| && disk[SB_LOCATION] == dev[SB_LOCATION] && disk[ROOT] == dev[ROOT]
    ensures MapPrefix(disk, bitbuf[..], nblocks * BLOCKSIZE)
  {
    disk := dev;
    var i := 0;
    while i < nblocks
      invariant i <= nblocks && |disk| == |dev| && disk[SB_LOCATION] == dev[SB_LOCATION] && disk[ROOT] == dev[ROOT]
      invariant MapPrefix(disk, bitbuf[..], i * BLOCKSIZE)
    {
      MapPrefixStep(disk, bitbuf[..], i);
      disk := disk[MAP_LOCATION + i := MapSector(bitbuf[..], i)];
      i := i + 1;
    }
  }

  /** The device can hold its map and the map buffer can hold it too. */
  predicate Makeable(n: nat) { BitBlocks(n) <= MAXBITBLOCKS && MAP_LOCATION + BitBlocks(n) <= n }

  /** mksfs: fails on an illegal name or one too long, on a device too large for
      the map buffer, and on one too small. */
  method Mksfs(dev: seq<Block>, volname: Name) returns (ok: bool, disk: seq<Block>)
    requires |dev| < 0x1_0000_0000
    ensures ok <==> Legal(volname) && |Stripped(volname)| < VOLNAME_SIZE && Makeable(|dev|)
    ensures ok ==> |disk| == |dev| && Header(|dev|, disk) && New(Image(disk))
    ensures ok ==> SuperName(disk[SB_LOCATION]) == Stripped(volname)
  {
    var name;
    disk := dev;
    ok, name := CleanName(volname);
    if !ok || |name| >= VOLNAME_SIZE { return false, disk; }
    ok, disk := MakeVolume(dev, name);
  }

  /** writesuper, writerootdir and writebitmap. */
  method MakeVolume(dev: seq<Block>, name: Name) returns (ok: bool, disk: seq<Block>)
    requires |dev| < 0x1_0000_0000 && |name| < VOLNAME_SIZE
    ensures ok <==> Makeable(|dev|)
    ensures ok ==> |disk| == |dev| && Header(|dev|, disk) && New(Image(disk)) && SuperName(disk[SB_LOCATION]) == name
  {
    var size := |dev|;
    disk := dev;
    if size <= ROOT { return false, disk; }
    disk := disk[SB_LOCATION := SuperOf(name, size)];
    disk := disk[ROOT := BlockOf(RootInode())];
    if BitBlocks(size) > MAXBITBLOCKS { return false, disk; }
    var bitbuf := new bv8[MAXBITBLOCKS * BLOCKSIZE](_ => 0);
    ClearBits(bitbuf[..]);
    ok := MarkReserved(bitbuf, size);
    if ok {
      disk := WriteSectors(disk, bitbuf, BitBlocks(size));
      SuperReads(name, size);
      InodeRoundTrip(RootInode());
      MapImage(disk, bitbuf[..], size);
    }
  }

  lemma ClearBits(v: seq<bv8>)
    requires forall i :: 0 <= i < |v| ==> v[i] == 0
    ensures B.Indices(v, MAXBITS) == {}
  {
    forall i: nat ensures !B.Bit(v, i) {}
  }
}
