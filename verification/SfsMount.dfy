/** Synchronising, unmounting and mounting: how the vnodes and the free map get
    to the disk, and how a mounted system is made from what is there.  A failure
    to sync one vnode is not reported, as in the kernel. */
module SfsMount {
  import opened SfsLayout
  import opened SfsState
  import opened SfsTable
  import opened SfsFile
  import opened SfsCache
  import opened SfsView
  import opened SfsDir
  import opened SfsImage
  import opened SfsRemount
  import opened Sfs
  import B = Bitmap

  /** Write one sector of the free map. */
  method WriteSector(fs: Sfs, j: nat) returns (e: Err)
    requires fs.Valid() && fs.freemapdirty && j < BitBlocks(fs.nblocks)
    requires MapPrefix(fs.disk, fs.freemap.v[..], j * BLOCKSIZE)
    modifies fs`clock, fs`faults, fs`disk
    ensures fs.Valid() && Flushed(old(fs.S()), fs.S()) && Counted(old(fs.faults), fs.faults, e) && (e == Ok || e == EIO)
    ensures fs.Leakage() == old(fs.Leakage())
    ensures e == Ok ==> MapPrefix(fs.disk, fs.freemap.v[..], (j + 1) * BLOCKSIZE)
  {
    MapLength(fs.freemap.v[..], fs.nblocks);
    SectorFits(fs.S(), j);
    MapPrefixStep(fs.disk, fs.freemap.v[..], j);
    var sector := MapSector(fs.freemap.v[..], j);
    e := fs.WBlock(sector, MAP_LOCATION + j);
    WroteReserved(old(fs.S()), fs.S(), MAP_LOCATION + j);
    FlushedOk(old(fs.S()), fs.own, fs.S());
  }

  lemma SectorFits(s: State, j: nat)
    requires MapOk(s) && j < BitBlocks(s.nblocks)
    ensures MAP_LOCATION + j < |s.disk| && (j + 1) * BLOCKSIZE <= BitBlocks(s.nblocks) * BLOCKSIZE
    ensures !DataBlock(s.nblocks, MAP_LOCATION + j)
  {
  }

  lemma WroteReserved(s: State, s': State, b: nat)
    requires s'.nblocks == s.nblocks && s'.used == s.used && s'.vn == s.vn && |s'.disk| == |s.disk|
      && !DataBlock(s.nblocks, b)
    requires forall x: nat :: x < |s.disk| && x != b ==> s'.disk[x] == s.disk[x]
    ensures Flushed(s, s')
  {
    forall x: nat ensures DataKept(s, s', x) {}
  }

  lemma FlushedSame(s: State)
    ensures Flushed(s, s)
  {
    forall x: nat ensures DataKept(s, s, x) {}
  }

  /** sfs_mapio, writing. */
  method WriteMap(fs: Sfs) returns (e: Err)
    requires fs.Valid() && fs.freemapdirty
    modifies fs`clock, fs`faults, fs`disk
    ensures fs.Valid() && Flushed(old(fs.S()), fs.S()) && Counted(old(fs.faults), fs.faults, e) && (e == Ok || e == EIO)
    ensures fs.Leakage() == old(fs.Leakage())
    ensures e == Ok ==> MapOnDisk(fs.disk, fs.freemap.v[..])
  {
    e := Ok;
    FlushedSame(fs.S());
    var mapsize := BitBlocks(fs.nblocks);
    var j := 0;
    while j < mapsize
      invariant j <= mapsize && fs.Valid() && Flushed(old(fs.S()), fs.S()) && fs.faults == old(fs.faults) && e == Ok
      invariant fs.Leakage() == old(fs.Leakage())
      invariant MapPrefix(fs.disk, fs.freemap.v[..], j * BLOCKSIZE)
    {
      ghost var s1 := fs.S();
      e := WriteSector(fs, j);
      FlushedTrans(old(fs.S()), s1, fs.S());
      if e != Ok { return; }
      j := j + 1;
    }
    MapLength(fs.freemap.v[..], fs.nblocks);
    PrefixAll(fs.disk, fs.freemap.v[..], mapsize * BLOCKSIZE);
  }

  lemma PrefixAll(disk: seq<Block>, v: seq<bv8>, n: nat)
    requires MapPrefix(disk, v, n) && |v| <= n
    ensures MapOnDisk(disk, v)
  {
    forall i: nat ensures MapByteIs(disk, v, i) {}
  }

  // sfs_sync

  ghost predicate SyncedAt(vs: seq<Vnode>, t: map<nat, Vnode>, j: nat) {
    j < |vs| && vs[j].ino in t ==> !t[vs[j].ino].dirty
  }

  /** The first n vnodes of the table are clean. */
  ghost predicate SyncedTo(vs: seq<Vnode>, t: map<nat, Vnode>, n: nat) {
    forall j: nat :: j < n ==> SyncedAt(vs, t, j)
  }

  lemma SyncedStep(vs: seq<Vnode>, t: map<nat, Vnode>, vs': seq<Vnode>, t': map<nat, Vnode>, n: nat)
    requires SyncedTo(vs, t, n) && n < |vs| == |vs'| && forall j :: 0 <= j < |vs| ==> vs'[j].ino == vs[j].ino
    requires vs[n].ino in t && t' == t[vs[n].ino := Vnode(vs[n].ino, t[vs[n].ino].inode, false, t[vs[n].ino].ref)]
    ensures SyncedTo(vs', t', n + 1)
  {
    forall j: nat | j < n + 1 ensures SyncedAt(vs', t', j) { assert j < n ==> SyncedAt(vs, t, j); }
  }

  /** One of the first n vnodes is still dirty. */
  ghost predicate DirtyBelow(vs: seq<Vnode>, t: map<nat, Vnode>, n: nat) {
    exists j: nat :: j < n && j < |vs| && vs[j].ino in t && t[vs[j].ino].dirty
  }

  lemma DirtyStep(vs: seq<Vnode>, t: map<nat, Vnode>, vs': seq<Vnode>, t': map<nat, Vnode>, n: nat)
    requires DirtyBelow(vs, t, n) && Unique(vs) && n < |vs| == |vs'| && forall j :: 0 <= j < |vs| ==>
      vs'[j].ino == vs[j].ino
    requires forall k: nat :: k in t && k != vs[n].ino ==> k in t' && t'[k] == t[k]
    ensures DirtyBelow(vs', t', n + 1)
  {
    var j: nat :| j < n && j < |vs| && vs[j].ino in t && t[vs[j].ino].dirty;
    assert vs'[j].ino in t' && t'[vs'[j].ino].dirty;
  }

  lemma NotClean(s: State, vs: seq<Vnode>, n: nat)
    requires DirtyBelow(vs, s.vn, n)
    ensures !Clean(s)
  {
    var j: nat :| j < n && j < |vs| && vs[j].ino in s.vn && s.vn[vs[j].ino].dirty;
    assert !CleanAt(s, vs[j].ino);
  }

  lemma SyncedAll(s: State, vs: seq<Vnode>)
    requires s.vn == Table(vs) && SyncedTo(vs, s.vn, |vs|)
    ensures Clean(s)
  {
    forall k: nat ensures CleanAt(s, k) {
      TableHas(vs, k);
      if k in s.vn {
        var i :| 0 <= i < |vs| && vs[i].ino == k;
        assert SyncedAt(vs, s.vn, i);
      }
    }
  }

  /** VOP_FSYNC of every loaded vnode; errors are ignored. */
  method SyncVnodes(fs: Sfs)
    requires fs.Valid()
    modifies fs`clock, fs`faults, fs`disk, fs`vnodes
    ensures fs.Valid() && Quiet(old(fs.S()), fs.own, fs.S()) && fs.S().vn.Keys == old(fs.S()).vn.Keys
    ensures Refd(old(fs.S()), fs.S(), 0, 0)
    ensures fs.faults >= old(fs.faults) && fs.Leakage() == old(fs.Leakage())
    ensures Clean(fs.S()) <==> fs.faults == old(fs.faults)
  {
    TableQuiet(fs.S(), fs.own, fs.S());
    RefdTable(fs.S(), fs.S());
    var num := |fs.vnodes|;
    var i := 0;
    while i < num
      invariant i <= num == |fs.vnodes| && fs.Valid() && Quiet(old(fs.S()), fs.own, fs.S())
      invariant Refd(old(fs.S()), fs.S(), 0, 0)
      invariant fs.S().vn.Keys == old(fs.S()).vn.Keys && fs.faults >= old(fs.faults)
        && fs.Leakage() == old(fs.Leakage())
      invariant fs.faults == old(fs.faults) ==> SyncedTo(fs.vnodes, fs.S().vn, i)
      invariant fs.faults > old(fs.faults) ==> DirtyBelow(fs.vnodes, fs.S().vn, i)
    {
      i := SyncNext(fs, i, old(fs.S()), old(fs.faults));
    }
    if fs.faults == old(fs.faults) { SyncedAll(fs.S(), fs.vnodes); } else { NotClean(fs.S(), fs.vnodes, i); }
  }

  lemma RefdSynced(s: State, s1: State, s2: State)
    requires Refd(s, s1, 0, 0) && s2.vn.Keys == s1.vn.Keys && forall k :: k in s1.vn ==> s2.vn[k].ref == s1.vn[k].ref
    ensures Refd(s, s2, 0, 0)
  {
    forall x: nat ensures RefAt(s, s2, 0, 0, x) { assert RefAt(s, s1, 0, 0, x); }
  }

  method SyncNext(fs: Sfs, i: nat, ghost s: State, ghost f: nat) returns (n: nat)
    requires fs.Valid() && i < |fs.vnodes| && Quiet(s, fs.own, fs.S()) && fs.S().vn.Keys == s.vn.Keys && fs.faults >= f
    requires Refd(s, fs.S(), 0, 0)
    requires fs.faults == f ==> SyncedTo(fs.vnodes, fs.S().vn, i)
    requires fs.faults > f ==> DirtyBelow(fs.vnodes, fs.S().vn, i)
    modifies fs`clock, fs`faults, fs`disk, fs`vnodes
    ensures n == i + 1 && |fs.vnodes| == |old(fs.vnodes)| && fs.Valid() && Refd(s, fs.S(), 0, 0)
    ensures Quiet(s, fs.own, fs.S()) && fs.S().vn.Keys == s.vn.Keys && fs.faults >= f
      && fs.Leakage() == old(fs.Leakage())
    ensures fs.faults == f ==> SyncedTo(fs.vnodes, fs.S().vn, n)
    ensures fs.faults > f ==> DirtyBelow(fs.vnodes, fs.S().vn, n)
  {
    ghost var s1, vs := fs.S(), fs.vnodes;
    TableAt(fs.vnodes, i);
    LoadedLive(s1, fs.own, fs.vnodes[i].ino);
    var e := fs.SyncInode(fs.vnodes[i].ino);
    QuietTrans(s, fs.own, s1, fs.S());
    QuietOk(s1, fs.own, fs.S());
    RefdSynced(s, s1, fs.S());
    n := i + 1;
    if fs.faults == f {
      SyncedStep(vs, s1.vn, fs.vnodes, fs.S().vn, i);
    } else if e != Ok {
      assert vs[i].ino in s1.vn && s1.vn[vs[i].ino].dirty;
    } else {
      DirtyStep(vs, s1.vn, fs.vnodes, fs.S().vn, i);
    }
  }

  /** sfs_sync.  The superblock is never dirty.  Errors of single vnodes are not
      reported, so that Ok means everything is on disk exactly if nothing failed. */
  method Sync(fs: Sfs) returns (e: Err)
    requires fs.Valid() && Consistent(fs.S(), fs.own)
    modifies fs`clock, fs`faults, fs`disk, fs`vnodes, fs`freemapdirty
    ensures fs.Valid() && Consistent(fs.S(), fs.own) && Dir(fs.S()) == Dir(old(fs.S()))
    ensures fs.faults >= old(fs.faults) && fs.Leakage() == old(fs.Leakage())
    ensures fs.S().vn.Keys == old(fs.S()).vn.Keys && fs.S().used == old(fs.S()).used
    ensures Refd(old(fs.S()), fs.S(), 0, 0)
    ensures forall k: nat :: FileSameAt(old(fs.S()), fs.own, fs.S(), k)
    ensures (e == Ok || e == EIO) && (e == EIO ==> fs.faults > old(fs.faults))
    ensures e == Ok ==> !fs.freemapdirty
    ensures fs.faults == old(fs.faults) ==> e == Ok && Clean(fs.S())
    ensures e == Ok ==> (Clean(fs.S()) <==> fs.faults == old(fs.faults))
  {
    e := Ok;
    SyncVnodes(fs);
    ghost var s1 := fs.S();
    TreeQuiet(old(fs.S()), fs.own, s1, NOINO, 0);
    if fs.freemapdirty {
      e := WriteMap(fs);
      FlushedTree(s1, fs.own, fs.S());
      FlushedFiles(old(fs.S()), fs.own, s1, fs.S());
      RefdSynced(old(fs.S()), s1, fs.S());
      if e == Ok { fs.freemapdirty := false; }
    }
  }

  lemma FlushedFiles(s: State, own: Owner, s1: State, s2: State)
    requires Blocks(s1, own) && Quiet(s, own, s1) && Flushed(s1, s2)
    ensures forall k: nat :: FileSameAt(s, own, s2, k)
    ensures Clean(s1) <==> Clean(s2)
  {
    forall k: nat ensures FileSameAt(s, own, s2, k) {
      assert FileSameAt(s, own, s1, k);
      if Live(own, k) { FlushedFile(s1, own, s2, k); }
    }
    forall k: nat ensures CleanAt(s2, k) <==> CleanAt(s1, k) {}
  }

  /** sfs_unmount: refused while anything is loaded.  It asserts that the caller
      has synced, and then the disk is all there is. */
  method Unmount(fs: Sfs) returns (e: Err, dead: bool)
    requires fs.Valid()
    ensures e == EBUSY <==> fs.S().vn != map[]
    ensures e == Ok || e == EBUSY
    ensures dead <==> fs.S().vn == map[] && fs.freemapdirty
    ensures e == Ok && !dead ==> |fs.disk| > 0 && Image(fs.disk) == fs.S()
  {
    if |fs.vnodes| > 0 {
      TableAt(fs.vnodes, 0);
      return EBUSY, false;
    }
    if fs.freemapdirty { return Ok, true; }
    SyncedImage(fs);
    e, dead := Ok, false;
  }

  // sfs_domount

  /** The state a disk describes. */
  ghost function Image(disk: seq<Block>): State
    requires |disk| > 0
  {
    var n := SuperBlocks(disk[SB_LOCATION]);
    State(n, disk, B.Indices(DiskMap(n, disk), BitmapSize(n)), map[])
  }

  /** With the map on disk, the disk describes the volume as it would be mounted. */
  lemma SyncedImage(fs: Sfs)
    requires fs.Valid() && !fs.freemapdirty
    ensures |fs.disk| > 0 && Image(fs.disk) == Fresh(fs.S())
  {
    var v := fs.freemap.v[..];
    MapLength(v, fs.nblocks);
    MapRoundTrip(fs.nblocks, fs.disk, v);
  }

  /** One sector of the map, read into memory. */
  method ReadSector(map_: B.Bitmap, disk: seq<Block>, j: nat)
    requires (j + 1) * BLOCKSIZE <= map_.v.Length && MAP_LOCATION + j < |disk|
    requires forall i: nat :: i < j * BLOCKSIZE ==> MapByteIs(disk, map_.v[..], i)
    modifies map_.v
    ensures forall i: nat :: i < (j + 1) * BLOCKSIZE ==> MapByteIs(disk, map_.v[..], i)
  {
    var i := 0;
    while i < BLOCKSIZE
      invariant i <= BLOCKSIZE
      invariant forall x: nat :: x < j * BLOCKSIZE + i ==> MapByteIs(disk, map_.v[..], x)
    {
      ghost var before := map_.v[..];
      map_.v[j * BLOCKSIZE + i] := FromByte(disk[MAP_LOCATION + j][i]);
      SectorAt(j * BLOCKSIZE + i, j);
      forall x: nat | x < j * BLOCKSIZE + i + 1 ensures MapByteIs(disk, map_.v[..], x) {
        assert x < j * BLOCKSIZE + i ==> MapByteIs(disk, before, x);
      }
      i := i + 1;
    }
  }

  lemma MapReadAll(nblocks: nat, disk: seq<Block>, v: seq<bv8>)
    requires |v| == BitBlocks(nblocks) * BLOCKSIZE
    requires forall i: nat :: i < |v| ==> MapByteIs(disk, v, i)
    ensures v == DiskMap(nblocks, disk) && B.Padded(v, BitmapSize(nblocks)) && MapOnDisk(disk, v)
  {
    forall i: nat | i < |v| ensures v[i] == DiskMap(nblocks, disk)[i] { assert MapByteIs(disk, v, i); }
    forall i: nat ensures MapByteIs(disk, v, i) {}
  }

  ghost predicate FaultWithin(fault: nat -> bool, lo: nat, hi: nat) { exists i: nat :: lo <= i < hi && fault(i) }

  /** sfs_mapio, reading.  A sector past the end of the device is a panic. */
  method ReadMap(freemap: B.Bitmap, disk: seq<Block>, nblocks: nat, fault: nat -> bool, clock: nat) returns (e: Err, dead: bool)
    requires freemap.Valid() && freemap.nbits == BitmapSize(nblocks)
    modifies freemap.v
    ensures e == Ok && !dead ==>
      freemap.Valid() && freemap.v[..] == DiskMap(nblocks, disk) && MapOnDisk(disk, freemap.v[..])
    ensures e == Ok || (e == EIO && !dead && FaultWithin(fault, clock, clock + BitBlocks(nblocks)))
    ensures e == Ok ==> (dead <==> BitBlocks(nblocks) > 0 && MAP_LOCATION + BitBlocks(nblocks) > |disk|)
  {
    MapLength(freemap.v[..], nblocks);
    var mapsize := BitBlocks(nblocks);
    var j := 0;
    while j < mapsize
      invariant j <= mapsize && (j > 0 ==> MAP_LOCATION + j <= |disk|)
      invariant forall i: nat :: i < j * BLOCKSIZE ==> MapByteIs(disk, freemap.v[..], i)
    {
      if MAP_LOCATION + j >= |disk| { return Ok, true; }
      if fault(clock + j) { return EIO, false; }
      ReadSector(freemap, disk, j);
      j := j + 1;
    }
    MapReadAll(nblocks, disk, freemap.v[..]);
    e, dead := Ok, false;
  }

  const MAXVOLUME: nat := 0xffff_f000

  /** SFS_BITMAPSIZE as the machine computes it: from MAXVOLUME on it wraps around
      and the map is empty. */
  function MapBits(nblocks: nat): nat { (nblocks + BLOCKBITS - 1) % 0x1_0000_0000 / BLOCKBITS * BLOCKBITS }

  lemma MapBitsExact(nblocks: u32)
    ensures MapBits(nblocks) == if nblocks <= MAXVOLUME then BitmapSize(nblocks) else 0
  {
  }

  /** The free map of a mountable disk lies on it. */
  predicate MapFits(disk: seq<Block>)
    requires |disk| > 0
  {
    var n := MapBits(SuperBlocks(disk[SB_LOCATION])) / BLOCKBITS;
    n == 0 || MAP_LOCATION + n <= |disk|
  }

  predicate GoodMagic(disk: seq<Block>) { |disk| > 0 && SuperMagic(disk[SB_LOCATION]) == SFS_MAGIC }

  /** The superblock announces a volume whose map can be counted. */
  predicate Countable(disk: seq<Block>) { |disk| > 0 && SuperBlocks(disk[SB_LOCATION]) <= MAXVOLUME }

  lemma Mountable(fs: Sfs)
    requires fs.Valid()
    ensures GoodMagic(fs.disk) && Countable(fs.disk) && MapFits(fs.disk)
  {
    MapBitsExact(fs.nblocks);
  }

  /** sfs_domount.  `own` says who owns the blocks, if the disk is in order.  On a
      disk that ends before its superblock or its map the kernel dies. */
  method Mount(disk: seq<Block>, fault: nat -> bool, ghost own: Owner) returns (e: Err, r: B.Option<Sfs>, dead: bool)
    ensures r.Some? <==> e == Ok && !dead
    ensures r.Some? ==> fresh(r.value) && fresh(r.value.freemap) && fresh(r.value.freemap.v) && |disk| > 0
    ensures r.Some? ==> r.value.own == own && r.value.faults == 0 && !r.value.freemapdirty && r.value.fault == fault
    ensures r.Some? && Countable(disk) ==>
      && r.value.S() == Image(disk) && r.value.clock == 4 + BitBlocks(SuperBlocks(disk[SB_LOCATION]))
      && (Blocks(Image(disk), own) ==> r.value.Valid())
    ensures r.Some? && !Countable(disk) ==> r.value.freemap.nbits == 0
    ensures e == Ok || e == EINVAL || Faulty(e)
    ensures Faulty(e) ==> SomeFault(fault) && (Countable(disk) ==> FaultWithin(fault, 0, 4 + BitBlocks(SuperBlocks(disk[SB_LOCATION]))))
    ensures !Faulty(e) ==> (e == EINVAL <==> |disk| > 0 && !GoodMagic(disk))
    ensures !Faulty(e) ==> (dead <==> |disk| == 0 || (GoodMagic(disk) && !MapFits(disk)))
    ensures Faulty(e) ==> !dead
  {
    r, dead := B.None, false;
    if fault(0) || fault(1) { return ENOMEM, r, false; }
    if |disk| == 0 { return Ok, r, true; }
    if fault(2) { return EIO, r, false; }
    var super := disk[SB_LOCATION];
    if SuperMagic(super) != SFS_MAGIC { return EINVAL, r, false; }
    var nblocks := SuperBlocks(super);
    if fault(3) { return ENOMEM, r, false; }
    MapBitsExact(nblocks);
    var freemap := new B.Bitmap(MapBits(nblocks));
    e := Ok;
    if nblocks <= MAXVOLUME {
      e, dead := ReadMap(freemap, disk, nblocks, fault, 4);
      if e != Ok || dead { return; }
    }
    var fs := new Sfs(nblocks, disk, freemap, fault, 4 + MapBits(nblocks) / BLOCKBITS, own);
    assert Table(fs.vnodes) == map[];
    r := B.Some(fs);
  }
}
