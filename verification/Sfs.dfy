/** The SFS file system: a mounted volume and the operations on blocks, files
    and vnodes.  The class holds the disk, the free map and the vnode table and
    updates them in place; its ghost field `own` says which slot owns which
    block. */
module Sfs {
  import opened SfsLayout
  import opened SfsState
  import opened SfsTable
  import opened SfsFile
  import opened SfsTruncate
  import opened SfsCache
  import opened SfsView
  import opened SfsImage
  import B = Bitmap
  import U = Uio

  datatype Err = Ok | EIO | ENOMEM | ENOSPC | EINVAL | ENOENT | EEXIST | ENAMETOOLONG | EBUSY | EISDIR

  predicate Faulty(e: Err) { e == EIO || e == ENOMEM }

  /** EIO and ENOMEM are reported exactly on a fault. */
  predicate Counted(before: nat, after: nat, e: Err) {
    after >= before && (Faulty(e) <==> after > before)
  }

  /** Some request fails. */
  ghost predicate SomeFault(fault: nat -> bool) { exists i: nat :: fault(i) }

  /** struct sfs_fs.  A vnode is named by its inode number.  `fault` decides,
      call by call, which device and memory requests fail. */
  class Sfs {
    const nblocks: nat
    const freemap: B.Bitmap
    const fault: nat -> bool
    const zeros: Block      // what clears a block
    var disk: seq<Block>
    var freemapdirty: bool
    var vnodes: seq<Vnode>
    var clock: nat

    ghost var own: Owner    // who owns each block
    ghost var faults: nat   // failed requests so far

    ghost function S(): State
      reads this, freemap.v
    {
      State(nblocks, disk, freemap.Marked(), Table(vnodes))
    }

    /** Blocks marked in use that belong to nobody. */
    ghost function Leaks(): set<nat>
      reads this, freemap.v
    {
      Leaked(S(), own)
    }

    /** How many there are. */
    ghost function Leakage(): nat
      reads this, freemap.v
    {
      SfsState.Leakage(S(), own)
    }

    /** Faults come from failing requests only. */
    ghost predicate Honest()
      reads this
    {
      faults > 0 ==> SomeFault(fault)
    }

    /** The table holds an inode once, and a clean free map is the one on disk. */
    ghost predicate Shape()
      reads this, freemap.v
    {
      && freemap.Valid() && freemap.nbits == BitmapSize(nblocks)
      && nblocks <= 0xffff_f000 && AllZero(zeros)
      && Unique(vnodes) && Honest()
      && Header(nblocks, disk)
      && (!freemapdirty ==> MapOnDisk(disk, freemap.v[..]))
    }

    ghost predicate Valid()
      reads this, freemap.v
    {
      Shape() && Blocks(S(), own)
    }

    /** A data block was written. */
    lemma ShapeKept(before: seq<Block>, b: nat, data: Block)
      requires freemap.Valid() && freemap.nbits == BitmapSize(nblocks)
      requires b < |before| && DataBlock(nblocks, b) && disk == before[b := data]
      ensures Header(nblocks, disk) <==> Header(nblocks, before)
      ensures MapOnDisk(disk, freemap.v[..]) <==> MapOnDisk(before, freemap.v[..])
    {
      MapLength(freemap.v[..], nblocks);
      DataWriteKeeps(nblocks, before, b, data, freemap.v[..]);
    }

    ghost predicate Loaded(k: nat)
      reads this
    {
      k in Table(vnodes)
    }

    /** The fields as sfs_domount leaves them. */
    constructor (nblocks: nat, disk: seq<Block>, freemap: B.Bitmap, fault: nat -> bool, clock: nat, ghost own: Owner)
      ensures this.nblocks == nblocks && this.disk == disk && this.freemap == freemap && this.fault == fault
      ensures this.own == own && vnodes == [] && !freemapdirty && faults == 0 && AllZero(zeros) && this.clock == clock
    {
      this.nblocks, this.disk, this.freemap, this.fault, zeros := nblocks, disk, freemap, fault, Zeros();
      freemapdirty, vnodes, this.clock, this.own, faults := false, [], clock, own, 0;
    }

    // Device

    method Attempt() returns (ok: bool)
      requires Honest()
      modifies this`clock, this`faults
      ensures Honest() && faults == old(faults) + if ok then 0 else 1
      ensures clock == old(clock) + 1 && ok == !fault(old(clock))
    {
      ok := !fault(clock);
      clock := clock + 1;
      faults := faults + if ok then 0 else 1;
    }

    /** sfs_rblock */
    method RBlock(b: nat) returns (e: Err, data: Block)
      requires b < |disk| && Honest()
      modifies this`clock, this`faults
      ensures Honest() && clock == old(clock) + 1 && (e == Ok <==> !fault(old(clock)))
      ensures e == Ok ==> data == disk[b] && faults == old(faults)
      ensures e != Ok ==> e == EIO && faults > old(faults)
    {
      var ok := Attempt();
      if ok { return Ok, disk[b]; }
      return EIO, zeros;
    }

    /** sfs_wblock */
    method WBlock(data: Block, b: nat) returns (e: Err)
      requires b < |disk| && Honest()
      modifies this`clock, this`faults, this`disk
      ensures Honest() && clock == old(clock) + 1 && (e == Ok <==> !fault(old(clock)))
      ensures e == Ok ==> disk == old(disk)[b := data] && faults == old(faults)
      ensures e != Ok ==> e == EIO && disk == old(disk) && faults > old(faults)
    {
      var ok := Attempt();
      if ok {
        disk := disk[b := data];
        return Ok;
      }
      return EIO;
    }

    // Space allocation

    /** sfs_balloc: the panic on an invalid block number is unreachable. */
    method Balloc() returns (e: Err, b: nat)
      requires Valid()
      modifies this`clock, this`faults, this`disk, this`freemapdirty, freemap.v
      ensures Valid() && Extends(old(S()), old(own), S(), own)
      ensures e == Ok ==>
        && b !in old(S()).used && b < |disk| && S() == Alloc(old(S()), b, zeros)
        && b in Leaks() && Leakage() == old(Leakage()) + 1 && faults == old(faults)
      ensures e == ENOSPC ==> S() == old(S()) && faults == old(faults)
      ensures e == ENOSPC ==> Full()
      ensures e != Ok && e != ENOSPC ==> e == EIO && faults > old(faults)
    {
      var r := freemap.Alloc();
      if r.None? {
        BitmapCovers(nblocks);
        return ENOSPC, 0;
      }
      freemapdirty := true;
      b := r.value;
      ghost var s0 := old(S());
      AllocOk(s0, own, b, zeros);
      e := WBlock(zeros, b);
      if e != Ok {
        MarkOk(s0, own, b);
        return;
      }
      ShapeKept(old(disk), b, zeros);
      Allocated(s0, own, S(), b, zeros);
    }

    // Vnode fields

    function Get(k: nat): (v: Vnode)
      requires Loaded(k)
      reads this
      ensures v == Table(vnodes)[k]
    {
      vnodes[IndexOf(vnodes, k)]
    }

    /** Assign to sv_i and set sv_dirty. */
    method SetInode(k: nat, i: Inode)
      requires Unique(vnodes) && Loaded(k)
      modifies this`vnodes
      ensures Unique(vnodes) && S() == SetNode(old(S()), k, i)
    {
      var x := IndexOf(vnodes, k);
      var v := vnodes[x];
      TableUpdate(vnodes, x, Vnode(v.ino, i, true, v.ref));
      vnodes := vnodes[x := Vnode(v.ino, i, true, v.ref)];
    }

    // Block mapping

    /** No block is to be had. */
    ghost predicate Full()
      reads this, freemap.v
    {
      Free(S()) == {}
    }

    /** Blocks may have been added to files since (s, own); no file reads differently. */
    ghost predicate Grew(s: State, own0: Owner)
      reads this, freemap.v
    {
      Valid() && Extends(s, own0, S(), own)
    }

    /** A cleared block nobody owned has become slot t of k. */
    ghost predicate Attached(s: State, own0: Owner, k: nat, t: nat, db: nat)
      reads this, freemap.v
    {
      Grew(s, own0) && Slot(S(), k, t) == db
    }

    method AttachDirect(k: nat, fb: nat, db: nat)
      requires Valid() && Loaded(k) && fb < NDIRECT && Slot(S(), k, fb) == 0
      requires db in Leaks() && db < nblocks && AllZero(Disk(S(), db))
      modifies this`vnodes, this`own
      ensures Attached(old(S()), old(own), k, fb, db) && Leakage() == old(Leakage()) - 1
      ensures Grows(old(own), own, k, {fb})
    {
      var i := Get(k).inode;
      GrowDirect(S(), own, k, fb, db);
      SetInode(k, i.(direct := i.direct[fb := db]));
      GrownExtends(old(S()), own, S(), k, fb, db);
      own := own[db := (k, fb)];
      LeakOneLess(old(S()), old(own), S(), own, db);
    }

    /** sfs_bused: the range panic is unreachable. */
    method Bused(b: nat) returns (r: bool)
      requires Valid() && b < nblocks
      ensures r == (b in S().used)
    {
      BitmapCovers(nblocks);
      r := freemap.IsSet(b);
    }

    /** sfs_balloc on behalf of a loaded inode. */
    method BallocFor(k: nat) returns (e: Err, b: nat)
      requires Valid() && Loaded(k)
      modifies this`clock, this`faults, this`disk, this`freemapdirty, freemap.v
      ensures Valid() && Extends(old(S()), old(own), S(), own)
      ensures e == Ok ==>
        && SameFile(old(S()), S(), k) && AllZero(Disk(S(), b)) && 0 < b < nblocks
        && b in Leaks() && Leakage() == old(Leakage()) + 1 && faults == old(faults)
      ensures e == ENOSPC ==> S() == old(S()) && faults == old(faults)
      ensures e == ENOSPC ==> Full()
      ensures e != Ok && e != ENOSPC ==> e == EIO && faults > old(faults)
    {
      e, b := Balloc();
      if e == Ok {
        AllocSlots(old(S()), own, b, zeros, k);
        AllocOk(old(S()), own, b, zeros);
      }
    }

    method BmapDirect(k: nat, fb: nat, doalloc: bool) returns (e: Err, db: nat)
      requires Valid() && Loaded(k) && fb < NDIRECT
      modifies this, freemap.v
      ensures Grew(old(S()), old(own)) && Counted(old(faults), faults, e) && (e == Ok || e == EIO || e == ENOSPC)
      ensures faults == old(faults) ==> Leakage() == old(Leakage())
      ensures e == Ok ==> db == Slot(S(), k, fb) && (doalloc ==> db != 0)
      ensures !doalloc ==> Untouched(old(S()), old(own), S(), own) && e != ENOSPC
      ensures e == ENOSPC ==> Slot(S(), k, fb) == 0 && Full()
      ensures Grows(old(own), own, k, {fb})
    {
      e, db := Ok, Get(k).inode.direct[fb];
      if db == 0 && doalloc {
        e, db := BallocFor(k);
        if e != Ok { return; }
        ghost var s1 := S();
        AttachDirect(k, fb, db);
        ExtendsTrans(old(S()), old(own), s1, old(own), S(), own);
      }
    }

    method AttachIndirect(k: nat, db: nat)
      requires Valid() && Loaded(k) && Slot(S(), k, IND) == 0
      requires db in Leaks() && db < nblocks && AllZero(Disk(S(), db))
      modifies this`vnodes, this`own
      ensures Attached(old(S()), old(own), k, IND, db) && Leakage() == old(Leakage()) - 1
      ensures Grows(old(own), own, k, {IND})
    {
      var i := Get(k).inode;
      GrowIndirect(S(), own, k, db);
      SetInode(k, i.(indirect := db));
      GrownExtends(old(S()), own, S(), k, IND, db);
      own := own[db := (k, IND)];
      LeakOneLess(old(S()), old(own), S(), own, db);
    }

    /** The first half of the indirect case: the indirect block and its entries. */
    method LoadIndirect(k: nat, doalloc: bool) returns (e: Err, idblock: nat, idbuf: Words)
      requires Valid() && Loaded(k)
      modifies this, freemap.v
      ensures Grew(old(S()), old(own)) && Counted(old(faults), faults, e) && (e == Ok || e == EIO || e == ENOSPC)
      ensures faults == old(faults) ==> Leakage() == old(Leakage())
      ensures e == Ok ==> idblock == Slot(S(), k, IND) && idbuf == Entries(S(), idblock)
      ensures e == Ok && doalloc ==> idblock != 0
      ensures !doalloc ==> Untouched(old(S()), old(own), S(), own) && e != ENOSPC
      ensures e == ENOSPC ==> Slot(S(), k, IND) == 0 && Full()
      ensures Grows(old(own), own, k, {IND})
    {
      idbuf := seq(DBPERIDB, _ => 0);
      idblock := Get(k).inode.indirect;
      e := Ok;
      if idblock == 0 && doalloc {
        e, idblock := NewIndirect(k);
        if e == Ok { BlankEntries(S(), idblock); }
      } else if idblock != 0 {
        LoadedLive(S(), own, k);
        SlotOwned(S(), own, k, IND);
        var data;
        e, data := RBlock(idblock);
        idbuf := WordsOf(data);
      }
    }

    /** A new indirect block. */
    method NewIndirect(k: nat) returns (e: Err, idblock: nat)
      requires Valid() && Loaded(k) && Slot(S(), k, IND) == 0
      modifies this, freemap.v
      ensures Grew(old(S()), old(own)) && Counted(old(faults), faults, e) && (e == Ok || e == EIO || e == ENOSPC)
      ensures faults == old(faults) ==> Leakage() == old(Leakage())
      ensures e == Ok ==> idblock == Slot(S(), k, IND) != 0 && AllZero(Disk(S(), idblock))
      ensures e == ENOSPC ==> Slot(S(), k, IND) == 0 && Full()
      ensures Grows(old(own), own, k, {IND})
    {
      e, idblock := BallocFor(k);
      if e != Ok { return; }
      ghost var s1 := S();
      AttachIndirect(k, idblock);
      ExtendsTrans(old(S()), old(own), s1, old(own), S(), own);
    }

    method AttachEntry(k: nat, j: nat, db: nat, idblock: nat, idbuf: Words) returns (e: Err)
      requires Valid() && Loaded(k) && j < DBPERIDB && Slot(S(), k, NDIRECT + j) == 0
      requires idblock == Slot(S(), k, IND) != 0 && idbuf == Entries(S(), idblock)
      requires db in Leaks() && db < nblocks && AllZero(Disk(S(), db))
      modifies this`clock, this`faults, this`disk, this`own
      ensures e == Ok ==>
        Attached(old(S()), old(own), k, NDIRECT + j, db) && Leakage() == old(Leakage()) - 1 && faults == old(faults)
      ensures e != Ok ==> e == EIO && Valid() && S() == old(S()) && own == old(own) && faults > old(faults)
      ensures Grows(old(own), own, k, {NDIRECT + j})
    {
      ghost var s0 := S();
      LoadedLive(s0, own, k);
      SlotOwned(s0, own, k, IND);
      e := WBlock(BytesOf(idbuf[j := db]), idblock);
      if e != Ok {
        assert S() == s0;
        return;
      }
      ShapeKept(old(disk), idblock, BytesOf(idbuf[j := db]));
      EntryAttached(s0, own, S(), k, j, db);
      own := own[db := (k, NDIRECT + j)];
    }

    /** The second half: the entry, allocated and recorded if missing. */
    method MapEntry(k: nat, j: nat, doalloc: bool, idblock: nat, idbuf: Words) returns (e: Err, db: nat)
      requires Valid() && Loaded(k) && j < DBPERIDB
      requires idblock == Slot(S(), k, IND) && idbuf == Entries(S(), idblock) && (doalloc ==> idblock != 0)
      modifies this, freemap.v
      ensures Grew(old(S()), old(own)) && Counted(old(faults), faults, e) && (e == Ok || e == EIO || e == ENOSPC)
      ensures faults == old(faults) ==> Leakage() == old(Leakage())
      ensures e == Ok ==> db == Slot(S(), k, NDIRECT + j) && (doalloc ==> db != 0)
      ensures !doalloc ==> Untouched(old(S()), old(own), S(), own) && e != ENOSPC
      ensures e == ENOSPC ==> Slot(S(), k, NDIRECT + j) == 0 && Full()
      ensures Grows(old(own), own, k, {NDIRECT + j})
    {
      e, db := Ok, idbuf[j];
      if db == 0 && doalloc {
        e, db := NewEntry(k, j, idblock, idbuf);
      }
    }

    /** A new block recorded in the indirect block. */
    method NewEntry(k: nat, j: nat, idblock: nat, idbuf: Words) returns (e: Err, db: nat)
      requires Valid() && Loaded(k) && j < DBPERIDB && Slot(S(), k, NDIRECT + j) == 0
      requires idblock == Slot(S(), k, IND) != 0 && idbuf == Entries(S(), idblock)
      modifies this, freemap.v
      ensures Grew(old(S()), old(own)) && Counted(old(faults), faults, e) && (e == Ok || e == EIO || e == ENOSPC)
      ensures faults == old(faults) ==> Leakage() == old(Leakage())
      ensures e == Ok ==> db == Slot(S(), k, NDIRECT + j) != 0
      ensures e == ENOSPC ==> Slot(S(), k, NDIRECT + j) == 0 && Full()
      ensures Grows(old(own), own, k, {NDIRECT + j})
    {
      e, db := BallocFor(k);
      if e != Ok { return; }
      ghost var s1 := S();
      SameEntries(old(S()), s1, old(own), k);
      e := AttachEntry(k, j, db, idblock, idbuf);
      if e != Ok { return; }
      ExtendsTrans(old(S()), old(own), s1, old(own), S(), own);
    }

    method BmapIndirect(k: nat, fb: nat, doalloc: bool) returns (e: Err, db: nat)
      requires Valid() && Loaded(k) && NDIRECT <= fb < MAXBLOCKS
      modifies this, freemap.v
      ensures Grew(old(S()), old(own)) && Counted(old(faults), faults, e) && (e == Ok || e == EIO || e == ENOSPC)
      ensures faults == old(faults) ==> Leakage() == old(Leakage())
      ensures e == Ok ==> db == Slot(S(), k, fb) && (doalloc ==> db != 0)
      ensures !doalloc ==> Untouched(old(S()), old(own), S(), own) && e != ENOSPC
      ensures e == ENOSPC ==> Slot(S(), k, fb) == 0 && Full()
      ensures Grows(old(own), own, k, {fb, IND})
    {
      var idblock, idbuf;
      e, idblock, idbuf := LoadIndirect(k, doalloc);
      if e != Ok {
        if e == ENOSPC { ZeroEntries(S(), 0, fb - NDIRECT); }
        return e, 0;
      }
      e, db := MapThrough(k, fb, doalloc, idblock, idbuf, old(S()), old(own));
    }

    /** The second half of a mapping begun at (s0, own0). */
    method MapThrough(k: nat, fb: nat, doalloc: bool, idblock: nat, idbuf: Words, ghost s0: State, ghost own0: Owner)
      returns (e: Err, db: nat)
      requires Grew(s0, own0) && Loaded(k) && NDIRECT <= fb < MAXBLOCKS && Grows(own0, own, k, {IND})
      requires idblock == Slot(S(), k, IND) && idbuf == Entries(S(), idblock) && (doalloc ==> idblock != 0)
      modifies this, freemap.v
      ensures Grew(s0, own0) && Counted(old(faults), faults, e) && (e == Ok || e == EIO || e == ENOSPC)
      ensures faults == old(faults) ==> Leakage() == old(Leakage())
      ensures e == Ok ==> db == Slot(S(), k, fb) && (doalloc ==> db != 0)
      ensures !doalloc ==> Untouched(old(S()), old(own), S(), own) && e != ENOSPC
      ensures e == ENOSPC ==> Slot(S(), k, fb) == 0 && Full()
      ensures Grows(own0, own, k, {fb, IND})
    {
      ghost var s1, own1 := S(), own;
      e, db := MapEntry(k, fb - NDIRECT, doalloc, idblock, idbuf);
      ExtendsTrans(s0, own0, s1, own1, S(), own);
      GrowsTwo(own0, own1, own, k, fb);
    }

    /** sfs_bmap: the disk block of block fb of file k, 0 for a hole; with doalloc
        a missing block is allocated.  The marked-free panics are unreachable. */
    method Bmap(k: nat, fb: nat, doalloc: bool) returns (e: Err, db: nat)
      requires Valid() && Loaded(k)
      modifies this, freemap.v
      ensures Grew(old(S()), old(own)) && Counted(old(faults), faults, e) && (e == EINVAL <==> fb >= MAXBLOCKS)
        && (e == Ok || e == EIO || e == ENOSPC || e == EINVAL)
      ensures faults == old(faults) ==> Leakage() == old(Leakage())
      ensures e == Ok ==> db == Slot(S(), k, fb) && (doalloc ==> db != 0)
      ensures !doalloc ==> Untouched(old(S()), old(own), S(), own) && e != ENOSPC
      ensures e == ENOSPC ==> Slot(S(), k, fb) == 0 && Full()
      ensures Grows(old(own), own, k, Path(fb))
    {
      if fb < NDIRECT {
        e, db := BmapDirect(k, fb, doalloc);
      } else if (fb - NDIRECT) / DBPERIDB > 0 {
        return EINVAL, 0;
      } else {
        e, db := BmapIndirect(k, fb, doalloc);
      }
      if e == Ok && db != 0 {
        LoadedLive(S(), own, k);
        SlotOwned(S(), own, k, fb);
        var used := Bused(db);
        assert used;
      }
    }

    // File I/O

    ghost function Now(uio: U.Uio): Point
      reads this, freemap.v, uio
    {
      Point(S(), own, faults, Leakage(), uio.data, uio.base, uio.offset, uio.iovlen, uio.resid)
    }

    /** Only a write can run out of space, at a hole; EINVAL is for blocks a file cannot have. */
    ghost predicate IoResult(e: Err, k: nat, uio: U.Uio)
      reads this, freemap.v, uio
    {
      && (e == Ok || e == EIO || e == ENOSPC || e == EINVAL)
      && (e == ENOSPC ==>
            uio.rw.Write? && uio.offset / BLOCKSIZE < MAXBLOCKS && Slot(S(), k, uio.offset / BLOCKSIZE) == 0 && Full())
      && (e == EINVAL ==> uio.offset >= MAXBLOCKS * BLOCKSIZE)
    }

    /** Read the block mapped at fb, a hole as zeros. */
    method FetchBlock(k: nat, fb: nat, db: nat) returns (e: Err, data: Block)
      requires Valid() && Loaded(k) && fb < MAXBLOCKS && db == Slot(S(), k, fb)
      modifies this`clock, this`faults
      ensures Honest() && (db != 0 ==> clock == old(clock) + 1 && (e == Ok <==> !fault(old(clock))))
      ensures e == Ok ==> data == FBlock(S(), k, fb) && faults == old(faults)
      ensures e != Ok ==> e == EIO && faults > old(faults)
    {
      if db == 0 { return Ok, Zeros(); }
      LoadedLive(S(), own, k);
      SlotOwned(S(), own, k, fb);
      e, data := RBlock(db);
    }

    /** The tail of a partial write: put the modified buffer back. */
    method StorePart(k: nat, fb: nat, db: nat, skip: nat, iobuf: Block, ghost off: nat, ghost bytes: seq<byte>, ghost total: nat,
                     ghost s0: State, ghost own0: Owner)
      returns (e: Err)
      requires Valid() && Loaded(k) && fb < MAXBLOCKS && db == Slot(S(), k, fb) != 0
      requires Extends(s0, own0, S(), own) && Live(own0, k)
      requires skip + |bytes| <= BLOCKSIZE && iobuf == U.Splice(FBlock(S(), k, fb), skip, bytes)
      requires off == fb * BLOCKSIZE + skip
      modifies this`clock, this`faults, this`disk
      ensures Valid() && Leakage() == old(Leakage())
      ensures HasWritten(s0, own0, S(), own, k, off, bytes, total, e == Ok, |bytes|)
      ensures if e == Ok then faults == old(faults) else e == EIO && faults > old(faults)
      ensures (e == Ok <==> !fault(old(clock))) && (e != Ok ==> S() == old(S()))
    {
      LoadedLive(S(), own, k);
      SlotOwned(S(), own, k, fb);
      HasWrittenNothing(s0, own0, S(), own, k, off, bytes, total, false, |bytes|);
      e := WBlock(iobuf, db);
      if e == Ok {
        ShapeKept(old(disk), db, iobuf);
        HasWrittenBlock(s0, own0, old(S()), S(), own, k, fb, skip, bytes, total, |bytes|);
      }
    }

    /** sfs_partialio on a mapped block, reading. */
    method ReadPart(k: nat, uio: U.Uio, fb: nat, db: nat, skip: nat, len: nat) returns (e: Err)
      requires Valid() && Loaded(k) && fb < MAXBLOCKS && db == Slot(S(), k, fb)
      requires uio.Valid() && uio.rw.Read? && uio.offset == fb * BLOCKSIZE + skip
      requires skip + len <= BLOCKSIZE && len <= uio.resid
      modifies this`clock, this`faults, uio
      ensures Honest() && U.Advanced(old(uio.At()), uio.At(), if e == Ok then len else 0)
      ensures HasRead(S(), k, old(uio.offset), if e == Ok then len else 0, old(uio.data), old(uio.base), uio.data)
      ensures if e == Ok then faults == old(faults) else e == EIO && faults > old(faults)
    {
      var iobuf;
      e, iobuf := FetchBlock(k, fb, db);
      if e != Ok {
        HasReadNothing(S(), k, uio.offset, uio.data, uio.base);
        return;
      }
      ghost var s := S();
      HasReadBlock(s, k, fb, skip, len, uio.data, uio.base);
      uio.Drain(iobuf, skip, len);
      assert S() == s;
    }

    /** sfs_partialio on a mapped block, writing.  When only the write-back fails
        the bytes have been counted and nothing is stored. */
    method WritePart(k: nat, uio: U.Uio, fb: nat, db: nat, skip: nat, len: nat, ghost s0: State, ghost own0: Owner)
      returns (e: Err)
      requires Valid() && Loaded(k) && fb < MAXBLOCKS && db == Slot(S(), k, fb) != 0
      requires Extends(s0, own0, S(), own) && Live(own0, k)
      requires uio.Valid() && uio.rw.Write? && uio.offset == fb * BLOCKSIZE + skip
      requires skip + len <= BLOCKSIZE && len <= uio.resid
      modifies this`clock, this`faults, this`disk, uio
      ensures Valid() && Leakage() == old(Leakage())
      ensures uio.offset >= old(uio.offset) && U.Advanced(old(uio.At()), uio.At(), uio.offset - old(uio.offset))
        && uio.data == old(uio.data)
      ensures HasWritten(s0, own0, S(), own, k, old(uio.offset), uio.data[old(uio.base)..uio.base], old(uio.resid), e == Ok, len)
      ensures if e == Ok then faults == old(faults) && U.Advanced(old(uio.At()), uio.At(), len)
        else e == EIO && faults > old(faults)
      ensures uio.offset == old(uio.offset) + if fault(old(clock)) then 0 else len
      ensures (e == Ok <==> !fault(old(clock)) && !fault(old(clock) + 1)) && (e != Ok ==> S() == old(S()))
    {
      var iobuf;
      e, iobuf := FetchBlock(k, fb, db);
      if e != Ok {
        HasWrittenNothing(s0, own0, S(), own, k, uio.offset, [], uio.resid, false, len);
        assert uio.data[uio.base..uio.base] == [];
        return;
      }
      iobuf := uio.Fill(iobuf, skip, len);
      e := StorePart(k, fb, db, skip, iobuf, old(uio.offset), uio.data[old(uio.base)..uio.base], old(uio.resid), s0, own0);
    }

    /** sfs_partialio */
    method PartialIO(k: nat, uio: U.Uio, skip: nat, len: nat) returns (e: Err)
      requires Valid() && Loaded(k) && uio.Valid()
      requires skip == uio.offset % BLOCKSIZE && skip + len <= BLOCKSIZE && len <= uio.resid
      modifies this, freemap.v, uio
      ensures Valid() && uio.Valid() && Moved(old(Now(uio)), Now(uio), k, uio.rw, len)
        && Counted(old(faults), faults, e)
      ensures faults == old(faults) ==> Leakage() == old(Leakage())
      ensures IoResult(e, k, uio) && (e == EINVAL || e == ENOSPC ==> uio.offset == old(uio.offset))
      ensures uio.offset == old(uio.offset) + len || (e != Ok && uio.offset == old(uio.offset))
      ensures Grows(old(own), own, k, Path(old(uio.offset) / BLOCKSIZE))
    {
      LoadedLive(S(), own, k);
      var fb, db := uio.offset / BLOCKSIZE, 0;
      e, db := Bmap(k, fb, uio.rw.Write?);
      if e != Ok {
        MovedNothing(old(Now(uio)), Now(uio), k, uio.rw, len);
      } else if uio.rw.Write? {
        e := WritePart(k, uio, fb, db, skip, len, old(S()), old(own));
      } else {
        e := ReadPart(k, uio, fb, db, skip, len);
      }
    }

    /** sfs_rwblock: one sector straight between the device and the request. */
    method RwBlock(uio: U.Uio) returns (e: Err)
      requires uio.Valid() && uio.offset % BLOCKSIZE == 0 && uio.offset / BLOCKSIZE < |disk| && uio.resid == BLOCKSIZE
      requires Honest()
      modifies this`clock, this`faults, this`disk, uio
      ensures Honest()
      ensures if e == Ok then faults == old(faults) else e == EIO && faults > old(faults)
      ensures U.Advanced(old(uio.At()), uio.At(), if e == Ok then BLOCKSIZE else 0)
      ensures e != Ok ==> disk == old(disk) && uio.data == old(uio.data)
      ensures e == Ok && uio.rw.Read? ==>
        disk == old(disk) && uio.data == U.Splice(old(uio.data), old(uio.base), disk[old(uio.offset) / BLOCKSIZE])
      ensures e == Ok && uio.rw.Write? ==>
        uio.data == old(uio.data) && disk == old(disk)[old(uio.offset) / BLOCKSIZE := uio.data[old(uio.base)..uio.base]]
    {
      var ok := Attempt();
      if !ok { return EIO; }
      var b := uio.offset / BLOCKSIZE;
      var sector := uio.MoveWithin(disk[b], BLOCKSIZE);
      assert disk[b][..BLOCKSIZE] == disk[b];
      if uio.rw.Write? {
        assert sector == uio.data[old(uio.base)..uio.base];
        disk := disk[b := sector];
      }
      e := Ok;
    }

    /** Point the request at a disk block, do the sector, and restore offset and resid. */
    method DirectIO(uio: U.Uio, db: nat) returns (e: Err)
      requires uio.Valid() && db < |disk| && uio.resid >= BLOCKSIZE && Honest()
      modifies this`clock, this`faults, this`disk, uio
      ensures Honest()
      ensures if e == Ok then faults == old(faults) else e == EIO && faults > old(faults)
      ensures U.Advanced(old(uio.At()), uio.At(), if e == Ok then BLOCKSIZE else 0)
      ensures e != Ok ==> disk == old(disk) && uio.data == old(uio.data)
      ensures e == Ok && uio.rw.Read? ==>
        disk == old(disk) && uio.data == U.Splice(old(uio.data), old(uio.base), disk[db])
      ensures e == Ok && uio.rw.Write? ==>
        uio.data == old(uio.data) && disk == old(disk)[db := uio.data[old(uio.base)..uio.base]]
    {
      var saveoff, diskoff := uio.offset, db * BLOCKSIZE;
      var saveres, diskres := uio.resid, BLOCKSIZE;
      uio.offset, uio.resid := diskoff, diskres;
      e := RwBlock(uio);
      uio.offset := (uio.offset - diskoff) + saveoff;
      uio.resid := (uio.resid - diskres) + saveres;
    }

    method ReadWhole(k: nat, uio: U.Uio, fb: nat, db: nat) returns (e: Err)
      requires Valid() && Loaded(k) && fb < MAXBLOCKS && db == Slot(S(), k, fb)
      requires uio.Valid() && uio.rw.Read? && uio.offset == fb * BLOCKSIZE && uio.resid >= BLOCKSIZE
      modifies this`clock, this`faults, this`disk, uio
      ensures disk == old(disk) && Honest()
      ensures U.Advanced(old(uio.At()), uio.At(), if e == Ok then BLOCKSIZE else 0)
      ensures HasRead(S(), k, old(uio.offset), if e == Ok then BLOCKSIZE else 0, old(uio.data), old(uio.base), uio.data)
      ensures if e == Ok then faults == old(faults) else e == EIO && faults > old(faults)
    {
      if db == 0 {
        ReadHole(k, uio, fb);
        return Ok;
      }
      ghost var s := S();
      LoadedLive(s, own, k);
      SlotOwned(s, own, k, fb);
      e := DirectIO(uio, db);
      assert S() == s;
      if e != Ok {
        HasReadNothing(s, k, uio.offset, uio.data, uio.base);
        return;
      }
      HasReadWhole(s, k, fb, old(uio.data), old(uio.base));
    }

    /** A block that was never written. */
    method ReadHole(k: nat, uio: U.Uio, fb: nat)
      requires Valid() && fb < MAXBLOCKS && Slot(S(), k, fb) == 0
      requires uio.Valid() && uio.rw.Read? && uio.offset == fb * BLOCKSIZE && uio.resid >= BLOCKSIZE
      modifies uio
      ensures U.Advanced(old(uio.At()), uio.At(), BLOCKSIZE)
      ensures HasRead(S(), k, old(uio.offset), BLOCKSIZE, old(uio.data), old(uio.base), uio.data)
    {
      ghost var s := S();
      HasReadWhole(s, k, fb, uio.data, uio.base);
      ZeroBlock();
      var dead := uio.MoveZeros(BLOCKSIZE);
      assert !dead;
      assert S() == s;
    }

    method WriteWhole(k: nat, uio: U.Uio, fb: nat, db: nat, ghost s0: State, ghost own0: Owner) returns (e: Err)
      requires Valid() && Loaded(k) && fb < MAXBLOCKS && db == Slot(S(), k, fb) != 0
      requires Extends(s0, own0, S(), own) && Live(own0, k)
      requires uio.Valid() && uio.rw.Write? && uio.offset == fb * BLOCKSIZE && uio.resid >= BLOCKSIZE
      modifies this`clock, this`faults, this`disk, uio
      ensures Valid() && Leakage() == old(Leakage())
      ensures U.Advanced(old(uio.At()), uio.At(), if e == Ok then BLOCKSIZE else 0) && uio.data == old(uio.data)
      ensures HasWritten(s0, own0, S(), own, k, old(uio.offset), uio.data[old(uio.base)..uio.base], old(uio.resid), e == Ok, 0)
      ensures if e == Ok then faults == old(faults) else e == EIO && faults > old(faults)
    {
      ghost var bytes := uio.data[uio.base..uio.base + BLOCKSIZE];
      ghost var s1 := S();
      LoadedLive(s1, own, k);
      SlotOwned(s1, own, k, fb);
      e := DirectIO(uio, db);
      if e != Ok {
        assert S() == s1;
        HasWrittenNothing(s0, own0, s1, own, k, uio.offset, [], uio.resid, false, 0);
        assert uio.data[uio.base..uio.base] == [];
        return;
      }
      assert bytes == uio.data[old(uio.base)..uio.base];
      ShapeKept(old(disk), db, bytes);
      HasWrittenWhole(s0, own0, s1, S(), own, k, fb, bytes, old(uio.resid));
    }

    /** sfs_blockio */
    method BlockIO(k: nat, uio: U.Uio) returns (e: Err)
      requires Valid() && Loaded(k) && uio.Valid()
      requires uio.offset % BLOCKSIZE == 0 && uio.resid >= BLOCKSIZE
      modifies this, freemap.v, uio
      ensures Valid() && uio.Valid() && Moved(old(Now(uio)), Now(uio), k, uio.rw, 0) && Counted(old(faults), faults, e)
      ensures faults == old(faults) ==> Leakage() == old(Leakage())
      ensures IoResult(e, k, uio)
      ensures uio.offset == old(uio.offset) + if e == Ok then BLOCKSIZE else 0
      ensures Grows(old(own), own, k, Path(old(uio.offset) / BLOCKSIZE))
    {
      LoadedLive(S(), own, k);
      var fb, db := uio.offset / BLOCKSIZE, 0;
      e, db := Bmap(k, fb, uio.rw.Write?);
      if e != Ok {
        MovedNothing(old(Now(uio)), Now(uio), k, uio.rw, 0);
      } else if uio.rw.Write? {
        e := WriteWhole(k, uio, fb, db, old(S()), old(own));
      } else {
        e := ReadWhole(k, uio, fb, db);
      }
    }

    /** The transfer begun at z has got as far as the request says. */
    ghost predicate Progress(z: Point, k: nat, uio: U.Uio)
      reads this, freemap.v, uio
    {
      && Valid() && Loaded(k) && Live(z.own, k) && uio.Valid() && Moved(z, Now(uio), k, uio.rw, BLOCKSIZE - 1)
      && Stops(z.offset, z.resid, uio.offset - z.offset) && Grows(z.own, own, k, Paths(z.offset, z.resid))
    }

    /** One block or part of one. */
    method Piece(k: nat, uio: U.Uio, skip: nat, len: nat) returns (e: Err)
      requires Valid() && Loaded(k) && uio.Valid()
      requires skip == uio.offset % BLOCKSIZE && len <= uio.resid && skip + len <= BLOCKSIZE
      modifies this, freemap.v, uio
      ensures Valid() && uio.Valid() && Moved(old(Now(uio)), Now(uio), k, uio.rw, BLOCKSIZE - 1)
        && Counted(old(faults), faults, e)
      ensures faults == old(faults) ==> Leakage() == old(Leakage())
      ensures IoResult(e, k, uio) && (e == EINVAL || e == ENOSPC ==> uio.offset == old(uio.offset))
      ensures uio.offset == old(uio.offset) + len || (e != Ok && uio.offset == old(uio.offset))
      ensures Grows(old(own), own, k, Path(old(uio.offset) / BLOCKSIZE))
    {
      if skip == 0 && len == BLOCKSIZE {
        e := BlockIO(k, uio);
        MovedUpTo(old(Now(uio)), Now(uio), k, uio.rw, 0, BLOCKSIZE - 1);
      } else {
        e := PartialIO(k, uio, skip, len);
        MovedUpTo(old(Now(uio)), Now(uio), k, uio.rw, len, BLOCKSIZE - 1);
      }
    }

    /** One more piece of the transfer begun at z. */
    method Continue(k: nat, uio: U.Uio, skip: nat, len: nat, ghost z: Point) returns (e: Err)
      requires Progress(z, k, uio) && faults == z.faults && skip == uio.offset % BLOCKSIZE
      requires len <= uio.resid && skip + len <= BLOCKSIZE && (skip == 0 || uio.offset == z.offset)
      requires (len == uio.resid || skip + len == BLOCKSIZE) && (len > 0 || skip != 0) && (len > 0 || z.resid == 0)
      modifies this, freemap.v, uio
      ensures Progress(z, k, uio) && Counted(old(faults), faults, e) && IoResult(e, k, uio)
      ensures faults == old(faults) ==> Leakage() == old(Leakage())
      ensures e == EINVAL || e == ENOSPC ==> uio.resid > 0 || z.resid == 0
      ensures e == Ok ==> uio.offset == old(uio.offset) + len && uio.resid == old(uio.resid) - len && faults == z.faults
      ensures e == Ok ==> Leakage() == old(Leakage()) && (skip + len == BLOCKSIZE ==> uio.offset % BLOCKSIZE == 0)
    {
      ghost var a := Now(uio);
      PathWithin(z.offset, z.resid, uio.offset);
      e := Piece(k, uio, skip, len);
      PieceDone(z, a, Now(uio), k, uio.rw, skip, len, BLOCKSIZE - 1);
      PathsDone(z, a.own, own, k, a.offset);
    }

    /** The body of sfs_io: leading partial block, whole blocks, trailing partial block. */
    method Transfer(k: nat, uio: U.Uio) returns (e: Err)
      requires Valid() && Loaded(k) && uio.Valid()
      modifies this, freemap.v, uio
      ensures Progress(old(Now(uio)), k, uio) && Counted(old(faults), faults, e) && IoResult(e, k, uio)
      ensures faults == old(faults) ==> Leakage() == old(Leakage())
      ensures e == EINVAL || e == ENOSPC ==> uio.resid > 0 || old(uio.resid) == 0
      ensures e == Ok ==> uio.resid == 0
    {
      LoadedLive(S(), own, k);
      ghost var z := Now(uio);
      MovedNothing(z, z, k, uio.rw, BLOCKSIZE - 1);
      e := Ok;
      if uio.offset % BLOCKSIZE != 0 {
        e := TransferHead(k, uio, z);
        if e != Ok { return; }
      }
      if uio.resid == 0 { return; }
      e := TransferRest(k, uio, z);
    }

    /** What follows the leading partial block. */
    method TransferRest(k: nat, uio: U.Uio, ghost z: Point) returns (e: Err)
      requires Progress(z, k, uio) && faults == z.faults && uio.offset % BLOCKSIZE == 0
      modifies this, freemap.v, uio
      ensures Progress(z, k, uio) && Counted(old(faults), faults, e) && IoResult(e, k, uio)
      ensures faults == old(faults) ==> Leakage() == old(Leakage())
      ensures e == EINVAL || e == ENOSPC ==> uio.resid > 0 || z.resid == 0
      ensures e == Ok ==> uio.resid == 0
    {
      e := TransferBlocks(k, uio, z);
      if e != Ok || uio.resid == 0 { return; }
      e := Continue(k, uio, 0, uio.resid, z);
    }

    /** The leading partial block. */
    method TransferHead(k: nat, uio: U.Uio, ghost z: Point) returns (e: Err)
      requires Progress(z, k, uio) && faults == z.faults && uio.offset == z.offset && uio.resid == z.resid
      requires uio.offset % BLOCKSIZE != 0
      modifies this, freemap.v, uio
      ensures Progress(z, k, uio) && Counted(old(faults), faults, e) && IoResult(e, k, uio)
      ensures faults == old(faults) ==> Leakage() == old(Leakage())
      ensures e == EINVAL || e == ENOSPC ==> uio.resid > 0 || z.resid == 0
      ensures e == Ok ==> uio.resid == 0 || uio.offset % BLOCKSIZE == 0
    {
      var blkoff := uio.offset % BLOCKSIZE;
      var len := if BLOCKSIZE - blkoff > uio.resid then uio.resid else BLOCKSIZE - blkoff;
      e := Continue(k, uio, blkoff, len, z);
    }

    /** The whole blocks of a transfer. */
    method TransferBlocks(k: nat, uio: U.Uio, ghost z: Point) returns (e: Err)
      requires Progress(z, k, uio) && faults == z.faults && uio.offset % BLOCKSIZE == 0
      modifies this, freemap.v, uio
      ensures Progress(z, k, uio) && Counted(old(faults), faults, e) && IoResult(e, k, uio)
      ensures faults == old(faults) ==> Leakage() == old(Leakage())
      ensures e == EINVAL || e == ENOSPC ==> uio.resid > 0 || z.resid == 0
      ensures e == Ok ==> uio.offset % BLOCKSIZE == 0 && uio.resid < BLOCKSIZE
    {
      e := Ok;
      var n := uio.resid / BLOCKSIZE;
      var i := 0;
      while i < n
        invariant i <= n && e == Ok && Progress(z, k, uio) && faults == z.faults
        invariant uio.offset % BLOCKSIZE == 0 && uio.resid == old(uio.resid) - i * BLOCKSIZE
        invariant Leakage() == old(Leakage())
      {
        e := TransferWhole(k, uio, z);
        if e != Ok { return; }
        i := i + 1;
      }
    }

    /** One whole block of a transfer. */
    method TransferWhole(k: nat, uio: U.Uio, ghost z: Point) returns (e: Err)
      requires Progress(z, k, uio) && faults == z.faults && uio.offset % BLOCKSIZE == 0 && uio.resid >= BLOCKSIZE
      modifies this, freemap.v, uio
      ensures Progress(z, k, uio) && Counted(old(faults), faults, e) && IoResult(e, k, uio)
      ensures faults == old(faults) ==> Leakage() == old(Leakage())
      ensures e == EINVAL || e == ENOSPC ==> uio.resid > 0 || z.resid == 0
      ensures e == Ok ==> uio.offset % BLOCKSIZE == 0 && uio.resid == old(uio.resid) - BLOCKSIZE && faults == z.faults
    {
      e := Continue(k, uio, 0, BLOCKSIZE, z);
    }

    /** A read that starts within the file: what lies past its end is set aside. */
    method ReadClipped(k: nat, uio: U.Uio, size: nat) returns (e: Err)
      requires Valid() && Loaded(k) && uio.Valid() && uio.rw.Read? && uio.offset < size == Node(S(), k).size
      modifies this, freemap.v, uio
      ensures Valid() && Counted(old(faults), faults, e) && ReadDone(old(Now(uio)), Now(uio), k, e == Ok)
      ensures faults == old(faults) ==> Leakage() == old(Leakage())
      ensures (e == Ok || e == EIO || e == EINVAL) && (e == EINVAL ==> uio.offset >= MAXBLOCKS * BLOCKSIZE)
      ensures e == EINVAL ==> uio.resid > 0 || old(uio.resid) == 0
    {
      var extraresid := if uio.offset + uio.resid > size then uio.offset + uio.resid - size else 0;
      uio.resid := uio.resid - extraresid;
      ghost var b := Now(uio);
      e := Transfer(k, uio);
      ghost var c := Now(uio);
      uio.resid := uio.resid + extraresid;
      ClippedDone(old(Now(uio)), b, c, Now(uio), k, extraresid, e == Ok);
    }

    /** sfs_io for a read: everything up to the end of the file, holes as zeros. */
    method IoRead(k: nat, uio: U.Uio) returns (e: Err)
      requires Valid() && Loaded(k) && uio.Valid() && uio.rw.Read?
      modifies this, freemap.v, uio
      ensures Valid() && Counted(old(faults), faults, e) && ReadDone(old(Now(uio)), Now(uio), k, e == Ok)
      ensures faults == old(faults) ==> Leakage() == old(Leakage())
      ensures (e == Ok || e == EIO || e == EINVAL) && (e == EINVAL ==> uio.offset >= MAXBLOCKS * BLOCKSIZE)
      ensures e == EINVAL ==> uio.resid > 0 || old(uio.resid) == 0
    {
      var size := Get(k).inode.size;
      if uio.offset >= size {
        HasReadNothing(S(), k, uio.offset, uio.data, uio.base);
        return Ok;
      }
      e := ReadClipped(k, uio, size);
    }

    /** Set the size if the file grew. */
    method Extend(k: nat, n: u32)
      requires Valid() && Loaded(k)
      modifies this`vnodes
      ensures Valid() && Leakage() == old(Leakage())
      ensures S() == if n > Node(old(S()), k).size then Resize(old(S()), k, n) else old(S())
      ensures forall t: nat :: Slot(S(), k, t) == Slot(old(S()), k, t)
    {
      var i := Get(k).inode;
      if n > i.size {
        MetaOk(S(), own, k, n, i.links);
        MetaSame(S(), k, n, i.links, k);
        SetInode(k, i.(size := n));
      }
    }

    /** sfs_io for a write: the bytes transferred, then the size. */
    method IoWrite(k: nat, uio: U.Uio) returns (e: Err)
      requires Valid() && Loaded(k) && uio.Valid() && uio.rw.Write? && uio.offset + uio.resid < 0x8000_0000
      modifies this, freemap.v, uio
      ensures Valid() && Counted(old(faults), faults, e) && IoResult(e, k, uio) && Written(old(Now(uio)), Now(uio), k)
      ensures faults == old(faults) ==> Leakage() == old(Leakage())
      ensures e == EINVAL || e == ENOSPC ==> uio.resid > 0 || old(uio.resid) == 0
      ensures e == Ok ==> uio.resid == 0
      ensures Grows(old(own), own, k, Paths(old(uio.offset), old(uio.resid)))
    {
      e := Transfer(k, uio);
      FinishWrite(k, uio, old(Now(uio)));
    }

    /** The size update after a transfer begun at a. */
    method FinishWrite(k: nat, uio: U.Uio, ghost a: Point)
      requires Progress(a, k, uio) && uio.rw.Write? && uio.offset < 0x8000_0000
      modifies this`vnodes
      ensures Valid() && Written(a, Now(uio), k) && Leakage() == old(Leakage())
      ensures S().used == old(S()).used && forall t: nat :: Slot(S(), k, t) == Slot(old(S()), k, t)
    {
      ghost var b := Now(uio);
      Extend(k, uio.offset);
      WrittenDone(a, b, Now(uio), k);
    }

    /** sfs_io */
    method Io(k: nat, uio: U.Uio) returns (e: Err)
      requires Valid() && Loaded(k) && uio.Valid() && uio.offset + uio.resid < 0x8000_0000
      modifies this, freemap.v, uio
      ensures Valid() && Counted(old(faults), faults, e)
      ensures faults == old(faults) ==> Leakage() == old(Leakage())
      ensures uio.rw.Read? ==> ReadDone(old(Now(uio)), Now(uio), k, e == Ok)
      ensures uio.rw.Write? ==> Written(old(Now(uio)), Now(uio), k) && (e == Ok ==> uio.resid == 0)
      ensures IoResult(e, k, uio) && (e == EINVAL || e == ENOSPC ==> uio.resid > 0 || old(uio.resid) == 0)
      ensures uio.rw.Write? ==> Grows(old(own), own, k, Paths(old(uio.offset), old(uio.resid)))
    {
      if uio.rw.Read? {
        e := IoRead(k, uio);
      } else {
        e := IoWrite(k, uio);
      }
    }

    // Truncation

    /** sfs_bfree: the unmark assertion holds. */
    method Bfree(b: nat)
      requires freemap.Valid() && b in freemap.Marked()
      modifies this`freemapdirty, freemap.v
      ensures freemap.Valid() && freemap.Marked() == old(freemap.Marked()) - {b} && freemapdirty
    {
      freemap.Unmark(b);
      freemapdirty := true;
    }

    method FreeDirect(k: nat, t: nat)
      requires Valid() && Loaded(k) && t < NDIRECT && Slot(S(), k, t) != 0
      modifies this`freemapdirty, this`vnodes, this`own, freemap.v
      ensures Valid() && Shed(old(S()), old(own), S(), own)
      ensures Cut(old(S()), old(own), S(), own, k, {t})
    {
      LoadedLive(S(), own, k);
      SlotOwned(S(), own, k, t);
      DropDirectOk(S(), own, k, t);
      var i := Get(k).inode;
      Bfree(i.direct[t]);
      SetInode(k, i.(direct := i.direct[t := 0]));
      own := Disown(own, k, {t});
    }

    /** One turn of the direct loop of sfs_truncate, begun at s0. */
    method TruncSlot(k: nat, blocklen: nat, i: nat, ghost s0: State, ghost own0: Owner)
      requires Valid() && Loaded(k) && Live(own0, k) && i < NDIRECT
      requires Cut(s0, own0, S(), own, k, DoomedDirect(s0, k, blocklen, i))
      modifies this`freemapdirty, this`vnodes, this`own, freemap.v
      ensures Valid() && Loaded(k) && Shed(old(S()), old(own), S(), own)
      ensures Cut(s0, own0, S(), own, k, DoomedDirect(s0, k, blocklen, i + 1))
    {
      ghost var gone := DoomedDirect(s0, k, blocklen, i);
      assert CutAt(s0, own0, S(), own, k, gone, k);
      assert SlotCut(s0, S(), k, gone, k, i);
      var block := Get(k).inode.direct[i];
      NextDirect(s0, k, blocklen, i);
      if i >= blocklen && block != 0 {
        ghost var s1, own1 := S(), own;
        FreeDirect(k, i);
        CutTrans(s0, own0, s1, own1, S(), own, k, gone, {i});
      }
    }

    /** The direct loop of sfs_truncate. */
    method TruncDirect(k: nat, blocklen: nat)
      requires Valid() && Loaded(k)
      modifies this`freemapdirty, this`vnodes, this`own, freemap.v
      ensures Valid() && Shed(old(S()), old(own), S(), own)
      ensures Cut(old(S()), old(own), S(), own, k, DoomedDirect(old(S()), k, blocklen, NDIRECT))
    {
      CutNothing(S(), own, k);
      LoadedLive(S(), own, k);
      var i := 0;
      while i < NDIRECT
        invariant i <= NDIRECT && Valid() && Loaded(k) && Shed(old(S()), old(own), S(), own)
        invariant Cut(old(S()), old(own), S(), own, k, DoomedDirect(old(S()), k, blocklen, i))
      {
        TruncSlot(k, blocklen, i, old(S()), old(own));
        i := i + 1;
      }
    }

    /** The indirect loop of sfs_truncate: free and clear the entries past the end. */
    method FreeEntries(k: nat, blocklen: nat, entries: Words) returns (idbuf: Words, hasnonzero: bool, iddirty: bool)
      requires Valid() && Loaded(k) && Node(S(), k).indirect != 0 && entries == Entries(S(), Node(S(), k).indirect)
      modifies this`freemapdirty, freemap.v
      ensures Shape()
      ensures freemap.Marked() == old(S()).used - Named(old(S()), k, Doomed(old(S()), k, blocklen))
      ensures idbuf == Kept(entries, blocklen)
      ensures hasnonzero <==> exists j :: 0 <= j < DBPERIDB && idbuf[j] != 0
      ensures iddirty <==> Doomed(old(S()), k, blocklen) != {}
    {
      ghost var s0 := S();
      LoadedLive(s0, own, k);
      idbuf, hasnonzero, iddirty := entries, false, false;
      var j := 0;
      while j < DBPERIDB
        invariant 0 <= j <= DBPERIDB && Shape()
        invariant freemap.Marked() == s0.used - Named(s0, k, DoomedTo(s0, k, blocklen, j))
        invariant forall i :: 0 <= i < DBPERIDB ==>
          idbuf[i] == if i < j && blocklen < NDIRECT + i then 0 else entries[i]
        invariant hasnonzero <==> exists i :: 0 <= i < j && idbuf[i] != 0
        invariant iddirty <==> DoomedTo(s0, k, blocklen, j) != {}
      {
        assert idbuf[j] == Slot(s0, k, NDIRECT + j);
        if blocklen < NDIRECT + j && idbuf[j] != 0 {
          NextDoomed(s0, own, k, blocklen, j);
          assert NDIRECT + j in DoomedTo(s0, k, blocklen, j + 1);
          Bfree(idbuf[j]);
          idbuf := idbuf[j := 0];
          iddirty := true;
        } else {
          NotDoomed(s0, k, blocklen, j);
        }
        if idbuf[j] != 0 { hasnonzero := true; }
        j := j + 1;
      }
      DoomedAll(s0, k, blocklen);
    }

    /** The indirect block has to be written back, can be read, and cannot be written. */
    ghost predicate Tears(s: State, k: nat, blocklen: nat, c: nat) {
      Tearable(s, k, blocklen) && !fault(c) && fault(c + 1)
    }

    /** The indirect half of sfs_truncate.  When the write-back fails the freed
        blocks stay named on disk: the one place where a fault breaks ownership. */
    method TruncIndirect(k: nat, blocklen: nat) returns (e: Err, ghost gone: set<nat>, torn: bool)
      requires Valid() && Loaded(k)
      modifies this, freemap.v
      ensures !torn ==> Valid() && Shed(old(S()), old(own), S(), own) && Cut(old(S()), old(own), S(), own, k, gone)
      ensures e == Ok ==> !torn && faults == old(faults) && GoneIndirect(old(S()), k, blocklen, gone)
      ensures e == Ok && blocklen < NDIRECT ==> Node(S(), k).indirect == 0
      ensures e != Ok ==> e == EIO && faults > old(faults)
      ensures e != Ok && !torn ==> S() == old(S()) && own == old(own)
      ensures torn ==> NDIRECT <= blocklen && Table(vnodes) == old(Table(vnodes)) && TornFile(S(), k)
      ensures torn <==> Tears(old(S()), k, blocklen, old(clock))
    {
      gone, torn := {}, false;
      CutNothing(S(), own, k);
      var idblock := Get(k).inode.indirect;
      if blocklen >= MAXBLOCKS - 1 || idblock == 0 {
        e := Ok;
        ShortIndirect(S(), k, blocklen);
        TearsNot(S(), k, blocklen);
        return;
      }
      LoadedLive(S(), own, k);
      SlotOwned(S(), own, k, IND);
      var data;
      e, data := RBlock(idblock);
      if e != Ok { return; }
      e, gone, torn := TruncEntries(k, blocklen, idblock, WordsOf(data));
    }

    /** Every entry is gone: free the indirect block as well. */
    method FreeIndirect(k: nat, blocklen: nat, idblock: nat, ghost s0: State)
      requires Shape()
      requires Blocks(s0, own) && Loaded(k) && idblock == Node(s0, k).indirect != 0
      requires S() == State(s0.nblocks, s0.disk, s0.used - Named(s0, k, Doomed(s0, k, blocklen)), s0.vn)
      requires forall j :: 0 <= j < DBPERIDB ==> Kept(Entries(s0, idblock), blocklen)[j] == 0
      modifies this`freemapdirty, this`vnodes, this`own, freemap.v
      ensures Valid() && Shed(s0, old(own), S(), own) && Node(S(), k).indirect == 0
      ensures Cut(s0, old(own), S(), own, k, Doomed(s0, k, blocklen) + {IND})
    {
      LoadedLive(s0, own, k);
      NothingKept(s0, k, blocklen);
      IndirectMarked(s0, own, k, blocklen);
      DropIndirectOk(s0, own, k);
      Bfree(idblock);
      SetInode(k, Get(k).inode.(indirect := 0));
      own := Disown(own, k, Doomed(s0, k, 0) + {IND});
    }

    /** Some entries stay and some went: write the indirect block back. */
    method WriteBack(k: nat, blocklen: nat, idblock: nat, idbuf: Words, ghost s0: State) returns (e: Err)
      requires Shape()
      requires Blocks(s0, own) && Loaded(k) && idblock == Node(s0, k).indirect != 0
      requires S() == State(s0.nblocks, s0.disk, s0.used - Named(s0, k, Doomed(s0, k, blocklen)), s0.vn)
      requires idbuf == Kept(Entries(s0, idblock), blocklen) && Doomed(s0, k, blocklen) != {}
      requires exists j :: 0 <= j < DBPERIDB && idbuf[j] != 0
      modifies this`clock, this`faults, this`disk, this`own
      ensures e == Ok ==> Valid() && Shed(s0, old(own), S(), own) && faults == old(faults)
      ensures e == Ok ==> Cut(s0, old(own), S(), own, k, Doomed(s0, k, blocklen))
      ensures e != Ok ==> e == EIO && faults > old(faults) && NDIRECT <= blocklen && TornFile(S(), k)
      ensures e == Ok <==> !fault(old(clock))
    {
      DropEntriesOk(s0, own, k, blocklen);
      LoadedLive(s0, own, k);
      SlotOwned(s0, own, k, IND);
      e := WBlock(BytesOf(idbuf), idblock);
      if e == Ok {
        ShapeKept(old(disk), idblock, BytesOf(idbuf));
        own := Disown(own, k, Doomed(s0, k, blocklen));
      } else {
        ghost var j :| 0 <= j < DBPERIDB && idbuf[j] != 0;
        TornEntry(s0, S(), k, blocklen, j);
      }
    }

    method TruncEntries(k: nat, blocklen: nat, idblock: nat, entries: Words) returns (e: Err, ghost gone: set<nat>, torn: bool)
      requires Valid() && Loaded(k) && blocklen < MAXBLOCKS - 1
      requires idblock == Node(S(), k).indirect != 0 && entries == Entries(S(), idblock)
      modifies this, freemap.v
      ensures !torn ==> Valid() && Shed(old(S()), old(own), S(), own) && Cut(old(S()), old(own), S(), own, k, gone)
      ensures e == Ok ==> !torn && faults == old(faults) && GoneIndirect(old(S()), k, blocklen, gone)
      ensures e == Ok && blocklen < NDIRECT ==> Node(S(), k).indirect == 0
      ensures e != Ok ==> e == EIO && faults > old(faults) && torn
      ensures torn ==> NDIRECT <= blocklen && Table(vnodes) == old(Table(vnodes)) && TornFile(S(), k)
      ensures torn <==> Tearable(old(S()), k, blocklen) && fault(old(clock))
    {
      ghost var s0 := S();
      gone, torn := Doomed(s0, k, blocklen), false;
      DoomedGone(s0, k, blocklen, gone);
      DoomedGone(s0, k, blocklen, gone + {IND});
      var idbuf, hasnonzero, iddirty := FreeEntries(k, blocklen, entries);
      TearsWhen(s0, k, blocklen);
      e := Ok;
      if hasnonzero {
        ghost var j :| 0 <= j < DBPERIDB && idbuf[j] != 0;
        SomethingKept(s0, k, blocklen, j);
      }
      if !hasnonzero {
        gone := gone + {IND};
        FreeIndirect(k, blocklen, idblock, s0);
      } else if iddirty {
        e := WriteBack(k, blocklen, idblock, idbuf, s0);
        torn := e != Ok;
      } else {
        assert Named(s0, k, {}) == {};
        assert S() == s0;
        CutNothing(s0, own, k);
      }
    }

    /** Both loops of sfs_truncate. */
    method TruncBlocks(k: nat, blocklen: nat) returns (e: Err, ghost gone: set<nat>, torn: bool)
      requires Valid() && Loaded(k)
      modifies this, freemap.v
      ensures !torn ==> Valid() && Shed(old(S()), old(own), S(), own) && Cut(old(S()), old(own), S(), own, k, gone)
      ensures e == Ok ==> !torn && faults == old(faults) && GoneAll(old(S()), k, blocklen, gone)
      ensures e == Ok && blocklen < NDIRECT ==> Node(S(), k).indirect == 0
      ensures e != Ok ==>
        e == EIO && faults > old(faults) && (!torn ==> gone == DoomedDirect(old(S()), k, blocklen, NDIRECT))
      ensures torn ==> NDIRECT <= blocklen && TornFile(S(), k)
      ensures torn <==> Tears(old(S()), k, blocklen, old(clock))
    {
      LoadedLive(S(), own, k);
      TruncDirect(k, blocklen);
      gone := DoomedDirect(old(S()), k, blocklen, NDIRECT);
      ghost var s1, own1 := S(), own;
      TearsAfter(old(S()), old(own), s1, own1, k, blocklen);
      assert Tears(s1, k, blocklen, clock) <==> Tears(old(S()), k, blocklen, old(clock));
      ghost var more;
      e, more, torn := TruncIndirect(k, blocklen);
      if e != Ok { return; }
      CutTrans(old(S()), old(own), s1, own1, S(), own, k, gone, more);
      GoneBoth(old(S()), old(own), s1, own1, k, blocklen, more);
      gone := gone + more;
    }

    /** sfs_truncate */
    method Truncate(k: nat, len: nat) returns (e: Err, torn: bool)
      requires Valid() && Loaded(k) && len < 0x8000_0000
      modifies this, freemap.v
      ensures e == Ok ==> Valid() && !torn && FileCut(old(S()), old(own), S(), own, k, len)
      ensures e == Ok ==> Shed(old(S()), old(own), S(), own) && Leakage() == old(Leakage()) && faults == old(faults)
      ensures e == Ok && BlockLen(len) < NDIRECT ==> Node(S(), k).indirect == 0
      ensures e == Ok ==> Node(S(), k).size == len && forall t: nat :: SlotStays(old(S()), S(), k, len, t)
      ensures !torn ==> HeadKept(old(S()), S(), k, len)
      ensures e != Ok ==> e == EIO && faults > old(faults)
      ensures e != Ok && !torn ==> Valid() && Shed(old(S()), old(own), S(), own) && Leakage() == old(Leakage())
      ensures e != Ok && !torn ==>
        Cut(old(S()), old(own), S(), own, k, DoomedDirect(old(S()), k, BlockLen(len), NDIRECT))
      ensures torn ==> NDIRECT <= BlockLen(len) && TornFile(S(), k)
      ensures torn <==> Tears(old(S()), k, BlockLen(len), old(clock))
    {
      LoadedLive(S(), own, k);
      ghost var gone;
      e, gone, torn := TruncBlocks(k, BlockLen(len));
      if e != Ok {
        if !torn { HalfCutBytes(old(S()), old(own), S(), own, k, len); }
        return;
      }
      FileCutDone(old(S()), old(own), S(), own, k, gone, len);
      MetaOk(S(), own, k, len, Get(k).inode.links);
      SetInode(k, Get(k).inode.(size := len));
      TruncBytes(old(S()), old(own), S(), own, k, len);
    }

    // Vnodes

    /** The linear search of sfs_loadvnode; every loaded inode is in an allocated block. */
    method FindVnode(ino: nat) returns (found: bool, i: nat)
      requires Valid()
      ensures found ==> i < |vnodes| && vnodes[i].ino == ino && Loaded(ino)
      ensures !found ==> !Loaded(ino)
    {
      i := 0;
      while i < |vnodes|
        invariant i <= |vnodes|
        invariant forall j :: 0 <= j < i ==> vnodes[j].ino != ino
      {
        TableAt(vnodes, i);
        LoadedLive(S(), own, vnodes[i].ino);
        OwnedBound(S(), own, vnodes[i].ino);
        var used := Bused(vnodes[i].ino);
        assert used;
        if vnodes[i].ino == ino { return true, i; }
        i := i + 1;
      }
      TableHas(vnodes, ino);
      found := false;
    }

    /** vnode_incref and the first half of vnode_decref. */
    method PutRef(k: nat, r: nat)
      requires Unique(vnodes) && Loaded(k)
      modifies this`vnodes
      ensures Unique(vnodes) && S() == SetRef(old(S()), k, r)
    {
      var x := IndexOf(vnodes, k);
      var v := vnodes[x];
      TableUpdate(vnodes, x, Vnode(v.ino, v.inode, v.dirty, r));
      vnodes := vnodes[x := Vnode(v.ino, v.inode, v.dirty, r)];
    }

    /** kmalloc of the vnode and the read of its block. */
    method ReadInode(ino: nat) returns (e: Err, inode: Inode)
      requires Valid() && ino < nblocks && ino in S().used
      modifies this`clock, this`faults
      ensures Honest() && (e == Ok <==> !fault(old(clock)) && !fault(old(clock) + 1))
      ensures e == Ok ==> clock == old(clock) + 2
      ensures e == Ok ==> inode == InodeOf(Disk(S(), ino)) && faults == old(faults)
      ensures e != Ok ==> Faulty(e) && faults > old(faults)
    {
      inode := InodeOf(zeros);
      var ok := Attempt();
      if !ok { return ENOMEM, inode; }
      var used := Bused(ino);
      assert used;
      var data;
      e, data := RBlock(ino);
      inode := InodeOf(data);
    }

    /** The next four requests succeed: memory for a vnode, the read of its inode,
        memory for its lock, and room in the table. */
    predicate FourSucceed(c: nat) {
      !fault(c) && !fault(c + 1) && !fault(c + 2) && !fault(c + 3)
    }

    /** An existing inode that is not resident. */
    method FetchVnode(ino: nat) returns (e: Err)
      requires Valid() && Live(own, ino) && !Loaded(ino)
      requires Node(S(), ino).kind == TYPE_FILE || Node(S(), ino).kind == TYPE_DIR
      modifies this`clock, this`faults, this`vnodes
      ensures Unique(vnodes) && Honest() && (e == Ok <==> FourSucceed(old(clock)))
      ensures e == Ok ==> S() == Load(old(S()), ino) && faults == old(faults) && clock == old(clock) + 4
      ensures e != Ok ==> S() == old(S()) && Faulty(e) && faults > old(faults)
    {
      OwnedBound(S(), own, ino);
      var inode;
      e, inode := ReadInode(ino);
      if e == Ok {
        assert inode.kind == TYPE_FILE || inode.kind == TYPE_DIR;
        e := AddVnode(Vnode(ino, inode, false, 1));
      }
    }

    /** sfs_loadvnode of an existing inode: reuse its vnode or read it in. */
    method LoadVnode(ino: nat) returns (e: Err)
      requires Valid() && Live(own, ino) && (Node(S(), ino).kind == TYPE_FILE || Node(S(), ino).kind == TYPE_DIR)
      modifies this`clock, this`faults, this`vnodes
      ensures Valid() && Quiet(old(S()), own, S()) && Counted(old(faults), faults, e) && (e == Ok || Faulty(e))
      ensures faults == old(faults) ==> Leakage() == old(Leakage())
      ensures e == Ok ==> Opened(old(S()), S(), ino)
      ensures e != Ok ==> S() == old(S())
      ensures e == Ok <==> old(Loaded(ino)) || FourSucceed(old(clock))
      ensures e == Ok ==> clock == old(clock) + if old(Loaded(ino)) then 0 else 4
    {
      TableQuiet(S(), own, S());
      var found, i := FindVnode(ino);
      if found {
        SetRefOk(S(), own, ino, Get(ino).ref + 1);
        PutRef(ino, Get(ino).ref + 1);
        return Ok;
      }
      e := FetchVnode(ino);
      if e == Ok { LoadOk(old(S()), own, ino); }
    }

    /** VOP_INIT and array_add. */
    method AddVnode(v: Vnode) returns (e: Err)
      requires Unique(vnodes) && !Loaded(v.ino) && Honest()
      modifies this`clock, this`faults, this`vnodes
      ensures Honest() && (e == Ok <==> !fault(old(clock)) && !fault(old(clock) + 1))
      ensures e == Ok ==> Unique(vnodes) && Table(vnodes) == old(Table(vnodes))[v.ino := v] && faults == old(faults)
      ensures e == Ok ==> clock == old(clock) + 2
      ensures e != Ok ==> e == ENOMEM && vnodes == old(vnodes) && faults > old(faults)
    {
      var ok := Attempt();
      if !ok { return ENOMEM; }
      ok := Attempt();
      if !ok { return ENOMEM; }
      TableAppend(vnodes, v);
      vnodes := vnodes + [v];
      e := Ok;
    }

    /** sfs_loadvnode of an inode just allocated, with its type forced. */
    method NewVnode(ino: nat, kind: u16) returns (e: Err)
      requires Valid() && ino in Leaks() && ino < nblocks
      modifies this`clock, this`faults, this`vnodes
      ensures Unique(vnodes) && Honest()
      ensures e == Ok ==> S() == Create(old(S()), ino, kind) && faults == old(faults)
      ensures e != Ok ==> S() == old(S()) && Faulty(e) && faults > old(faults)
    {
      LeakNotLoaded(S(), own, ino);
      var found, _ := FindVnode(ino);
      assert !found;
      var inode;
      e, inode := ReadInode(ino);
      if e == Ok {
        e := AddVnode(Vnode(ino, inode.(kind := kind), true, 1));
      }
    }

    /** sfs_makeobj: allocate a block and make it an inode with no links. */
    method MakeObj(kind: u16) returns (e: Err, ino: nat)
      requires Valid()
      modifies this, freemap.v
      ensures Valid() && Counted(old(faults), faults, e) && (e == Ok || e == ENOSPC || Faulty(e))
      ensures faults == old(faults) ==> Leakage() == old(Leakage())
      ensures e == ENOSPC ==> Full() && S() == old(S()) && own == old(own)
      ensures Views(old(S()), old(own), S(), own, if e == Ok then {ino} else {})
      ensures e == Ok ==> ino !in old(own) && own == old(own)[ino := (ino, SELF)]
      ensures e == Ok ==> LiveSame(old(S()), old(own), S())
      ensures e == Ok ==>
        && !Live(old(own), ino) && Live(own, ino) && Loaded(ino) && S().vn[ino].ref == 1
        && Node(S(), ino).size == 0 && Node(S(), ino).links == 0 && Node(S(), ino).kind == kind && ino < nblocks
    {
      e, ino := BallocInode();
      if e != Ok { return; }
      e := MakeVnode(ino, kind, old(S()));
    }

    /** sfs_balloc of a block to become an inode. */
    method BallocInode() returns (e: Err, b: nat)
      requires Valid()
      modifies this`clock, this`faults, this`disk, this`freemapdirty, freemap.v
      ensures Valid() && Views(old(S()), own, S(), own, {}) && Counted(old(faults), faults, e)
      ensures e == Ok ==> b in Leaks() && b < nblocks && AllZero(Disk(S(), b)) && Leakage() == old(Leakage()) + 1
      ensures e != Ok && faults == old(faults) ==> Leakage() == old(Leakage())
      ensures e == Ok || e == EIO || (e == ENOSPC && Full() && S() == old(S()))
      ensures e == Ok ==> LiveSame(old(S()), own, S())
    {
      e, b := Balloc();
      ViewsExtends(old(S()), own, S(), own);
      if e == Ok { AllocOk(old(S()), own, b, zeros); }
    }

    method MakeVnode(ino: nat, kind: u16, ghost s0: State) returns (e: Err)
      requires Valid() && ino in Leaks() && ino < nblocks
      requires AllZero(Disk(S(), ino))
      requires Views(s0, own, S(), own, {}) && LiveSame(s0, own, S())
      modifies this`clock, this`faults, this`vnodes, this`own
      ensures Valid() && (e == Ok || Faulty(e))
      ensures e == Ok ==> ino !in old(own) && own == old(own)[ino := (ino, SELF)]
      ensures e == Ok ==> LiveSame(s0, old(own), S())
      ensures Views(s0, old(own), S(), own, if e == Ok then {ino} else {})
      ensures e == Ok ==>
        && !Live(old(own), ino) && Live(own, ino) && Loaded(ino) && S().vn[ino].ref == 1
        && Node(S(), ino).size == 0 && Node(S(), ino).links == 0 && Node(S(), ino).kind == kind
        && Leakage() == old(Leakage()) - 1 && faults == old(faults)
      ensures e != Ok ==> Leakage() == old(Leakage()) && faults > old(faults)
    {
      e := NewVnode(ino, kind);
      if e == Ok {
        MakeOk(s0, own, old(S()), ino, kind);
        CreateSame(s0, own, old(S()), S(), ino, kind);
        own := own[ino := (ino, SELF)];
        LeakOneLess(old(S()), old(own), S(), own, ino);
      }
    }

    /** sfs_sync_inode */
    method SyncInode(k: nat) returns (e: Err)
      requires Valid() && Loaded(k)
      modifies this`clock, this`faults, this`disk, this`vnodes
      ensures Valid() && Quiet(old(S()), own, S()) && Counted(old(faults), faults, e) && (e == Ok || e == EIO)
      ensures faults == old(faults) ==> Leakage() == old(Leakage())
      ensures |vnodes| == |old(vnodes)| && forall j :: 0 <= j < |vnodes| ==> vnodes[j].ino == old(vnodes)[j].ino
      ensures S().vn.Keys == old(S()).vn.Keys
      ensures e == Ok ==> S().vn == old(S()).vn[k := Vnode(k, old(S()).vn[k].inode, false, old(S()).vn[k].ref)]
      ensures e != Ok ==> S() == old(S()) && S().vn[k].dirty
    {
      ghost var s0 := S();
      LoadedLive(s0, own, k);
      var v := Get(k);
      if !v.dirty {
        TableQuiet(s0, own, s0);
        return Ok;
      }
      OwnedBound(s0, own, k);
      e := WBlock(BlockOf(v.inode), k);
      if e != Ok {
        assert S() == s0;
        TableQuiet(s0, own, s0);
        return;
      }
      ShapeKept(old(disk), k, BlockOf(v.inode));
      var x := IndexOf(vnodes, k);
      TableUpdate(vnodes, x, Vnode(v.ino, v.inode, false, v.ref));
      vnodes := vnodes[x := Vnode(v.ino, v.inode, false, v.ref)];
      SyncOk(s0, own, k);
    }

    /** array_remove of the vnode, found by another linear search. */
    method DropVnode(k: nat)
      requires Unique(vnodes) && Loaded(k)
      modifies this`vnodes
      ensures Unique(vnodes) && Table(vnodes) == old(Table(vnodes)) - {k}
    {
      TableHas(vnodes, k);
      var i := 0;
      while vnodes[i].ino != k
        invariant 0 <= i < |vnodes| && forall j :: 0 <= j < i ==> vnodes[j].ino != k
        decreases |vnodes| - i
      {
        i := i + 1;
      }
      TableRemove(vnodes, i);
      UniqueRemove(vnodes, i);
      vnodes := Without(vnodes, i);
    }

    /** The part of sfs_reclaim for an inode nobody links to: erase it. */
    method EraseInode(k: nat) returns (e: Err)
      requires Valid() && Loaded(k) && Get(k).inode.links == 0 && k != ROOT
      modifies this, freemap.v
      ensures Valid() && Counted(old(faults), faults, e) && (e == Ok || Faulty(e))
      ensures faults == old(faults) ==> Leakage() == old(Leakage())
      ensures Released(old(S()), old(own), S(), own, k)
      ensures e == Ok ==> !Loaded(k) && !Live(own, k) && AllFreed(old(S()), S(), k)
    {
      ghost var s0, own0 := S(), own;
      LoadedLive(s0, own0, k);
      var torn;
      e, torn := Truncate(k, 0);
      if e != Ok {
        ViewsHalfCut(s0, own0, S(), own, k, DoomedDirect(s0, k, 0, NDIRECT));
        ReleasedHalf(s0, own0, S(), own, k);
        return;
      }
      ViewsCut(s0, own0, S(), own, k, 0);
      EmptySlots(s0, own0, S(), own, k);
      ghost var s1, own1 := S(), own;
      e := FinishErase(k, s0, own0);
      if e == Ok {
        ShedTrans(s0, own0, s1, own1, S(), own);
        ShedAll(s0, own0, S(), own, k);
      }
    }

    /** Sync, free the inode block, and forget the vnode. */
    method FinishErase(k: nat, ghost s0: State, ghost own0: Owner) returns (e: Err)
      requires Valid() && Loaded(k) && k != ROOT && forall t: nat :: t < SELF ==> Slot(S(), k, t) == 0
      requires Views(s0, own0, S(), own, {k}) && k in s0.vn && S().vn[k].ref == s0.vn[k].ref
      requires Node(s0, k).links == 0 && Node(S(), k).links == 0 && Node(S(), k).kind == Node(s0, k).kind
      modifies this, freemap.v
      ensures Valid() && (e == Ok || e == EIO) && (e == EIO <==> faults > old(faults)) && faults >= old(faults)
      ensures Leakage() == old(Leakage())
      ensures Released(s0, own0, S(), own, k)
      ensures e == Ok ==> !Loaded(k) && !Live(own, k) && Shed(old(S()), old(own), S(), own)
    {
      ghost var s1 := S();
      LoadedLive(s1, own, k);
      e := SyncInode(k);
      if e != Ok {
        ReleasedHalf(s0, own0, S(), own, k);
        return;
      }
      ghost var s2 := S();
      ViewsQuiet(s1, own, s2, own, {k});
      ViewsTrans(s0, own0, s1, own, s2, own, {k});
      assert FileSameAt(s1, own, s2, k);
      EraseOk(s2, own, k);
      OwnedBound(s2, own, k);
      Bfree(k);
      DropVnode(k);
      ReleasedErase(s0, own0, s2, own, S(), k);
      own := own - {k};
    }

    /** sfs_reclaim */
    method Reclaim(k: nat) returns (e: Err)
      requires Valid() && Loaded(k) && (k == ROOT ==> Get(k).inode.links > 0)
      modifies this, freemap.v
      ensures Valid() && Counted(old(faults), faults, e) && (e == Ok || e == EBUSY || Faulty(e))
      ensures faults == old(faults) ==> Leakage() == old(Leakage())
      ensures Released(old(S()), old(own), S(), own, k)
      ensures e == Ok ==> !Loaded(k)
      ensures e == Ok && old(Get(k).inode.links) == 0 ==> !Live(own, k) && AllFreed(old(S()), S(), k)
      ensures e == EBUSY <==> old(Get(k).ref) != 1
      ensures old(Get(k).ref) > 1 ==> S() == SetRef(old(S()), k, old(Get(k).ref) - 1) && own == old(own)
    {
      ghost var s0 := S();
      LoadedLive(s0, own, k);
      var v := Get(k);
      assert VnodeOk(s0, own, k);
      if v.ref != 1 {
        ReleasedRef(s0, own, k);
        PutRef(k, v.ref - 1);
        return EBUSY;
      }
      if v.inode.links == 0 {
        e := EraseInode(k);
        return;
      }
      e := SyncInode(k);
      if e == Ok {
        ghost var s1 := S();
        UnloadOk(s1, own, k);
        DropVnode(k);
        QuietTrans(s0, own, s1, S());
      }
      ReleasedQuiet(s0, own, S(), k);
    }

    /** vnode_decref: the result of a reclaim is only printed. */
    method Decref(k: nat)
      requires Valid() && Loaded(k) && (k == ROOT ==> Get(k).inode.links > 0)
      modifies this, freemap.v
      ensures Valid() && Released(old(S()), old(own), S(), own, k)
      ensures faults >= old(faults) && (faults == old(faults) ==> Leakage() == old(Leakage()))
      ensures old(Get(k).ref) > 1 ==> S() == SetRef(old(S()), k, old(Get(k).ref) - 1) && own == old(own)
      ensures old(Get(k).ref) == 1 && faults == old(faults) ==> !Loaded(k)
      ensures old(Get(k).ref) == 1 && old(Get(k).inode.links) == 0 && faults == old(faults) ==>
        !Live(own, k) && AllFreed(old(S()), S(), k)
      ensures old(Get(k).ref) > 1 || faults == old(faults) ==> Refd(old(S()), S(), k, -1)
    {
      ghost var s0 := S();
      LoadedLive(s0, own, k);
      var v := Get(k);
      if v.ref > 1 {
        ReleasedRef(s0, own, k);
        PutRef(k, v.ref - 1);
      } else {
        assert VnodeOk(s0, own, k);
        var _ := Reclaim(k);
      }
      if v.ref > 1 || faults == old(faults) { RefdViews(s0, old(own), S(), own, k, -1); }
    }
  }

  lemma BitmapCovers(n: nat)
    ensures n <= BitmapSize(n)
  {
  }

  lemma ZeroBlock()
    ensures U.ZeroBytes(BLOCKSIZE) == Zeros()
  {
  }
}
