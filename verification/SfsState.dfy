/** The state of a mounted SFS as a value, and who owns which block in it. */
module SfsState {
  import opened SfsLayout

  /** A loaded vnode: the in-memory inode, its dirty flag and reference count. */
  datatype Vnode = Vnode(ino: nat, inode: Inode, dirty: bool, ref: nat)

  /** `used` is the free map as a set; `vn` the loaded vnodes by inode number. */
  datatype State = State(nblocks: nat, disk: seq<Block>, used: set<nat>, vn: map<nat, Vnode>)

  // Reading the state

  function Disk(s: State, b: nat): Block {
    if b < |s.disk| then s.disk[b] else Zeros()
  }

  /** The inode in force: the loaded one, else the one on disk. */
  function Node(s: State, k: nat): Inode {
    if k in s.vn then s.vn[k].inode else InodeOf(Disk(s, k))
  }

  /** A file's 143 data slots are numbered like its blocks; then come the
      indirect block and the inode itself. */
  const IND := 143
  const SELF := 144
  const NSLOTS := 145

  /** The entries of an indirect block; a missing one has none. */
  function Entries(s: State, ind: nat): Words {
    if ind == 0 then seq(DBPERIDB, _ => 0) else WordsOf(Disk(s, ind))
  }

  /** The block number in slot t of inode k, 0 for none. */
  function Slot(s: State, k: nat, t: nat): nat {
    if t < NDIRECT then Node(s, k).direct[t]
    else if t < MAXBLOCKS then Entries(s, Node(s, k).indirect)[t - NDIRECT]
    else if t == IND then Node(s, k).indirect
    else if t == SELF then k
    else 0
  }

  /** Contents of block fb of file k: a hole reads as zeros. */
  function FBlock(s: State, k: nat, fb: nat): Block {
    if fb < MAXBLOCKS && Slot(s, k, fb) != 0 then Disk(s, Slot(s, k, fb)) else Zeros()
  }

  /** Byte o of file k, at any offset. */
  function FByte(s: State, k: nat, o: nat): byte {
    FBlock(s, k, o / BLOCKSIZE)[o % BLOCKSIZE]
  }

  // Ownership

  /** Blocks that inodes and files may use: not the superblock, not the map. */
  predicate DataBlock(nblocks: nat, b: nat) {
    b == ROOT || MAP_LOCATION + BitBlocks(nblocks) <= b < nblocks
  }

  /** The inode and slot a block belongs to. */
  type Owner = map<nat, (nat, nat)>

  predicate Live(own: Owner, k: nat) {
    k in own && own[k] == (k, SELF)
  }

  /** A block with an owner is a marked data block, and the owner's slot names it. */
  ghost predicate BlockOk(s: State, own: Owner, b: nat) {
    b in own ==>
      && DataBlock(s.nblocks, b) && b in s.used
      && Live(own, own[b].0) && own[b].1 < NSLOTS
      && Slot(s, own[b].0, own[b].1) == b
  }

  /** What a slot of a live inode names belongs to that slot and to no other. */
  ghost predicate SlotOk(s: State, own: Owner, k: nat, t: nat) {
    Live(own, k) && t < NSLOTS && Slot(s, k, t) != 0 ==>
      Slot(s, k, t) in own && own[Slot(s, k, t)] == (k, t)
  }

  /** A loaded vnode is referenced, and unless dirty it agrees with its block on disk. */
  ghost predicate VnodeOk(s: State, own: Owner, k: nat) {
    k in s.vn ==>
      && Live(own, k) && s.vn[k].ino == k && s.vn[k].ref > 0
      && (!s.vn[k].dirty ==> InodeOf(Disk(s, k)) == s.vn[k].inode)
  }

  ghost predicate MapOk(s: State) {
    && |s.disk| == s.nblocks >= MAP_LOCATION + BitBlocks(s.nblocks)
    && (forall b: nat :: MapBit(s, b))
  }

  /** Bits outside the data blocks are never clear. */
  ghost predicate MapBit(s: State, b: nat) {
    && (b in s.used ==> b < BitmapSize(s.nblocks))
    && (b < BitmapSize(s.nblocks) && !DataBlock(s.nblocks, b) ==> b in s.used)
  }

  ghost predicate Blocks(s: State, own: Owner) {
    && MapOk(s)
    && (forall b :: BlockOk(s, own, b))
    && (forall k, t :: SlotOk(s, own, k, t))
    && (forall k :: VnodeOk(s, own, k))
  }

  /** Marked data blocks nobody owns. */
  ghost function Leaked(s: State, own: Owner): set<nat> {
    set b | b in s.used && DataBlock(s.nblocks, b) && b !in own
  }

  ghost function Leakage(s: State, own: Owner): nat { |Leaked(s, own)| }

  lemma LeakOneMore(s: State, own: Owner, s': State, own': Owner, b: nat)
    requires Leaked(s', own') == Leaked(s, own) + {b} && b !in Leaked(s, own)
    ensures Leakage(s', own') == Leakage(s, own) + 1
  {
  }

  lemma LeakOneLess(s: State, own: Owner, s': State, own': Owner, b: nat)
    requires Leaked(s', own') == Leaked(s, own) - {b} && b in Leaked(s, own)
    ensures Leakage(s', own') == Leakage(s, own) - 1
  {
    assert Leaked(s, own) == Leaked(s', own') + {b};
  }

  lemma OwnedBound(s: State, own: Owner, b: nat)
    requires Blocks(s, own) && b in own
    ensures 0 < b < |s.disk| && b in s.used && DataBlock(s.nblocks, b)
    ensures Live(own, own[b].0)
  {
    assert BlockOk(s, own, b);
  }

  /** Two slots never name the same block. */
  lemma OneOwner(s: State, own: Owner, k: nat, t: nat, k': nat, t': nat)
    requires Blocks(s, own) && Live(own, k) && Live(own, k') && t < NSLOTS && t' < NSLOTS
    requires Slot(s, k, t) == Slot(s, k', t') != 0
    ensures k == k' && t == t'
  {
    assert SlotOk(s, own, k, t) && SlotOk(s, own, k', t');
  }

  lemma SlotOwned(s: State, own: Owner, k: nat, t: nat)
    requires Blocks(s, own) && Live(own, k) && t < NSLOTS && Slot(s, k, t) != 0
    ensures var b := Slot(s, k, t);
      b in own && own[b] == (k, t) && 0 < b < |s.disk| && b in s.used && DataBlock(s.nblocks, b)
  {
    assert SlotOk(s, own, k, t);
    OwnedBound(s, own, Slot(s, k, t));
  }

  lemma LoadedLive(s: State, own: Owner, k: nat)
    requires Blocks(s, own) && k in s.vn
    ensures Live(own, k) && s.vn[k].ino == k
  {
    assert VnodeOk(s, own, k);
  }

  lemma LeakNotLoaded(s: State, own: Owner, b: nat)
    requires Blocks(s, own) && b !in own
    ensures b !in s.vn
  {
    assert VnodeOk(s, own, b);
  }

  // What stays the same

  ghost predicate Untouched(s: State, own: Owner, s': State, own': Owner) {
    s' == s && own' == own
  }

  /** Inode k reads the same in both states. */
  ghost predicate SameFile(s: State, s': State, k: nat) {
    && Node(s', k) == Node(s, k)
    && (forall t: nat :: t < NSLOTS ==> Slot(s', k, t) == Slot(s, k, t))
    && (forall fb: nat :: FBlock(s', k, fb) == FBlock(s, k, fb))
  }

  /** Nothing a live inode reads changes when only unowned blocks are written. */
  lemma UnownedWrite(s: State, own: Owner, s': State, k: nat)
    requires Blocks(s, own) && Live(own, k)
    requires s'.vn == s.vn && |s'.disk| == |s.disk|
    requires forall b: nat :: b in own && b < |s.disk| ==> s'.disk[b] == s.disk[b]
    ensures SameFile(s, s', k)
  {
    OwnedBound(s, own, k);
    var ind := Node(s, k).indirect;
    if ind != 0 { SlotOwned(s, own, k, IND); }
    forall fb: nat ensures FBlock(s', k, fb) == FBlock(s, k, fb) {
      if fb < MAXBLOCKS && Slot(s, k, fb) != 0 { SlotOwned(s, own, k, fb); }
    }
  }

  /** Ownership depends on the slots and the map only. */
  lemma BlocksFrame(s: State, own: Owner, s': State)
    requires Blocks(s, own)
    requires s'.nblocks == s.nblocks && |s'.disk| == |s.disk|
    requires s.used <= s'.used && forall b: nat :: MapBit(s', b)
    requires forall k, t: nat :: Live(own, k) && t < NSLOTS ==> Slot(s', k, t) == Slot(s, k, t)
    requires forall k :: VnodeOk(s', own, k)
    ensures Blocks(s', own)
  {
    forall b ensures BlockOk(s', own, b) { assert BlockOk(s, own, b); }
    forall k, t ensures SlotOk(s', own, k, t) { assert SlotOk(s, own, k, t); }
  }

  /** The same vnodes are loaded with the same references, changed ones are
      dirty, and neither inode blocks nor the reserved blocks are written. */
  ghost predicate SameTable(s: State, s': State) {
    && s'.nblocks == s.nblocks && |s'.disk| == |s.disk| && s'.vn.Keys == s.vn.Keys
    && (forall k: nat :: VnodeSame(s, s', k))
    && (forall b: nat :: ReservedSame(s, s', b))
  }

  ghost predicate VnodeSame(s: State, s': State, k: nat) {
    k in s.vn && k in s'.vn ==>
      && s'.vn[k].ino == s.vn[k].ino && s'.vn[k].ref == s.vn[k].ref
      && (s'.vn[k].dirty || s'.vn[k] == s.vn[k])
      && Disk(s', k) == Disk(s, k)
  }

  ghost predicate ReservedSame(s: State, s': State, b: nat) {
    !DataBlock(s.nblocks, b) ==> Disk(s', b) == Disk(s, b)
  }

  lemma TableVnodes(s: State, own: Owner, s': State)
    requires Blocks(s, own) && SameTable(s, s')
    ensures forall k :: VnodeOk(s', own, k)
  {
    forall k ensures VnodeOk(s', own, k) { assert VnodeOk(s, own, k) && (k >= 0 ==> VnodeSame(s, s', k)); }
  }

  /** Writing blocks that are data and no inode's own keeps the table. */
  lemma TableDisk(s: State, own: Owner, s': State, b: nat)
    requires Blocks(s, own) && b < |s.disk| && DataBlock(s.nblocks, b) && !Live(own, b)
    requires s'.vn == s.vn && s'.nblocks == s.nblocks && |s'.disk| == |s.disk|
    requires forall x: nat :: x < |s.disk| && x != b ==> s'.disk[x] == s.disk[x]
    ensures SameTable(s, s')
  {
    forall k: nat ensures VnodeSame(s, s', k) { assert VnodeOk(s, own, k); }
    forall x: nat ensures ReservedSame(s, s', x) {}
  }

  // Allocation

  /** sfs_balloc: mark a free block and clear it. */
  function Alloc(s: State, b: nat, z: Block): State
    requires b < |s.disk|
  {
    State(s.nblocks, s.disk[b := z], s.used + {b}, s.vn)
  }

  /** A free block is nobody's, so marking and clearing it changes no file. */
  lemma AllocOk(s: State, own: Owner, b: nat, z: Block)
    requires Blocks(s, own) && b !in s.used && b < BitmapSize(s.nblocks)
    ensures DataBlock(s.nblocks, b) && 0 < b < |s.disk| && b !in own
    ensures Blocks(Alloc(s, b, z), own)
    ensures forall k: nat :: Live(own, k) ==> SameFile(s, Alloc(s, b, z), k)
    ensures Leaked(Alloc(s, b, z), own) == Leaked(s, own) + {b}
    ensures SameTable(s, Alloc(s, b, z))
  {
    assert BlockOk(s, own, b) && MapBit(s, b);
    var s' := Alloc(s, b, z);
    forall k: nat | Live(own, k) ensures SameFile(s, s', k) { UnownedWrite(s, own, s', k); }
    TableDisk(s, own, s', b);
    TableVnodes(s, own, s');
    forall x: nat ensures MapBit(s', x) { assert MapBit(s, x) && MapBit(s, b); }
    forall k, t: nat | Live(own, k) && t < NSLOTS ensures Slot(s', k, t) == Slot(s, k, t) {
      assert SameFile(s, s', k);
    }
    BlocksFrame(s, own, s');
  }

  // Giving a block an owner

  /** Slot t of k turns from nothing into block b; every other slot stays. */
  ghost predicate Links(s: State, s': State, own: Owner, k: nat, t: nat, b: nat) {
    && s'.nblocks == s.nblocks && |s'.disk| == |s.disk| && s'.used == s.used
    && s'.vn.Keys == s.vn.Keys
    && Live(own, k) && t < SELF && Slot(s, k, t) == 0 && b in Leaked(s, own)
    && (forall k', t': nat :: Live(own, k') && t' < NSLOTS ==>
          Slot(s', k', t') == if k' == k && t' == t then b else Slot(s, k', t'))
  }

  lemma LinkOk(s: State, s': State, own: Owner, k: nat, t: nat, b: nat)
    requires Blocks(s, own) && Links(s, s', own, k, t, b)
    requires forall k :: VnodeOk(s', own, k)
    ensures Blocks(s', own[b := (k, t)])
    ensures Leaked(s', own[b := (k, t)]) == Leaked(s, own) - {b}
    ensures forall x: nat :: Live(own[b := (k, t)], x) <==> Live(own, x)
  {
    var own' := own[b := (k, t)];
    forall x: nat ensures Live(own', x) <==> Live(own, x) {}
    forall x: nat ensures MapBit(s', x) { assert MapBit(s, x); }
    forall x ensures BlockOk(s', own', x) { assert BlockOk(s, own, x); }
    forall x, y ensures SlotOk(s', own', x, y) { assert SlotOk(s, own, x, y); }
    forall x ensures VnodeOk(s', own', x) { assert VnodeOk(s', own, x); }
  }

  // Taking blocks away from a file

  /** The slots of k in `ts` become empty and their blocks free. */
  ghost predicate Unlinks(s: State, s': State, own: Owner, k: nat, ts: set<nat>) {
    && s'.nblocks == s.nblocks && |s'.disk| == |s.disk|
    && s'.vn.Keys == s.vn.Keys
    && Live(own, k) && (forall t: nat :: t in ts ==> t < SELF)
    && s'.used == s.used - (set t | t in ts :: Slot(s, k, t))
    && (forall t: nat :: t in ts ==> Slot(s, k, t) != 0)
    && (forall k', t': nat :: Live(own, k') && t' < NSLOTS ==>
          Slot(s', k', t') == if k' == k && t' in ts then 0 else Slot(s, k', t'))
  }

  function Disown(own: Owner, k: nat, ts: set<nat>): Owner {
    map b | b in own && !(own[b].0 == k && own[b].1 in ts) :: own[b]
  }

  lemma UnlinkOk(s: State, s': State, own: Owner, k: nat, ts: set<nat>)
    requires Blocks(s, own) && Unlinks(s, s', own, k, ts)
    requires forall k :: VnodeOk(s', own, k)
    ensures Blocks(s', Disown(own, k, ts))
    ensures Leaked(s', Disown(own, k, ts)) == Leaked(s, own)
    ensures forall x: nat :: Live(Disown(own, k, ts), x) <==> Live(own, x)
  {
    var own' := Disown(own, k, ts);
    forall x: nat ensures Live(own', x) <==> Live(own, x) { UnlinkLive(own, k, ts, x); }
    forall x ensures BlockOk(s', own', x) { UnlinkBlock(s, s', own, k, ts, x); }
    forall x, y ensures SlotOk(s', own', x, y) { UnlinkSlot(s, s', own, k, ts, x, y); }
    forall x ensures VnodeOk(s', own', x) { assert VnodeOk(s', own, x); UnlinkLive(own, k, ts, x); }
    forall x ensures x in Leaked(s', own') <==> x in Leaked(s, own) { UnlinkLeak(s, s', own, k, ts, x); }
    UnlinkMap(s, s', own, k, ts);
  }

  lemma UnlinkLive(own: Owner, k: nat, ts: set<nat>, x: nat)
    requires forall t: nat :: t in ts ==> t < SELF
    ensures Live(Disown(own, k, ts), x) <==> Live(own, x)
  {
    assert SELF !in ts;
  }

  lemma UnlinkSlot(s: State, s': State, own: Owner, k: nat, ts: set<nat>, x: nat, y: nat)
    requires Blocks(s, own) && Unlinks(s, s', own, k, ts)
    ensures SlotOk(s', Disown(own, k, ts), x, y)
  {
    assert SlotOk(s, own, x, y);
    UnlinkLive(own, k, ts, x);
  }

  lemma UnlinkMap(s: State, s': State, own: Owner, k: nat, ts: set<nat>)
    requires Blocks(s, own) && Unlinks(s, s', own, k, ts)
    ensures MapOk(s')
  {
    forall b: nat ensures MapBit(s', b) {
      assert MapBit(s, b);
      if !DataBlock(s.nblocks, b) {
        forall t: nat | t in ts ensures Slot(s, k, t) != b { SlotOwned(s, own, k, t); }
      }
    }
  }

  lemma UnlinkBlock(s: State, s': State, own: Owner, k: nat, ts: set<nat>, x: nat)
    requires Blocks(s, own) && Unlinks(s, s', own, k, ts)
    ensures BlockOk(s', Disown(own, k, ts), x)
  {
    assert BlockOk(s, own, x);
    if x in Disown(own, k, ts) {
      var k', t' := own[x].0, own[x].1;
      assert BlockOk(s, own, k');
      assert k' in Disown(own, k, ts);
      forall t: nat | t in ts ensures Slot(s, k, t) != x { assert SlotOk(s, own, k, t); }
    }
  }

  lemma UnlinkLeak(s: State, s': State, own: Owner, k: nat, ts: set<nat>, x: nat)
    requires Blocks(s, own) && Unlinks(s, s', own, k, ts)
    ensures x in Leaked(s', Disown(own, k, ts)) <==> x in Leaked(s, own)
  {
    assert BlockOk(s, own, x);
    forall t: nat | t in ts ensures Slot(s, k, t) in own && own[Slot(s, k, t)] == (k, t) {
      assert SlotOk(s, own, k, t);
    }
    if x in own && x !in Disown(own, k, ts) {
      assert x == Slot(s, k, own[x].1);
    }
  }

  // The changes sfs_bmap and sfs_io make

  /** The in-memory inode of k replaced and marked dirty. */
  function SetNode(s: State, k: nat, i: Inode): State
    requires k in s.vn
  {
    State(s.nblocks, s.disk, s.used, s.vn[k := Vnode(s.vn[k].ino, i, true, s.vn[k].ref)])
  }

  function SetDisk(s: State, b: nat, data: Block): State
    requires b < |s.disk|
  {
    State(s.nblocks, s.disk[b := data], s.used, s.vn)
  }

  ghost predicate SameData(s: State, s': State, k: nat) {
    forall fb: nat :: FBlock(s', k, fb) == FBlock(s, k, fb)
  }

  /** Type, size and link count of an inode. */
  ghost predicate SameMeta(s: State, s': State, k: nat) {
    var i, i' := Node(s, k), Node(s', k);
    i'.size == i.size && i'.kind == i.kind && i'.links == i.links
  }

  /** Slot t of inode k gets the cleared block b, and no file reads differently. */
  ghost predicate Grown(s: State, own: Owner, s': State, k: nat, t: nat, b: nat) {
    && Blocks(s', own[b := (k, t)])
    && SameTable(s, s')
    && (forall x: nat :: Live(own[b := (k, t)], x) <==> Live(own, x))
    && Leaked(s', own[b := (k, t)]) == Leaked(s, own) - {b}
    && (forall x: nat :: Live(own, x) ==> SameData(s, s', x) && SameMeta(s, s', x))
    && Slot(s', k, t) == b
  }

  /** Other inodes do not notice a change of k's in-memory inode. */
  lemma OtherNode(s: State, own: Owner, k: nat, i: Inode, x: nat)
    requires k in s.vn && x != k
    ensures SameFile(s, SetNode(s, k, i), x)
  {
  }

  /** A slot that keeps its block, or gets a cleared one for none, reads the same. */
  lemma SameBlock(s: State, s': State, x: nat, fb: nat)
    requires fb < MAXBLOCKS
    requires
      var c, c' := Slot(s, x, fb), Slot(s', x, fb);
      if c == 0 then c' == 0 || AllZero(Disk(s', c')) else c' == c && Disk(s', c) == Disk(s, c)
    ensures FBlock(s', x, fb) == FBlock(s, x, fb)
  {
    if Slot(s, x, fb) == 0 && Slot(s', x, fb) != 0 { AllZeroIs(Disk(s', Slot(s', x, fb))); }
  }

  /** `skip` is the one owned block whose bytes may have changed: k's indirect block. */
  lemma LinkedData(s: State, s': State, own: Owner, k: nat, t: nat, b: nat, skip: nat, x: nat)
    requires Blocks(s, own) && Links(s, s', own, k, t, b) && Live(own, x)
    requires AllZero(Disk(s', b)) && (skip in own ==> own[skip] == (k, IND))
    requires forall y: nat :: y in own && y != skip ==> Disk(s', y) == Disk(s, y)
    ensures SameData(s, s', x)
  {
    forall fb: nat ensures FBlock(s', x, fb) == FBlock(s, x, fb) {
      if fb < MAXBLOCKS {
        if Slot(s, x, fb) != 0 { SlotOwned(s, own, x, fb); }
        SameBlock(s, s', x, fb);
      }
    }
  }

  lemma GrowLinked(s: State, s': State, own: Owner, k: nat, t: nat, b: nat, skip: nat)
    requires Blocks(s, own) && Links(s, s', own, k, t, b) && SameTable(s, s')
    requires AllZero(Disk(s', b)) && (skip in own ==> own[skip] == (k, IND))
    requires forall y: nat :: y in own && y != skip ==> Disk(s', y) == Disk(s, y)
    requires forall x: nat :: Live(own, x) ==> SameMeta(s, s', x)
    ensures Grown(s, own, s', k, t, b)
  {
    TableVnodes(s, own, s');
    LinkOk(s, s', own, k, t, b);
    forall x: nat | Live(own, x) ensures SameData(s, s', x) { LinkedData(s, s', own, k, t, b, skip, x); }
  }

  lemma GrowDirect(s: State, own: Owner, k: nat, t: nat, b: nat)
    requires Blocks(s, own) && k in s.vn && t < NDIRECT && Node(s, k).direct[t] == 0
    requires b in Leaked(s, own) && b < 0x1_0000_0000 && AllZero(Disk(s, b))
    ensures var i := Node(s, k);
      Grown(s, own, SetNode(s, k, i.(direct := i.direct[t := b])), k, t, b)
  {
    var i := Node(s, k);
    var s' := SetNode(s, k, i.(direct := i.direct[t := b]));
    assert VnodeOk(s, own, k) && BlockOk(s, own, 0);
    forall x: nat, y: nat | Live(own, x) && y < NSLOTS
      ensures Slot(s', x, y) == if x == k && y == t then b else Slot(s, x, y)
    {
      if x != k { OtherNode(s, own, k, s'.vn[k].inode, x); }
    }
    GrowLinked(s, s', own, k, t, b, 0);
  }

  lemma ZeroEntries(s: State, b: nat, j: nat)
    requires j < DBPERIDB && (b == 0 || AllZero(Disk(s, b)))
    ensures Entries(s, b)[j] == 0
  {
    if b != 0 { ZeroWords(Disk(s, b)); }
  }

  lemma BlankEntries(s: State, b: nat)
    requires AllZero(Disk(s, b))
    ensures Entries(s, b) == seq(DBPERIDB, _ => 0)
  {
    forall j | 0 <= j < DBPERIDB ensures Entries(s, b)[j] == 0 { ZeroEntries(s, b, j); }
  }

  lemma IndirectSlot(s: State, own: Owner, k: nat, b: nat, x: nat, y: nat)
    requires Blocks(s, own) && k in s.vn && Node(s, k).indirect == 0 && y < NSLOTS
    requires b < 0x1_0000_0000 && AllZero(Disk(s, b))
    ensures Slot(SetNode(s, k, Node(s, k).(indirect := b)), x, y) == if x == k && y == IND then b else Slot(s, x, y)
  {
    var s' := SetNode(s, k, Node(s, k).(indirect := b));
    if x == k {
      if NDIRECT <= y < MAXBLOCKS {
        ZeroEntries(s', b, y - NDIRECT);
        ZeroEntries(s, 0, y - NDIRECT);
      }
    } else {
      OtherNode(s, own, k, s'.vn[k].inode, x);
    }
  }

  lemma GrowIndirect(s: State, own: Owner, k: nat, b: nat)
    requires Blocks(s, own) && k in s.vn && Node(s, k).indirect == 0
    requires b in Leaked(s, own) && b < 0x1_0000_0000 && AllZero(Disk(s, b))
    ensures Grown(s, own, SetNode(s, k, Node(s, k).(indirect := b)), k, IND, b)
  {
    var s' := SetNode(s, k, Node(s, k).(indirect := b));
    assert VnodeOk(s, own, k) && BlockOk(s, own, 0);
    forall x: nat, y: nat | Live(own, x) && y < NSLOTS
      ensures Slot(s', x, y) == if x == k && y == IND then b else Slot(s, x, y)
    {
      IndirectSlot(s, own, k, b, x, y);
    }
    GrowLinked(s, s', own, k, IND, b, 0);
  }

  /** Writing k's indirect block changes k's entries and nothing else. */
  lemma WriteEntries(s: State, own: Owner, k: nat, w: Words, x: nat, y: nat)
    requires Blocks(s, own) && Live(own, k) && Node(s, k).indirect != 0 && Live(own, x) && y < NSLOTS
    ensures Node(s, k).indirect < |s.disk|
    ensures var s' := SetDisk(s, Node(s, k).indirect, BytesOf(w));
      && Node(s', x) == Node(s, x)
      && Slot(s', x, y) == if x == k && NDIRECT <= y < MAXBLOCKS then w[y - NDIRECT] else Slot(s, x, y)
  {
    var ind := Node(s, k).indirect;
    SlotOwned(s, own, k, IND);
    OwnedBound(s, own, x);
    WordsRoundTrip(w);
    if Node(s, x).indirect != 0 { SlotOwned(s, own, x, IND); }
  }

  lemma GrowEntry(s: State, own: Owner, k: nat, j: nat, b: nat)
    requires Blocks(s, own) && k in s.vn && Node(s, k).indirect != 0
    requires j < DBPERIDB && Slot(s, k, NDIRECT + j) == 0
    requires b in Leaked(s, own) && b < 0x1_0000_0000 && AllZero(Disk(s, b))
    ensures Node(s, k).indirect < |s.disk|
    ensures var ind := Node(s, k).indirect;
      Grown(s, own, SetDisk(s, ind, BytesOf(WordsOf(Disk(s, ind))[j := b])), k, NDIRECT + j, b)
  {
    assert VnodeOk(s, own, k);
    var ind := Node(s, k).indirect;
    SlotOwned(s, own, k, IND);
    var w := WordsOf(Disk(s, ind))[j := b];
    var s' := SetDisk(s, ind, BytesOf(w));
    forall x: nat, y: nat | Live(own, x) && y < NSLOTS
      ensures Slot(s', x, y) == if x == k && y == NDIRECT + j then b else Slot(s, x, y)
    {
      WriteEntries(s, own, k, w, x, y);
    }
    forall x: nat | Live(own, x) ensures SameMeta(s, s', x) { WriteEntries(s, own, k, w, x, SELF); }
    TableDisk(s, own, s', ind);
    GrowLinked(s, s', own, k, NDIRECT + j, b, ind);
  }

  /** Writing a mapped data block changes that block of that file only. */
  lemma DataWrite(s: State, own: Owner, s': State, k: nat, fb: nat, data: Block)
    requires Blocks(s, own) && Live(own, k) && fb < MAXBLOCKS && 0 < Slot(s, k, fb) < |s.disk|
    requires s' == SetDisk(s, Slot(s, k, fb), data)
    ensures Blocks(s', own) && Leaked(s', own) == Leaked(s, own) && SameTable(s, s')
    ensures forall x: nat :: Live(own, x) ==> BlockSet(s, s', k, fb, data, x)
  {
    SlotOwned(s, own, k, fb);
    forall x: nat, y: nat | Live(own, x) && y < NSLOTS ensures Slot(s', x, y) == Slot(s, x, y) {
      DataWriteSlot(s, own, k, fb, data, x, y);
    }
    TableDisk(s, own, s', Slot(s, k, fb));
    TableVnodes(s, own, s');
    forall x: nat ensures MapBit(s', x) { assert MapBit(s, x); }
    BlocksFrame(s, own, s');
    forall x: nat | Live(own, x) ensures BlockSet(s, s', k, fb, data, x) { DataWriteFile(s, own, s', k, fb, data, x); }
  }

  /** Inode x when block fb of file k became `data`. */
  ghost predicate BlockSet(s: State, s': State, k: nat, fb: nat, data: Block, x: nat) {
    && Node(s', x) == Node(s, x)
    && forall y: nat :: FBlock(s', x, y) == if x == k && y == fb then data else FBlock(s, x, y)
  }

  lemma DataWriteFile(s: State, own: Owner, s': State, k: nat, fb: nat, data: Block, x: nat)
    requires Blocks(s, own) && Live(own, k) && fb < MAXBLOCKS && 0 < Slot(s, k, fb) < |s.disk|
    requires s' == SetDisk(s, Slot(s, k, fb), data) && Live(own, x)
    ensures BlockSet(s, s', k, fb, data, x)
  {
    SlotOwned(s, own, k, fb);
    DataWriteSlot(s, own, k, fb, data, x, SELF);
    forall y: nat ensures FBlock(s', x, y) == if x == k && y == fb then data else FBlock(s, x, y) {
      if y < MAXBLOCKS {
        DataWriteSlot(s, own, k, fb, data, x, y);
        if Slot(s, x, y) != 0 { SlotOwned(s, own, x, y); }
      }
    }
  }

  lemma DataWriteSlot(s: State, own: Owner, k: nat, fb: nat, data: Block, x: nat, y: nat)
    requires Blocks(s, own) && Live(own, k) && fb < MAXBLOCKS && Slot(s, k, fb) != 0 && Live(own, x) && y < NSLOTS
    ensures Slot(s, k, fb) < |s.disk|
    ensures var s' := SetDisk(s, Slot(s, k, fb), data);
      Node(s', x) == Node(s, x) && Slot(s', x, y) == Slot(s, x, y)
  {
    SlotOwned(s, own, k, fb);
    OwnedBound(s, own, x);
    if Node(s, x).indirect != 0 { SlotOwned(s, own, x, IND); }
  }

  // Changes that no file notices

  /** Blocks may have been allocated and attached; every live file reads the same. */
  ghost predicate Extends(s: State, own: Owner, s': State, own': Owner) {
    && SameTable(s, s')
    && (forall x: nat :: SameAt(s, own, s', own', x))
  }

  ghost predicate SameAt(s: State, own: Owner, s': State, own': Owner, x: nat) {
    && (Live(own', x) <==> Live(own, x))
    && (Live(own, x) ==> SameData(s, s', x) && SameMeta(s, s', x))
  }

  lemma TableTrans(s: State, s1: State, s2: State)
    requires SameTable(s, s1) && SameTable(s1, s2)
    ensures SameTable(s, s2)
  {
    forall k: nat ensures VnodeSame(s, s2, k) { assert VnodeSame(s, s1, k) && VnodeSame(s1, s2, k); }
    forall b: nat ensures ReservedSame(s, s2, b) { assert ReservedSame(s, s1, b) && ReservedSame(s1, s2, b); }
  }

  lemma ExtendsTrans(s: State, own: Owner, s1: State, own1: Owner, s2: State, own2: Owner)
    requires Extends(s, own, s1, own1) && Extends(s1, own1, s2, own2)
    ensures Extends(s, own, s2, own2)
  {
    TableTrans(s, s1, s2);
    forall x: nat ensures SameAt(s, own, s2, own2, x) {
      assert SameAt(s, own, s1, own1, x) && SameAt(s1, own1, s2, own2, x);
    }
  }

  lemma AllocExtends(s: State, own: Owner, b: nat, z: Block)
    requires Blocks(s, own) && b !in s.used && b < BitmapSize(s.nblocks)
    ensures b < |s.disk| && Extends(s, own, Alloc(s, b, z), own)
  {
    AllocOk(s, own, b, z);
    forall x: nat ensures SameAt(s, own, Alloc(s, b, z), own, x) {
      assert Live(own, x) ==> SameFile(s, Alloc(s, b, z), x);
    }
  }

  lemma AllocSlots(s: State, own: Owner, b: nat, z: Block, k: nat)
    requires Blocks(s, own) && b !in s.used && b < BitmapSize(s.nblocks) && k in s.vn
    ensures b < |s.disk| && Disk(Alloc(s, b, z), b) == z
    ensures SameFile(s, Alloc(s, b, z), k)
  {
    AllocOk(s, own, b, z);
    assert VnodeOk(s, own, k);
  }

  /** An allocation elsewhere leaves the entries of k's indirect block alone. */
  lemma SameEntries(s: State, s': State, own: Owner, k: nat)
    requires SameFile(s, s', k)
    ensures Slot(s', k, IND) == Slot(s, k, IND) && Entries(s', Slot(s, k, IND)) == Entries(s, Slot(s, k, IND))
  {
    var e, e' := Entries(s, Slot(s, k, IND)), Entries(s', Slot(s, k, IND));
    forall j | 0 <= j < DBPERIDB ensures e'[j] == e[j] {
      assert Slot(s', k, NDIRECT + j) == Slot(s, k, NDIRECT + j);
    }
  }

  lemma MarkSame(s: State, s': State, k: nat)
    requires s'.disk == s.disk && s'.vn == s.vn
    ensures SameFile(s, s', k)
  {
    assert Node(s', k) == Node(s, k);
    assert forall b: nat :: Disk(s', b) == Disk(s, b);
  }

  lemma MarkTable(s: State, s': State)
    requires s'.disk == s.disk && s'.vn == s.vn && s'.nblocks == s.nblocks
    ensures SameTable(s, s')
  {
    forall k: nat ensures VnodeSame(s, s', k) {}
    forall b: nat ensures ReservedSame(s, s', b) {}
  }

  /** A marked block that was never cleared is only a leak. */
  lemma MarkOk(s: State, own: Owner, b: nat)
    requires Blocks(s, own) && b !in s.used && b < BitmapSize(s.nblocks)
    ensures var s' := State(s.nblocks, s.disk, s.used + {b}, s.vn);
      Blocks(s', own) && Extends(s, own, s', own) && Leaked(s', own) == Leaked(s, own) + {b}
  {
    var s' := State(s.nblocks, s.disk, s.used + {b}, s.vn);
    assert BlockOk(s, own, b);
    MarkTable(s, s');
    TableVnodes(s, own, s');
    forall x: nat ensures SameAt(s, own, s', own, x) { MarkSame(s, s', x); }
    forall k, t: nat | Live(own, k) && t < NSLOTS ensures Slot(s', k, t) == Slot(s, k, t) {
      MarkSame(s, s', k);
    }
    forall x: nat ensures MapBit(s', x) { assert MapBit(s, x) && MapBit(s, b); }
    BlocksFrame(s, own, s');
  }

  lemma GrownExtends(s: State, own: Owner, s': State, k: nat, t: nat, b: nat)
    requires Grown(s, own, s', k, t, b)
    ensures Extends(s, own, s', own[b := (k, t)])
  {
    var own' := own[b := (k, t)];
    forall x: nat ensures SameAt(s, own, s', own', x) {}
  }

  /** A block marked and cleared: no file notices, and it is the one ownerless more. */
  lemma Allocated(s: State, own: Owner, s': State, b: nat, z: Block)
    requires Blocks(s, own) && b !in s.used && b < BitmapSize(s.nblocks) && b < |s.disk| && s' == Alloc(s, b, z)
    ensures Blocks(s', own) && Extends(s, own, s', own) && b in Leaked(s', own)
    ensures Leakage(s', own) == Leakage(s, own) + 1
  {
    AllocOk(s, own, b, z);
    AllocExtends(s, own, b, z);
    LeakOneMore(s, own, s', own, b);
  }

  /** The entry written: one more block in the file and one less ownerless. */
  lemma EntryAttached(s: State, own: Owner, s': State, k: nat, j: nat, b: nat)
    requires Blocks(s, own) && k in s.vn && 0 < Node(s, k).indirect < |s.disk|
    requires j < DBPERIDB && Slot(s, k, NDIRECT + j) == 0
    requires b in Leaked(s, own) && b < 0x1_0000_0000 && AllZero(Disk(s, b))
    requires s' == SetDisk(s, Node(s, k).indirect, BytesOf(Entries(s, Node(s, k).indirect)[j := b]))
    ensures Blocks(s', own[b := (k, NDIRECT + j)]) && Extends(s, own, s', own[b := (k, NDIRECT + j)])
    ensures Slot(s', k, NDIRECT + j) == b && Leakage(s', own[b := (k, NDIRECT + j)]) == Leakage(s, own) - 1
  {
    GrowEntry(s, own, k, j, b);
    GrownExtends(s, own, s', k, NDIRECT + j, b);
    LeakOneLess(s, own, s', own[b := (k, NDIRECT + j)], b);
  }

  // Giving blocks up

  /** Some owners gave up their blocks, and those are free. */
  ghost predicate Shed(s: State, own: Owner, s': State, own': Owner) {
    && s'.nblocks == s.nblocks && Leaked(s', own') == Leaked(s, own)
    && forall b :: b in own' ==> b in own && own'[b] == own[b]
  }

  lemma ShedTrans(s: State, own: Owner, s1: State, own1: Owner, s2: State, own2: Owner)
    requires Shed(s, own, s1, own1) && Shed(s1, own1, s2, own2)
    ensures Shed(s, own, s2, own2)
  {
  }

  /** None of the blocks of inode k in state s is in use in state s'. */
  ghost predicate AllFreed(s: State, s': State, k: nat) {
    forall t: nat :: t < NSLOTS && Slot(s, k, t) != 0 ==> Slot(s, k, t) !in s'.used
  }

  lemma ShedAll(s: State, own: Owner, s': State, own': Owner, k: nat)
    requires Blocks(s, own) && Blocks(s', own') && Shed(s, own, s', own') && Live(own, k) && !Live(own', k)
    ensures AllFreed(s, s', k)
  {
    forall t: nat | t < NSLOTS && Slot(s, k, t) != 0 ensures Slot(s, k, t) !in s'.used {
      SlotOwned(s, own, k, t);
      assert BlockOk(s', own', Slot(s, k, t));
      assert Slot(s, k, t) !in Leaked(s, own);
    }
  }

  // Counting blocks

  ghost function DataBlocks(nblocks: nat): set<nat> { set b: nat | b < nblocks && DataBlock(nblocks, b) }

  /** The blocks that can still be had. */
  ghost function Free(s: State): set<nat> { set b | b in DataBlocks(s.nblocks) && b !in s.used }

  /** Every data block is free, owned or ownerless. */
  lemma RoomCount(s: State, own: Owner)
    requires Blocks(s, own)
    ensures |DataBlocks(s.nblocks)| == |Free(s)| + |own| + Leakage(s, own)
  {
    var d, taken := DataBlocks(s.nblocks), own.Keys + Leaked(s, own);
    forall b ensures b in own ==> b in d && b in s.used { assert BlockOk(s, own, b); }
    forall b ensures b in Leaked(s, own) ==> b in d && b in s.used { if b in Leaked(s, own) { LeakedBound(s, own, b); } }
    assert d == Free(s) + taken && Free(s) !! taken && own.Keys !! Leaked(s, own);
    assert |own.Keys| == |own|;
  }

  lemma LeakedBound(s: State, own: Owner, b: nat)
    requires Blocks(s, own) && b in Leaked(s, own)
    ensures b < s.nblocks
  {
    assert MapBit(s, b);
  }

  /** Every owner stays, and who is new is a slot in ts of file k. */
  ghost predicate Grows(own: Owner, own': Owner, k: nat, ts: set<nat>) {
    && (forall b :: b in own ==> b in own' && own'[b] == own[b])
    && (forall b :: b in own' && b !in own ==> own'[b].0 == k && own'[b].1 in ts)
  }

  lemma GrowsTrans(own: Owner, own1: Owner, own2: Owner, k: nat, ts: set<nat>, us: set<nat>)
    requires Grows(own, own1, k, ts) && Grows(own1, own2, k, us)
    ensures Grows(own, own2, k, ts + us)
  {
  }

  lemma GrowsMore(own: Owner, own': Owner, k: nat, ts: set<nat>, us: set<nat>)
    requires Grows(own, own', k, ts) && ts <= us
    ensures Grows(own, own', k, us)
  {
  }

  lemma GrowsTwo(own: Owner, own1: Owner, own2: Owner, k: nat, fb: nat)
    requires Grows(own, own1, k, {IND}) && Grows(own1, own2, k, {fb})
    ensures Grows(own, own2, k, {fb, IND})
  {
  }

  /** The slots that getting at block fb of a file may fill. */
  ghost function Path(fb: nat): set<nat> {
    if fb < NDIRECT then {fb} else if fb < MAXBLOCKS then {fb, IND} else {}
  }

  /** The slots that a request for n bytes at off may fill. */
  ghost function Paths(off: nat, n: nat): set<nat> {
    var lo, hi := off / BLOCKSIZE, (off + n + BLOCKSIZE - 1) / BLOCKSIZE;
    (set t: nat | t < MAXBLOCKS && Among(lo, t, hi)) + if hi > NDIRECT then {IND} else {}
  }

  predicate Among(lo: nat, t: nat, hi: nat) { lo <= t < hi }

  /** A piece of the request stays within it. */
  lemma PathWithin(off: nat, n: nat, o: nat)
    requires off <= o && (o < off + n || (o == off && off % BLOCKSIZE != 0))
    ensures Path(o / BLOCKSIZE) <= Paths(off, n)
  {
    var fb, hi := o / BLOCKSIZE, (off + n + BLOCKSIZE - 1) / BLOCKSIZE;
    assert off / BLOCKSIZE <= fb < hi;
    assert Among(off / BLOCKSIZE, fb, hi);
  }

  /** What lies within one block needs no other. */
  lemma PathOne(off: nat, n: nat)
    requires n > 0 && off % BLOCKSIZE + n <= BLOCKSIZE
    ensures Paths(off, n) <= Path(off / BLOCKSIZE) + {IND} && (off / BLOCKSIZE < NDIRECT ==> IND !in Paths(off, n))
  {
    assert (off + n + BLOCKSIZE - 1) / BLOCKSIZE == off / BLOCKSIZE + 1;
    forall t | t in Paths(off, n) ensures t in Path(off / BLOCKSIZE) + {IND} {
      assert t == IND || Among(off / BLOCKSIZE, t, off / BLOCKSIZE + 1);
    }
  }

  /** How many blocks it takes to get at block fb of file k for writing. */
  ghost function Needs(s: State, k: nat, fb: nat): nat {
    if Slot(s, k, fb) != 0 then 0 else if fb < NDIRECT || Slot(s, k, IND) != 0 then 1 else 2
  }

  /** When block fb of file k was not to be had and nothing is left, there was not enough. */
  lemma TooLittle(s: State, own: Owner, s': State, own': Owner, k: nat, fb: nat)
    requires Blocks(s, own) && Blocks(s', own') && s'.nblocks == s.nblocks && Leakage(s', own') == Leakage(s, own)
    requires Live(own, k) && fb < MAXBLOCKS && Grows(own, own', k, if fb < NDIRECT then {fb} else {fb, IND})
    requires Slot(s', k, fb) == 0 && Free(s') == {}
    ensures |Free(s)| < Needs(s, k, fb)
  {
    RoomCount(s, own);
    RoomCount(s', own');
    var ind := Slot(s', k, IND);
    assert SlotOk(s, own, k, fb) && SlotOk(s, own, k, IND);
    assert BlockOk(s', own', Slot(s, k, fb)) && BlockOk(s', own', Slot(s, k, IND));
    forall b | b in own' && b !in own ensures fb >= NDIRECT && Slot(s, k, IND) == 0 && b == ind {
      assert BlockOk(s', own', b);
    }
    OwnersMore(own, own', ind);
    if fb < NDIRECT || Slot(s, k, IND) != 0 { assert own'.Keys == own.Keys; }
  }

  lemma OwnersMore(own: Owner, own': Owner, x: nat)
    requires forall b :: b in own ==> b in own'
    requires forall b :: b in own' && b !in own ==> b == x
    ensures |own| <= |own'| <= |own| + 1 && (own'.Keys == own.Keys ==> |own'| == |own|)
  {
    assert |own.Keys| == |own| && |own'.Keys| == |own'|;
    assert own'.Keys <= own.Keys + {x} && own.Keys <= own'.Keys;
    Subset(own.Keys, own'.Keys);
    Subset(own'.Keys, own.Keys + {x});
  }

  lemma Subset(a: set<nat>, b: set<nat>)
    requires a <= b
    ensures |a| <= |b|
  {
    assert b == a + (b - a);
  }
}
