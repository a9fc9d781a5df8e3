/** A small volume, and what the kernel does on it where a property fails: a
    truncation is torn, the bytes a truncation cut off come back, and a rename
    kills the kernel. */
module SfsExamples {
  import opened SfsLayout
  import opened SfsState
  import opened SfsTruncate
  import opened SfsDir
  import opened SfsSpec
  import opened Sfs
  import opened SfsOps
  import C = SfsCache
  import I = SfsImage
  import K = SfsMake
  import M = SfsMount
  import R = SfsRun
  import B = Bitmap

  // The disk: superblock, root directory, map, a file, its indirect block, file
  // blocks 15 and 17, and the directory entries

  const FILE: nat := 3
  const NAME: Name := [97]

  ghost function Owners(): Owner {
    map[ROOT := (ROOT, SELF), 7 := (ROOT, 0), FILE := (FILE, SELF), 4 := (FILE, IND), 5 := (FILE, 15), 6 := (FILE, 17)]
  }

  // What a state of this disk looks like

  predicate RootNodeIs(i: Inode) {
    && i.size == 128 && i.kind == TYPE_DIR && i.links == 1 && i.indirect == 0
    && i.direct[0] == 7 && forall t :: 1 <= t < NDIRECT ==> i.direct[t] == 0
  }

  predicate FileNodeIs(i: Inode) {
    && i.size == 9216 && i.kind == TYPE_FILE && i.links == 1 && i.indirect == 4
    && forall t :: 0 <= t < NDIRECT ==> i.direct[t] == 0
  }

  predicate IndirectIs(w: Words) {
    w[0] == 5 && w[2] == 6 && forall j :: 0 <= j < DBPERIDB && j != 0 && j != 2 ==> w[j] == 0
  }

  predicate DirBytesAre(b: Block) {
    EntryOf(b[..DIRSIZE]) == Entry(FILE, NAME) && forall o :: DIRSIZE <= o < BLOCKSIZE ==> b[o] == 0
  }

  predicate Filled(b: Block, x: byte) { forall o :: 0 <= o < BLOCKSIZE ==> b[o] == x }

  predicate Contents(disk: seq<Block>)
    requires |disk| == 8
  {
    && RootNodeIs(InodeOf(disk[ROOT])) && FileNodeIs(InodeOf(disk[FILE]))
    && IndirectIs(WordsOf(disk[4])) && Filled(disk[5], 1) && DirBytesAre(disk[7])
  }

  ghost predicate Small(s: State) {
    && s.nblocks == 8 == |s.disk| && s.vn == map[] && Contents(s.disk)
    && forall b: nat :: b in s.used <==> b < BLOCKBITS
  }

  /** The disk: superblock, root directory, a full map, and what follows. */
  predicate SmallVolume(disk: seq<Block>) {
    && |disk| == 8 && SuperMagic(disk[0]) == SFS_MAGIC && SuperBlocks(disk[0]) == 8
    && Filled(disk[2], 0xff) && Contents(disk)
  }

  method RootBlock() returns (b: Block)
    ensures RootNodeIs(InodeOf(b))
  {
    var direct: seq<u32> := seq(NDIRECT, t => if t == 0 then 7 else 0);
    var i: Inode := Inode(128, TYPE_DIR, 1, direct, 0, seq(110, _ => 0));
    InodeRoundTrip(i);
    b := BlockOf(i);
  }

  method FileBlock() returns (b: Block)
    ensures FileNodeIs(InodeOf(b))
  {
    var i: Inode := Inode(9216, TYPE_FILE, 1, seq(NDIRECT, _ => 0), 4, seq(110, _ => 0));
    InodeRoundTrip(i);
    b := BlockOf(i);
  }

  method IndirectBlock() returns (b: Block)
    ensures IndirectIs(WordsOf(b))
  {
    var w: Words := seq<u32>(DBPERIDB, j => if j == 0 then 5 else if j == 2 then 6 else 0);
    WordsRoundTrip(w);
    b := BytesOf(w);
  }

  method DirBlock() returns (b: Block)
    ensures DirBytesAre(b)
  {
    b := EntryBytes(Entry(FILE, NAME)) + seq(BLOCKSIZE - DIRSIZE, _ => 0);
    assert b[..DIRSIZE] == EntryBytes(Entry(FILE, NAME));
    EntryRoundTrip(Entry(FILE, NAME));
  }

  method FillBlock(x: byte) returns (b: Block)
    ensures Filled(b, x)
  {
    b := seq(BLOCKSIZE, _ => x);
  }

  method MakeVolume() returns (disk: seq<Block>)
    ensures SmallVolume(disk)
  {
    var super := K.SuperOf([], 8);
    K.SuperReads([], 8);
    var root := RootBlock();
    var bits := FillBlock(0xff);
    var file := FileBlock();
    var indirect := IndirectBlock();
    var ones := FillBlock(1);
    var dir := DirBlock();
    disk := [super, root, bits, file, indirect, ones, ones, dir];
  }

  lemma FullMap(disk: seq<Block>, b: nat)
    requires SmallVolume(disk)
    ensures b in M.Image(disk).used <==> b < BLOCKBITS
  {
    assert BitBlocks(8) == 1;
    if b < BLOCKBITS {
      assert I.MapByte(disk, b / 8) == 0xff;
      assert I.DiskMap(8, disk)[b / 8] == B.WORD_ALLBITS;
      B.FullWord(b % 8);
    }
  }

  /** It is mounted as such a state. */
  lemma Described(disk: seq<Block>)
    requires SmallVolume(disk)
    ensures I.Header(8, disk) && M.GoodMagic(disk) && M.Countable(disk) && M.MapFits(disk) && Small(M.Image(disk))
  {
    M.MapBitsExact(8);
    forall b: nat ensures b in M.Image(disk).used <==> b < BLOCKBITS { FullMap(disk, b); }
  }

  // It is in order

  lemma RootSlot(s: State, t: nat)
    requires Small(s)
    ensures Slot(s, ROOT, t) == if t == 0 then 7 else if t == SELF then ROOT else 0
  {
  }

  lemma FileSlot(s: State, t: nat)
    requires Small(s)
    ensures Slot(s, FILE, t) ==
      if t == 15 then 5 else if t == 17 then 6 else if t == IND then 4 else if t == SELF then FILE else 0
  {
  }

  lemma Owned(s: State, b: nat)
    requires Small(s)
    ensures MapBit(s, b) && BlockOk(s, Owners(), b)
  {
    assert DataBlock(8, b) <==> b == ROOT || 3 <= b < 8;
    RootSlot(s, 0);
    RootSlot(s, SELF);
    FileSlot(s, 15);
    FileSlot(s, 17);
    FileSlot(s, IND);
    FileSlot(s, SELF);
  }

  lemma SlotsOwned(s: State, k: nat, t: nat)
    requires Small(s)
    ensures SlotOk(s, Owners(), k, t)
  {
    if k == ROOT {
      RootSlot(s, t);
    } else if k == FILE {
      FileSlot(s, t);
    }
  }

  lemma InBlocks(s: State)
    requires Small(s)
    ensures Blocks(s, Owners())
  {
    var own := Owners();
    forall b: nat ensures MapBit(s, b) { Owned(s, b); }
    forall b: nat ensures BlockOk(s, own, b) { Owned(s, b); }
    forall k: nat, t: nat ensures SlotOk(s, own, k, t) { SlotsOwned(s, k, t); }
    forall k: nat ensures VnodeOk(s, own, k) {}
  }

  lemma DirByte(s: State, o: nat)
    requires Small(s)
    ensures FByte(s, ROOT, o) == if o < BLOCKSIZE then s.disk[7][o] else 0
  {
    RootSlot(s, o / BLOCKSIZE);
  }

  lemma FirstEntry(s: State)
    requires Small(s)
    ensures EntryAt(s, 0) == Entry(FILE, NAME)
  {
    forall j: nat | j < DIRSIZE ensures RawEntry(s, 0)[j] == s.disk[7][j] {
      RawAt(s, 0, j);
      DirByte(s, j);
    }
    assert RawEntry(s, 0) == s.disk[7][..DIRSIZE];
  }

  lemma SecondEntry(s: State)
    requires Small(s)
    ensures EntryAt(s, 1) == Entry(NOINO, [])
  {
    forall j: nat | j < DIRSIZE ensures RawEntry(s, 1)[j] == 0 {
      RawAt(s, 1, j);
      DirByte(s, DIRSIZE + j);
    }
    ZeroEntry(RawEntry(s, 1));
  }

  predicate Listing(d: seq<Entry>) { |d| == 2 && d[0] == Entry(FILE, NAME) && d[1].ino == NOINO }

  lemma Listed(s: State)
    requires Small(s)
    ensures Listing(Dir(s))
  {
    FirstEntry(s);
    SecondEntry(s);
    TabulateAt(SfsDir.Entries(s), 2, 0);
    TabulateAt(SfsDir.Entries(s), 2, 1);
  }

  lemma Counts(d: seq<Entry>, k: nat)
    requires Listing(d)
    ensures k != NOINO ==> Count(d, k) == One(k == FILE)
  {
    assert d == [] + [d[0]] + [d[1]];
    CountAppend([], d[0], k);
    CountAppend([] + [d[0]], d[1], k);
  }

  lemma OneName(d: seq<Entry>, n: Name)
    requires Listing(d)
    ensures Lookup(d, n) == if n == NAME then FILE else NOINO
  {
    assert d[..1][..0] == [] && d[..1][0] == d[0];
    assert Lookup(d, n) == Lookup(d[..1], n);
  }

  lemma InTree(s: State)
    requires Small(s)
    ensures Consistent(s, Owners())
  {
    Listed(s);
    forall o: nat ensures ZeroPast(s, o) { DirByte(s, o); }
    forall i: nat, j: nat ensures NamesDiffer(Dir(s), i, j) {}
    forall k: nat ensures NodeOk(s, Owners(), Dir(s), NOINO, 0, k) { Counts(Dir(s), k); }
  }

  /** The volume mounted, with every request failing that `fault` says. */
  method Boot(fault: nat -> bool) returns (fs: Sfs)
    requires forall i: nat :: i < 5 ==> !fault(i)
    ensures fresh(fs) && fresh(fs.freemap) && fresh(fs.freemap.v) && R.Sound(fs)
    ensures fs.own == Owners() && Small(fs.S()) && fs.fault == fault && fs.faults == 0 && fs.clock == 5
  {
    var disk := MakeVolume();
    Described(disk);
    InBlocks(M.Image(disk));
    InTree(M.Image(disk));
    var e, r, dead := M.Mount(disk, fault, Owners());
    fs := r.value;
  }

  /** The file in memory: two blocks, the first one full of ones. */
  ghost predicate FileOpen(s: State) {
    && FILE in s.vn && Node(s, FILE).size == 9216 && Mapped(s, FILE, 15) && Mapped(s, FILE, 17)
    && FByte(s, FILE, 7700) == 1 && RootUnnamed(s)
  }

  lemma Opens(s: State, s': State)
    requires Small(s) && s' == C.Load(s, FILE) && Dir(s') == Dir(s)
    ensures FileOpen(s')
  {
    LoadedSlot(s, s', 15);
    LoadedSlot(s, s', 17);
    LoadedByte(s, s');
    Listed(s);
    forall n: Name ensures Lookup(Dir(s'), n) != ROOT { OneName(Dir(s), n); }
  }

  lemma LoadedSlot(s: State, s': State, t: nat)
    requires Small(s) && s' == C.Load(s, FILE)
    ensures Slot(s', FILE, t) == Slot(s, FILE, t) && (t == 15 ==> Slot(s, FILE, t) == 5) && (t == 17 ==> Slot(s, FILE, t) == 6)
  {
    assert Node(s', FILE) == Node(s, FILE);
    FileSlot(s, t);
  }

  lemma LoadedByte(s: State, s': State)
    requires Small(s) && s' == C.Load(s, FILE)
    ensures FByte(s', FILE, 7700) == 1
  {
    LoadedSlot(s, s', 15);
    assert 7700 / BLOCKSIZE == 15 && 7700 % BLOCKSIZE < BLOCKSIZE;
  }

  /** The file loaded as sfs_lookup does it. */
  method Open(fault: nat -> bool) returns (fs: Sfs)
    requires forall i: nat :: i < 9 ==> !fault(i)
    ensures fresh(fs) && fresh(fs.freemap) && fresh(fs.freemap.v) && R.Sound(fs)
    ensures fs.own == Owners() && fs.fault == fault && fs.clock == 9 && fs.faults == 0 && FileOpen(fs.S())
  {
    fs := Boot(fault);
    ghost var s := fs.S();
    var e := fs.LoadVnode(FILE);
    TreeQuiet(s, fs.own, fs.S(), NOINO, 0);
    Opens(s, fs.S());
  }

  // What goes wrong

  /** The file has len bytes, as many of the old ones as its blocks hold. */
  ghost predicate Recut(s: State, s': State, len: nat) {
    && Node(s', FILE).size == len
    && forall o: nat :: FByte(s', FILE, o) == if Drops(BlockLen(len), o / BLOCKSIZE) then 0 else FByte(s, FILE, o)
  }

  lemma CutOnce(s: State, own: Owner, s': State, own': Owner, len: nat)
    requires FILE in s.vn && Live(own, FILE) && len < 0x8000_0000 && Effect(s, own, s', own', TruncateOp(FILE, len), true)
    ensures FILE in s'.vn && Recut(s, s', len)
  {
    assert TruncAt(s, own, s', own', FILE, len, FILE);
    forall o: nat { TruncByte(s, own, s', own', FILE, len, o); }
  }

  lemma OneSlot(d: seq<Entry>, i: nat)
    requires Listing(d) && SlotFor(d, i)
    ensures i == 1
  {
  }

  /** There is no reason to refuse another name: it goes into the block at hand. */
  lemma NameFits(s: State, name: Name, e: Err)
    requires Listing(Dir(s)) && Slot(s, ROOT, 0) != 0 && name != NAME && |name| < NAMELEN
    requires LinkErr(s, name, e) && Because(e, true)
    ensures e == Ok
  {
    OneName(Dir(s), name);
    forall i: nat | SlotFor(Dir(s), i) ensures Needs(s, ROOT, i / 8) == 0 { OneSlot(Dir(s), i); }
  }

  lemma RootNamed(s: State, own: Owner, s': State, own': Owner, name: Name)
    requires Listing(Dir(s)) && Slot(s, ROOT, 0) != 0 && name != NAME && |name| < NAMELEN && Effect(s, own, s', own', LinkOp(name, ROOT), true)
    ensures Lookup(Dir(s'), name) == ROOT
  {
    var e: Err :| Because(e, true) && LinkEffect(s, own, s', own', name, ROOT, e);
    NameFits(s, name, e);
  }

  /** The file is truncated to 8192 bytes and the eleventh request fails: the
      indirect block is not written back, and no ownership is right any more. */
  method TornTruncation() returns (fs: Sfs, out: R.Outcome)
    ensures out == R.Torn && TornFile(fs.S(), FILE)
    ensures forall own: Owner :: Live(own, FILE) ==> !Blocks(fs.S(), own)
  {
    fs := Open(i => i == 10);
    assert fs.Tears(fs.S(), FILE, BlockLen(8192), fs.clock);
    var e, torn := R.Cut(fs, FILE, 8192);
    TornBreaks(fs.S(), FILE);
    out := if torn then R.Torn else R.Running;
  }

  method CutClean(fs: Sfs, len: nat) returns (out: R.Outcome)
    requires R.Sound(fs) && fs.Loaded(FILE) && len < 0x8000_0000 && !SomeFault(fs.fault)
    modifies fs, fs.freemap.v
    ensures out == R.Running && R.Sound(fs) && fs.faults == old(fs.faults) && fs.Loaded(FILE)
    ensures Recut(old(fs.S()), fs.S(), len)
  {
    LoadedLive(fs.S(), fs.own, FILE);
    out := R.Step(fs, TruncateOp(FILE, len));
    CutOnce(old(fs.S()), old(fs.own), fs.S(), fs.own, len);
  }

  /** Cut to 7690 bytes and extended again, the file has an old byte at 7700. */
  method OldByte() returns (fs: Sfs, out: R.Outcome)
    ensures out == R.Running && R.Sound(fs) && fs.faults == 0
    ensures Node(fs.S(), FILE).size == 8192 && FByte(fs.S(), FILE, 7700) == 1
  {
    fs := Open(_ => false);
    out := CutClean(fs, 7690);
    out := CutClean(fs, 8192);
  }

  method LinkRoot(fs: Sfs, name: Name) returns (out: R.Outcome)
    requires R.Sound(fs) && Listing(Dir(fs.S())) && Slot(fs.S(), ROOT, 0) != 0 && name != NAME && |name| < NAMELEN && !SomeFault(fs.fault)
    modifies fs, fs.freemap.v
    ensures out == R.Running && R.Sound(fs) && fs.faults == old(fs.faults) && Lookup(Dir(fs.S()), name) == ROOT
  {
    out := R.Step(fs, LinkOp(name, ROOT));
    RootNamed(old(fs.S()), old(fs.own), fs.S(), fs.own, name);
  }

  method RenameRoot(fs: Sfs, n1: Name, n2: Name) returns (out: R.Outcome)
    requires R.Sound(fs) && Lookup(Dir(fs.S()), n1) == ROOT && !SomeFault(fs.fault)
    modifies fs, fs.freemap.v
    ensures out == R.Dead && fs.faults == old(fs.faults)
  {
    out := R.Step(fs, RenameOp(n1, n2));
  }

  /** The root directory is given a name; renaming that name kills the kernel. */
  method DeadRename() returns (fs: Sfs, out: R.Outcome)
    ensures out == R.Dead && fs.faults == 0
  {
    fs := Boot(_ => false);
    out := LinkAndRename(fs, [98], [99]);
  }

  method LinkAndRename(fs: Sfs, n1: Name, n2: Name) returns (out: R.Outcome)
    requires R.Sound(fs) && Small(fs.S()) && n1 != NAME && |n1| < NAMELEN && !SomeFault(fs.fault)
    modifies fs, fs.freemap.v
    ensures out == R.Dead && fs.faults == old(fs.faults)
  {
    Listed(fs.S());
    RootSlot(fs.S(), 0);
    out := LinkRoot(fs, n1);
    out := RenameRoot(fs, n1, n2);
  }
}
