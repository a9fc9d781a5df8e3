/** The directory and vnode operations of SFS: reading, writing and searching
    the root directory, and creat, link, remove, rename and lookup with their
    error paths.  Each says what happens to every name and to every file. */
module SfsOps {
  import opened SfsLayout
  import opened SfsState
  import opened SfsFile
  import opened SfsCache
  import opened SfsView
  import opened SfsDir
  import opened Sfs
  import U = Uio

  /** A volume in order whose root directory the caller holds. */
  ghost predicate Ready(fs: Sfs)
    reads fs, fs.freemap.v
  {
    fs.Valid() && fs.Loaded(ROOT) && Consistent(fs.S(), fs.own)
  }

  // Directory I/O

  /** sfs_readdir: the short-entry panic is unreachable. */
  method ReadDir(fs: Sfs, slot: nat) returns (e: Err, sd: Entry)
    requires fs.Valid() && fs.Loaded(ROOT) && RootOk(fs.S(), fs.own) && slot < |Dir(fs.S())|
    modifies fs, fs.freemap.v
    ensures fs.Valid() && Untouched(old(fs.S()), old(fs.own), fs.S(), fs.own) && Counted(old(fs.faults), fs.faults, e)
      && (e == Ok || e == EIO)
    ensures fs.faults == old(fs.faults) ==> fs.Leakage() == old(fs.Leakage())
    ensures e == Ok ==> sd == Dir(fs.S())[slot]
  {
    RootFits(fs.S(), fs.own);
    var ku := new U.Uio(U.ZeroBytes(DIRSIZE), DIRSIZE * slot, U.Read);
    ghost var a := fs.Now(ku);
    e := fs.Io(ROOT, ku);
    sd := EntryOf(ku.data);
    if e == Ok { SlotRead(a, fs.Now(ku), slot); }
  }

  lemma SlotRead(a: Point, c: Point, slot: nat)
    requires ReadDone(a, c, ROOT, true) && a.offset == DIRSIZE * slot && a.base == 0 && |a.data| == a.resid == DIRSIZE
    requires slot < |Dir(a.s)| && DIRSIZE * |Dir(a.s)| == Node(a.s, ROOT).size
    ensures c.resid == 0 && EntryOf(c.data) == Dir(c.s)[slot]
  {
    EntryRead(c.s, slot, a.data, c.data);
  }

  lemma EntryRead(s: State, slot: nat, data0: seq<byte>, data: seq<byte>)
    requires slot < |Dir(s)| && |data0| == DIRSIZE && HasRead(s, ROOT, DIRSIZE * slot, DIRSIZE, data0, 0, data)
    ensures EntryOf(data) == Dir(s)[slot]
  {
    forall j: nat | j < DIRSIZE ensures data[j] == RawEntry(s, slot)[j] {
      assert ReadAt(s, ROOT, DIRSIZE * slot, DIRSIZE, data0, 0, data, j);
      RawAt(s, slot, j);
    }
    assert data == RawEntry(s, slot);
    TabulateAt(SfsDir.Entries(s), |Dir(s)|, slot);
  }

  /** sfs_writedir: an entry goes in whole or not at all. */
  method WriteDir(fs: Sfs, sd: Entry, slot: nat) returns (e: Err)
    requires fs.Valid() && fs.Loaded(ROOT) && RootOk(fs.S(), fs.own) && slot <= |Dir(fs.S())|
    requires |sd.name| < NAMELEN && 0 !in sd.name
    modifies fs, fs.freemap.v
    ensures fs.Valid() && Counted(old(fs.faults), fs.faults, e) && (e == Ok || e == EIO || e == ENOSPC || e == EINVAL)
    ensures fs.faults == old(fs.faults) ==> fs.Leakage() == old(fs.Leakage())
    ensures e == Ok ==> Rewrote(old(fs.S()), old(fs.own), fs.S(), fs.own, Put(Dir(old(fs.S())), slot, sd))
    ensures e != Ok ==> Lost(old(fs.S()), old(fs.own), fs.S(), fs.own)
    ensures e == EINVAL ==> DIRSIZE * slot == MAXBLOCKS * BLOCKSIZE
    ensures e == ENOSPC ==> |Free(old(fs.S()))| < Needs(old(fs.S()), ROOT, slot / 8)
  {
    RootFits(fs.S(), fs.own);
    var ku := new U.Uio(EntryBytes(sd), DIRSIZE * slot, U.Write);
    ghost var a := fs.Now(ku);
    e := fs.Io(ROOT, ku);
    SlotWritten(a, fs.Now(ku), slot, sd);
    if e == ENOSPC { NoRoom(a.s, a.own, fs.S(), fs.own, slot); }
  }

  lemma NoRoom(s: State, own: Owner, s': State, own': Owner, slot: nat)
    requires Blocks(s, own) && Blocks(s', own') && s'.nblocks == s.nblocks && Leakage(s', own') == Leakage(s, own)
    requires Live(own, ROOT) && Grows(own, own', ROOT, Paths(DIRSIZE * slot, DIRSIZE)) && DIRSIZE * slot / BLOCKSIZE < MAXBLOCKS
    requires Slot(s', ROOT, DIRSIZE * slot / BLOCKSIZE) == 0 && Free(s') == {}
    ensures |Free(s)| < Needs(s, ROOT, slot / 8)
  {
    SlotBlock(slot);
    PathOne(DIRSIZE * slot, DIRSIZE);
    var fb := slot / 8;
    GrowsMore(own, own', ROOT, Paths(DIRSIZE * slot, DIRSIZE), if fb < NDIRECT then {fb} else {fb, IND});
    TooLittle(s, own, s', own', ROOT, fb);
  }

  /** Eight entries make a block. */
  lemma SlotBlock(slot: nat)
    ensures DIRSIZE * slot / BLOCKSIZE == slot / 8 && DIRSIZE * slot % BLOCKSIZE + DIRSIZE <= BLOCKSIZE
  {
    assert DIRSIZE * slot == BLOCKSIZE * (slot / 8) + DIRSIZE * (slot % 8);
  }

  lemma SlotWritten(a: Point, c: Point, slot: nat, sd: Entry)
    requires RootOk(a.s, a.own) && slot <= |Dir(a.s)| && |sd.name| < NAMELEN && 0 !in sd.name && Written(a, c, ROOT)
    requires a.data == EntryBytes(sd) && a.base == 0 && a.offset == DIRSIZE * slot && a.resid == DIRSIZE
    ensures c.faults == a.faults && c.resid == 0 ==> Rewrote(a.s, a.own, c.s, c.own, Put(Dir(a.s), slot, sd))
    ensures c.faults != a.faults || c.resid > 0 ==> Lost(a.s, a.own, c.s, c.own)
    ensures c.resid == 0 || c.offset == a.offset
  {
    var bytes := c.data[a.base..c.base];
    WholeEntry(slot, |bytes|);
    WriteDone(a.s, a.own, c.s, c.own, slot, sd, bytes, c.faults == a.faults);
  }

  /** The last free slot, -1 if there is none. */
  ghost predicate LastFree(d: seq<Entry>, n: nat, slot: int) {
    && -1 <= slot < n <= |d|
    && (slot >= 0 ==> d[slot].ino == NOINO)
    && (forall j :: slot < j < n ==> d[j].ino != NOINO)
  }

  /** What the search knows after n slots. */
  ghost predicate Scanned(d: seq<Entry>, n: nat, name: Name, found: bool, ino: nat, slot: nat, emptyslot: int) {
    && LastFree(d, n, emptyslot)
    && (found ==> slot < n && d[slot].name == name && d[slot].ino == ino != NOINO)
    && (!found ==> forall j :: 0 <= j < n && d[j].ino != NOINO ==> d[j].name != name)
  }

  lemma ScanStep(d: seq<Entry>, n: nat, name: Name, found: bool, ino: nat, slot: nat, emptyslot: int)
    requires Scanned(d, n, name, found, ino, slot, emptyslot) && n < |d| && UniqueNames(d)
    ensures d[n].ino == NOINO ==> Scanned(d, n + 1, name, found, ino, slot, n)
    ensures d[n].ino != NOINO && d[n].name == name ==> !found && Scanned(d, n + 1, name, true, d[n].ino, n, emptyslot)
    ensures d[n].ino != NOINO && d[n].name != name ==> Scanned(d, n + 1, name, found, ino, slot, emptyslot)
  {
    assert NamesDiffer(d, slot, n);
  }

  lemma ScanDone(d: seq<Entry>, name: Name, found: bool, ino: nat, slot: nat, emptyslot: int)
    requires Scanned(d, |d|, name, found, ino, slot, emptyslot) && UniqueNames(d)
    ensures Lookup(d, name) == if found then ino else NOINO
  {
    if found { LookupAt(d, slot, name); } else { LookupNone(d, name); }
  }

  /** sfs_dir_findname: each name appears once, so the assertion holds. */
  method FindName(fs: Sfs, name: Name) returns (e: Err, ino: nat, slot: nat, emptyslot: int)
    requires fs.Valid() && fs.Loaded(ROOT) && RootOk(fs.S(), fs.own)
    modifies fs, fs.freemap.v
    ensures fs.Valid() && Untouched(old(fs.S()), old(fs.own), fs.S(), fs.own) && Counted(old(fs.faults), fs.faults, e)
    ensures fs.faults == old(fs.faults) ==> fs.Leakage() == old(fs.Leakage())
    ensures e == Ok || e == ENOENT || e == EIO
    ensures e != EIO ==> Scanned(Dir(fs.S()), |Dir(fs.S())|, name, e == Ok, ino, slot, emptyslot)
    ensures e != EIO ==> Lookup(Dir(fs.S()), name) == if e == Ok then ino else NOINO
  {
    var found := false;
    ino, slot, emptyslot := 0, 0, -1;
    ghost var d := Dir(fs.S());
    var nentries := fs.Get(ROOT).inode.size / DIRSIZE;
    var i := 0;
    while i < nentries
      invariant i <= nentries == |d| && fs.Valid() && Untouched(old(fs.S()), old(fs.own), fs.S(), fs.own)
      invariant fs.faults == old(fs.faults)
      invariant Scanned(d, i, name, found, ino, slot, emptyslot)
    {
      var tsd;
      e, tsd := ReadDir(fs, i);
      if e != Ok { return; }
      ScanStep(d, i, name, found, ino, slot, emptyslot);
      if tsd.ino == NOINO {
        emptyslot := i;
      } else if tsd.name == name {
        assert !found;
        found, slot, ino := true, i, tsd.ino;
      }
      i := i + 1;
    }
    ScanDone(d, name, found, ino, slot, emptyslot);
    e := if found then Ok else ENOENT;
  }

  lemma NoInodeZero(fs: Sfs)
    requires fs.Valid()
    ensures !Live(fs.own, NOINO)
  {
    if NOINO in fs.own { OwnedBound(fs.S(), fs.own, NOINO); }
  }

  // Names

  /** The directory gained the name of ino in a free slot. */
  ghost predicate Named(s: State, own: Owner, s': State, own': Owner, name: Name, ino: nat, slot: nat) {
    && slot <= |Dir(s)| && At(Dir(s), slot).ino == NOINO && 0 < ino < 0x1_0000_0000 && Lookup(Dir(s), name) == NOINO
    && Rewrote(s, own, s', own', Put(Dir(s), slot, Entry(ino, name)))
    && Tree(s', own', ino, -1)
  }

  /** Where a new name goes: the last free slot, or one after the last slot of all. */
  ghost predicate SlotFor(d: seq<Entry>, i: nat) {
    && i <= |d| && At(d, i).ino == NOINO
    && (forall j :: 0 <= j < |d| && (i < j || i == |d|) ==> d[j].ino != NOINO)
  }

  lemma {:induction false} SomeSlot(d: seq<Entry>) returns (i: nat)
    ensures SlotFor(d, i)
  {
    i := |d|;
    while i > 0 && d[i - 1].ino != NOINO
      invariant i <= |d| && forall j :: i <= j < |d| ==> d[j].ino != NOINO
    {
      i := i - 1;
    }
    i := if i == 0 then |d| else i - 1;
  }

  /** The checks of sfs_dir_link: a slot for a name that is new and fits. */
  method FreeSlot(fs: Sfs, name: Name) returns (e: Err, slot: nat)
    requires fs.Valid() && fs.Loaded(ROOT) && RootOk(fs.S(), fs.own)
    modifies fs, fs.freemap.v
    ensures fs.Valid() && Untouched(old(fs.S()), old(fs.own), fs.S(), fs.own) && Counted(old(fs.faults), fs.faults, e)
    ensures fs.faults == old(fs.faults) ==> fs.Leakage() == old(fs.Leakage())
    ensures e == Ok ==> SlotFor(Dir(fs.S()), slot) && |name| < NAMELEN
    ensures e == Ok || e == EEXIST || e == ENAMETOOLONG || e == EIO
    ensures e != EIO ==> (e == EEXIST <==> Lookup(Dir(fs.S()), name) != NOINO)
    ensures e == ENAMETOOLONG ==> |name| >= NAMELEN
  {
    var found, emptyslot;
    e, found, slot, emptyslot := FindName(fs, name);
    if e == EIO { return; }
    if e == Ok { return EEXIST, 0; }
    if |name| + 1 > NAMELEN { return ENAMETOOLONG, 0; }
    slot := if emptyslot < 0 then fs.Get(ROOT).inode.size / DIRSIZE else emptyslot;
    e := Ok;
  }

  /** There is not room for d blocks and what a new name takes. */
  ghost predicate Cramped(s: State, d: nat) {
    exists i: nat :: SlotFor(Dir(s), i) && |Free(s)| < d + Needs(s, ROOT, i / 8)
  }

  /** The directory has no free slot and cannot grow. */
  ghost predicate Crowded(s: State) { SlotFor(Dir(s), |Dir(s)|) && DIRSIZE * |Dir(s)| == MAXBLOCKS * BLOCKSIZE }

  /** Which error linking a name may give when: without a fault the name is linked
      unless it is taken or too long, or there is no room. */
  ghost predicate LinkErr(s: State, name: Name, e: Err) {
    match e
    case Ok => Lookup(Dir(s), name) == NOINO && |name| < NAMELEN
    case EEXIST => Lookup(Dir(s), name) != NOINO
    case ENAMETOOLONG => Lookup(Dir(s), name) == NOINO && |name| >= NAMELEN
    case EINVAL => Lookup(Dir(s), name) == NOINO && |name| < NAMELEN && Crowded(s)
    case ENOSPC => Lookup(Dir(s), name) == NOINO && |name| < NAMELEN && Cramped(s, 0)
    case _ => e == EIO
  }

  /** The directory lies where it did, and there are d free blocks less. */
  ghost predicate RoomLess(s: State, s': State, d: nat) {
    && Dir(s') == Dir(s) && |Free(s)| == |Free(s')| + d
    && forall t: nat :: Slot(s', ROOT, t) == Slot(s, ROOT, t)
  }

  lemma CrampedLess(s: State, s': State, d: nat)
    requires RoomLess(s, s', d)
    ensures Cramped(s', 0) ==> Cramped(s, d)
    ensures Crowded(s') ==> Crowded(s)
  {
    if Cramped(s', 0) {
      var i: nat :| SlotFor(Dir(s'), i) && |Free(s')| < 0 + Needs(s', ROOT, i / 8);
      assert Needs(s', ROOT, i / 8) == Needs(s, ROOT, i / 8);
      assert SlotFor(Dir(s), i) && |Free(s)| < d + Needs(s, ROOT, i / 8);
    }
  }

  lemma CrampedMore(s: State, s': State, d: nat)
    requires RoomLess(s, s', 0)
    ensures Cramped(s', d) ==> Cramped(s, d)
    ensures Crowded(s') ==> Crowded(s)
  {
    if Cramped(s', d) {
      var i: nat :| SlotFor(Dir(s'), i) && |Free(s')| < d + Needs(s', ROOT, i / 8);
      assert Needs(s', ROOT, i / 8) == Needs(s, ROOT, i / 8);
      assert SlotFor(Dir(s), i) && |Free(s)| < d + Needs(s, ROOT, i / 8);
    }
  }

  lemma LinkErrSame(s: State, s': State, name: Name, e: Err)
    requires RoomLess(s, s', 0) && LinkErr(s', name, e)
    ensures LinkErr(s, name, e)
  {
    CrampedLess(s, s', 0);
  }

  lemma SameRoot(s: State, s': State, d: nat)
    requires SameFile(s, s', ROOT) && Dir(s') == Dir(s) && |Free(s)| == |Free(s')| + d
    ensures RoomLess(s, s', d)
  {
    forall t: nat ensures Slot(s', ROOT, t) == Slot(s, ROOT, t) {}
  }

  /** sfs_dir_link */
  method DirLink(fs: Sfs, name: Name, ino: nat) returns (e: Err, slot: nat)
    requires Ready(fs) && Live(fs.own, ino)
    modifies fs, fs.freemap.v
    ensures fs.Valid() && Counted(old(fs.faults), fs.faults, e)
    ensures fs.faults == old(fs.faults) ==> fs.Leakage() == old(fs.Leakage())
    ensures e == Ok ==> Named(old(fs.S()), old(fs.own), fs.S(), fs.own, name, ino, slot)
    ensures e != Ok ==> Lost(old(fs.S()), old(fs.own), fs.S(), fs.own)
    ensures LinkErr(old(fs.S()), name, e)
  {
    OwnedBound(fs.S(), fs.own, ino);
    NoInodeZero(fs);
    RootFits(fs.S(), fs.own);
    e, slot := FreeSlot(fs, name);
    if e != Ok {
      RewroteSame(fs.S(), fs.own);
      return;
    }
    var sd := Entry(ino, name);
    e := WriteDir(fs, sd, slot);
    if e == Ok { TreePut(old(fs.S()), old(fs.own), fs.S(), fs.own, slot, sd, ino); }
  }

  lemma RefdSame(s: State, k: nat)
    ensures Refd(s, s, k, 0)
  {
    forall x: nat ensures RefAt(s, s, k, 0, x) {}
  }

  lemma RefdRewrote(s: State, own: Owner, s': State, own': Owner, d: seq<Entry>)
    requires Rewrote(s, own, s', own', d)
    ensures Refd(s, s', 0, 0)
  {
    RefdViews(s, own, s', own', ROOT, 0);
    RefdZero(s, s', ROOT, 0);
  }

  lemma RefdAfter(s: State, own: Owner, s1: State, own1: Owner, s2: State, k: nat, d: int)
    requires Rewrote(s, own, s1, own1, Dir(s1)) && Refd(s1, s2, k, d)
    ensures Refd(s, s2, k, d)
  {
    RefdRewrote(s, own, s1, own1, Dir(s1));
    RefdZero(s, s1, 0, k);
    RefdTrans(s, s1, s2, k, 0, d);
  }

  lemma RefdLinked(s: State, own: Owner, s1: State, own1: Owner, s2: State, k: nat, delta: int)
    requires Rewrote(s, own, s1, own1, Dir(s1)) && Relinked(s1, own1, s2, k, delta)
    ensures Refd(s, s2, 0, 0)
  {
    RefdRelinked(s1, own1, s2, k, delta);
    RefdAfter(s, own, s1, own1, s2, 0, 0);
  }

  lemma RefdRelinked(s: State, own: Owner, s': State, k: nat, delta: int)
    requires Relinked(s, own, s', k, delta)
    ensures Refd(s, s', 0, 0)
  {
    RefdViews(s, own, s', own, k, 0);
    RefdZero(s, s', k, 0);
  }

  lemma RewroteSame(s: State, own: Owner)
    requires RootOk(s, own)
    ensures Lost(s, own, s, own)
  {
    ViewsSame(s, own);
    ViewsMore(s, own, s, own, {}, {ROOT});
    RootFits(s, own);
  }

  /** Slot `slot`, which named ino, is free. */
  ghost predicate Unnamed(s: State, own: Owner, s': State, own': Owner, slot: nat, ino: nat) {
    && slot < |Dir(s)| && Dir(s)[slot].ino == ino
    && Rewrote(s, own, s', own', Dir(s)[slot := Entry(NOINO, [])])
    && Tree(s', own', ino, 1)
  }

  /** sfs_dir_unlink */
  method DirUnlink(fs: Sfs, slot: nat, ghost ino: nat) returns (e: Err)
    requires Ready(fs) && slot < |Dir(fs.S())| && Dir(fs.S())[slot].ino == ino != NOINO
    modifies fs, fs.freemap.v
    ensures fs.Valid() && Counted(old(fs.faults), fs.faults, e) && (e == Ok || e == EIO)
    ensures fs.faults == old(fs.faults) ==> fs.Leakage() == old(fs.Leakage())
    ensures e == Ok ==> Unnamed(old(fs.S()), old(fs.own), fs.S(), fs.own, slot, ino)
    ensures e != Ok ==> Lost(old(fs.S()), old(fs.own), fs.S(), fs.own)
  {
    NoInodeZero(fs);
    RootFits(fs.S(), fs.own);
    NamedMapped(fs.S(), slot);
    var sd := Entry(NOINO, []);
    e := WriteDir(fs, sd, slot);
    if e == Ok { TreePut(old(fs.S()), old(fs.own), fs.S(), fs.own, slot, sd, ino); }
  }

  /** The link count of k changed by delta, and nothing else. */
  ghost predicate Relinked(s: State, own: Owner, s': State, k: nat, delta: int) {
    && Dir(s') == Dir(s)
    && Views(s, own, s', own, {k}) && k in s.vn && s'.vn.Keys == s.vn.Keys && s'.vn[k].ref == s.vn[k].ref
    && Node(s', k).links == Node(s, k).links + delta
    && Node(s', k).size == Node(s, k).size && Node(s', k).kind == Node(s, k).kind
    && (forall o: nat :: ByteKept(s, s', k, o))
  }

  lemma RelinkOk(s: State, own: Owner, s': State, k: nat, l: u16, delta: int)
    requires Blocks(s, own) && k in s.vn && Tree(s, own, k, -delta) && l == s.vn[k].inode.links + delta
    requires s' == SetNode(s, k, s.vn[k].inode.(links := l))
    ensures Blocks(s', own) && Leaked(s', own) == Leaked(s, own)
    ensures Consistent(s', own) && Relinked(s, own, s', k, delta)
  {
    LoadedLive(s, own, k);
    var n := s.vn[k].inode.size;
    MetaOk(s, own, k, n, l);
    TreeLinks(s, own, s', k, l, -delta);
    MetaSame(s, k, n, l, k);
    TreeClosed(s', own, k);
  }

  /** A change of the link count that settles it. */
  method AddLink(fs: Sfs, k: nat, delta: int)
    requires fs.Valid() && fs.Loaded(k) && Tree(fs.S(), fs.own, k, -delta) && (delta == 1 || delta == -1)
    modifies fs`vnodes
    ensures fs.Valid() && Consistent(fs.S(), fs.own) && fs.Leakage() == old(fs.Leakage())
    ensures Relinked(old(fs.S()), fs.own, fs.S(), k, delta)
  {
    ghost var s := fs.S();
    LoadedLive(s, fs.own, k);
    var i := fs.Get(k).inode;
    LinkRange(s, fs.own, k, -delta);
    assert Node(s, k) == i;
    var l: u16 := i.links + delta;
    fs.SetInode(k, i.(links := l));
    RelinkOk(s, fs.own, fs.S(), k, l, delta);
  }

  /** Link counts neither underflow nor overflow: a directory has 1144 slots. */
  lemma LinkRange(s: State, own: Owner, k: nat, owe: int)
    requires Tree(s, own, k, owe) && Live(own, k) && -1 <= owe <= 1
    ensures 0 <= Node(s, k).links - owe <= 1145
  {
    assert NodeOk(s, own, Dir(s), k, owe, k);
    CountBound(Dir(s), k);
    RootFits(s, own);
  }

  // What an operation leaves alone

  ghost predicate FileKept(s: State, own: Owner, s': State, own': Owner, x: nat) {
    Live(own, x) ==> Live(own', x) && SameMeta(s, s', x) && forall o: nat :: ByteKept(s, s', x, o)
  }

  /** Every file outside `but` still exists with its size, links and bytes. */
  ghost predicate FilesKept(s: State, own: Owner, s': State, own': Owner, but: set<nat>) {
    forall x: nat :: x !in but ==> FileKept(s, own, s', own', x)
  }

  lemma KeptViews(s: State, own: Owner, s': State, own': Owner, but: set<nat>, but': set<nat>)
    requires Views(s, own, s', own', but) && but <= but'
    ensures FilesKept(s, own, s', own', but')
  {
    forall x: nat | x !in but' ensures FileKept(s, own, s', own', x) { assert ViewAt(s, own, s', own', x); }
  }

  lemma KeptQuiet(s: State, own: Owner, s': State)
    requires Quiet(s, own, s')
    ensures FilesKept(s, own, s', own, {})
  {
    forall x: nat ensures FileKept(s, own, s', own, x) {
      assert FileSameAt(s, own, s', x);
      if Live(own, x) { DataBytes(s, s', x); }
    }
  }

  lemma KeptTrans(s: State, own: Owner, s1: State, own1: Owner, s2: State, own2: Owner, but: set<nat>)
    requires FilesKept(s, own, s1, own1, but) && FilesKept(s1, own1, s2, own2, but)
    ensures FilesKept(s, own, s2, own2, but)
  {
    forall x: nat | x !in but ensures FileKept(s, own, s2, own2, x) {
      assert FileKept(s, own, s1, own1, x) && FileKept(s1, own1, s2, own2, x);
      if Live(own, x) {
        forall o: nat ensures ByteKept(s, s2, x, o) { assert ByteKept(s, s1, x, o) && ByteKept(s1, s2, x, o); }
      }
    }
  }

  lemma KeptMore(s: State, own: Owner, s': State, own': Owner, but: set<nat>, but': set<nat>)
    requires FilesKept(s, own, s', own', but) && but <= but'
    ensures FilesKept(s, own, s', own', but')
  {
    forall x: nat | x !in but' ensures FileKept(s, own, s', own', x) { assert x !in but; }
  }

  /** Giving up a reference to an inode that has links changes no file. */
  lemma KeptReleased(s: State, own: Owner, s': State, own': Owner, k: nat)
    requires Released(s, own, s', own', k)
    ensures FilesKept(s, own, s', own', if Node(s, k).links > 0 then {} else {k})
  {
    var but := if Node(s, k).links > 0 then {} else {k};
    forall x: nat | x !in but ensures FileKept(s, own, s', own', x) {
      if x != k { assert ViewAt(s, own, s', own', x); }
    }
  }

  /** What name n stands for once `name` stands for ino. */
  ghost function Renamed(d: seq<Entry>, name: Name, ino: nat, n: Name): nat {
    if n == name then ino else Lookup(d, n)
  }

  ghost predicate NameSet(s: State, s': State, name: Name, ino: nat) {
    forall n: Name :: Lookup(Dir(s'), n) == Renamed(Dir(s), name, ino, n)
  }

  lemma NamedSets(s: State, own: Owner, s': State, own': Owner, name: Name, ino: nat, slot: nat)
    requires RootOk(s, own) && Named(s, own, s', own', name, ino, slot)
    ensures NameSet(s, s', name, ino)
  {
    var d, e := Dir(s), Entry(ino, name);
    PutName(d, slot, e);
    forall n: Name ensures Lookup(Dir(s'), n) == Renamed(d, name, ino, n) {
      assert Lookup(Put(d, slot, e), n) == if n == e.name then e.ino else Lookup(d, n);
    }
  }

  lemma UnnamedSets(s: State, own: Owner, s': State, own': Owner, slot: nat, ino: nat, name: Name)
    requires RootOk(s, own) && Unnamed(s, own, s', own', slot, ino) && ino != NOINO && Dir(s)[slot].name == name
    ensures NameSet(s, s', name, NOINO)
  {
    var d, e := Dir(s), Entry(NOINO, []);
    PutFree(d, slot, e);
    forall n: Name ensures Lookup(Dir(s'), n) == Renamed(d, name, NOINO, n) {
      assert Lookup(Put(d, slot, e), n) == Freed(d, slot, n);
    }
  }

  // Looking names up

  lemma NamedLive(s: State, own: Owner, slot: nat)
    requires Consistent(s, own) && slot < |Dir(s)| && Dir(s)[slot].ino != NOINO
    ensures var k := Dir(s)[slot].ino;
      && Live(own, k) && Node(s, k).links > 0
      && (Node(s, k).kind == TYPE_FILE || Node(s, k).kind == TYPE_DIR) && (Node(s, k).kind == TYPE_DIR <==> k == ROOT)
  {
    CountHit(Dir(s), slot);
    assert NodeOk(s, own, Dir(s), NOINO, 0, Dir(s)[slot].ino);
  }

  /** sfs_loadvnode of an inode the directory names. */
  method OpenNamed(fs: Sfs, ino: nat, slot: nat) returns (e: Err)
    requires Ready(fs) && slot < |Dir(fs.S())| && Dir(fs.S())[slot].ino == ino != NOINO
    modifies fs, fs.freemap.v
    ensures Ready(fs) && fs.own == old(fs.own) && Counted(old(fs.faults), fs.faults, e) && (e == Ok || Faulty(e))
    ensures fs.faults == old(fs.faults) ==> fs.Leakage() == old(fs.Leakage())
    ensures Dir(fs.S()) == Dir(old(fs.S())) && FilesKept(old(fs.S()), fs.own, fs.S(), fs.own, {})
    ensures e == Ok ==> Opened(old(fs.S()), fs.S(), ino)
    ensures e != Ok ==> fs.S() == old(fs.S())
    ensures e == Ok ==> Node(fs.S(), ino).links > 0
  {
    NamedLive(fs.S(), fs.own, slot);
    e := fs.LoadVnode(ino);
    OpenOk(old(fs.S()), fs.own, fs.S(), ino, e == Ok);
  }

  lemma OpenOk(s: State, own: Owner, s': State, k: nat, ok: bool)
    requires Consistent(s, own) && Quiet(s, own, s') && ROOT in s.vn && Live(own, k) && Node(s, k).links > 0
    requires (ok ==> Opened(s, s', k)) && (!ok ==> s' == s)
    ensures Consistent(s', own) && Dir(s') == Dir(s) && FilesKept(s, own, s', own, {})
    ensures ROOT in s'.vn && Node(s', k).links > 0 && (ok ==> k in s'.vn)
  {
    TreeQuiet(s, own, s', NOINO, 0);
    KeptQuiet(s, own, s');
    assert FileKept(s, own, s', own, k);
  }

  /** sfs_lookonce: the link-count panic is unreachable. */
  method LookOnce(fs: Sfs, name: Name) returns (e: Err, ino: nat, slot: nat)
    requires Ready(fs)
    modifies fs, fs.freemap.v
    ensures Ready(fs) && fs.own == old(fs.own) && Counted(old(fs.faults), fs.faults, e)
      && (e == Ok || e == ENOENT || Faulty(e))
    ensures fs.faults == old(fs.faults) ==> fs.Leakage() == old(fs.Leakage())
    ensures Dir(fs.S()) == Dir(old(fs.S())) && FilesKept(old(fs.S()), fs.own, fs.S(), fs.own, {})
    ensures e == Ok ==> Opened(old(fs.S()), fs.S(), ino)
    ensures e != Ok ==> fs.S() == old(fs.S())
    ensures !Faulty(e) ==> Lookup(Dir(fs.S()), name) == if e == Ok then ino else NOINO
    ensures e == Ok ==> slot < |Dir(fs.S())| && Dir(fs.S())[slot].name == name && Dir(fs.S())[slot].ino == ino != NOINO
    ensures e == Ok ==> fs.Loaded(ino) && Node(fs.S(), ino).links > 0
  {
    var emptyslot;
    e, ino, slot, emptyslot := FindName(fs, name);
    if e != Ok {
      ViewsSame(fs.S(), fs.own);
      KeptViews(fs.S(), fs.own, fs.S(), fs.own, {}, {});
      return;
    }
    e := OpenNamed(fs, ino, slot);
    if e == Ok { assert fs.Get(ino).inode.links != 0; }
  }

  /** sfs_lookup on the root directory. */
  method LookupName(fs: Sfs, name: Name) returns (e: Err, ino: nat)
    requires Ready(fs)
    modifies fs, fs.freemap.v
    ensures Ready(fs) && fs.own == old(fs.own) && Counted(old(fs.faults), fs.faults, e)
      && (e == Ok || e == ENOENT || Faulty(e))
    ensures fs.faults == old(fs.faults) ==> fs.Leakage() == old(fs.Leakage())
    ensures SameNames(old(fs.S()), fs.S()) && FilesKept(old(fs.S()), fs.own, fs.S(), fs.own, {})
    ensures !Faulty(e) ==> Lookup(Dir(fs.S()), name) == if e == Ok then ino else NOINO
    ensures e == Ok ==> ino != NOINO && Opened(old(fs.S()), fs.S(), ino)
    ensures e != Ok ==> fs.S() == old(fs.S())
  {
    var slot;
    e, ino, slot := LookOnce(fs, name);
    forall n: Name ensures NameKept(old(fs.S()), fs.S(), n) {}
  }

  // Creating

  /** A new inode was made. */
  lemma MadeOk(s: State, own: Owner, s': State, own': Owner, k: nat)
    requires Consistent(s, own) && ROOT in s.vn && Views(s, own, s', own', {k}) && !Live(own, k) && k != NOINO
    requires k in s'.vn && Node(s', k).links == 0 && Node(s', k).kind == TYPE_FILE
    ensures Consistent(s', own') && Dir(s') == Dir(s) && ROOT in s'.vn && FilesKept(s, own, s', own', {ROOT, k})
  {
    TreeNew(s, own, s', own', k);
    assert ViewAt(s, own, s', own', ROOT);
    KeptViews(s, own, s', own', {k}, {ROOT, k});
  }

  /** A new inode is nobody's file. */
  lemma KeptNew(s: State, own: Owner, s': State, own': Owner, k: nat)
    requires FilesKept(s, own, s', own', {ROOT, k}) && !Live(own, k)
    ensures FilesKept(s, own, s', own', {ROOT})
  {
    forall x: nat | x !in {ROOT} ensures FileKept(s, own, s', own', x) { assert x != k ==> x !in {ROOT, k}; }
  }

  /** The new inode got its name and its link. */
  lemma CreatedOk(s: State, own: Owner, s1: State, own1: Owner, s2: State, own2: Owner, s3: State, name: Name, k: nat, slot: nat)
    requires RootOk(s1, own1) && Dir(s1) == Dir(s) && FilesKept(s, own, s1, own1, {ROOT, k}) && !Live(own, k)
    requires Named(s1, own1, s2, own2, name, k, slot) && Relinked(s2, own2, s3, k, 1)
    ensures FilesKept(s, own, s3, own2, {ROOT}) && NameSet(s, s3, name, k)
  {
    KeptViews(s1, own1, s2, own2, {ROOT}, {ROOT, k});
    KeptTrans(s, own, s1, own1, s2, own2, {ROOT, k});
    KeptViews(s2, own2, s3, own2, {k}, {ROOT, k});
    KeptTrans(s, own, s2, own2, s3, own2, {ROOT, k});
    KeptNew(s, own, s3, own2, k);
    NamedSets(s1, own1, s2, own2, name, k, slot);
  }

  /** The new inode got no name and was given up. */
  lemma UncreatedOk(s: State, own: Owner, s1: State, own1: Owner, s2: State, own2: Owner, s3: State, own3: Owner, k: nat)
    requires Consistent(s1, own1) && !Live(own1, NOINO) && Dir(s1) == Dir(s)
    requires FilesKept(s, own, s1, own1, {ROOT, k}) && !Live(own, k) && k != ROOT && Live(own2, k)
    requires Lost(s1, own1, s2, own2) && Released(s2, own2, s3, own3, k) && ROOT in s2.vn
    ensures Consistent(s3, own3) && FilesKept(s, own, s3, own3, {ROOT}) && SameNames(s, s3) && ROOT in s3.vn
  {
    KeptViews(s1, own1, s2, own2, {ROOT}, {ROOT, k});
    KeptTrans(s, own, s1, own1, s2, own2, {ROOT, k});
    KeptViews(s2, own2, s3, own3, {k}, {ROOT, k});
    KeptTrans(s, own, s2, own2, s3, own3, {ROOT, k});
    KeptNew(s, own, s3, own3, k);
    TreeLost(s1, own1, s2, own2);
    TreeReleased(s2, own2, s3, own3, k);
    assert ViewAt(s2, own2, s3, own3, ROOT);
    forall n: Name ensures NameKept(s, s3, n) { assert NameKept(s1, s2, n); }
  }

  lemma NotMade(s: State, own: Owner, s': State, own': Owner)
    requires Consistent(s, own) && ROOT in s.vn && Views(s, own, s', own', {})
    ensures Consistent(s', own') && FilesKept(s, own, s', own', {ROOT}) && SameNames(s, s') && ROOT in s'.vn
  {
    TreeViews(s, own, s', own', {}, NOINO, 0);
    KeptViews(s, own, s', own', {}, {ROOT});
    assert ViewAt(s, own, s', own', ROOT);
    forall n: Name ensures NameKept(s, s', n) {}
  }

  lemma RefdMade(s: State, own: Owner, s': State, own': Owner, k: nat, made: bool)
    requires Blocks(s, own) && Views(s, own, s', own', if made then {k} else {})
    requires made ==> k !in own && k in s'.vn && s'.vn[k].ref == 1
    ensures Refd(s, s', k, One(made))
  {
    if made { LeakNotLoaded(s, own, k); } else { ViewsMore(s, own, s', own', {}, {k}); }
    assert made || ViewAt(s, own, s', own', k);
    RefdViews(s, own, s', own', k, One(made));
  }

  /** sfs_makeobj of a file. */
  method MakeFile(fs: Sfs) returns (e: Err, k: nat)
    requires Ready(fs)
    modifies fs, fs.freemap.v
    ensures Ready(fs) && Counted(old(fs.faults), fs.faults, e) && (e == Ok || e == ENOSPC || Faulty(e))
    ensures fs.faults == old(fs.faults) ==> fs.Leakage() == old(fs.Leakage())
    ensures e == Ok ==>
      && Dir(fs.S()) == Dir(old(fs.S())) && FilesKept(old(fs.S()), old(fs.own), fs.S(), fs.own, {ROOT, k})
      && !Live(old(fs.own), k) && Live(fs.own, k) && fs.Loaded(k) && fs.S().vn[k].ref == 1 && k != ROOT
      && Node(fs.S(), k).size == 0 && Node(fs.S(), k).links == 0
      && RoomLess(old(fs.S()), fs.S(), 1)
    ensures e != Ok ==>
      FilesKept(old(fs.S()), old(fs.own), fs.S(), fs.own, {ROOT}) && SameNames(old(fs.S()), fs.S())
    ensures e == ENOSPC ==> Cramped(old(fs.S()), 1)
    ensures Refd(old(fs.S()), fs.S(), k, One(e == Ok))
  {
    e, k := fs.MakeObj(TYPE_FILE);
    RefdMade(old(fs.S()), old(fs.own), fs.S(), fs.own, k, e == Ok);
    if e == Ok {
      OwnedBound(fs.S(), fs.own, k);
      MadeOk(old(fs.S()), old(fs.own), fs.S(), fs.own, k);
      RoomCount(old(fs.S()), old(fs.own));
      RoomCount(fs.S(), fs.own);
      SameRoot(old(fs.S()), fs.S(), 1);
    } else {
      if e == ENOSPC { CreatErrFull(old(fs.S())); }
      NotMade(old(fs.S()), old(fs.own), fs.S(), fs.own);
    }
  }

  /** A write to the directory is not felt by another inode. */
  lemma RewroteOther(s: State, own: Owner, s': State, own': Owner, k: nat)
    requires Views(s, own, s', own', {ROOT}) && k != ROOT && Live(own, k) && k in s.vn
    ensures Live(own', k) && k in s'.vn && s'.vn[k].ref == s.vn[k].ref && SameMeta(s, s', k)
  {
    assert ViewAt(s, own, s', own', k);
  }

  /** The second half of sfs_creat: link the new inode, or give it up. */
  method LinkNew(fs: Sfs, name: Name, k: nat, ghost excl: bool, ghost s: State, ghost own: Owner) returns (e: Err)
    requires Ready(fs) && Live(fs.own, k) && fs.Loaded(k) && k != ROOT && !Live(own, k)
    requires Node(fs.S(), k).links == 0 && Node(fs.S(), k).size == 0
    requires RoomLess(s, fs.S(), 1) && FilesKept(s, own, fs.S(), fs.own, {ROOT, k})
    requires Refd(s, fs.S(), k, 1) && Lookup(Dir(s), name) == NOINO
    modifies fs, fs.freemap.v
    ensures Ready(fs) && fs.faults >= old(fs.faults) && (Faulty(e) ==> fs.faults > old(fs.faults))
      && FilesKept(s, own, fs.S(), fs.own, {ROOT})
    ensures fs.faults == old(fs.faults) ==> fs.Leakage() == old(fs.Leakage())
    ensures e == Ok ==>
      NameSet(s, fs.S(), name, k) && fs.Loaded(k) && Node(fs.S(), k).links == 1 && Node(fs.S(), k).size == 0
    ensures e != Ok ==> SameNames(s, fs.S())
    ensures CreatErr(s, name, excl, e)
    ensures e == Ok || fs.faults == old(fs.faults) ==> Refd(s, fs.S(), k, One(e == Ok))
  {
    ghost var s1, own1 := fs.S(), fs.own;
    NoInodeZero(fs);
    var slot;
    e, slot := DirLink(fs, name, k);
    ghost var s2, own2 := fs.S(), fs.own;
    RewroteOther(s1, own1, s2, own2, k);
    CreatErrLinked(s, s1, name, excl, e);
    if e == Ok {
      CountNew(fs, k, slot, name, s, own, s1, own1);
    } else {
      Discard(fs, k, s, own, s1, own1);
    }
    if e == Ok || fs.faults == old(fs.faults) { RefdNew(s, s1, own1, s2, own2, fs.S(), k, e == Ok); }
  }

  lemma RefdNew(s: State, s1: State, own1: Owner, s2: State, own2: Owner, s3: State, k: nat, ok: bool)
    requires Refd(s, s1, k, 1) && Rewrote(s1, own1, s2, own2, Dir(s2)) && Refd(s2, s3, k, if ok then 0 else -1)
    ensures Refd(s, s3, k, One(ok))
  {
    RefdAfter(s1, own1, s2, own2, s3, k, if ok then 0 else -1);
    RefdTrans(s, s1, s3, k, 1, if ok then 0 else -1);
  }

  /** Count the first name of a new inode. */
  method CountNew(fs: Sfs, k: nat, ghost slot: nat, ghost name: Name, ghost s: State, ghost own: Owner, ghost s1: State, ghost own1: Owner)
    requires fs.Valid() && fs.Loaded(k) && fs.Loaded(ROOT) && !Live(own, k)
    requires RootOk(s1, own1) && Dir(s1) == Dir(s) && FilesKept(s, own, s1, own1, {ROOT, k})
    requires Named(s1, own1, fs.S(), fs.own, name, k, slot)
    modifies fs`vnodes
    ensures Ready(fs) && fs.Loaded(k) && fs.Leakage() == old(fs.Leakage())
    ensures FilesKept(s, own, fs.S(), fs.own, {ROOT}) && NameSet(s, fs.S(), name, k)
    ensures Node(fs.S(), k).links == Node(old(fs.S()), k).links + 1 && Node(fs.S(), k).size == Node(old(fs.S()), k).size
    ensures Refd(old(fs.S()), fs.S(), k, 0)
  {
    ghost var s2 := fs.S();
    AddLink(fs, k, 1);
    RefdViews(s2, fs.own, fs.S(), fs.own, k, 0);
    CreatedOk(s, own, s1, own1, s2, fs.own, fs.S(), name, k, slot);
  }

  /** Give up a new inode that got no name. */
  method Discard(fs: Sfs, k: nat, ghost s: State, ghost own: Owner, ghost s1: State, ghost own1: Owner)
    requires fs.Valid() && fs.Loaded(k) && fs.Loaded(ROOT) && k != ROOT && !Live(own, k)
    requires Consistent(s1, own1) && !Live(own1, NOINO) && Dir(s1) == Dir(s) && FilesKept(s, own, s1, own1, {ROOT, k})
    requires Lost(s1, own1, fs.S(), fs.own)
    modifies fs, fs.freemap.v
    ensures Ready(fs) && fs.faults >= old(fs.faults)
    ensures fs.faults == old(fs.faults) ==> fs.Leakage() == old(fs.Leakage())
    ensures FilesKept(s, own, fs.S(), fs.own, {ROOT}) && SameNames(s, fs.S())
    ensures fs.faults == old(fs.faults) ==> Refd(old(fs.S()), fs.S(), k, -1)
  {
    ghost var s2, own2 := fs.S(), fs.own;
    LoadedLive(s2, own2, k);
    fs.Decref(k);
    UncreatedOk(s, own, s1, own1, s2, own2, fs.S(), fs.own, k);
  }

  /** Which error sfs_creat may give when: without a fault a new name is created
      unless it is too long or there is no room for it and the inode. */
  ghost predicate CreatErr(s: State, name: Name, excl: bool, e: Err) {
    match e
    case Ok => if Lookup(Dir(s), name) == NOINO then |name| < NAMELEN else !excl
    case EEXIST => Lookup(Dir(s), name) != NOINO && excl
    case ENAMETOOLONG => Lookup(Dir(s), name) == NOINO && |name| >= NAMELEN
    case EINVAL => Lookup(Dir(s), name) == NOINO && Crowded(s)
    case ENOSPC => Lookup(Dir(s), name) == NOINO && Cramped(s, 1)
    case _ => Faulty(e)
  }

  lemma CreatErrLinked(s: State, s': State, name: Name, excl: bool, e: Err)
    requires RoomLess(s, s', 1) && LinkErr(s', name, e) && Lookup(Dir(s), name) == NOINO
    ensures CreatErr(s, name, excl, e)
  {
    CrampedLess(s, s', 1);
  }

  lemma CreatErrSame(s: State, s': State, name: Name, excl: bool, e: Err)
    requires RoomLess(s, s', 0) && CreatErr(s', name, excl, e)
    ensures CreatErr(s, name, excl, e)
  {
    CrampedMore(s, s', 1);
  }

  lemma CreatErrFull(s: State)
    requires Free(s) == {}
    ensures Cramped(s, 1)
  {
    var i := SomeSlot(Dir(s));
    assert |Free(s)| < 1 + Needs(s, ROOT, i / 8);
  }

  /** sfs_creat of a name that exists. */
  method OpenOld(fs: Sfs, k: nat, slot: nat) returns (e: Err)
    requires Ready(fs) && slot < |Dir(fs.S())| && Dir(fs.S())[slot].ino == k != NOINO
    modifies fs, fs.freemap.v
    ensures Ready(fs) && fs.own == old(fs.own) && fs.faults >= old(fs.faults)
      && (Faulty(e) ==> fs.faults > old(fs.faults)) && (e == Ok || Faulty(e))
    ensures fs.faults == old(fs.faults) ==> fs.Leakage() == old(fs.Leakage())
    ensures e == Ok ==> Opened(old(fs.S()), fs.S(), k)
    ensures FilesKept(old(fs.S()), fs.own, fs.S(), fs.own, {ROOT}) && SameNames(old(fs.S()), fs.S())
    ensures Refd(old(fs.S()), fs.S(), k, One(e == Ok))
  {
    e := OpenNamed(fs, k, slot);
    if e == Ok { RefdOpened(old(fs.S()), fs.S(), k); } else { RefdSame(fs.S(), k); }
    KeptMore(old(fs.S()), fs.own, fs.S(), fs.own, {}, {ROOT});
    forall n: Name ensures NameKept(old(fs.S()), fs.S(), n) {}
  }

  /** sfs_creat of a name that does not exist. */
  method CreatNew(fs: Sfs, name: Name, ghost excl: bool) returns (e: Err, k: nat)
    requires Ready(fs) && Lookup(Dir(fs.S()), name) == NOINO
    modifies fs, fs.freemap.v
    ensures Ready(fs) && fs.faults >= old(fs.faults) && (Faulty(e) ==> fs.faults > old(fs.faults))
      && FilesKept(old(fs.S()), old(fs.own), fs.S(), fs.own, {ROOT})
    ensures fs.faults == old(fs.faults) ==> fs.Leakage() == old(fs.Leakage())
    ensures e == Ok ==>
      && NameSet(old(fs.S()), fs.S(), name, k) && !Live(old(fs.own), k)
      && fs.Loaded(k) && Node(fs.S(), k).links == 1 && Node(fs.S(), k).size == 0
    ensures e != Ok ==> SameNames(old(fs.S()), fs.S())
    ensures CreatErr(old(fs.S()), name, excl, e)
    ensures e == Ok || fs.faults == old(fs.faults) ==> Refd(old(fs.S()), fs.S(), k, One(e == Ok))
  {
    ghost var s, own := fs.S(), fs.own;
    e, k := MakeFile(fs);
    if e == Ok { e := LinkNew(fs, name, k, excl, s, own); }
  }

  /** sfs_creat */
  method Creat(fs: Sfs, name: Name, excl: bool) returns (e: Err, k: nat)
    requires Ready(fs)
    modifies fs, fs.freemap.v
    ensures Ready(fs) && fs.faults >= old(fs.faults) && (Faulty(e) ==> fs.faults > old(fs.faults))
      && FilesKept(old(fs.S()), old(fs.own), fs.S(), fs.own, {ROOT})
    ensures fs.faults == old(fs.faults) ==> fs.Leakage() == old(fs.Leakage())
    ensures e == Ok && Lookup(Dir(old(fs.S())), name) != NOINO ==>
      && k == Lookup(Dir(old(fs.S())), name)
      && fs.own == old(fs.own) && Opened(old(fs.S()), fs.S(), k) && SameNames(old(fs.S()), fs.S())
    ensures e == Ok && Lookup(Dir(old(fs.S())), name) == NOINO ==>
      && NameSet(old(fs.S()), fs.S(), name, k) && !Live(old(fs.own), k)
      && fs.Loaded(k) && Node(fs.S(), k).links == 1 && Node(fs.S(), k).size == 0
    ensures e != Ok ==> SameNames(old(fs.S()), fs.S())
    ensures CreatErr(old(fs.S()), name, excl, e)
    ensures e == Ok || fs.faults == old(fs.faults) ==> Refd(old(fs.S()), fs.S(), k, One(e == Ok))
  {
    ghost var s, own := fs.S(), fs.own;
    var slot, emptyslot;
    e, k, slot, emptyslot := FindName(fs, name);
    if e == EIO || (e == Ok && excl) {
      Unchanged(s, own);
      RefdSame(s, k);
      e := if e == EIO then EIO else EEXIST;
    } else if e == Ok {
      e := OpenOld(fs, k, slot);
    } else {
      e, k := CreatNew(fs, name, excl);
    }
  }

  lemma Unchanged(s: State, own: Owner)
    ensures FilesKept(s, own, s, own, {ROOT}) && SameNames(s, s)
  {
    ViewsSame(s, own);
    KeptViews(s, own, s, own, {}, {ROOT});
    forall n: Name ensures NameKept(s, s, n) {}
  }

  // Linking and removing

  lemma LinkedOk(s: State, own: Owner, s1: State, own1: Owner, s2: State, name: Name, k: nat, slot: nat)
    requires RootOk(s, own) && Named(s, own, s1, own1, name, k, slot) && Relinked(s1, own1, s2, k, 1) && ROOT in s.vn
    ensures FilesKept(s, own, s2, own1, {ROOT, k}) && NameSet(s, s2, name, k) && ROOT in s2.vn
  {
    KeptViews(s, own, s1, own1, {ROOT}, {ROOT, k});
    KeptViews(s1, own1, s2, own1, {k}, {ROOT, k});
    KeptTrans(s, own, s1, own1, s2, own1, {ROOT, k});
    NamedSets(s, own, s1, own1, name, k, slot);
  }

  lemma LinkedFile(s: State, own: Owner, s1: State, own1: Owner, s2: State, k: nat)
    requires Views(s, own, s1, own1, {ROOT}) && k != ROOT && Live(own, k) && Relinked(s1, own1, s2, k, 1)
    ensures Node(s2, k).links == Node(s, k).links + 1 && Node(s2, k).size == Node(s, k).size
    ensures forall o: nat :: ByteKept(s, s2, k, o)
  {
    assert ViewAt(s, own, s1, own1, k);
    forall o: nat ensures ByteKept(s, s2, k, o) { assert ByteKept(s, s1, k, o) && ByteKept(s1, s2, k, o); }
  }

  lemma LostOk(s: State, own: Owner, s': State, own': Owner)
    requires Consistent(s, own) && !Live(own, NOINO) && Lost(s, own, s', own') && ROOT in s.vn
    ensures Consistent(s', own') && SameNames(s, s') && FilesKept(s, own, s', own', {ROOT}) && ROOT in s'.vn
  {
    TreeLost(s, own, s', own');
    KeptViews(s, own, s', own', {ROOT}, {ROOT});
  }

  /** sfs_link: any file the caller holds, the root directory included. */
  method Link(fs: Sfs, name: Name, k: nat) returns (e: Err)
    requires Ready(fs) && fs.Loaded(k)
    modifies fs, fs.freemap.v
    ensures Ready(fs) && Counted(old(fs.faults), fs.faults, e)
      && FilesKept(old(fs.S()), old(fs.own), fs.S(), fs.own, {ROOT, k})
    ensures fs.faults == old(fs.faults) ==> fs.Leakage() == old(fs.Leakage())
    ensures e == Ok ==> NameSet(old(fs.S()), fs.S(), name, k) && Node(fs.S(), k).links == Node(old(fs.S()), k).links + 1
    ensures e == Ok && k != ROOT ==>
      Node(fs.S(), k).size == Node(old(fs.S()), k).size && forall o: nat :: ByteKept(old(fs.S()), fs.S(), k, o)
    ensures e != Ok ==> SameNames(old(fs.S()), fs.S()) && FilesKept(old(fs.S()), old(fs.own), fs.S(), fs.own, {ROOT})
    ensures LinkErr(old(fs.S()), name, e) && Refd(old(fs.S()), fs.S(), 0, 0)
  {
    ghost var s, own := fs.S(), fs.own;
    LoadedLive(s, own, k);
    NoInodeZero(fs);
    var slot;
    e, slot := DirLink(fs, name, k);
    if e != Ok {
      RefdRewrote(s, own, fs.S(), fs.own, Dir(fs.S()));
      LostOk(s, own, fs.S(), fs.own);
      KeptMore(s, own, fs.S(), fs.own, {ROOT}, {ROOT, k});
      return;
    }
    ghost var s1, own1 := fs.S(), fs.own;
    AddLink(fs, k, 1);
    RefdLinked(s, own, s1, own1, fs.S(), k, 1);
    LinkedOk(s, own, s1, own1, fs.S(), name, k, slot);
    if k != ROOT { LinkedFile(s, own, s1, own1, fs.S(), k); }
  }

  /** Slot `slot` names k, and k was looked up. */
  ghost predicate Found(s: State, own: Owner, s1: State, k: nat, slot: nat, name: Name) {
    && Consistent(s, own) && ROOT in s.vn && Live(own, k) && !Live(own, NOINO) && (k in s.vn ==> s.vn[k].ref > 0)
    && ROOT in s1.vn && k in s1.vn && Refd(s, s1, k, 1) && Refs(s1, k) == Refs(s, k) + 1 && RoomLess(s, s1, 0)
    && Consistent(s1, own) && Dir(s1) == Dir(s) && FilesKept(s, own, s1, own, {})
    && slot < |Dir(s)| && Dir(s)[slot].name == name && Dir(s)[slot].ino == k != NOINO && Node(s, k).links > 0
  }

  /** The link count of k was lowered (s3), then a reference to it given up (s4). */
  ghost predicate Dropped(s2: State, own2: Owner, s3: State, s4: State, own4: Owner, k: nat, clean: bool) {
    && Relinked(s2, own2, s3, k, -1) && Consistent(s3, own2) && Live(own2, k)
    && Released(s3, own2, s4, own4, k)
    && (s3.vn[k].ref > 1 ==> s4 == SetRef(s3, k, s3.vn[k].ref - 1) && own4 == own2)
    && (clean && s3.vn[k].ref == 1 ==> k !in s4.vn)
    && (clean ==> Refd(s3, s4, k, -1))
  }

  /** Removing a name of k: looked up (s1), unlinked (s2), dropped (s3, s4). */
  ghost predicate RemoveSteps(s: State, own: Owner, s1: State, s2: State, own2: Owner, s3: State, s4: State, own4: Owner,
                              k: nat, slot: nat, name: Name, clean: bool) {
    && Found(s, own, s1, k, slot, name)
    && Unnamed(s1, own, s2, own2, slot, k)
    && Dropped(s2, own2, s3, s4, own4, k, clean)
  }

  /** Looked up, unlinked and dropped, a file is held by as many as before. */
  lemma RefdDropped(s: State, s1: State, own1: Owner, s2: State, own2: Owner, s3: State, s4: State, own4: Owner, k: nat, clean: bool)
    requires Refd(s, s1, k, 1) && Rewrote(s1, own1, s2, own2, Dir(s2)) && Dropped(s2, own2, s3, s4, own4, k, clean) && clean
    ensures Refd(s, s4, 0, 0)
  {
    RefdLinked(s1, own1, s2, own2, s3, k, -1);
    RefdZero(s1, s3, 0, k);
    RefdTrans(s, s1, s3, k, 1, 0);
    RefdTrans(s, s3, s4, k, 1, -1);
    RefdZero(s, s4, k, 0);
  }

  lemma RemovedKept(s: State, own: Owner, s1: State, s2: State, own2: Owner, s3: State, s4: State, own4: Owner, k: nat)
    requires FilesKept(s, own, s1, own, {}) && Views(s1, own, s2, own2, {ROOT})
    requires Views(s2, own2, s3, own2, {k}) && Views(s3, own2, s4, own4, {k})
    ensures FilesKept(s, own, s4, own4, {ROOT, k})
  {
    KeptMore(s, own, s1, own, {}, {ROOT, k});
    KeptViews(s1, own, s2, own2, {ROOT}, {ROOT, k});
    KeptTrans(s, own, s1, own, s2, own2, {ROOT, k});
    KeptViews(s2, own2, s3, own2, {k}, {ROOT, k});
    KeptTrans(s, own, s2, own2, s3, own2, {ROOT, k});
    KeptViews(s3, own2, s4, own4, {k}, {ROOT, k});
    KeptTrans(s, own, s3, own2, s4, own4, {ROOT, k});
  }

  /** Giving up another file leaves the root directory held. */
  lemma ReleasedOther(s: State, own: Owner, s': State, own': Owner, k: nat)
    requires Consistent(s, own) && Live(own, k) && Released(s, own, s', own', k) && k != ROOT
    ensures Consistent(s', own') && Dir(s') == Dir(s) && (ROOT in s.vn ==> ROOT in s'.vn)
  {
    TreeReleased(s, own, s', own', k);
    assert ViewAt(s, own, s', own', ROOT);
  }

  lemma RemovedOk(s: State, own: Owner, s1: State, s2: State, own2: Owner, s3: State, s4: State, own4: Owner,
                  k: nat, slot: nat, name: Name, clean: bool)
    requires RemoveSteps(s, own, s1, s2, own2, s3, s4, own4, k, slot, name, clean)
    ensures Consistent(s4, own4) && FilesKept(s, own, s4, own4, {ROOT, k}) && NameSet(s, s4, name, NOINO)
      && ROOT in s4.vn
  {
    RemovedKept(s, own, s1, s2, own2, s3, s4, own4, k);
    if k != ROOT { ReleasedOther(s3, own2, s4, own4, k); } else { TreeReleased(s3, own2, s4, own4, k); }
    UnnamedSets(s1, own, s2, own2, slot, k, name);
  }

  /** A file that has another name or is held stays as it is with one link
      less; any other file is gone, unless a fault interfered. */
  ghost predicate Fate(s: State, own: Owner, s': State, own': Owner, k: nat, clean: bool) {
    if Node(s, k).links > 1 || k in s.vn then
      && Live(own', k) && Node(s', k).links == Node(s, k).links - 1
      && Node(s', k).size == Node(s, k).size && forall o: nat :: ByteKept(s, s', k, o)
    else clean ==> !Live(own', k)
  }

  lemma RemovedFate(s: State, own: Owner, s1: State, s2: State, own2: Owner, s3: State, s4: State, own4: Owner,
                    k: nat, slot: nat, name: Name, clean: bool)
    requires RemoveSteps(s, own, s1, s2, own2, s3, s4, own4, k, slot, name, clean) && k != ROOT
    ensures Fate(s, own, s4, own4, k, clean)
  {
    assert FileKept(s, own, s1, own, k);
    assert ViewAt(s1, own, s2, own2, k);
    assert Node(s3, k).links == Node(s, k).links - 1;
    forall o: nat ensures ByteKept(s, s3, k, o) {
      assert ByteKept(s, s1, k, o) && ByteKept(s1, s2, k, o) && ByteKept(s2, s3, k, o);
    }
    if s3.vn[k].ref > 1 {
      forall o: nat ensures ByteKept(s3, s4, k, o) { RefByte(s3, k, s3.vn[k].ref - 1, o); }
    }
    if Node(s, k).links > 1 || k in s.vn {
      forall o: nat ensures ByteKept(s, s4, k, o) { assert ByteKept(s, s3, k, o) && ByteKept(s3, s4, k, o); }
    }
  }

  lemma RefByte(s: State, k: nat, r: nat, o: nat)
    requires k in s.vn
    ensures ByteKept(s, SetRef(s, k, r), k, o)
  {
    NodeSame(s, SetRef(s, k, r), k);
  }

  lemma RefsPositive(s: State, own: Owner, k: nat)
    requires Blocks(s, own)
    ensures k in s.vn ==> s.vn[k].ref > 0
  {
    assert VnodeOk(s, own, k);
  }

  lemma RootLinked(s: State, own: Owner)
    requires Consistent(s, own)
    ensures Live(own, ROOT) && Node(s, ROOT).links > 0
  {
    assert NodeOk(s, own, Dir(s), NOINO, 0, ROOT);
  }

  /** Lower the link count and give up the reference. */
  method DropLink(fs: Sfs, k: nat) returns (ghost s3: State)
    requires fs.Valid() && fs.Loaded(k) && Tree(fs.S(), fs.own, k, 1)
    modifies fs, fs.freemap.v
    ensures fs.Valid() && fs.faults >= old(fs.faults)
    ensures fs.faults == old(fs.faults) ==> fs.Leakage() == old(fs.Leakage())
    ensures Dropped(old(fs.S()), old(fs.own), s3, fs.S(), fs.own, k, fs.faults == old(fs.faults))
  {
    LoadedLive(fs.S(), fs.own, k);
    AddLink(fs, k, -1);
    s3 := fs.S();
    RootLinked(s3, fs.own);
    RefsPositive(s3, fs.own, k);
    fs.Decref(k);
  }

  /** The part of sfs_remove after the entry is gone. */
  method RemoveEntry(fs: Sfs, k: nat, slot: nat, ghost name: Name, ghost s: State, ghost own: Owner, ghost s1: State)
    requires fs.Valid() && fs.Loaded(k) && Found(s, own, s1, k, slot, name) && Unnamed(s1, own, fs.S(), fs.own, slot, k)
    modifies fs, fs.freemap.v
    ensures Ready(fs) && fs.faults >= old(fs.faults)
    ensures fs.faults == old(fs.faults) ==> fs.Leakage() == old(fs.Leakage())
    ensures FilesKept(s, own, fs.S(), fs.own, {ROOT, k}) && NameSet(s, fs.S(), name, NOINO)
    ensures k != ROOT ==> Fate(s, own, fs.S(), fs.own, k, fs.faults == old(fs.faults))
    ensures fs.faults == old(fs.faults) ==> Refd(s, fs.S(), 0, 0)
  {
    ghost var s2, own2 := fs.S(), fs.own;
    ghost var s3 := DropLink(fs, k);
    ghost var clean := fs.faults == old(fs.faults);
    RemovedOk(s, own, s1, s2, own2, s3, fs.S(), fs.own, k, slot, name, clean);
    if k != ROOT { RemovedFate(s, own, s1, s2, own2, s3, fs.S(), fs.own, k, slot, name, clean); }
    if clean { RefdDropped(s, s1, own, s2, own2, s3, fs.S(), fs.own, k, clean); }
  }

  /** Looked up, changed in vain, and given up again: a file with links. */
  lemma UndoneOk(s: State, own: Owner, s1: State, s2: State, own2: Owner, s3: State, own3: Owner, k: nat)
    requires FilesKept(s, own, s1, own, {}) && Dir(s1) == Dir(s) && Live(own2, k) && ROOT in s2.vn
    requires Consistent(s2, own2) && SameNames(s1, s2) && FilesKept(s1, own, s2, own2, {ROOT})
    requires Released(s2, own2, s3, own3, k) && Node(s2, k).links > 0 && (k == ROOT ==> ROOT in s3.vn)
    ensures Consistent(s3, own3) && SameNames(s, s3) && FilesKept(s, own, s3, own3, {ROOT}) && ROOT in s3.vn
  {
    TreeReleased(s2, own2, s3, own3, k);
    KeptMore(s, own, s1, own, {}, {ROOT});
    KeptTrans(s, own, s1, own, s2, own2, {ROOT});
    KeptReleased(s2, own2, s3, own3, k);
    KeptMore(s2, own2, s3, own3, {}, {ROOT});
    KeptTrans(s, own, s2, own2, s3, own3, {ROOT});
    if k != ROOT { assert ViewAt(s2, own2, s3, own3, ROOT); }
    forall n: Name ensures NameKept(s, s3, n) { assert NameKept(s1, s2, n); }
  }

  /** sfs_remove */
  method Remove(fs: Sfs, name: Name) returns (e: Err, ghost k: nat)
    requires Ready(fs)
    modifies fs, fs.freemap.v
    ensures Ready(fs) && fs.faults >= old(fs.faults) && (Faulty(e) ==> fs.faults > old(fs.faults))
      && (e == Ok || e == ENOENT || Faulty(e))
    ensures fs.faults == old(fs.faults) ==> fs.Leakage() == old(fs.Leakage())
    ensures !Faulty(e) ==> (e == Ok <==> Lookup(Dir(old(fs.S())), name) != NOINO)
    ensures e == Ok ==>
      && k == Lookup(Dir(old(fs.S())), name) && NameSet(old(fs.S()), fs.S(), name, NOINO)
      && FilesKept(old(fs.S()), old(fs.own), fs.S(), fs.own, {ROOT, k})
      && (k != ROOT ==> Fate(old(fs.S()), old(fs.own), fs.S(), fs.own, k, fs.faults == old(fs.faults)))
    ensures e != Ok ==> SameNames(old(fs.S()), fs.S()) && FilesKept(old(fs.S()), old(fs.own), fs.S(), fs.own, {ROOT})
    ensures fs.faults == old(fs.faults) ==> Refd(old(fs.S()), fs.S(), 0, 0)
  {
    ghost var s, own := fs.S(), fs.own;
    var victim, slot;
    e, victim, slot := LookOnce(fs, name);
    k := victim;
    if e != Ok {
      Unchanged(s, own);
      RefdSame(s, 0);
      return;
    }
    ghost var s1 := fs.S();
    FoundNow(fs, s, k, slot, name);
    e := DirUnlink(fs, slot, k);
    if e == Ok {
      RemoveEntry(fs, victim, slot, name, s, own, s1);
    } else {
      LetGo(fs, victim, slot, name, s, own, s1);
    }
  }

  lemma FoundNow(fs: Sfs, s: State, k: nat, slot: nat, name: Name)
    requires Ready(fs) && Blocks(s, fs.own) && Consistent(s, fs.own) && ROOT in s.vn && Opened(s, fs.S(), k)
    requires Dir(fs.S()) == Dir(s) && FilesKept(s, fs.own, fs.S(), fs.own, {}) && Node(fs.S(), k).links > 0 && fs.Loaded(k)
    requires slot < |Dir(s)| && Dir(s)[slot].name == name && Dir(s)[slot].ino == k != NOINO
    ensures Found(s, fs.own, fs.S(), k, slot, name)
  {
    NamedLive(s, fs.own, slot);
    RefsPositive(s, fs.own, k);
    NoInodeZero(fs);
    RefdOpened(s, fs.S(), k);
    RoomFound(s, fs.S(), k);
  }

  lemma RoomFound(s: State, s': State, k: nat)
    requires Opened(s, s', k) && Dir(s') == Dir(s)
    ensures RoomLess(s, s', 0)
  {
    forall t: nat ensures Slot(s', ROOT, t) == Slot(s, ROOT, t) {}
    assert Free(s') == Free(s);
  }

  lemma RefdGone(s: State, s1: State, own1: Owner, s2: State, own2: Owner, s3: State, k: nat)
    requires Refd(s, s1, k, 1) && Rewrote(s1, own1, s2, own2, Dir(s2)) && Refd(s2, s3, k, -1)
    ensures Refd(s, s3, 0, 0)
  {
    RefdAfter(s1, own1, s2, own2, s3, k, -1);
    RefdTrans(s, s1, s3, k, 1, -1);
    RefdZero(s, s3, k, 0);
  }

  /** A file that was found is held and linked, whatever failed since. */
  lemma FoundHeld(s: State, own: Owner, s1: State, s2: State, own2: Owner, k: nat, slot: nat, name: Name)
    requires Found(s, own, s1, k, slot, name) && Lost(s1, own, s2, own2)
    ensures k in s2.vn && Live(own2, k) && Node(s2, k).links > 0 && (k == ROOT ==> s2.vn[k].ref > 1)
  {
    assert FileKept(s, own, s1, own, k);
    if k != ROOT { assert ViewAt(s1, own, s2, own2, k); }
  }

  lemma LetGoOk(s: State, own: Owner, s1: State, s2: State, own2: Owner, s3: State, own3: Owner, k: nat, slot: nat, name: Name)
    requires Found(s, own, s1, k, slot, name) && Lost(s1, own, s2, own2)
    requires Released(s2, own2, s3, own3, k) && (k == ROOT ==> ROOT in s3.vn)
    ensures Consistent(s3, own3) && SameNames(s, s3) && FilesKept(s, own, s3, own3, {ROOT}) && ROOT in s3.vn
  {
    FoundHeld(s, own, s1, s2, own2, k, slot, name);
    LostOk(s1, own, s2, own2);
    UndoneOk(s, own, s1, s2, own2, s3, own3, k);
  }

  // Renaming

  /** Every file but the root is as it was, except that k is held and has
      delta more links. */
  ghost predicate Shifted(s: State, own: Owner, s': State, own': Owner, k: nat, delta: int) {
    && FilesKept(s, own, s', own', {ROOT, k})
    && Live(own', k) && k in s'.vn
    && Node(s', k).links == Node(s, k).links + delta
    && Node(s', k).size == Node(s, k).size && Node(s', k).kind == Node(s, k).kind
    && (forall o: nat :: ByteKept(s, s', k, o))
  }

  lemma ShiftOpened(s: State, own: Owner, s1: State, k: nat)
    requires FilesKept(s, own, s1, own, {}) && Live(own, k) && k in s1.vn
    ensures Shifted(s, own, s1, own, k, 0)
  {
    KeptMore(s, own, s1, own, {}, {ROOT, k});
    assert FileKept(s, own, s1, own, k);
  }

  lemma ShiftRewrote(s: State, own: Owner, s': State, own': Owner, d: seq<Entry>, k: nat)
    requires Rewrote(s, own, s', own', d) && k != ROOT && Live(own, k) && k in s.vn
    ensures Shifted(s, own, s', own', k, 0)
  {
    KeptViews(s, own, s', own', {ROOT}, {ROOT, k});
    assert ViewAt(s, own, s', own', k);
  }

  lemma ShiftRelinked(s: State, own: Owner, s': State, k: nat, delta: int)
    requires Relinked(s, own, s', k, delta) && Live(own, k)
    ensures Shifted(s, own, s', own, k, delta)
  {
    KeptViews(s, own, s', own, {k}, {ROOT, k});
  }

  lemma ShiftTrans(s: State, own: Owner, s1: State, own1: Owner, s2: State, own2: Owner, k: nat, a: int, b: int)
    requires Shifted(s, own, s1, own1, k, a) && Shifted(s1, own1, s2, own2, k, b)
    ensures Shifted(s, own, s2, own2, k, a + b)
  {
    KeptTrans(s, own, s1, own1, s2, own2, {ROOT, k});
    forall o: nat ensures ByteKept(s, s2, k, o) { assert ByteKept(s, s1, k, o) && ByteKept(s1, s2, k, o); }
  }

  lemma ShiftDone(s: State, own: Owner, s': State, own': Owner, k: nat)
    requires Shifted(s, own, s', own', k, 0)
    ensures FilesKept(s, own, s', own', {ROOT})
  {
    forall x: nat | x !in {ROOT} ensures FileKept(s, own, s', own', x) { assert x != k ==> x !in {ROOT, k}; }
  }

  /** Half-way through a rename of k: both names exist and are counted. */
  ghost predicate Moving(s: State, own: Owner, s': State, own': Owner, k: nat, slot1: nat, n1: Name, slot2: nat, n2: Name) {
    && k != ROOT && 0 < k < 0x1_0000_0000 && Node(s, k).links > 0
    && Consistent(s', own') && !Live(own', NOINO) && ROOT in s'.vn
    && Shifted(s, own, s', own', k, 1) && Refd(s, s', k, 1)
    && slot1 < |Dir(s')| && Dir(s')[slot1] == Entry(k, n1)
    && slot2 < |Dir(s')| && Dir(s')[slot2] == Entry(k, n2) && slot1 != slot2
    && NameSet(s, s', n2, k) && Lookup(Dir(s), n2) == NOINO
  }

  lemma MovingLost(s: State, own: Owner, s1: State, own1: Owner, s2: State, own2: Owner,
                   k: nat, slot1: nat, n1: Name, slot2: nat, n2: Name)
    requires Moving(s, own, s1, own1, k, slot1, n1, slot2, n2) && Lost(s1, own1, s2, own2) && !Live(own2, NOINO)
    ensures Moving(s, own, s2, own2, k, slot1, n1, slot2, n2)
  {
    LostOk(s1, own1, s2, own2);
    ShiftRewrote(s1, own1, s2, own2, Dir(s2), k);
    ShiftTrans(s, own, s1, own1, s2, own2, k, 1, 0);
    RefdRewrote(s1, own1, s2, own2, Dir(s2));
    RefdZero(s1, s2, 0, k);
    RefdTrans(s, s1, s2, k, 1, 0);
    forall n: Name ensures Lookup(Dir(s2), n) == Renamed(Dir(s), n2, k, n) {
      assert NameKept(s1, s2, n);
    }
  }

  lemma MovedKept(s: State, own: Owner, s1: State, own1: Owner, s2: State, own2: Owner, d: seq<Entry>, s3: State, s4: State, own4: Owner, k: nat)
    requires Shifted(s, own, s1, own1, k, 1) && k != ROOT && Node(s, k).links > 0
    requires Rewrote(s1, own1, s2, own2, d) && Relinked(s2, own2, s3, k, -1) && Released(s3, own2, s4, own4, k)
    ensures FilesKept(s, own, s4, own4, {ROOT})
  {
    ShiftRewrote(s1, own1, s2, own2, d, k);
    ShiftTrans(s, own, s1, own1, s2, own2, k, 1, 0);
    ShiftRelinked(s2, own2, s3, k, -1);
    ShiftTrans(s, own, s2, own2, s3, own2, k, 1, -1);
    ShiftDone(s, own, s3, own2, k);
    KeptReleased(s3, own2, s4, own4, k);
    KeptMore(s3, own2, s4, own4, {}, {ROOT});
    KeptTrans(s, own, s3, own2, s4, own4, {ROOT});
  }

  /** One of the two names is gone again, the count is back, and k given up. */
  lemma MovedOk(s: State, own: Owner, s1: State, own1: Owner, s2: State, own2: Owner, s3: State, s4: State, own4: Owner,
                k: nat, slot: nat, clean: bool)
    requires Shifted(s, own, s1, own1, k, 1) && k != ROOT && Node(s, k).links > 0 && ROOT in s1.vn
    requires Unnamed(s1, own1, s2, own2, slot, k) && Dropped(s2, own2, s3, s4, own4, k, clean)
    ensures Consistent(s4, own4) && FilesKept(s, own, s4, own4, {ROOT}) && ROOT in s4.vn && Dir(s4) == Dir(s2)
  {
    MovedKept(s, own, s1, own1, s2, own2, Dir(s1)[slot := Entry(NOINO, [])], s3, s4, own4, k);
    ReleasedOther(s3, own2, s4, own4, k);
  }

  /** Name n1 of k became n2. */
  ghost predicate NameMoved(s: State, s': State, n1: Name, n2: Name, k: nat) {
    forall n: Name :: Lookup(Dir(s'), n) == if n == n1 then NOINO else Renamed(Dir(s), n2, k, n)
  }

  /** The old name removed. */
  lemma NamesMoved(s: State, own: Owner, s1: State, own1: Owner, s2: State, own2: Owner,
                   k: nat, slot1: nat, n1: Name, slot2: nat, n2: Name)
    requires Moving(s, own, s1, own1, k, slot1, n1, slot2, n2) && Unnamed(s1, own1, s2, own2, slot1, k)
    ensures NameMoved(s, s2, n1, n2, k)
  {
    UnnamedSets(s1, own1, s2, own2, slot1, k, n1);
    forall n: Name ensures Lookup(Dir(s2), n) == if n == n1 then NOINO else Renamed(Dir(s), n2, k, n) {
      assert Lookup(Dir(s2), n) == Renamed(Dir(s1), n1, NOINO, n);
      assert Lookup(Dir(s1), n) == Renamed(Dir(s), n2, k, n);
    }
  }

  /** The new name removed again. */
  lemma NamesRestored(s: State, own: Owner, s1: State, own1: Owner, s2: State, own2: Owner,
                      k: nat, slot1: nat, n1: Name, slot2: nat, n2: Name)
    requires Moving(s, own, s1, own1, k, slot1, n1, slot2, n2) && Unnamed(s1, own1, s2, own2, slot2, k)
    ensures SameNames(s, s2)
  {
    UnnamedSets(s1, own1, s2, own2, slot2, k, n2);
    forall n: Name ensures NameKept(s, s2, n) {
      assert Lookup(Dir(s2), n) == Renamed(Dir(s1), n2, NOINO, n);
      assert Lookup(Dir(s1), n) == Renamed(Dir(s), n2, k, n);
    }
  }

  /** Take back one name of a file that has two, and give the file up. */
  method Settle(fs: Sfs, k: nat, ghost slot: nat, ghost s: State, ghost own: Owner, ghost s1: State, ghost own1: Owner)
    requires fs.Valid() && Shifted(s, own, s1, own1, k, 1) && k != ROOT && Node(s, k).links > 0 && ROOT in s1.vn
    requires Unnamed(s1, own1, fs.S(), fs.own, slot, k) && Refd(s, s1, k, 1)
    modifies fs, fs.freemap.v
    ensures fs.faults == old(fs.faults) ==> Refd(s, fs.S(), 0, 0)
    ensures Ready(fs) && fs.faults >= old(fs.faults) && FilesKept(s, own, fs.S(), fs.own, {ROOT})
      && Dir(fs.S()) == Dir(old(fs.S()))
    ensures fs.faults == old(fs.faults) ==> fs.Leakage() == old(fs.Leakage())
  {
    ghost var s2, own2 := fs.S(), fs.own;
    ghost var s3 := DropLink(fs, k);
    ghost var clean := fs.faults == old(fs.faults);
    MovedOk(s, own, s1, own1, s2, own2, s3, fs.S(), fs.own, k, slot, clean);
    if clean { RefdDropped(s, s1, own1, s2, own2, s3, fs.S(), fs.own, k, clean); }
  }

  /** The second half of sfs_rename: unlink the old slot, or else take the new one back. */
  method FinishRename(fs: Sfs, k: nat, slot1: nat, n1: Name, slot2: nat, n2: Name, ghost s: State, ghost own: Owner)
    returns (e: Err, dead: bool)
    requires fs.Valid() && Moving(s, own, fs.S(), fs.own, k, slot1, n1, slot2, n2)
    modifies fs, fs.freemap.v
    ensures Ready(fs) && fs.faults >= old(fs.faults) && (Faulty(e) ==> fs.faults > old(fs.faults))
      && (e == Ok || e == EIO)
    ensures fs.faults == old(fs.faults) ==> fs.Leakage() == old(fs.Leakage())
    ensures e == Ok ==> NameMoved(s, fs.S(), n1, n2, k) && FilesKept(s, own, fs.S(), fs.own, {ROOT})
    ensures e != Ok && !dead ==> SameNames(s, fs.S()) && FilesKept(s, own, fs.S(), fs.own, {ROOT})
    ensures dead ==> e != Ok && fs.faults > old(fs.faults) + 1
    ensures fs.faults == old(fs.faults) ==> Refd(s, fs.S(), 0, 0)
  {
    dead := false;
    ghost var s1, own1 := fs.S(), fs.own;
    e := DirUnlink(fs, slot1, k);
    if e == Ok {
      NamesMoved(s, own, s1, own1, fs.S(), fs.own, k, slot1, n1, slot2, n2);
      Settle(fs, k, slot1, s, own, s1, own1);
      return;
    }
    e, dead := Recover(fs, k, slot1, n1, slot2, n2, s, own, s1, own1);
  }

  /** The recovery path of sfs_rename, after the old slot could not be unlinked. */
  method Recover(fs: Sfs, k: nat, ghost slot1: nat, ghost n1: Name, slot2: nat, ghost n2: Name,
                 ghost s: State, ghost own: Owner, ghost s1: State, ghost own1: Owner)
    returns (e: Err, dead: bool)
    requires fs.Valid() && Moving(s, own, s1, own1, k, slot1, n1, slot2, n2) && Lost(s1, own1, fs.S(), fs.own)
    modifies fs, fs.freemap.v
    ensures Ready(fs) && fs.faults >= old(fs.faults) && e == EIO
    ensures fs.faults == old(fs.faults) ==> fs.Leakage() == old(fs.Leakage())
    ensures !dead ==> SameNames(s, fs.S()) && FilesKept(s, own, fs.S(), fs.own, {ROOT})
    ensures dead ==> fs.faults > old(fs.faults)
  {
    e, dead := EIO, false;
    NoInodeZero(fs);
    MovingLost(s, own, s1, own1, fs.S(), fs.own, k, slot1, n1, slot2, n2);
    ghost var s2, own2 := fs.S(), fs.own;
    var e2 := DirUnlink(fs, slot2, k);
    if e2 != Ok {
      NoInodeZero(fs);
      LostOk(s2, own2, fs.S(), fs.own);
      dead := true;
    } else {
      NamesRestored(s, own, s2, own2, fs.S(), fs.own, k, slot1, n1, slot2, n2);
      ghost var s3 := fs.S();
      Settle(fs, k, slot2, s, own, s2, own2);
      forall n: Name ensures NameKept(s, fs.S(), n) { assert NameKept(s, s3, n); }
    }
  }

  lemma MovingFile(s: State, own: Owner, s1: State, s2: State, own2: Owner, s3: State, k: nat)
    requires FilesKept(s, own, s1, own, {}) && Live(own, k) && k in s1.vn && k != ROOT && Live(own2, k)
    requires Rewrote(s1, own, s2, own2, Dir(s2)) && Relinked(s2, own2, s3, k, 1)
    ensures Shifted(s, own, s3, own2, k, 1)
  {
    ShiftOpened(s, own, s1, k);
    ShiftRewrote(s1, own, s2, own2, Dir(s2), k);
    ShiftTrans(s, own, s1, own, s2, own2, k, 0, 0);
    ShiftRelinked(s2, own2, s3, k, 1);
    ShiftTrans(s, own, s2, own2, s3, own2, k, 0, 1);
  }

  lemma MovingRefs(s: State, s1: State, own1: Owner, s2: State, own2: Owner, s3: State, k: nat)
    requires Refd(s, s1, k, 1) && Rewrote(s1, own1, s2, own2, Dir(s2)) && Relinked(s2, own2, s3, k, 1)
    ensures Refd(s, s3, k, 1)
  {
    RefdLinked(s1, own1, s2, own2, s3, k, 1);
    RefdZero(s1, s3, 0, k);
    RefdTrans(s, s1, s3, k, 1, 0);
  }

  /** The new name written and counted. */
  lemma MovingOk(s: State, own: Owner, s1: State, s2: State, own2: Owner, s3: State, k: nat, slot1: nat, n1: Name, slot2: nat, n2: Name)
    requires Found(s, own, s1, k, slot1, n1) && k != ROOT && !Live(own2, NOINO)
    requires Named(s1, own, s2, own2, n2, k, slot2) && Relinked(s2, own2, s3, k, 1) && Consistent(s3, own2)
      && Live(own2, k)
    ensures Moving(s, own, s3, own2, k, slot1, n1, slot2, n2)
  {
    MovingFile(s, own, s1, s2, own2, s3, k);
    MovingRefs(s, s1, own, s2, own2, s3, k);
    NamedSets(s1, own, s2, own2, n2, k, slot2);
  }

  /** Give a file up after a write to the directory failed. */
  method LetGo(fs: Sfs, k: nat, ghost slot: nat, ghost name: Name, ghost s: State, ghost own: Owner, ghost s1: State)
    requires fs.Valid() && Found(s, own, s1, k, slot, name) && Lost(s1, own, fs.S(), fs.own)
    modifies fs, fs.freemap.v
    ensures Ready(fs) && fs.faults >= old(fs.faults)
    ensures fs.faults == old(fs.faults) ==> fs.Leakage() == old(fs.Leakage())
    ensures SameNames(s, fs.S()) && FilesKept(s, own, fs.S(), fs.own, {ROOT})
    ensures fs.faults == old(fs.faults) ==> Refd(s, fs.S(), 0, 0)
  {
    ghost var s2, own2 := fs.S(), fs.own;
    FoundHeld(s, own, s1, s2, own2, k, slot, name);
    fs.Decref(k);
    if fs.faults == old(fs.faults) { RefdGone(s, s1, own, s2, own2, fs.S(), k); }
    LetGoOk(s, own, s1, s2, own2, fs.S(), fs.own, k, slot, name);
  }

  /** Count the new name. */
  method CountRenamed(fs: Sfs, k: nat, ghost slot1: nat, ghost n1: Name, ghost slot2: nat, ghost n2: Name,
                      ghost s: State, ghost own: Owner, ghost s1: State)
    requires fs.Valid() && k != ROOT && Found(s, own, s1, k, slot1, n1) && Named(s1, own, fs.S(), fs.own, n2, k, slot2)
    modifies fs`vnodes
    ensures fs.Valid() && fs.Leakage() == old(fs.Leakage())
    ensures Moving(s, own, fs.S(), fs.own, k, slot1, n1, slot2, n2)
  {
    ghost var s2 := fs.S();
    NoInodeZero(fs);
    LoadedLive(s2, fs.own, k);
    AddLink(fs, k, 1);
    MovingOk(s, own, s1, s2, fs.own, fs.S(), k, slot1, n1, slot2, n2);
  }

  ghost predicate RenameErr(s: State, n1: Name, n2: Name, e: Err) {
    Faulty(e) || (if Lookup(Dir(s), n1) == NOINO then e == ENOENT else LinkErr(s, n2, e))
  }

  /** sfs_rename.  The kernel dies (`dead`) when n1 names the root directory,
      which fails the assertion on the file's type, or when neither the old
      name nor, after that, the new one can be taken out of the directory. */
  method Rename(fs: Sfs, n1: Name, n2: Name) returns (e: Err, dead: bool)
    requires Ready(fs)
    modifies fs, fs.freemap.v
    ensures Ready(fs) && fs.faults >= old(fs.faults) && (Faulty(e) ==> fs.faults > old(fs.faults))
    ensures fs.faults == old(fs.faults) ==> fs.Leakage() == old(fs.Leakage())
    ensures !dead && e == Ok ==>
      NameMoved(old(fs.S()), fs.S(), n1, n2, Lookup(Dir(old(fs.S())), n1))
    ensures !dead && e != Ok ==> SameNames(old(fs.S()), fs.S())
    ensures !dead ==> FilesKept(old(fs.S()), old(fs.own), fs.S(), fs.own, {ROOT})
    ensures fs.faults <= old(fs.faults) + 1 ==>
      (dead <==> Lookup(Dir(old(fs.S())), n1) == ROOT && fs.faults == old(fs.faults))
    ensures !dead ==> RenameErr(old(fs.S()), n1, n2, e)
    ensures !dead && fs.faults == old(fs.faults) ==> Refd(old(fs.S()), fs.S(), 0, 0)
  {
    dead := false;
    ghost var s, own := fs.S(), fs.own;
    var k, slot1;
    e, k, slot1 := LookOnce(fs, n1);
    if e != Ok {
      Unchanged(s, own);
      RefdSame(s, 0);
      return;
    }
    NamedLive(s, own, slot1);
    KindKept(s, own, fs.S(), k);
    if fs.Get(k).inode.kind != TYPE_FILE { return Ok, true; }
    FoundNow(fs, s, k, slot1, n1);
    e, dead := RenameFound(fs, k, slot1, n1, n2, s);
  }

  /** sfs_rename of a file that was found. */
  method RenameFound(fs: Sfs, k: nat, slot1: nat, n1: Name, n2: Name, ghost s: State) returns (e: Err, dead: bool)
    requires fs.Valid() && k != ROOT && Found(s, fs.own, fs.S(), k, slot1, n1)
    modifies fs, fs.freemap.v
    ensures Ready(fs) && fs.faults >= old(fs.faults) && (Faulty(e) ==> fs.faults > old(fs.faults))
    ensures fs.faults == old(fs.faults) ==> fs.Leakage() == old(fs.Leakage())
    ensures LinkErr(s, n2, e)
    ensures !dead && e == Ok ==> NameMoved(s, fs.S(), n1, n2, k)
    ensures !dead && e != Ok ==> SameNames(s, fs.S())
    ensures !dead ==> FilesKept(s, old(fs.own), fs.S(), fs.own, {ROOT})
    ensures dead ==> fs.faults > old(fs.faults) + 1
    ensures fs.faults == old(fs.faults) ==> Refd(s, fs.S(), 0, 0)
  {
    dead := false;
    ghost var s1, own := fs.S(), fs.own;
    var slot2;
    e, slot2 := DirLink(fs, n2, k);
    LinkErrSame(s, s1, n2, e);
    if e != Ok {
      LetGo(fs, k, slot1, n1, s, own, s1);
      return;
    }
    e, dead := RenameLinked(fs, k, slot1, n1, slot2, n2, s, own, s1);
  }

  /** sfs_rename once the new name is in the directory. */
  method RenameLinked(fs: Sfs, k: nat, slot1: nat, n1: Name, slot2: nat, n2: Name, ghost s: State, ghost own: Owner, ghost s1: State)
    returns (e: Err, dead: bool)
    requires fs.Valid() && k != ROOT && Found(s, own, s1, k, slot1, n1) && Named(s1, own, fs.S(), fs.own, n2, k, slot2)
    modifies fs, fs.freemap.v
    ensures Ready(fs) && fs.faults >= old(fs.faults) && (e == Ok || e == EIO)
      && (e == EIO ==> fs.faults > old(fs.faults))
    ensures fs.faults == old(fs.faults) ==> fs.Leakage() == old(fs.Leakage())
    ensures e == Ok ==> !dead && NameMoved(s, fs.S(), n1, n2, k)
    ensures e != Ok && !dead ==> SameNames(s, fs.S())
    ensures !dead ==> FilesKept(s, own, fs.S(), fs.own, {ROOT})
    ensures dead ==> fs.faults > old(fs.faults) + 1
    ensures fs.faults == old(fs.faults) ==> Refd(s, fs.S(), 0, 0)
  {
    CountRenamed(fs, k, slot1, n1, slot2, n2, s, own, s1);
    e, dead := FinishRename(fs, k, slot1, n1, slot2, n2, s, own);
  }

  lemma KindKept(s: State, own: Owner, s': State, k: nat)
    requires FilesKept(s, own, s', own, {}) && Live(own, k)
    ensures Node(s', k).kind == Node(s, k).kind
  {
    assert FileKept(s, own, s', own, k);
  }
}
