/** Whole runs: every sequence of operations on a volume from mksfs, with any
    pattern of device and memory failures, and what is left after syncing and
    mounting again. */
module SfsRun {
  import opened SfsLayout
  import opened SfsState
  import opened SfsFile
  import opened SfsTruncate
  import opened SfsCache
  import opened SfsView
  import opened SfsDir
  import opened Sfs
  import opened SfsOps
  import opened SfsRemount
  import opened SfsSpec
  import I = SfsImage
  import M = SfsMount
  import K = SfsMake
  import U = Uio
  import B = Bitmap

  /** A volume in order. */
  ghost predicate Sound(fs: Sfs)
    reads fs, fs.freemap.v
  {
    fs.Valid() && Consistent(fs.S(), fs.own)
  }

  // Operations on an open file

  lemma FileViews(s: State, own: Owner, s': State, own': Owner, k: nat)
    requires Consistent(s, own) && k != ROOT && Live(own, k) && Live(own', k) && k in s'.vn
    requires Views(s, own, s', own', {k}) && Node(s', k).links == Node(s, k).links
      && Node(s', k).kind == Node(s, k).kind
    ensures Consistent(s', own') && Dir(s') == Dir(s)
  {
    assert NodeOk(s, own, Dir(s), NOINO, 0, k);
    TreeViews(s, own, s', own', {k}, NOINO, 0);
  }

  /** A vnode is a directory exactly when it is the root. */
  lemma KindIs(s: State, own: Owner, k: nat)
    requires Consistent(s, own) && Live(own, k)
    ensures Node(s, k).kind == TYPE_DIR <==> k == ROOT
  {
    assert NodeOk(s, own, Dir(s), NOINO, 0, k);
  }

  /** VOP_READ on a file. */
  method ReadFile(fs: Sfs, k: nat, uio: U.Uio) returns (e: Err)
    requires Sound(fs) && fs.Loaded(k) && uio.Valid() && uio.rw.Read? && uio.offset + uio.resid < 0x8000_0000
    modifies fs, fs.freemap.v, uio
    ensures Sound(fs) && Counted(old(fs.faults), fs.faults, e) && (e == Ok || e == EIO || e == EINVAL)
    ensures ReadDone(old(fs.Now(uio)), fs.Now(uio), k, e == Ok)
    ensures e == EINVAL ==> uio.offset >= MAXBLOCKS * BLOCKSIZE
  {
    ghost var s, own := fs.S(), fs.own;
    e := fs.Io(k, uio);
    StillConsistent(s, own, fs.S(), fs.own);
  }

  /** VOP_READ */
  method Read(fs: Sfs, k: nat, uio: U.Uio) returns (e: Err)
    requires Sound(fs) && fs.Loaded(k) && uio.Valid() && uio.rw.Read? && uio.offset + uio.resid < 0x8000_0000
    modifies fs, fs.freemap.v, uio
    ensures Sound(fs) && Counted(old(fs.faults), fs.faults, e)
    ensures ReadDone(old(fs.Now(uio)), fs.Now(uio), k, e == Ok)
    ensures (e == EISDIR <==> k == ROOT) && (e == Ok || e == EIO || e == EINVAL || e == EISDIR)
    ensures e == EINVAL ==> uio.offset >= MAXBLOCKS * BLOCKSIZE
  {
    LoadedLive(fs.S(), fs.own, k);
    KindIs(fs.S(), fs.own, k);
    if fs.Get(k).inode.kind == TYPE_DIR {
      HasReadNothing(fs.S(), k, uio.offset, uio.data, uio.base);
      return EISDIR;
    }
    e := ReadFile(fs, k, uio);
  }

  lemma StillConsistent(s: State, own: Owner, s': State, own': Owner)
    requires Consistent(s, own) && Untouched(s, own, s', own')
    ensures Consistent(s', own')
  {
  }

  /** VOP_WRITE on a file. */
  method WriteFile(fs: Sfs, k: nat, uio: U.Uio) returns (e: Err)
    requires Sound(fs) && fs.Loaded(k) && k != ROOT && uio.Valid() && uio.rw.Write?
      && uio.offset + uio.resid < 0x8000_0000
    modifies fs, fs.freemap.v, uio
    ensures Sound(fs) && Dir(fs.S()) == Dir(old(fs.S())) && Counted(old(fs.faults), fs.faults, e)
    ensures fs.faults == old(fs.faults) ==> fs.Leakage() == old(fs.Leakage())
    ensures Written(old(fs.Now(uio)), fs.Now(uio), k) && (e == Ok ==> uio.resid == 0)
    ensures e == Ok || e == EIO || ((e == ENOSPC || e == EINVAL) && Stuck(fs.S(), k, uio.offset))
  {
    ghost var a := fs.Now(uio);
    LoadedLive(a.s, a.own, k);
    e := fs.Io(k, uio);
    WriteKeeps(a, fs.Now(uio), k);
  }

  /** VOP_WRITE */
  method Write(fs: Sfs, k: nat, uio: U.Uio) returns (e: Err)
    requires Sound(fs) && fs.Loaded(k) && uio.Valid() && uio.rw.Write? && uio.offset + uio.resid < 0x8000_0000
    modifies fs, fs.freemap.v, uio
    ensures Sound(fs) && Dir(fs.S()) == Dir(old(fs.S())) && Counted(old(fs.faults), fs.faults, e)
    ensures fs.faults == old(fs.faults) ==> fs.Leakage() == old(fs.Leakage())
    ensures e == EISDIR <==> k == ROOT
    ensures k == ROOT ==> fs.Now(uio) == old(fs.Now(uio))
    ensures k != ROOT ==> Written(old(fs.Now(uio)), fs.Now(uio), k) && (e == Ok ==> uio.resid == 0)
    ensures k != ROOT ==> e == Ok || e == EIO || ((e == ENOSPC || e == EINVAL) && Stuck(fs.S(), k, uio.offset))
  {
    LoadedLive(fs.S(), fs.own, k);
    KindIs(fs.S(), fs.own, k);
    if fs.Get(k).inode.kind == TYPE_DIR { return EISDIR; }
    e := WriteFile(fs, k, uio);
  }

  lemma WriteKeeps(a: Point, c: Point, k: nat)
    requires Consistent(a.s, a.own) && k != ROOT && Live(a.own, k) && k in a.s.vn && Written(a, c, k)
    ensures Consistent(c.s, c.own) && Dir(c.s) == Dir(a.s)
  {
    ViewsWrite(a.s, a.own, c.s, c.own, k, a.offset, c.data[a.base..c.base], a.resid, c.faults == a.faults);
    FileViews(a.s, a.own, c.s, c.own, k);
  }

  /** VOP_TRUNCATE.  `torn` marks the one failure after which a freed block is
      still named by the file. */
  method Cut(fs: Sfs, k: nat, len: nat) returns (e: Err, torn: bool)
    requires Sound(fs) && fs.Loaded(k) && len < 0x8000_0000
    modifies fs, fs.freemap.v
    ensures !torn ==> Sound(fs) && Dir(fs.S()) == Dir(old(fs.S())) && fs.Leakage() == old(fs.Leakage())
    ensures torn ==> NDIRECT <= BlockLen(len) && TornFile(fs.S(), k)
    ensures torn <==> k != ROOT && fs.Tears(old(fs.S()), k, BlockLen(len), old(fs.clock))
    ensures Counted(old(fs.faults), fs.faults, e) && (e == EISDIR <==> k == ROOT) && (torn ==> e == EIO)
    ensures !torn ==> FilesKept(old(fs.S()), old(fs.own), fs.S(), fs.own, {ROOT, k}) && (e == Ok || e == EIO || e == EISDIR)
    ensures e == Ok ==> FileCut(old(fs.S()), old(fs.own), fs.S(), fs.own, k, len)
    ensures e == Ok ==> Node(fs.S(), k).size == len && forall t: nat :: SlotStays(old(fs.S()), fs.S(), k, len, t)
    ensures !torn ==> HeadKept(old(fs.S()), fs.S(), k, len)
  {
    torn := false;
    ghost var s, own := fs.S(), fs.own;
    LoadedLive(s, own, k);
    KindIs(s, own, k);
    if fs.Get(k).inode.kind == TYPE_DIR {
      SameNow(s, own);
      KeptMore(s, own, s, own, {ROOT}, {ROOT, k});
      return EISDIR, false;
    }
    e, torn := fs.Truncate(k, len);
    if torn { return; }
    if e == Ok {
      ViewsCut(s, own, fs.S(), fs.own, k, len);
    } else {
      ViewsHalfCut(s, own, fs.S(), fs.own, k, DoomedDirect(s, k, BlockLen(len), NDIRECT));
    }
    FileViews(s, own, fs.S(), fs.own, k);
    KeptViews(s, own, fs.S(), fs.own, {k}, {ROOT, k});
  }

  /** vnode_decref by the holder of a file. */
  method Close(fs: Sfs, k: nat)
    requires Sound(fs) && fs.Loaded(k)
    modifies fs, fs.freemap.v
    ensures Sound(fs) && fs.faults >= old(fs.faults) && Dir(fs.S()) == Dir(old(fs.S()))
    ensures fs.faults == old(fs.faults) ==> fs.Leakage() == old(fs.Leakage())
    ensures Released(old(fs.S()), old(fs.own), fs.S(), fs.own, k)
    ensures Refs(old(fs.S()), k) > 1 ==> fs.S() == SetRef(old(fs.S()), k, Refs(old(fs.S()), k) - 1) && fs.own == old(fs.own)
    ensures Refs(old(fs.S()), k) > 1 || fs.faults == old(fs.faults) ==> Refd(old(fs.S()), fs.S(), k, -1)
    ensures Refs(old(fs.S()), k) <= 1 && Node(old(fs.S()), k).links == 0 && fs.faults == old(fs.faults) ==>
      !Live(fs.own, k) && AllFreed(old(fs.S()), fs.S(), k)
  {
    LoadedLive(fs.S(), fs.own, k);
    RootLinked(fs.S(), fs.own);
    RefsPositive(fs.S(), fs.own, k);
    fs.Decref(k);
    TreeReleased(old(fs.S()), old(fs.own), fs.S(), fs.own, k);
  }

  /** sfs_getroot: the kernel dies if the root has to be read and cannot. */
  method GetRoot(fs: Sfs) returns (dead: bool)
    requires Sound(fs)
    modifies fs, fs.freemap.v
    ensures Sound(fs) && fs.faults >= old(fs.faults) && fs.Leakage() == old(fs.Leakage())
    ensures dead <==> fs.faults > old(fs.faults)
    ensures dead <==> !old(fs.Loaded(ROOT)) && !fs.FourSucceed(old(fs.clock))
    ensures fs.own == old(fs.own) && (dead ==> fs.S() == old(fs.S()))
    ensures !dead ==> Ready(fs) && Opened(old(fs.S()), fs.S(), ROOT)
    ensures Dir(fs.S()) == Dir(old(fs.S())) && FilesKept(old(fs.S()), old(fs.own), fs.S(), fs.own, {})
  {
    RootLinked(fs.S(), fs.own);
    KindIs(fs.S(), fs.own, ROOT);
    var e := fs.LoadVnode(ROOT);
    dead := e != Ok;
    TreeQuiet(old(fs.S()), fs.own, fs.S(), NOINO, 0);
    KeptQuiet(old(fs.S()), fs.own, fs.S());
    QuietOk(old(fs.S()), fs.own, fs.S());
  }

  // Runs

  /** Dead: the kernel has panicked.  Torn: a truncation failed half-way. */
  datatype Outcome = Running | Dead | Torn

  // Operations on the root directory, each on its own

  method CreatStep(fs: Sfs, op: Op)
    requires Ready(fs) && op.CreatOp?
    modifies fs, fs.freemap.v
    ensures Ready(fs) && fs.faults >= old(fs.faults)
    ensures fs.faults == old(fs.faults) ==> fs.Leakage() == old(fs.Leakage())
    ensures exists e: Err ::
      Because(e, fs.faults == old(fs.faults)) && CreatEffect(old(fs.S()), old(fs.own), fs.S(), fs.own, op.name, op.excl, e)
    ensures fs.faults == old(fs.faults) ==> RefsEffect(old(fs.S()), fs.S(), op)
  {
    NoInodeZero(fs);
    var e, k := Creat(fs, op.name, op.excl);
    NoInodeZero(fs);
    if e == Ok && Lookup(Dir(old(fs.S())), op.name) == NOINO { LoadedLive(fs.S(), fs.own, k); }
    CreatDone(old(fs.S()), old(fs.own), fs.S(), fs.own, op.name, op.excl, e, k);
    assert Because(e, fs.faults == old(fs.faults));
    if fs.faults == old(fs.faults) { CreatRefs(old(fs.S()), fs.S(), op, e, k); }
  }

  /** Who created or opened a file holds it. */
  lemma CreatRefs(s: State, s': State, op: Op, e: Err, k: nat)
    requires op.CreatOp? && CreatErr(s, op.name, op.excl, e) && !Faulty(e) && Refd(s, s', k, One(e == Ok))
    requires e == Ok && Lookup(Dir(s), op.name) != NOINO ==> k == Lookup(Dir(s), op.name)
    requires e == Ok && Lookup(Dir(s), op.name) == NOINO ==> NameSet(s, s', op.name, k) && k != NOINO
    requires !(e == Ok && Lookup(Dir(s), op.name) == NOINO) ==> SameNames(s, s')
    ensures RefsEffect(s, s', op)
  {
    var x := Lookup(Dir(s'), op.name);
    if e == Ok && Lookup(Dir(s), op.name) == NOINO { assert x == k; } else { assert NameKept(s, s', op.name); }
    if e != Ok { RefdZero(s, s', k, x); }
  }

  lemma CreatDone(s: State, own: Owner, s': State, own': Owner, name: Name, excl: bool, e: Err, k: nat)
    requires CreatErr(s, name, excl, e) && FilesKept(s, own, s', own', {ROOT})
    requires e == Ok && Lookup(Dir(s), name) == NOINO ==> Made(s, own, s', own', name, k)
    requires !(e == Ok && Lookup(Dir(s), name) == NOINO) ==> SameNames(s, s')
    ensures CreatEffect(s, own, s', own', name, excl, e)
  {
  }

  method LinkStep(fs: Sfs, op: Op)
    requires Ready(fs) && op.LinkOp?
    modifies fs, fs.freemap.v
    ensures Ready(fs) && fs.faults >= old(fs.faults)
    ensures fs.faults == old(fs.faults) ==> fs.Leakage() == old(fs.Leakage())
    ensures op.k in old(fs.S()).vn ==> exists e: Err ::
      Because(e, fs.faults == old(fs.faults)) && LinkEffect(old(fs.S()), old(fs.own), fs.S(), fs.own, op.name, op.k, e)
    ensures op.k !in old(fs.S()).vn ==> Same(old(fs.S()), old(fs.own), fs.S(), fs.own)
    ensures RefsEffect(old(fs.S()), fs.S(), op)
  {
    var found, _ := fs.FindVnode(op.k);
    if !found {
      RefdSame(fs.S(), 0);
      SameNow(fs.S(), fs.own);
      return;
    }
    LoadedLive(fs.S(), fs.own, op.k);
    NoInodeZero(fs);
    var e := Link(fs, op.name, op.k);
    LinkDone(old(fs.S()), old(fs.own), fs.S(), fs.own, op.name, op.k, e);
    assert Because(e, fs.faults == old(fs.faults));
  }

  lemma LinkDone(s: State, own: Owner, s': State, own': Owner, name: Name, k: nat, e: Err)
    requires LinkErr(s, name, e) && Consistent(s', own') && k != NOINO
    requires e == Ok ==> NameSet(s, s', name, k) && FilesKept(s, own, s', own', {ROOT, k})
    requires e == Ok && k != ROOT ==> Node(s', k).size == Node(s, k).size && forall o: nat :: ByteKept(s, s', k, o)
    requires e != Ok ==> SameNames(s, s') && FilesKept(s, own, s', own', {ROOT})
    ensures LinkEffect(s, own, s', own', name, k, e)
  {
    if e == Ok { NameSetLive(s, s', own', name, k); }
  }

  lemma SameNow(s: State, own: Owner)
    ensures Same(s, own, s, own)
  {
    forall n: Name ensures NameKept(s, s, n) {}
    forall x: nat ensures FileKept(s, own, s, own, x) {}
  }

  lemma NameSetLive(s: State, s': State, own': Owner, name: Name, k: nat)
    requires NameSet(s, s', name, k) && Consistent(s', own') && k != NOINO
    ensures Live(own', k)
  {
    assert Lookup(Dir(s'), name) == k;
    NameLive(s', own', name);
  }

  method RemoveStep(fs: Sfs, op: Op)
    requires Ready(fs) && op.RemoveOp?
    modifies fs, fs.freemap.v
    ensures Ready(fs) && fs.faults >= old(fs.faults)
    ensures fs.faults == old(fs.faults) ==> fs.Leakage() == old(fs.Leakage())
    ensures RemoveEffect(old(fs.S()), old(fs.own), fs.S(), fs.own, op.name, fs.faults == old(fs.faults))
    ensures fs.faults == old(fs.faults) ==> RefsEffect(old(fs.S()), fs.S(), op)
  {
    var e, k := Remove(fs, op.name);
  }

  method RenameStep(fs: Sfs, op: Op) returns (dead: bool)
    requires Ready(fs) && op.RenameOp?
    modifies fs, fs.freemap.v
    ensures Ready(fs) && fs.faults >= old(fs.faults)
    ensures fs.faults == old(fs.faults) ==> fs.Leakage() == old(fs.Leakage())
    ensures fs.faults == old(fs.faults) ==> (dead <==> Deadly(old(fs.S()), op))
    ensures !dead ==> exists e: Err ::
      Because(e, fs.faults == old(fs.faults)) && RenameEffect(old(fs.S()), old(fs.own), fs.S(), fs.own, op.n1, op.n2, e)
    ensures !dead && fs.faults == old(fs.faults) ==> RefsEffect(old(fs.S()), fs.S(), op)
  {
    var e;
    e, dead := Rename(fs, op.n1, op.n2);
    assert Because(e, fs.faults == old(fs.faults));
    assert !dead ==> RenameEffect(old(fs.S()), old(fs.own), fs.S(), fs.own, op.n1, op.n2, e);
  }

  method LookupStep(fs: Sfs, op: Op)
    requires Ready(fs) && op.LookupOp?
    modifies fs, fs.freemap.v
    ensures Ready(fs) && fs.faults >= old(fs.faults) && Same(old(fs.S()), old(fs.own), fs.S(), fs.own)
    ensures fs.faults == old(fs.faults) ==> fs.Leakage() == old(fs.Leakage())
    ensures fs.faults == old(fs.faults) ==> RefsEffect(old(fs.S()), fs.S(), op)
  {
    ghost var s := fs.S();
    var e, k := LookupName(fs, op.name);
    assert NameKept(s, fs.S(), op.name);
    if e == Ok { RefdOpened(s, fs.S(), k); } else { RefdSame(s, NOINO); }
    KeptMore(old(fs.S()), old(fs.own), fs.S(), fs.own, {}, {ROOT});
  }

  /** What an operation does to a directory at hand, before the root is given up. */
  ghost predicate DirEffect(s: State, own: Owner, s': State, own': Owner, op: Op, clean: bool) {
    match op
    case CreatOp(name, excl) => exists e: Err :: Because(e, clean) && CreatEffect(s, own, s', own', name, excl, e)
    case LinkOp(name, k) =>
      if k in s.vn then exists e: Err :: Because(e, clean) && LinkEffect(s, own, s', own', name, k, e)
      else Same(s, own, s', own')
    case RemoveOp(name) => RemoveEffect(s, own, s', own', name, clean)
    case RenameOp(n1, n2) =>
      && (clean ==> !Deadly(s, op))
      && exists e: Err :: Because(e, clean) && RenameEffect(s, own, s', own', n1, n2, e)
    case _ => Same(s, own, s', own')
  }

  method DirStep(fs: Sfs, op: Op) returns (dead: bool)
    requires Ready(fs) && RootOp(op)
    modifies fs, fs.freemap.v
    ensures Ready(fs) && fs.faults >= old(fs.faults)
    ensures fs.faults == old(fs.faults) ==> fs.Leakage() == old(fs.Leakage())
    ensures fs.faults == old(fs.faults) ==> (dead <==> Deadly(old(fs.S()), op))
    ensures !dead ==> DirEffect(old(fs.S()), old(fs.own), fs.S(), fs.own, op, fs.faults == old(fs.faults))
    ensures dead ==> op.RenameOp?
    ensures !dead && fs.faults == old(fs.faults) ==> RefsEffect(old(fs.S()), fs.S(), op)
  {
    dead := false;
    if op.CreatOp? {
      CreatStep(fs, op);
    } else if op.LinkOp? {
      LinkStep(fs, op);
    } else if op.RemoveOp? {
      RemoveStep(fs, op);
    } else if op.RenameOp? {
      dead := RenameStep(fs, op);
    } else {
      LookupStep(fs, op);
    }
  }

  lemma EffectAround(s: State, own: Owner, s1: State, s2: State, own2: Owner, s3: State, own3: Owner, op: Op, clean: bool)
    requires Around(s, own, s1, s2, own2, s3, own3) && Consistent(s, own) && RootOp(op)
    requires DirEffect(s1, own, s2, own2, op, clean)
    ensures Effect(s, own, s3, own3, op, clean)
  {
    if op.CreatOp? {
      var e: Err :| Because(e, clean) && CreatEffect(s1, own, s2, own2, op.name, op.excl, e);
      CreatAround(s, own, s1, s2, own2, s3, own3, op.name, op.excl, e);
    } else if op.LinkOp? && op.k in s1.vn {
      var e: Err :| Because(e, clean) && LinkEffect(s1, own, s2, own2, op.name, op.k, e);
      LinkAround(s, own, s1, s2, own2, s3, own3, op.name, op.k, e);
    } else if op.RemoveOp? {
      if Lookup(Dir(s), op.name) != NOINO { NameLive(s, own, op.name); }
      RemoveAround(s, own, s1, s2, own2, s3, own3, op.name, clean);
    } else if op.RenameOp? {
      var e: Err :| Because(e, clean) && RenameEffect(s1, own, s2, own2, op.n1, op.n2, e);
      RenameAround(s, own, s1, s2, own2, s3, own3, op.n1, op.n2, e);
    } else {
      SameAround(s, own, s1, s2, own2, s3, own3);
    }
  }

  /** An operation on the root directory, which is fetched first and given up after. */
  method RootStep(fs: Sfs, op: Op) returns (out: Outcome)
    requires Sound(fs) && RootOp(op)
    modifies fs, fs.freemap.v
    ensures Sound(fs) && fs.faults >= old(fs.faults) && out != Torn
    ensures fs.faults == old(fs.faults) ==> fs.Leakage() == old(fs.Leakage())
    ensures out == Dead && fs.faults == old(fs.faults) ==> Deadly(old(fs.S()), op)
    ensures Deadly(old(fs.S()), op) && fs.faults == old(fs.faults) ==> out == Dead
    ensures out == Running ==> Effect(old(fs.S()), old(fs.own), fs.S(), fs.own, op, fs.faults == old(fs.faults))
    ensures out == Running && fs.faults == old(fs.faults) ==> RefsEffect(old(fs.S()), fs.S(), op)
  {
    ghost var s0, own0 := fs.S(), fs.own;
    var dead := GetRoot(fs);
    if dead { return Dead; }
    ghost var s1, f := fs.S(), fs.faults;
    dead := DirStep(fs, op);
    if dead { return Dead; }
    ghost var s2, own2, clean := fs.S(), fs.own, fs.faults == f;
    RootLinked(s2, own2);
    Close(fs, ROOT);
    RootDone(s0, own0, s1, s2, own2, fs.S(), fs.own, op, clean, fs.faults == f);
    if fs.faults == f { RefsAround(s0, own0, s1, s2, own2, fs.S(), fs.own, op); }
    out := Running;
  }

  lemma RootDone(s: State, own: Owner, s1: State, s2: State, own2: Owner, s3: State, own3: Owner, op: Op, clean: bool, less: bool)
    requires Opened(s, s1, ROOT) && Dir(s1) == Dir(s) && FilesKept(s, own, s1, own, {})
    requires Consistent(s, own) && RootOp(op) && DirEffect(s1, own, s2, own2, op, clean) && (less ==> clean)
    requires Released(s2, own2, s3, own3, ROOT) && Dir(s3) == Dir(s2) && Node(s2, ROOT).links > 0
    ensures Around(s, own, s1, s2, own2, s3, own3) && Effect(s, own, s3, own3, op, less)
  {
    KeptReleased(s2, own2, s3, own3, ROOT);
    EffectAround(s, own, s1, s2, own2, s3, own3, op, clean);
    LessClean(s, own, s3, own3, op, clean, less);
  }

  lemma LessClean(s: State, own: Owner, s': State, own': Owner, op: Op, clean: bool, less: bool)
    requires Effect(s, own, s', own', op, clean) && RootOp(op) && (less ==> clean)
    ensures Effect(s, own, s', own', op, less)
  {
    forall e: Err ensures Because(e, clean) ==> Because(e, less) {}
  }

  /** A truncation that tears its file. */
  ghost predicate TearsFile(fs: Sfs, s: State, clock: nat, op: Op) {
    op.TruncateOp? && op.k in s.vn && op.k != ROOT && op.len < 0x8000_0000 && fs.Tears(s, op.k, BlockLen(op.len), clock)
  }

  /** An operation on a file that nobody holds. */
  lemma NotHeld(s: State, own: Owner, op: Op)
    requires !RootOp(op) && !op.SyncOp? && op.k !in s.vn
    ensures Effect(s, own, s, own, op, true) && RefsEffect(s, s, op)
  {
    SameNow(s, own);
    RefdSame(s, 0);
    RefdSame(s, if op.CloseOp? then op.k else 0);
  }

  /** One operation. */
  method Step(fs: Sfs, op: Op) returns (out: Outcome)
    requires Sound(fs)
    modifies fs, fs.freemap.v
    ensures out != Torn ==> Sound(fs)
    ensures fs.faults >= old(fs.faults) && (out == Torn ==> fs.faults > old(fs.faults))
    ensures fs.faults == old(fs.faults) ==> fs.Leakage() == old(fs.Leakage())
    ensures out == Dead ==> RootOp(op) && (fs.faults > old(fs.faults) || Deadly(old(fs.S()), op))
    ensures Deadly(old(fs.S()), op) && fs.faults == old(fs.faults) ==> out == Dead
    ensures out == Torn <==> TearsFile(fs, old(fs.S()), old(fs.clock), op)
    ensures out == Running ==> Effect(old(fs.S()), old(fs.own), fs.S(), fs.own, op, fs.faults == old(fs.faults))
    ensures out == Running && fs.faults == old(fs.faults) ==> RefsEffect(old(fs.S()), fs.S(), op)
  {
    if op.SyncOp? {
      var _ := M.Sync(fs);
      SameSynced(old(fs.S()), fs.own, fs.S());
      return Running;
    }
    if RootOp(op) {
      out := RootStep(fs, op);
      return;
    }
    var found, _ := fs.FindVnode(op.k);
    if !found {
      NotHeld(fs.S(), fs.own, op);
      return Running;
    }
    out := FileStep(fs, op);
  }

  lemma SameSynced(s: State, own: Owner, s': State)
    requires Dir(s') == Dir(s) && forall k: nat :: FileSameAt(s, own, s', k)
    ensures Same(s, own, s', own)
  {
    forall n: Name ensures NameKept(s, s', n) {}
    forall x: nat ensures FileKept(s, own, s', own, x) {
      assert FileSameAt(s, own, s', x);
      if Live(own, x) { SameBytes(s, s', x); }
    }
  }

  lemma SameBytes(s: State, s': State, x: nat)
    requires SameFile(s, s', x)
    ensures forall o: nat :: ByteKept(s, s', x, o)
  {
    forall o: nat ensures ByteKept(s, s', x, o) {}
  }

  method FileStep(fs: Sfs, op: Op) returns (out: Outcome)
    requires Sound(fs) && (op.ReadOp? || op.WriteOp? || op.TruncateOp? || op.CloseOp?) && fs.Loaded(op.k)
    modifies fs, fs.freemap.v
    ensures out != Torn ==> Sound(fs)
    ensures fs.faults >= old(fs.faults) && (out == Torn ==> fs.faults > old(fs.faults)) && out != Dead
    ensures fs.faults == old(fs.faults) ==> fs.Leakage() == old(fs.Leakage())
    ensures out == Torn <==> TearsFile(fs, old(fs.S()), old(fs.clock), op)
    ensures out == Running ==> Effect(old(fs.S()), old(fs.own), fs.S(), fs.own, op, fs.faults == old(fs.faults))
    ensures out == Running && fs.faults == old(fs.faults) ==> RefsEffect(old(fs.S()), fs.S(), op)
  {
    out := Running;
    if op.TruncateOp? {
      out := CutStep(fs, op);
    } else if op.ReadOp? {
      ReadStep(fs, op.k, op.off, op.n);
    } else if op.WriteOp? {
      WriteStep(fs, op);
    } else {
      CloseStep(fs, op.k);
    }
  }

  method CloseStep(fs: Sfs, k: nat)
    requires Sound(fs) && fs.Loaded(k)
    modifies fs, fs.freemap.v
    ensures Sound(fs) && fs.faults >= old(fs.faults)
    ensures fs.faults == old(fs.faults) ==> fs.Leakage() == old(fs.Leakage())
    ensures CloseEffect(old(fs.S()), old(fs.own), fs.S(), fs.own, k, fs.faults == old(fs.faults))
    ensures fs.faults == old(fs.faults) ==> Refd(old(fs.S()), fs.S(), k, -1)
  {
    ghost var s, own := fs.S(), fs.own;
    LoadedLive(s, own, k);
    Close(fs, k);
    SameDir(s, fs.S());
    ClosedKeeps(s, own, fs.S(), fs.own, k);
  }

  lemma ClosedKeeps(s: State, own: Owner, s': State, own': Owner, k: nat)
    requires Released(s, own, s', own', k) && Live(own, k) && k in s.vn
    requires Refs(s, k) > 1 ==> s' == SetRef(s, k, Refs(s, k) - 1) && own' == own
    ensures FilesKept(s, own, s', own', if Node(s, k).links == 0 && Refs(s, k) <= 1 then {ROOT, k} else {ROOT})
  {
    KeptReleased(s, own, s', own', k);
    KeptMore(s, own, s', own', if Node(s, k).links > 0 then {} else {k}, if Node(s, k).links == 0 then {ROOT, k} else {ROOT});
    if Refs(s, k) > 1 {
      forall o: nat ensures ByteKept(s, s', k, o) { RefByte(s, k, Refs(s, k) - 1, o); }
      forall x: nat | x !in {ROOT} ensures FileKept(s, own, s', own', x) { assert x != k ==> x !in {ROOT, k}; }
    }
  }

  lemma SameDir(s: State, s': State)
    requires Dir(s') == Dir(s)
    ensures SameNames(s, s')
  {
    forall n: Name ensures NameKept(s, s', n) {}
  }

  method CutStep(fs: Sfs, op: Op) returns (out: Outcome)
    requires Sound(fs) && op.TruncateOp? && fs.Loaded(op.k)
    modifies fs, fs.freemap.v
    ensures out != Torn ==> Sound(fs)
    ensures fs.faults >= old(fs.faults) && (out == Torn ==> fs.faults > old(fs.faults)) && out != Dead
    ensures fs.faults == old(fs.faults) ==> fs.Leakage() == old(fs.Leakage())
    ensures out == Torn <==> TearsFile(fs, old(fs.S()), old(fs.clock), op)
    ensures out == Running ==> Effect(old(fs.S()), old(fs.own), fs.S(), fs.own, op, fs.faults == old(fs.faults))
    ensures out == Running && fs.faults == old(fs.faults) ==> Refd(old(fs.S()), fs.S(), 0, 0)
  {
    if op.len >= 0x8000_0000 || op.k == ROOT {
      SameNow(fs.S(), fs.own);
      RefdSame(fs.S(), 0);
      return Running;
    }
    var e, torn := Cut(fs, op.k, op.len);
    if torn { return Torn; }
    if e == Ok { RefdTable(old(fs.S()), fs.S()); }
    SameDir(old(fs.S()), fs.S());
    out := Running;
  }

  method ReadStep(fs: Sfs, k: nat, off: nat, n: nat)
    requires Sound(fs) && fs.Loaded(k)
    modifies fs, fs.freemap.v
    ensures Sound(fs) && fs.faults >= old(fs.faults)
    ensures fs.faults == old(fs.faults) ==> fs.Leakage() == old(fs.Leakage())
    ensures Same(old(fs.S()), old(fs.own), fs.S(), fs.own) && Refd(old(fs.S()), fs.S(), 0, 0)
  {
    SameNow(fs.S(), fs.own);
    RefdSame(fs.S(), 0);
    if off + n < 0x8000_0000 {
      var uio := new U.Uio(U.ZeroBytes(n), off, U.Read);
      var _ := Read(fs, k, uio);
      SameLeaks(old(fs.S()), old(fs.own), fs.S(), fs.own);
    }
  }

  lemma SameLeaks(s: State, own: Owner, s': State, own': Owner)
    requires Untouched(s, own, s', own')
    ensures Leakage(s', own') == Leakage(s, own)
  {
  }

  method WriteStep(fs: Sfs, op: Op)
    requires Sound(fs) && op.WriteOp? && fs.Loaded(op.k)
    modifies fs, fs.freemap.v
    ensures Sound(fs) && fs.faults >= old(fs.faults)
    ensures fs.faults == old(fs.faults) ==> fs.Leakage() == old(fs.Leakage())
    ensures Effect(old(fs.S()), old(fs.own), fs.S(), fs.own, op, fs.faults == old(fs.faults))
    ensures Refd(old(fs.S()), fs.S(), 0, 0)
  {
    if op.off + |op.data| >= 0x8000_0000 || op.k == ROOT {
      SameNow(fs.S(), fs.own);
      RefdSame(fs.S(), 0);
      return;
    }
    var uio := new U.Uio(op.data, op.off, U.Write);
    ghost var a := fs.Now(uio);
    var _ := Write(fs, op.k, uio);
    WriteStepped(a, fs.Now(uio), op.k, op.off, op.data);
    WrittenRefs(a, fs.Now(uio), op.k);
  }

  lemma WriteStepped(a: Point, c: Point, k: nat, off: nat, data: seq<byte>)
    requires Written(a, c, k) && Dir(c.s) == Dir(a.s) && c.faults >= a.faults
    requires a.data == data && a.base == 0 && a.offset == off && a.resid == |data|
    requires c.faults == a.faults && c.resid > 0 ==> Stuck(c.s, k, c.offset)
    ensures WriteEffect(a.s, a.own, c.s, c.own, k, off, data, c.faults == a.faults)
  {
    SameDir(a.s, c.s);
    var n := c.base;
    assert data[..n] == c.data[a.base..c.base];
    ViewsWrite(a.s, a.own, c.s, c.own, k, off, data[..n], |data|, c.faults == a.faults);
    KeptViews(a.s, a.own, c.s, c.own, {k}, {ROOT, k});
  }

  lemma WrittenRefs(a: Point, c: Point, k: nat)
    requires Written(a, c, k)
    ensures Refd(a.s, c.s, 0, 0)
  {
    var m := WrittenGap(a, c, k);
    RefdTable(a.s, c.s);
  }

  ghost predicate LinksNoRoot(ops: seq<Op>) { forall i :: 0 <= i < |ops| ==> !LinksRoot(ops[i]) }

  /** Why a run stops at an operation: the kernel dies in one on the root directory
      after a fault or in a rename of the root; a truncation is torn that can be. */
  ghost predicate Halts(m: Moment, op: Op, out: Outcome, faults: nat) {
    && (out == Dead ==> RootOp(op) && (faults > m.faults || Deadly(m.s, op)))
    && (out == Torn ==> op.TruncateOp? && faults > m.faults && Tearable(m.s, op.k, BlockLen(op.len)))
  }

  /** h is the history of the first i operations, from a to b. */
  ghost predicate Ran(h: seq<Moment>, ops: seq<Op>, i: nat, a: Moment, b: Moment) {
    i <= |ops| && |h| == i + 1 && h[0] == a && h[i] == b && History(h, ops[..i])
  }

  /** h tells what happened from a to b: all operations, or those before the one it
      stopped at. */
  ghost predicate Told(h: seq<Moment>, ops: seq<Op>, out: Outcome, a: Moment, b: Moment) {
    if out == Running then Ran(h, ops, |ops|, a, b)
    else
      && 0 < |h| <= |ops| && Ran(h, ops, |h| - 1, a, h[|h| - 1])
      && Halts(h[|h| - 1], ops[|h| - 1], out, b.faults)
  }

  /** The root has no name and gets none. */
  ghost predicate Safe(s: State, ops: seq<Op>) { RootUnnamed(s) && LinksNoRoot(ops) }

  ghost function Present(fs: Sfs): Moment
    reads fs, fs.freemap.v
  {
    Moment(fs.S(), fs.own, fs.faults)
  }

  /** A run keeps the volume in order through every sequence of operations and
      every pattern of failures, up to a torn truncation, and each operation has
      its effect on names, contents and references; without failures nothing is
      torn, nothing leaks, and unless the root is given a name the kernel lives. */
  method Run(fs: Sfs, ops: seq<Op>) returns (out: Outcome, ghost h: seq<Moment>)
    requires Sound(fs)
    modifies fs, fs.freemap.v
    ensures out != Torn ==> Sound(fs)
    ensures fs.faults >= old(fs.faults) && (out == Torn ==> fs.faults > old(fs.faults))
    ensures fs.faults == old(fs.faults) ==> fs.Leakage() == old(fs.Leakage())
    ensures Safe(old(fs.S()), ops) && fs.faults == old(fs.faults) ==> out == Running
    ensures !SomeFault(fs.fault) ==> fs.faults == old(fs.faults)
    ensures Told(h, ops, out, old(Present(fs)), Present(fs))
  {
    out := Running;
    h := [Present(fs)];
    RanNothing(Present(fs), ops);
    var i := 0;
    while i < |ops|
      invariant i <= |ops| && Sound(fs) && out == Running && fs.faults >= old(fs.faults)
      invariant fs.faults == old(fs.faults) ==> fs.Leakage() == old(fs.Leakage())
      invariant Safe(old(fs.S()), ops) ==> Safe(fs.S(), ops)
      invariant Ran(h, ops, i, old(Present(fs)), Present(fs))
    {
      out, h := Next(fs, ops, i, h, old(Present(fs)));
      if out != Running { return; }
      i := i + 1;
    }
  }

  lemma TakeMore(ops: seq<Op>, i: nat)
    requires i < |ops|
    ensures ops[..i + 1] == ops[..i] + [ops[i]]
  {
  }

  lemma RanNothing(a: Moment, ops: seq<Op>)
    requires InOrder(a)
    ensures Ran([a], ops, 0, a, a)
  {
    forall i: nat ensures OrderAt([a], i) && StepAt([a], ops[..0], i) {}
  }

  lemma RanMore(h: seq<Moment>, ops: seq<Op>, i: nat, a: Moment, b: Moment, c: Moment)
    requires Ran(h, ops, i, a, b) && i < |ops| && InOrder(c) && Between(b, c, ops[i])
    ensures Ran(h + [c], ops, i + 1, a, c)
  {
    HistoryMore(h, ops[..i], c, ops[i]);
    TakeMore(ops, i);
  }

  /** One more operation of a run that began at a. */
  method Next(fs: Sfs, ops: seq<Op>, i: nat, ghost h: seq<Moment>, ghost a: Moment) returns (out: Outcome, ghost h': seq<Moment>)
    requires Sound(fs) && i < |ops| && Ran(h, ops, i, a, Present(fs))
    modifies fs, fs.freemap.v
    ensures out != Torn ==> Sound(fs)
    ensures fs.faults >= old(fs.faults) && (out == Torn ==> fs.faults > old(fs.faults) && SomeFault(fs.fault))
    ensures fs.faults == old(fs.faults) ==> fs.Leakage() == old(fs.Leakage())
    ensures Safe(old(fs.S()), ops) ==>
      (out == Running ==> Safe(fs.S(), ops)) && (fs.faults == old(fs.faults) ==> out == Running)
    ensures out == Running ==> Ran(h', ops, i + 1, a, Present(fs))
    ensures out != Running ==> Told(h', ops, out, a, Present(fs))
  {
    ghost var s, own := fs.S(), fs.own;
    RootLinked(s, own);
    out := Step(fs, ops[i]);
    h' := h;
    if out == Running {
      if RootUnnamed(s) && !LinksRoot(ops[i]) {
        OnlyLinkNamesRoot(s, own, fs.S(), fs.own, ops[i], fs.faults == old(fs.faults));
      }
      RanMore(h, ops, i, a, old(Present(fs)), Present(fs));
      h' := h + [Present(fs)];
    }
  }

  /** From a blank device: make the volume, mount it, and run. */
  method Boot(dev: seq<Block>, volname: Name, fault: nat -> bool, ops: seq<Op>)
    returns (fs: B.Option<Sfs>, out: Outcome, ghost h: seq<Moment>)
    requires |dev| < 0x1_0000_0000
    ensures fs.Some? && out != Torn ==> Sound(fs.value)
    ensures fs.Some? && fs.value.faults == 0 ==> out != Torn && fs.value.Leaks() == {}
    ensures fs.Some? && fs.value.faults == 0 && LinksNoRoot(ops) ==> out == Running
    ensures !SomeFault(fault) && K.Legal(volname) && |K.Stripped(volname)| < K.VOLNAME_SIZE && K.Makeable(|dev|) ==>
      fs.Some? && fs.value.faults == 0
    ensures fs.Some? ==> |h| > 0 && K.New(h[0].s) && h[0].s.nblocks == |dev| && h[0].own == K.NewOwner()
    ensures fs.Some? ==> Told(h, ops, out, h[0], Present(fs.value))
  {
    out, h := Running, [];
    fs := Begin(dev, volname, fault);
    if fs.Some? { out, h := Run(fs.value, ops); }
  }

  /** mksfs and sfs_domount. */
  method Begin(dev: seq<Block>, volname: Name, fault: nat -> bool) returns (fs: B.Option<Sfs>)
    requires |dev| < 0x1_0000_0000
    ensures fs.Some? ==> fresh(fs.value) && fresh(fs.value.freemap.v) && Sound(fs.value) && RootUnnamed(fs.value.S())
    ensures fs.Some? ==> fs.value.faults == 0 && fs.value.fault == fault && fs.value.Leaks() == {}
    ensures fs.Some? ==> K.New(fs.value.S()) && fs.value.nblocks == |dev| && fs.value.own == K.NewOwner()
    ensures !SomeFault(fault) && K.Legal(volname) && |K.Stripped(volname)| < K.VOLNAME_SIZE && K.Makeable(|dev|) ==> fs.Some?
  {
    var ok, disk := K.Mksfs(dev, volname);
    if !ok { return B.None; }
    ghost var s := M.Image(disk);
    K.NewBlocks(s);
    K.NewConsistent(s);
    var e, dead;
    e, fs, dead := M.Mount(disk, fault, K.NewOwner());
  }

  // Sync and mount

  /** sfs_sync and then sfs_domount of the same disk: without failures the second
      volume has the names, the files behind them and the free blocks of the
      first, and leaks exactly if that one leaked or held a file without a name. */
  method Cycle(fs: Sfs, fault: nat -> bool) returns (e: Err, r: B.Option<Sfs>)
    requires Sound(fs) && !SomeFault(fault)
    modifies fs
    ensures Sound(fs) && Dir(fs.S()) == Dir(old(fs.S())) && fs.own == old(fs.own)
    ensures (forall k: nat :: FileSameAt(old(fs.S()), fs.own, fs.S(), k)) && fs.S().used == old(fs.S()).used
    ensures fs.faults == old(fs.faults) ==> r.Some? && r.value.S().used == old(fs.S()).used && SameVolume(fs, r.value)
  {
    e := M.Sync(fs);
    r := B.None;
    if e != Ok { return; }
    e, r := MountSynced(fs, fault);
  }

  /** The second volume is in order and has the names, the files behind them and
      the free map of the first. */
  ghost predicate SameVolume(fs: Sfs, r: Sfs)
    reads fs, fs.freemap.v, r, r.freemap.v
  {
    && Sound(r) && r.S() == Fresh(fs.S())
    && (forall n: Name :: Lookup(Dir(r.S()), n) == Lookup(Dir(fs.S()), n))
    && (forall n: Name :: Lookup(Dir(fs.S()), n) != NOINO ==> SameFile(fs.S(), r.S(), Lookup(Dir(fs.S()), n)))
    && (r.Leaks() == {} <==> fs.Leaks() == {} && forall k: nat :: k in fs.S().vn ==> Node(fs.S(), k).links > 0)
  }

  method MountSynced(fs: Sfs, fault: nat -> bool) returns (e: Err, r: B.Option<Sfs>)
    requires Sound(fs) && !fs.freemapdirty && !SomeFault(fault)
    ensures r.Some? ==> fresh(r.value)
    ensures Clean(fs.S()) ==> r.Some? && SameVolume(fs, r.value)
  {
    M.SyncedImage(fs);
    M.Mountable(fs);
    ghost var s, own := fs.S(), Linked(fs.S(), fs.own);
    if Clean(s) { Remount(s, fs.own); }
    var dead;
    e, r, dead := M.Mount(fs.disk, fault, own);
  }
}
