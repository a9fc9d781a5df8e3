/** What the layers above blocks see of a volume: which inodes exist, their
    metadata and bytes, and which vnodes are held. */
module SfsView {
  import opened SfsLayout
  import opened SfsState
  import opened SfsFile
  import opened SfsCache
  import T = SfsTruncate

  ghost predicate ViewAt(s: State, own: Owner, s': State, own': Owner, x: nat) {
    && (Live(own', x) <==> Live(own, x))
    && (x in s'.vn <==> x in s.vn)
    && (x in s.vn ==> s'.vn[x].ref == s.vn[x].ref)
    && (Live(own, x) ==> SameMeta(s, s', x) && forall o: nat :: ByteKept(s, s', x, o))
  }

  /** Everything outside `but` looks the same, and no reserved block was written. */
  ghost predicate Views(s: State, own: Owner, s': State, own': Owner, but: set<nat>) {
    && s'.nblocks == s.nblocks && |s'.disk| == |s.disk|
    && (forall x: nat :: x !in but ==> ViewAt(s, own, s', own', x))
    && (forall b: nat :: ReservedSame(s, s', b))
  }

  lemma ViewsSame(s: State, own: Owner)
    ensures Views(s, own, s, own, {})
  {
    forall x: nat ensures ViewAt(s, own, s, own, x) {
      forall o: nat ensures ByteKept(s, s, x, o) {}
    }
    forall b: nat ensures ReservedSame(s, s, b) {}
  }

  lemma ViewsMore(s: State, own: Owner, s': State, own': Owner, but: set<nat>, but': set<nat>)
    requires Views(s, own, s', own', but) && but <= but'
    ensures Views(s, own, s', own', but')
  {
    forall x: nat | x !in but' ensures ViewAt(s, own, s', own', x) { assert x !in but; }
  }

  lemma ViewsTrans(s: State, own: Owner, s1: State, own1: Owner, s2: State, own2: Owner, but: set<nat>)
    requires Views(s, own, s1, own1, but) && Views(s1, own1, s2, own2, but)
    ensures Views(s, own, s2, own2, but)
  {
    forall x: nat | x !in but ensures ViewAt(s, own, s2, own2, x) {
      assert ViewAt(s, own, s1, own1, x) && ViewAt(s1, own1, s2, own2, x);
      if Live(own, x) {
        forall o: nat ensures ByteKept(s, s2, x, o) { assert ByteKept(s, s1, x, o) && ByteKept(s1, s2, x, o); }
      }
    }
    forall b: nat ensures ReservedSame(s, s2, b) { assert ReservedSame(s, s1, b) && ReservedSame(s1, s2, b); }
  }

  lemma DataBytes(s: State, s': State, x: nat)
    requires SameData(s, s', x)
    ensures forall o: nat :: ByteKept(s, s', x, o)
  {
    forall o: nat ensures ByteKept(s, s', x, o) {
      assert FBlock(s', x, o / BLOCKSIZE) == FBlock(s, x, o / BLOCKSIZE);
    }
  }

  lemma ViewsExtends(s: State, own: Owner, s': State, own': Owner)
    requires Extends(s, own, s', own')
    ensures Views(s, own, s', own', {})
  {
    forall x: nat ensures ViewAt(s, own, s', own', x) {
      assert SameAt(s, own, s', own', x) && VnodeSame(s, s', x);
      if Live(own, x) { DataBytes(s, s', x); }
    }
  }

  /** A quiet change that alters the vnodes in `but` only. */
  lemma ViewsQuiet(s: State, own: Owner, s': State, own': Owner, but: set<nat>)
    requires Quiet(s, own, s')
    requires forall x: nat :: x !in but ==> (Live(own', x) <==> Live(own, x))
    requires forall x: nat :: x !in but ==> (x in s'.vn <==> x in s.vn) && (x in s.vn ==> s'.vn[x].ref == s.vn[x].ref)
    ensures Views(s, own, s', own', but)
  {
    forall x: nat | x !in but ensures ViewAt(s, own, s', own', x) {
      assert FileSameAt(s, own, s', x);
      if Live(own, x) { DataBytes(s, s', x); }
    }
  }

  lemma ViewsWrote(s: State, own: Owner, s': State, own': Owner, k: nat, off: nat, bytes: seq<byte>, m: nat)
    requires FileWrote(s, own, s', own', k, off, bytes, m)
    ensures Views(s, own, s', own', {k})
    ensures Live(own', k) <==> Live(own, k)
    ensures s'.vn.Keys == s.vn.Keys && (k in s.vn ==> s'.vn[k].ref == s.vn[k].ref)
    ensures Live(own, k) ==> Node(s', k).kind == Node(s, k).kind && Node(s', k).links == Node(s, k).links
  {
    var n := |bytes|;
    forall x: nat | x !in {k} ensures ViewAt(s, own, s', own', x) {
      assert WriteAt(s, own, s', own', k, off, n, m, x) && VnodeSame(s, s', x);
    }
    assert WriteAt(s, own, s', own', k, off, n, m, k) && VnodeSame(s, s', k);
  }

  lemma ViewsWrite(s: State, own: Owner, s': State, own': Owner, k: nat, off: nat, bytes: seq<byte>, total: nat, exact: bool)
    requires FileWrite(s, own, s', own', k, off, bytes, total, exact)
    ensures Views(s, own, s', own', {k})
    ensures Live(own', k) <==> Live(own, k)
    ensures s'.vn.Keys == s.vn.Keys && (k in s.vn ==> s'.vn[k].ref == s.vn[k].ref)
    ensures Live(own, k) ==> Node(s', k).kind == Node(s, k).kind && Node(s', k).links == Node(s, k).links
  {
    var m: nat :| FileWrote(s, own, s', own', k, off, bytes, m);
    ViewsWrote(s, own, s', own', k, off, bytes, m);
  }

  lemma ViewsCut(s: State, own: Owner, s': State, own': Owner, k: nat, len: nat)
    requires T.FileCut(s, own, s', own', k, len)
    ensures Views(s, own, s', own', {k})
    ensures Live(own', k) <==> Live(own, k)
    ensures s'.vn.Keys == s.vn.Keys && (k in s.vn ==> s'.vn[k].ref == s.vn[k].ref)
    ensures Live(own, k) ==> Node(s', k).kind == Node(s, k).kind && Node(s', k).links == Node(s, k).links
  {
    forall x: nat | x !in {k} ensures ViewAt(s, own, s', own', x) {
      assert T.TruncAt(s, own, s', own', k, len, x) && VnodeSame(s, s', x);
      if Live(own, x) {
        forall o: nat ensures ByteKept(s, s', x, o) { assert T.TruncSlot(s, s', k, len, x, o / BLOCKSIZE); }
      }
    }
    assert T.TruncAt(s, own, s', own', k, len, k) && VnodeSame(s, s', k);
  }

  /** A truncation stopped by a read fault. */
  lemma ViewsHalfCut(s: State, own: Owner, s': State, own': Owner, k: nat, gone: set<nat>)
    requires T.Cut(s, own, s', own', k, gone)
    ensures Views(s, own, s', own', {k})
    ensures Live(own', k) <==> Live(own, k)
    ensures s'.vn.Keys == s.vn.Keys && (k in s.vn ==> s'.vn[k].ref == s.vn[k].ref)
    ensures Live(own, k) ==> SameMeta(s, s', k)
  {
    forall x: nat | x !in {k} ensures ViewAt(s, own, s', own', x) {
      assert T.CutAt(s, own, s', own', k, gone, x) && VnodeSame(s, s', x);
      if Live(own, x) {
        forall o: nat ensures ByteKept(s, s', x, o) { assert T.SlotCut(s, s', k, gone, x, o / BLOCKSIZE); }
      }
    }
    assert T.CutAt(s, own, s', own', k, gone, k) && VnodeSame(s, s', k);
  }

  lemma ViewsErase(s: State, own: Owner, k: nat)
    requires Blocks(s, own) && k in s.vn && k != ROOT
    requires forall t: nat :: t < SELF ==> Slot(s, k, t) == 0
    ensures Views(s, own, Erase(s, k), own - {k}, {k})
  {
    EraseOk(s, own, k);
    var s', own' := Erase(s, k), own - {k};
    forall x: nat | x !in {k} ensures ViewAt(s, own, s', own', x) {
      assert FileSameAt(s, own, s', x);
      if Live(own, x) { DataBytes(s, s', x); }
    }
    forall b: nat ensures ReservedSame(s, s', b) {}
  }

  /** Allocating a block and making it an inode. */
  lemma ViewsCreate(s: State, own: Owner, s1: State, b: nat, kind: u16)
    requires Views(s, own, s1, own, {}) && Quiet(s1, own, Create(s1, b, kind))
    ensures Views(s, own, Create(s1, b, kind), own[b := (b, SELF)], {b})
  {
    var s2, own2 := Create(s1, b, kind), own[b := (b, SELF)];
    forall x: nat | x !in {b} ensures Live(own2, x) <==> Live(own, x) {}
    ViewsQuiet(s1, own, s2, own2, {b});
    ViewsMore(s, own, s1, own, {}, {b});
    ViewsTrans(s, own, s1, own, s2, own2, {b});
  }

  /** A cleared block nobody owns made into an inode with nothing attached. */
  lemma MakeOk(s: State, own: Owner, s1: State, b: nat, kind: u16)
    requires Views(s, own, s1, own, {})
    requires Blocks(s1, own) && b in Leaked(s1, own) && AllZero(Disk(s1, b))
    ensures var s', own' := Create(s1, b, kind), own[b := (b, SELF)];
      && Blocks(s', own') && Leaked(s', own') == Leaked(s1, own) - {b}
      && Views(s, own, s', own', {b}) && !Live(own, b)
      && Node(s', b).size == 0 && Node(s', b).links == 0 && Node(s', b).kind == kind
  {
    CreateBlank(s1, b, kind);
    CreateOk(s1, own, b, kind);
    ViewsCreate(s, own, s1, b, kind);
  }

  // References

  /** How many hold inode x; nobody, if it is not loaded. */
  function Refs(s: State, x: nat): nat { if x in s.vn then s.vn[x].ref else 0 }

  ghost predicate RefAt(s: State, s': State, k: nat, d: int, x: nat) {
    Refs(s', x) == Refs(s, x) + if x == k then d else 0
  }

  /** Inode k has d more references and every other as many as before. */
  ghost predicate Refd(s: State, s': State, k: nat, d: int) {
    forall x: nat :: RefAt(s, s', k, d, x)
  }

  lemma RefdViews(s: State, own: Owner, s': State, own': Owner, k: nat, d: int)
    requires Views(s, own, s', own', {k}) && Refs(s', k) == Refs(s, k) + d
    ensures Refd(s, s', k, d)
  {
    forall x: nat ensures RefAt(s, s', k, d, x) {
      if x != k { assert ViewAt(s, own, s', own', x); }
    }
  }

  lemma RefdTable(s: State, s': State)
    requires SameTable(s, s')
    ensures Refd(s, s', 0, 0)
  {
    forall x: nat ensures RefAt(s, s', 0, 0, x) { assert VnodeSame(s, s', x); }
  }

  lemma RefdOpened(s: State, s': State, k: nat)
    requires Opened(s, s', k)
    ensures Refd(s, s', k, 1)
  {
    forall x: nat ensures RefAt(s, s', k, 1, x) {}
  }

  lemma RefdTrans(s: State, s1: State, s2: State, k: nat, a: int, b: int)
    requires Refd(s, s1, k, a) && Refd(s1, s2, k, b)
    ensures Refd(s, s2, k, a + b)
  {
    var d := a + b;
    forall x: nat ensures RefAt(s, s2, k, d, x) { assert RefAt(s, s1, k, a, x) && RefAt(s1, s2, k, b, x); }
  }

  lemma RefdZero(s: State, s': State, k: nat, j: nat)
    requires Refd(s, s', k, 0)
    ensures Refd(s, s', j, 0)
  {
    forall x: nat ensures RefAt(s, s', j, 0, x) { assert RefAt(s, s', k, 0, x); }
  }

  /** What is taken and given back around it does not count. */
  lemma RefdAround(s: State, s1: State, s2: State, s3: State, r: nat, k: nat, d: int)
    requires Refd(s, s1, r, 1) && Refd(s1, s2, k, d) && Refd(s2, s3, r, -1)
    ensures Refd(s, s3, k, d)
  {
    forall x: nat ensures RefAt(s, s3, k, d, x) {
      assert RefAt(s, s1, r, 1, x) && RefAt(s1, s2, k, d, x) && RefAt(s2, s3, r, -1, x);
    }
  }

  // Giving up a reference

  /** What vnode_decref may do to inode k: nothing anybody sees while it has
      links; without links it may be truncated, and it may disappear. */
  ghost predicate Released(s: State, own: Owner, s': State, own': Owner, k: nat) {
    && Views(s, own, s', own', {k})
    && (Node(s, k).links > 0 ==> Live(own', k) && SameMeta(s, s', k) && forall o: nat :: ByteKept(s, s', k, o))
    && (Node(s, k).links == 0 && Live(own', k) ==>
          k in s'.vn && Node(s', k).links == 0 && Node(s', k).kind == Node(s, k).kind)
    && (k in s'.vn && k in s.vn ==> s'.vn[k].ref == s.vn[k].ref || s'.vn[k].ref == s.vn[k].ref - 1)
  }

  lemma ReleasedQuiet(s: State, own: Owner, s': State, k: nat)
    requires Live(own, k) && k in s.vn && Quiet(s, own, s')
    requires forall x: nat :: x != k ==> (x in s'.vn <==> x in s.vn) && (x in s.vn ==> s'.vn[x].ref == s.vn[x].ref)
    requires k in s'.vn ==> s'.vn[k].ref == s.vn[k].ref || s'.vn[k].ref == s.vn[k].ref - 1
    requires Node(s, k).links == 0 ==> k in s'.vn
    ensures Released(s, own, s', own, k)
  {
    ViewsQuiet(s, own, s', own, {k});
    assert FileSameAt(s, own, s', k);
    DataBytes(s, s', k);
  }

  /** A reference less. */
  lemma ReleasedRef(s: State, own: Owner, k: nat)
    requires Blocks(s, own) && k in s.vn && s.vn[k].ref > 1
    ensures var s' := SetRef(s, k, s.vn[k].ref - 1);
      Blocks(s', own) && Leakage(s', own) == Leakage(s, own) && Released(s, own, s', own, k)
  {
    LoadedLive(s, own, k);
    SetRefOk(s, own, k, s.vn[k].ref - 1);
    ReleasedQuiet(s, own, SetRef(s, k, s.vn[k].ref - 1), k);
  }

  /** The truncated inode without links is erased. */
  lemma ReleasedErase(s: State, own: Owner, s1: State, own1: Owner, s2: State, k: nat)
    requires Views(s, own, s1, own1, {k}) && Node(s, k).links == 0
    requires Blocks(s1, own1) && k in s1.vn && k != ROOT && s2 == Erase(s1, k)
    requires forall t: nat :: t < SELF ==> Slot(s1, k, t) == 0
    ensures Released(s, own, s2, own1 - {k}, k)
  {
    ViewsErase(s1, own1, k);
    ViewsTrans(s, own, s1, own1, s2, own1 - {k}, {k});
  }

  /** The erasure stopped half-way by a fault. */
  lemma ReleasedHalf(s: State, own: Owner, s': State, own': Owner, k: nat)
    requires Views(s, own, s', own', {k}) && Node(s, k).links == 0 && k in s'.vn && k in s.vn
    requires s'.vn[k].ref == s.vn[k].ref && Node(s', k).links == 0 && Node(s', k).kind == Node(s, k).kind
    ensures Released(s, own, s', own', k)
  {
  }

  /** Truncation to nothing leaves an inode that owns only itself. */
  lemma EmptySlots(s: State, own: Owner, s': State, own': Owner, k: nat)
    requires T.FileCut(s, own, s', own', k, 0) && Live(own, k) && Node(s', k).indirect == 0
    ensures forall t: nat :: t < SELF ==> Slot(s', k, t) == 0
  {
    assert T.TruncAt(s, own, s', own', k, 0, k);
    forall t: nat | t < SELF ensures Slot(s', k, t) == 0 { assert T.TruncSlot(s, s', k, 0, k, t); }
  }
}
