/** What truncation does to the blocks and contents of a file. */
module SfsTruncate {
  import opened SfsLayout
  import opened SfsState
  import F = SfsFile

  /** DIVROUNDUP(len, SFS_BLOCKSIZE) */
  function BlockLen(len: nat): nat { (len + BLOCKSIZE - 1) / BLOCKSIZE }

  /** Whether sfs_truncate drops file block t: the direct loop drops from
      blocklen on, the indirect loop only past blocklen. */
  predicate Drops(blocklen: nat, t: nat) {
    if t < NDIRECT then blocklen <= t else blocklen < t && blocklen < MAXBLOCKS - 1
  }

  /** Inode x when file k has lost the data slots in `gone`. */
  ghost predicate CutAt(s: State, own: Owner, s': State, own': Owner, k: nat, gone: set<nat>, x: nat) {
    && (Live(own', x) <==> Live(own, x))
    && (Live(own, x) ==>
          && SameMeta(s, s', x)
          && forall t: nat :: SlotCut(s, s', k, gone, x, t))
  }

  ghost predicate SlotCut(s: State, s': State, k: nat, gone: set<nat>, x: nat, t: nat) {
    var dropped := x == k && t in gone;
    && (t < MAXBLOCKS ==> Slot(s', x, t) == if dropped then 0 else Slot(s, x, t))
    && FBlock(s', x, t) == if dropped then Zeros() else FBlock(s, x, t)
  }

  /** File k loses the blocks in `gone`; nothing else changes. */
  ghost predicate Cut(s: State, own: Owner, s': State, own': Owner, k: nat, gone: set<nat>) {
    && SameTable(s, s')
    && forall x: nat :: CutAt(s, own, s', own', k, gone, x)
  }

  lemma CutTrans(s: State, own: Owner, s1: State, own1: Owner, s2: State, own2: Owner, k: nat, g1: set<nat>, g2: set<nat>)
    requires Cut(s, own, s1, own1, k, g1) && Cut(s1, own1, s2, own2, k, g2)
    ensures Cut(s, own, s2, own2, k, g1 + g2)
  {
    TableTrans(s, s1, s2);
    var g := g1 + g2;
    forall x: nat ensures CutAt(s, own, s2, own2, k, g, x) {
      assert CutAt(s, own, s1, own1, k, g1, x) && CutAt(s1, own1, s2, own2, k, g2, x);
      if Live(own, x) {
        forall t: nat ensures SlotCut(s, s2, k, g, x, t) {
          assert SlotCut(s, s1, k, g1, x, t) && SlotCut(s1, s2, k, g2, x, t);
        }
      }
    }
  }

  lemma CutNothing(s: State, own: Owner, k: nat)
    ensures Cut(s, own, s, own, k, {})
  {
    MarkTable(s, s);
    forall x: nat ensures CutAt(s, own, s, own, k, {}, x) {
      forall t: nat ensures SlotCut(s, s, k, {}, x, t) {}
    }
  }

  /** The blocks in the given slots of k. */
  ghost function Named(s: State, k: nat, ts: set<nat>): set<nat> {
    set t | t in ts :: Slot(s, k, t)
  }

  /** Freed blocks with emptied slots: ownership and contents. */
  lemma CutUnlinks(s: State, s': State, own: Owner, k: nat, ts: set<nat>, skip: nat)
    requires Blocks(s, own) && Unlinks(s, s', own, k, ts) && SameTable(s, s')
    requires skip in own ==> own[skip] == (k, IND)
    requires forall y: nat :: y in own && y != skip ==> Disk(s', y) == Disk(s, y)
    requires forall x: nat :: Live(own, x) ==> SameMeta(s, s', x)
    ensures Blocks(s', Disown(own, k, ts)) && Leaked(s', Disown(own, k, ts)) == Leaked(s, own)
    ensures Cut(s, own, s', Disown(own, k, ts), k, ts)
  {
    TableVnodes(s, own, s');
    UnlinkOk(s, s', own, k, ts);
    var own' := Disown(own, k, ts);
    forall x: nat ensures CutAt(s, own, s', own', k, ts, x) {
      UnlinkLive(own, k, ts, x);
      if Live(own, x) {
        forall t: nat ensures SlotCut(s, s', k, ts, x, t) {
          CutSlot(s, s', own, k, ts, skip, x, t);
        }
      }
    }
  }

  lemma CutSlot(s: State, s': State, own: Owner, k: nat, ts: set<nat>, skip: nat, x: nat, t: nat)
    requires Blocks(s, own) && Unlinks(s, s', own, k, ts) && Live(own, x)
    requires skip in own ==> own[skip] == (k, IND)
    requires forall y: nat :: y in own && y != skip ==> Disk(s', y) == Disk(s, y)
    ensures SlotCut(s, s', k, ts, x, t)
  {
    if t < MAXBLOCKS {
      assert Slot(s', x, t) == if x == k && t in ts then 0 else Slot(s, x, t);
      if Slot(s, x, t) != 0 { SlotOwned(s, own, x, t); }
    }
  }

  // One direct block

  /** sfs_bfree of a direct block and the slot cleared. */
  function DropDirect(s: State, k: nat, t: nat): State
    requires k in s.vn && t < NDIRECT
  {
    SetNode(State(s.nblocks, s.disk, s.used - {Slot(s, k, t)}, s.vn), k,
            s.vn[k].inode.(direct := s.vn[k].inode.direct[t := 0]))
  }

  lemma DropDirectOk(s: State, own: Owner, k: nat, t: nat)
    requires Blocks(s, own) && k in s.vn && t < NDIRECT && Slot(s, k, t) != 0
    ensures var s', own' := DropDirect(s, k, t), Disown(own, k, {t});
      Blocks(s', own') && Leaked(s', own') == Leaked(s, own) && Cut(s, own, s', own', k, {t})
  {
    var s' := DropDirect(s, k, t);
    LoadedLive(s, own, k);
    DropDirectTable(s, k, t);
    assert BlockOk(s, own, 0);
    forall x: nat, y: nat | Live(own, x) && y < NSLOTS
      ensures Slot(s', x, y) == if x == k && y in {t} then 0 else Slot(s, x, y)
    {
      DropDirectSlot(s, k, t, x, y);
    }
    assert (set u | u in {t} :: Slot(s, k, u)) == {Slot(s, k, t)};
    assert Unlinks(s, s', own, k, {t});
    CutUnlinks(s, s', own, k, {t}, 0);
  }

  lemma DropDirectSlot(s: State, k: nat, t: nat, x: nat, y: nat)
    requires k in s.vn && t < NDIRECT
    ensures Slot(DropDirect(s, k, t), x, y) == if x == k && y == t then 0 else Slot(s, x, y)
  {
  }

  lemma DropDirectTable(s: State, k: nat, t: nat)
    requires k in s.vn && t < NDIRECT
    ensures SameTable(s, DropDirect(s, k, t))
  {
    var s' := DropDirect(s, k, t);
    forall x: nat ensures VnodeSame(s, s', x) {}
    forall b: nat ensures ReservedSame(s, s', b) {}
  }

  // The indirect block

  /** The entries the indirect loop drops. */
  ghost function Doomed(s: State, k: nat, blocklen: nat): set<nat> {
    set t | NDIRECT <= t < MAXBLOCKS && blocklen < t && Slot(s, k, t) != 0
  }

  /** The same for the entries the loop has passed. */
  ghost function DoomedTo(s: State, k: nat, blocklen: nat, j: nat): set<nat> {
    set t | NDIRECT <= t < NDIRECT + j && t < MAXBLOCKS && blocklen < t && Slot(s, k, t) != 0
  }

  /** The block freed next has not been freed before. */
  lemma NextDoomed(s: State, own: Owner, k: nat, blocklen: nat, j: nat)
    requires Blocks(s, own) && Live(own, k) && j < DBPERIDB && Slot(s, k, NDIRECT + j) != 0
    ensures Slot(s, k, NDIRECT + j) in s.used - Named(s, k, DoomedTo(s, k, blocklen, j))
    ensures blocklen < NDIRECT + j ==>
      Named(s, k, DoomedTo(s, k, blocklen, j + 1)) == Named(s, k, DoomedTo(s, k, blocklen, j)) + {Slot(s, k, NDIRECT + j)}
  {
    SlotOwned(s, own, k, NDIRECT + j);
    forall t | t in DoomedTo(s, k, blocklen, j) ensures Slot(s, k, t) != Slot(s, k, NDIRECT + j) {
      SlotOwned(s, own, k, t);
    }
    if blocklen < NDIRECT + j {
      assert DoomedTo(s, k, blocklen, j + 1) == DoomedTo(s, k, blocklen, j) + {NDIRECT + j};
    }
  }

  lemma NotDoomed(s: State, k: nat, blocklen: nat, j: nat)
    requires j < DBPERIDB && (Slot(s, k, NDIRECT + j) == 0 || NDIRECT + j <= blocklen)
    ensures DoomedTo(s, k, blocklen, j + 1) == DoomedTo(s, k, blocklen, j)
  {
  }

  lemma DoomedAll(s: State, k: nat, blocklen: nat)
    ensures DoomedTo(s, k, blocklen, DBPERIDB) == Doomed(s, k, blocklen)
  {
  }

  /** The entry buffer after the loop. */
  function Kept(w: Words, blocklen: nat): (r: Words) {
    seq<u32>(DBPERIDB, j requires 0 <= j < DBPERIDB => if blocklen < NDIRECT + j then 0 else w[j])
  }

  /** No entry survives: then every entry was past the end. */
  lemma NothingKept(s: State, k: nat, blocklen: nat)
    requires forall j :: 0 <= j < DBPERIDB ==> Kept(Entries(s, Node(s, k).indirect), blocklen)[j] == 0
    ensures Doomed(s, k, blocklen) == Doomed(s, k, 0)
  {
    forall t | t in Doomed(s, k, 0) ensures t in Doomed(s, k, blocklen) {
      assert Kept(Entries(s, Node(s, k).indirect), blocklen)[t - NDIRECT] == 0;
    }
  }

  /** An entry that survives lies within the new length. */
  lemma SomethingKept(s: State, k: nat, blocklen: nat, j: nat)
    requires j < DBPERIDB && Kept(Entries(s, Node(s, k).indirect), blocklen)[j] != 0
    ensures NDIRECT + j <= blocklen
  {
  }

  /** The loop, and the shortened indirect block written back. */
  ghost function DropEntries(s: State, k: nat, blocklen: nat): State
    requires Node(s, k).indirect < |s.disk|
  {
    SetDisk(State(s.nblocks, s.disk, s.used - Named(s, k, Doomed(s, k, blocklen)), s.vn),
            Node(s, k).indirect, BytesOf(Kept(Entries(s, Node(s, k).indirect), blocklen)))
  }

  lemma DropEntriesOk(s: State, own: Owner, k: nat, blocklen: nat)
    requires Blocks(s, own) && k in s.vn && Node(s, k).indirect != 0
    ensures Node(s, k).indirect < |s.disk|
    ensures var gone := Doomed(s, k, blocklen);
      var s', own' := DropEntries(s, k, blocklen), Disown(own, k, gone);
      Blocks(s', own') && Leaked(s', own') == Leaked(s, own) && Cut(s, own, s', own', k, gone)
  {
    LoadedLive(s, own, k);
    SlotOwned(s, own, k, IND);
    var gone, ind := Doomed(s, k, blocklen), Node(s, k).indirect;
    var s' := DropEntries(s, k, blocklen);
    forall x: nat, y: nat | Live(own, x) && y < NSLOTS
      ensures Slot(s', x, y) == if x == k && y in gone then 0 else Slot(s, x, y)
    {
      DropEntriesSlot(s, own, k, blocklen, x, y);
    }
    assert Unlinks(s, s', own, k, gone);
    TableDisk(s, own, s', ind);
    forall x: nat | Live(own, x) ensures SameMeta(s, s', x) { DropEntriesSlot(s, own, k, blocklen, x, SELF); }
    CutUnlinks(s, s', own, k, gone, ind);
  }

  lemma DropEntriesSlot(s: State, own: Owner, k: nat, blocklen: nat, x: nat, y: nat)
    requires Blocks(s, own) && k in s.vn && Node(s, k).indirect != 0 && Live(own, x) && y < NSLOTS
    ensures Node(s, k).indirect < |s.disk|
    ensures var s' := DropEntries(s, k, blocklen);
      && Node(s', x) == Node(s, x)
      && Slot(s', x, y) == if x == k && y in Doomed(s, k, blocklen) then 0 else Slot(s, x, y)
  {
    LoadedLive(s, own, k);
    SlotOwned(s, own, k, IND);
    var ind := Node(s, k).indirect;
    var w := Kept(Entries(s, ind), blocklen);
    WriteEntries(s, own, k, w, x, y);
    MarkSame(SetDisk(s, ind, BytesOf(w)), DropEntries(s, k, blocklen), x);
    if NDIRECT <= y < MAXBLOCKS { KeptSlot(s, k, blocklen, y); }
  }

  lemma KeptSlot(s: State, k: nat, blocklen: nat, y: nat)
    requires NDIRECT <= y < MAXBLOCKS
    ensures Kept(Entries(s, Node(s, k).indirect), blocklen)[y - NDIRECT]
         == if y in Doomed(s, k, blocklen) then 0 else Slot(s, k, y)
  {
    var w := Entries(s, Node(s, k).indirect);
    KeptAt(w, blocklen, y - NDIRECT);
    assert Slot(s, k, y) == w[y - NDIRECT];
  }

  lemma KeptAt(w: Words, blocklen: nat, j: nat)
    requires j < DBPERIDB
    ensures Kept(w, blocklen)[j] == if blocklen < NDIRECT + j then 0 else w[j]
  {
  }

  /** Every entry was dropped: the indirect block goes too. */
  ghost function DropIndirect(s: State, k: nat): State
    requires k in s.vn
  {
    SetNode(State(s.nblocks, s.disk, s.used - Named(s, k, Doomed(s, k, 0)) - {Slot(s, k, IND)}, s.vn), k,
            s.vn[k].inode.(indirect := 0))
  }

  lemma DropIndirectOk(s: State, own: Owner, k: nat)
    requires Blocks(s, own) && k in s.vn && Node(s, k).indirect != 0
    ensures var gone := Doomed(s, k, 0) + {IND};
      var s', own' := DropIndirect(s, k), Disown(own, k, gone);
      Blocks(s', own') && Leaked(s', own') == Leaked(s, own) && Cut(s, own, s', own', k, gone)
  {
    LoadedLive(s, own, k);
    var gone := Doomed(s, k, 0) + {IND};
    var s' := DropIndirect(s, k);
    DropIndirectTable(s, k);
    assert BlockOk(s, own, 0);
    forall x: nat, y: nat | Live(own, x) && y < NSLOTS
      ensures Slot(s', x, y) == if x == k && y in gone then 0 else Slot(s, x, y)
    {
      DropIndirectSlot(s, k, x, y);
    }
    assert Named(s, k, gone) == Named(s, k, Doomed(s, k, 0)) + {Slot(s, k, IND)};
    assert Unlinks(s, s', own, k, gone);
    CutUnlinks(s, s', own, k, gone, 0);
  }

  lemma DropIndirectSlot(s: State, k: nat, x: nat, y: nat)
    requires k in s.vn && y < NSLOTS
    ensures Slot(DropIndirect(s, k), x, y) == if x == k && (y in Doomed(s, k, 0) || y == IND) then 0 else Slot(s, x, y)
  {
    var s' := DropIndirect(s, k);
    if x == k && NDIRECT <= y < MAXBLOCKS { ZeroEntries(s', 0, y - NDIRECT); }
  }

  lemma DropIndirectTable(s: State, k: nat)
    requires k in s.vn
    ensures SameTable(s, DropIndirect(s, k))
  {
    var s' := DropIndirect(s, k);
    forall x: nat ensures VnodeSame(s, s', x) {}
    forall b: nat ensures ReservedSame(s, s', b) {}
  }

  // The whole operation

  /** The direct slots below i that the direct loop drops. */
  ghost function DoomedDirect(s: State, k: nat, blocklen: nat, i: nat): set<nat> {
    set t: nat | t < i && t < NDIRECT && blocklen <= t && Slot(s, k, t) != 0
  }

  lemma NextDirect(s: State, k: nat, blocklen: nat, i: nat)
    requires i < NDIRECT
    ensures var gone, gone' := DoomedDirect(s, k, blocklen, i), DoomedDirect(s, k, blocklen, i + 1);
      if blocklen <= i && Slot(s, k, i) != 0 then gone' == gone + {i} else gone' == gone
  {
  }

  /** `gone` is what the indirect loop drops. */
  ghost predicate GoneIndirect(s: State, k: nat, blocklen: nat, gone: set<nat>) {
    forall t: nat :: t < MAXBLOCKS && Slot(s, k, t) != 0 ==> (t in gone <==> NDIRECT <= t && Drops(blocklen, t))
  }

  lemma DoomedGone(s: State, k: nat, blocklen: nat, gone: set<nat>)
    requires blocklen < MAXBLOCKS - 1 && Doomed(s, k, blocklen) <= gone <= Doomed(s, k, blocklen) + {IND}
    ensures GoneIndirect(s, k, blocklen, gone)
  {
  }

  /** Nothing to do: no indirect block, or the file may keep all of it. */
  lemma ShortIndirect(s: State, k: nat, blocklen: nat)
    requires Node(s, k).indirect == 0 || blocklen >= MAXBLOCKS - 1
    ensures GoneIndirect(s, k, blocklen, {})
  {
    forall t: nat | t < MAXBLOCKS && Slot(s, k, t) != 0 ensures !(NDIRECT <= t && Drops(blocklen, t)) {
      if NDIRECT <= t && Node(s, k).indirect == 0 { ZeroEntries(s, 0, t - NDIRECT); }
    }
  }

  lemma IndirectMarked(s: State, own: Owner, k: nat, blocklen: nat)
    requires Blocks(s, own) && Live(own, k) && Slot(s, k, IND) != 0
    ensures Slot(s, k, IND) in s.used - Named(s, k, Doomed(s, k, blocklen))
  {
    SlotOwned(s, own, k, IND);
    forall t | t in Doomed(s, k, blocklen) ensures Slot(s, k, t) != Slot(s, k, IND) { SlotOwned(s, own, k, t); }
  }

  /** The file keeps one indirect entry and loses another, so that the indirect
      block has to be written back after blocks it names were freed. */
  ghost predicate Tearable(s: State, k: nat, blocklen: nat) {
    && blocklen < MAXBLOCKS - 1
    && (exists t: nat :: NDIRECT <= t <= blocklen && Mapped(s, k, t))
    && (exists t: nat :: blocklen < t < MAXBLOCKS && Mapped(s, k, t))
  }

  predicate Mapped(s: State, k: nat, t: nat) { Slot(s, k, t) != 0 }

  lemma TearsWhen(s: State, k: nat, blocklen: nat)
    requires blocklen < MAXBLOCKS - 1
    ensures Tearable(s, k, blocklen) <==>
      && Doomed(s, k, blocklen) != {}
      && exists j :: 0 <= j < DBPERIDB && Kept(Entries(s, Node(s, k).indirect), blocklen)[j] != 0
  {
    var w := Kept(Entries(s, Node(s, k).indirect), blocklen);
    if j :| 0 <= j < DBPERIDB && w[j] != 0 {
      KeptSlot(s, k, blocklen, NDIRECT + j);
      assert NDIRECT <= NDIRECT + j <= blocklen && Mapped(s, k, NDIRECT + j);
      if x :| x in Doomed(s, k, blocklen) { assert blocklen < x < MAXBLOCKS && Mapped(s, k, x); }
    }
    if Tearable(s, k, blocklen) {
      var x: nat :| NDIRECT <= x <= blocklen && Mapped(s, k, x);
      var y: nat :| blocklen < y < MAXBLOCKS && Mapped(s, k, y);
      KeptSlot(s, k, blocklen, x);
      assert w[x - NDIRECT] != 0 && y in Doomed(s, k, blocklen);
    }
  }

  lemma TearsNot(s: State, k: nat, blocklen: nat)
    requires Node(s, k).indirect == 0 || blocklen >= MAXBLOCKS - 1
    ensures !Tearable(s, k, blocklen)
  {
    if Tearable(s, k, blocklen) {
      var x: nat :| NDIRECT <= x <= blocklen && Mapped(s, k, x);
      ZeroEntries(s, 0, x - NDIRECT);
    }
  }

  /** The direct loop does not change that. */
  lemma TearsAfter(s: State, own: Owner, s1: State, own1: Owner, k: nat, blocklen: nat)
    requires Live(own, k) && Cut(s, own, s1, own1, k, DoomedDirect(s, k, blocklen, NDIRECT))
    ensures Tearable(s1, k, blocklen) <==> Tearable(s, k, blocklen)
  {
    var gone := DoomedDirect(s, k, blocklen, NDIRECT);
    assert CutAt(s, own, s1, own1, k, gone, k);
    forall t: nat | NDIRECT <= t < MAXBLOCKS ensures Mapped(s1, k, t) == Mapped(s, k, t) {
      assert SlotCut(s, s1, k, gone, k, t);
    }
  }

  /** The state when the write-back of a shortened indirect block fails. */
  lemma TornEntry(s0: State, s: State, k: nat, blocklen: nat, j: nat)
    requires s == State(s0.nblocks, s0.disk, s0.used - Named(s0, k, Doomed(s0, k, blocklen)), s0.vn)
    requires Doomed(s0, k, blocklen) != {}
    requires j < DBPERIDB && Kept(Entries(s0, Node(s0, k).indirect), blocklen)[j] != 0
    ensures NDIRECT <= blocklen && TornFile(s, k)
  {
    SomethingKept(s0, k, blocklen, j);
    var t :| t in Doomed(s0, k, blocklen);
    MarkSame(s0, s, k);
    assert Slot(s, k, t) == Slot(s0, k, t);
    assert TornAt(s, k, t);
  }

  /** A freed block that the indirect block on disk still names. */
  ghost predicate TornAt(s: State, k: nat, t: nat) {
    t < MAXBLOCKS && Slot(s, k, t) != 0 && Slot(s, k, t) !in s.used
  }

  ghost predicate TornFile(s: State, k: nat) { exists t :: TornAt(s, k, t) }

  /** A torn truncation leaves no consistent ownership behind. */
  lemma TornBreaks(s: State, k: nat)
    requires TornFile(s, k)
    ensures forall own: Owner :: Live(own, k) ==> !Blocks(s, own)
  {
    var t :| TornAt(s, k, t);
    forall own: Owner | Live(own, k) ensures !Blocks(s, own) {
      if Blocks(s, own) { SlotOwned(s, own, k, t); }
    }
  }

  /** Inode x after file k was truncated to len bytes. */
  ghost predicate TruncAt(s: State, own: Owner, s': State, own': Owner, k: nat, len: nat, x: nat) {
    && (Live(own', x) <==> Live(own, x))
    && (Live(own, x) ==>
          && Node(s', x).kind == Node(s, x).kind && Node(s', x).links == Node(s, x).links
          && Node(s', x).size == (if x == k then len else Node(s, x).size)
          && forall t: nat :: TruncSlot(s, s', k, len, x, t))
  }

  ghost predicate TruncSlot(s: State, s': State, k: nat, len: nat, x: nat, t: nat) {
    var dropped := x == k && Drops(BlockLen(len), t);
    && (t < MAXBLOCKS ==> Slot(s', x, t) == if dropped then 0 else Slot(s, x, t))
    && FBlock(s', x, t) == if dropped then Zeros() else FBlock(s, x, t)
  }

  /** sfs_truncate: size len, the dropped blocks gone, and nothing else changed. */
  ghost predicate FileCut(s: State, own: Owner, s': State, own': Owner, k: nat, len: nat) {
    && SameTable(s, s')
    && forall x: nat :: TruncAt(s, own, s', own', k, len, x)
  }

  /** Of the mapped slots, those in `gone` are the ones truncation drops. */
  ghost predicate GoneAll(s: State, k: nat, blocklen: nat, gone: set<nat>) {
    forall t: nat :: t < MAXBLOCKS && Slot(s, k, t) != 0 ==> (t in gone <==> Drops(blocklen, t))
  }

  /** Both loops together. */
  lemma GoneBoth(s: State, own: Owner, s1: State, own1: Owner, k: nat, blocklen: nat, gone: set<nat>)
    requires Live(own, k) && Cut(s, own, s1, own1, k, DoomedDirect(s, k, blocklen, NDIRECT))
    requires GoneIndirect(s1, k, blocklen, gone)
    ensures GoneAll(s, k, blocklen, DoomedDirect(s, k, blocklen, NDIRECT) + gone)
  {
    var g := DoomedDirect(s, k, blocklen, NDIRECT);
    assert CutAt(s, own, s1, own1, k, g, k);
    forall t: nat | t < MAXBLOCKS && Slot(s, k, t) != 0 ensures t in g + gone <==> Drops(blocklen, t) {
      assert SlotCut(s, s1, k, g, k, t);
    }
  }

  /** The two loops dropped what Drops says, and the size was set. */
  lemma FileCutDone(s: State, own: Owner, s1: State, own1: Owner, k: nat, gone: set<nat>, len: u32)
    requires Cut(s, own, s1, own1, k, gone) && k in s1.vn && Live(own, k)
    requires GoneAll(s, k, BlockLen(len), gone)
    ensures FileCut(s, own, F.Resize(s1, k, len), own1, k, len)
  {
    var s2 := F.Resize(s1, k, len);
    F.MetaTable(s1, k, len, s1.vn[k].inode.links);
    TableTrans(s, s1, s2);
    forall x: nat ensures TruncAt(s, own, s2, own1, k, len, x) {
      assert CutAt(s, own, s1, own1, k, gone, x);
      F.MetaSame(s1, k, len, s1.vn[k].inode.links, x);
      if Live(own, x) {
        forall t: nat ensures TruncSlot(s, s2, k, len, x, t) {
          assert SlotCut(s, s1, k, gone, x, t);
          assert Slot(s2, x, t) == Slot(s1, x, t);
          assert t < MAXBLOCKS && x == k && Slot(s, k, t) != 0 ==> (t in gone <==> Drops(BlockLen(len), t));
        }
      }
    }
  }

  // In bytes

  /** Whether a file of len bytes keeps its block t: a direct block exactly if it has
      a byte of them; an indirect one also if it is the next, or if there are so
      many bytes that the indirect block is left alone. */
  predicate Stays(len: nat, t: nat) {
    if t < NDIRECT then t * BLOCKSIZE < len
    else (t - 1) * BLOCKSIZE < len || (MAXBLOCKS - 2) * BLOCKSIZE < len
  }

  lemma StaysIs(len: nat, t: nat)
    ensures Stays(len, t) <==> !Drops(BlockLen(len), t)
  {
  }

  lemma StaysBelow(len: nat, o: nat)
    requires o < len
    ensures Stays(len, o / BLOCKSIZE)
  {
  }

  ghost predicate SlotStays(s: State, s': State, k: nat, len: nat, t: nat) {
    t < MAXBLOCKS ==> Slot(s', k, t) == if Stays(len, t) then Slot(s, k, t) else 0
  }

  /** The bytes below len are as they were. */
  ghost predicate HeadKept(s: State, s': State, k: nat, len: nat) {
    forall o: nat :: o < len ==> FByte(s', k, o) == FByte(s, k, o)
  }

  /** Truncation keeps every byte that the file still has, and exactly the blocks
      that Stays tells. */
  lemma TruncBytes(s: State, own: Owner, s': State, own': Owner, k: nat, len: nat)
    requires Live(own, k) && FileCut(s, own, s', own', k, len)
    ensures HeadKept(s, s', k, len)
    ensures forall t: nat :: SlotStays(s, s', k, len, t)
  {
    assert TruncAt(s, own, s', own', k, len, k);
    forall o: nat | o < len ensures FByte(s', k, o) == FByte(s, k, o) {
      StaysBelow(len, o);
      StaysIs(len, o / BLOCKSIZE);
      TruncByte(s, own, s', own', k, len, o);
    }
    forall t: nat ensures SlotStays(s, s', k, len, t) {
      assert TruncSlot(s, s', k, len, k, t);
      StaysIs(len, t);
    }
  }

  /** So does a truncation that fails after its first loop. */
  lemma HalfCutBytes(s: State, own: Owner, s': State, own': Owner, k: nat, len: nat)
    requires Live(own, k) && Cut(s, own, s', own', k, DoomedDirect(s, k, BlockLen(len), NDIRECT))
    ensures HeadKept(s, s', k, len)
  {
    var gone := DoomedDirect(s, k, BlockLen(len), NDIRECT);
    assert CutAt(s, own, s', own', k, gone, k);
    forall o: nat | o < len ensures FByte(s', k, o) == FByte(s, k, o) {
      StaysBelow(len, o);
      StaysIs(len, o / BLOCKSIZE);
      assert SlotCut(s, s', k, gone, k, o / BLOCKSIZE);
    }
  }

  /** A truncation can be torn exactly if of the indirect blocks one stays and one goes. */
  lemma TearableBytes(s: State, k: nat, len: nat)
    ensures Tearable(s, k, BlockLen(len)) <==>
      && (exists t: nat :: NDIRECT <= t < MAXBLOCKS && Mapped(s, k, t) && Stays(len, t))
      && (exists t: nat :: NDIRECT <= t < MAXBLOCKS && Mapped(s, k, t) && !Stays(len, t))
  {
    forall t: nat ensures Stays(len, t) <==> !Drops(BlockLen(len), t) { StaysIs(len, t); }
  }

  // What truncation leaves behind

  /** Every block past the new end is gone, unless the first of them is an
      indirect one that exists: the indirect loop keeps that block. */
  lemma TruncExact(s: State, own: Owner, s': State, own': Owner, k: nat, len: nat)
    requires Live(own, k) && FileCut(s, own, s', own', k, len)
    ensures (forall t: nat :: BlockLen(len) <= t < MAXBLOCKS ==> Slot(s', k, t) == 0) <==>
      !(NDIRECT <= BlockLen(len) < MAXBLOCKS && Slot(s, k, BlockLen(len)) != 0)
  {
    var b := BlockLen(len);
    assert TruncAt(s, own, s', own', k, len, k);
    assert TruncSlot(s, s', k, len, k, b);
    forall t: nat | b < t < MAXBLOCKS ensures Slot(s', k, t) == 0 { assert TruncSlot(s, s', k, len, k, t); }
  }

  /** Truncating a file of more than 15 blocks to 15 blocks leaves it a sixteenth. */
  lemma TruncKeepsBlock(s: State, own: Owner, s': State, own': Owner, k: nat)
    requires Live(own, k) && FileCut(s, own, s', own', k, 7680) && Slot(s, k, 15) != 0
    ensures BlockLen(7680) == 15 && Slot(s', k, 15) == Slot(s, k, 15)
  {
    assert TruncAt(s, own, s', own', k, 7680, k);
    assert TruncSlot(s, s', k, 7680, k, 15);
  }

  /** Past the new end the file reads as zeros exactly if what stayed mapped
      there was zero: the rest of the last block, and the block kept. */
  lemma TruncTail(s: State, own: Owner, s': State, own': Owner, k: nat, len: nat)
    requires Live(own, k) && FileCut(s, own, s', own', k, len)
    ensures (forall o: nat :: len <= o ==> FByte(s', k, o) == 0) <==>
      (forall o: nat :: len <= o && !Drops(BlockLen(len), o / BLOCKSIZE) ==> FByte(s, k, o) == 0)
  {
    forall o: nat ensures FByte(s', k, o) == if Drops(BlockLen(len), o / BLOCKSIZE) then 0 else FByte(s, k, o) {
      TruncByte(s, own, s', own', k, len, o);
    }
  }

  lemma TruncByte(s: State, own: Owner, s': State, own': Owner, k: nat, len: nat, o: nat)
    requires Live(own, k) && FileCut(s, own, s', own', k, len)
    ensures FByte(s', k, o) == if Drops(BlockLen(len), o / BLOCKSIZE) then 0 else FByte(s, k, o)
  {
    assert TruncAt(s, own, s', own', k, len, k);
    assert TruncSlot(s, s', k, len, k, o / BLOCKSIZE);
  }
}
