/** What a volume keeps when it is written out and mounted again. */
module SfsRemount {
  import opened SfsLayout
  import opened SfsState
  import opened SfsFile
  import opened SfsCache
  import opened SfsView
  import opened SfsDir

  // Writing the free map

  ghost predicate DataKept(s: State, s': State, b: nat) {
    DataBlock(s.nblocks, b) ==> Disk(s', b) == Disk(s, b)
  }

  /** Only blocks outside the files were written. */
  ghost predicate Flushed(s: State, s': State) {
    && s'.nblocks == s.nblocks && |s'.disk| == |s.disk| && s'.used == s.used && s'.vn == s.vn
    && forall b: nat :: DataKept(s, s', b)
  }

  lemma FlushedTrans(s: State, s1: State, s2: State)
    requires Flushed(s, s1) && Flushed(s1, s2)
    ensures Flushed(s, s2)
  {
    forall b: nat ensures DataKept(s, s2, b) { assert DataKept(s, s1, b) && DataKept(s1, s2, b); }
  }

  lemma FlushedFile(s: State, own: Owner, s': State, k: nat)
    requires Blocks(s, own) && Flushed(s, s') && Live(own, k)
    ensures SameFile(s, s', k)
  {
    forall b: nat | b in own && b < |s.disk| ensures s'.disk[b] == s.disk[b] {
      OwnedBound(s, own, b);
      assert DataKept(s, s', b);
    }
    UnownedWrite(s, own, s', k);
  }

  lemma FlushedOk(s: State, own: Owner, s': State)
    requires Blocks(s, own) && Flushed(s, s')
    ensures Blocks(s', own) && Leaked(s', own) == Leaked(s, own)
  {
    forall b: nat ensures MapBit(s', b) { assert MapBit(s, b); }
    forall k, t: nat | Live(own, k) && t < NSLOTS ensures Slot(s', k, t) == Slot(s, k, t) { FlushedFile(s, own, s', k); }
    forall k ensures VnodeOk(s', own, k) { FlushedVnode(s, own, s', k); }
    BlocksFrame(s, own, s');
  }

  lemma FlushedVnode(s: State, own: Owner, s': State, k: nat)
    requires Blocks(s, own) && Flushed(s, s')
    ensures VnodeOk(s', own, k)
  {
    assert VnodeOk(s, own, k);
    if k in s.vn {
      OwnedBound(s, own, k);
      assert DataKept(s, s', k);
    }
  }

  lemma FlushedTree(s: State, own: Owner, s': State)
    requires Blocks(s, own) && Flushed(s, s') && Consistent(s, own)
    ensures Consistent(s', own) && Dir(s') == Dir(s)
  {
    FlushedFile(s, own, s', ROOT);
    DataBytes(s, s', ROOT);
    forall k: nat ensures NodeOk(s', own, Dir(s), NOINO, 0, k) {
      assert NodeOk(s, own, Dir(s), NOINO, 0, k);
      if Live(own, k) { FlushedFile(s, own, s', k); }
      NodeKept(s, own, s', own, Dir(s), NOINO, 0, k);
    }
    TreeFrame(s, own, s', own, NOINO, 0);
  }

  // Mounting again

  /** The volume as mounted from its disk: nothing is loaded. */
  function Fresh(s: State): State {
    State(s.nblocks, s.disk, s.used, map[])
  }

  /** The blocks of inodes that have names. */
  function Linked(s: State, own: Owner): Owner {
    map b | b in own && Node(s, own[b].0).links > 0 :: own[b]
  }

  ghost predicate CleanAt(s: State, k: nat) {
    k in s.vn ==> !s.vn[k].dirty
  }

  /** Every loaded inode agrees with its block. */
  ghost predicate Clean(s: State) {
    forall k: nat :: CleanAt(s, k)
  }

  lemma FreshNode(s: State, own: Owner, k: nat)
    requires Blocks(s, own) && Clean(s)
    ensures Node(Fresh(s), k) == Node(s, k) && SameFile(s, Fresh(s), k)
  {
    assert CleanAt(s, k) && VnodeOk(s, own, k);
    NodeSame(s, Fresh(s), k);
  }

  lemma LinkedLive(s: State, own: Owner, k: nat)
    ensures Live(Linked(s, own), k) <==> Live(own, k) && Node(s, k).links > 0
  {
  }

  lemma FreshBlock(s: State, own: Owner, b: nat)
    requires Blocks(s, own) && Clean(s)
    ensures BlockOk(Fresh(s), Linked(s, own), b)
  {
    assert BlockOk(s, own, b);
    if b in own {
      FreshNode(s, own, own[b].0);
      LinkedLive(s, own, own[b].0);
    }
  }

  lemma FreshSlot(s: State, own: Owner, k: nat, t: nat)
    requires Blocks(s, own) && Clean(s)
    ensures SlotOk(Fresh(s), Linked(s, own), k, t)
  {
    assert SlotOk(s, own, k, t);
    FreshNode(s, own, k);
    LinkedLive(s, own, k);
  }

  /** Blocks of inodes without names, which only memory keeps alive. */
  ghost function Orphaned(s: State, own: Owner): set<nat> {
    set b | b in own && Node(s, own[b].0).links == 0
  }

  /** Ownership survives; what no name leads to is leaked. */
  lemma FreshBlocks(s: State, own: Owner)
    requires Blocks(s, own) && Clean(s)
    ensures Blocks(Fresh(s), Linked(s, own))
    ensures Leaked(Fresh(s), Linked(s, own)) == Leaked(s, own) + Orphaned(s, own)
  {
    var s', own' := Fresh(s), Linked(s, own);
    forall b: nat ensures MapBit(s', b) { assert MapBit(s, b); }
    forall b ensures BlockOk(s', own', b) { if b >= 0 { FreshBlock(s, own, b); } }
    forall k, t ensures SlotOk(s', own', k, t) { if k >= 0 && t >= 0 { FreshSlot(s, own, k, t); } }
    forall b: nat ensures b in Leaked(s', own') <==> b in Leaked(s, own) + Orphaned(s, own) { assert BlockOk(s, own, b); }
  }

  lemma FreshTree(s: State, own: Owner)
    requires Blocks(s, own) && Clean(s) && Consistent(s, own)
    ensures Consistent(Fresh(s), Linked(s, own)) && Dir(Fresh(s)) == Dir(s)
  {
    var s', own' := Fresh(s), Linked(s, own);
    assert NodeOk(s, own, Dir(s), NOINO, 0, ROOT);
    FreshNode(s, own, ROOT);
    LinkedLive(s, own, ROOT);
    DataBytes(s, s', ROOT);
    forall k: nat ensures NodeOk(s', own', Dir(s), NOINO, 0, k) {
      assert NodeOk(s, own, Dir(s), NOINO, 0, k);
      FreshNode(s, own, k);
      LinkedLive(s, own, k);
    }
    TreeFrame(s, own, s', own', NOINO, 0);
  }

  /** After a sync a fresh mount gives the same names, the same files behind
      them and the same free map; it leaks exactly when something was leaked
      before or an inode in memory has no name. */
  lemma Remount(s: State, own: Owner)
    requires Blocks(s, own) && Clean(s) && Consistent(s, own)
    ensures Blocks(Fresh(s), Linked(s, own)) && Consistent(Fresh(s), Linked(s, own))
    ensures forall n: Name :: Lookup(Dir(Fresh(s)), n) == Lookup(Dir(s), n)
    ensures forall n: Name :: Lookup(Dir(s), n) != NOINO ==>
      Live(Linked(s, own), Lookup(Dir(s), n)) && SameFile(s, Fresh(s), Lookup(Dir(s), n))
    ensures Fresh(s).used == s.used
    ensures Leaked(Fresh(s), Linked(s, own)) == {} <==>
      Leaked(s, own) == {} && forall k: nat :: k in s.vn ==> Node(s, k).links > 0
  {
    FreshBlocks(s, own);
    FreshTree(s, own);
    forall n: Name | Lookup(Dir(s), n) != NOINO
      ensures Live(Linked(s, own), Lookup(Dir(s), n)) && SameFile(s, Fresh(s), Lookup(Dir(s), n))
    {
      NameLive(s, own, n);
      FreshNode(s, own, Lookup(Dir(s), n));
      LinkedLive(s, own, Lookup(Dir(s), n));
    }
    OrphansLoaded(s, own);
  }

  lemma NameLive(s: State, own: Owner, n: Name)
    requires Consistent(s, own) && Lookup(Dir(s), n) != NOINO
    ensures Live(own, Lookup(Dir(s), n)) && Node(s, Lookup(Dir(s), n)).links > 0
  {
    var i := LookupSome(Dir(s), n);
    CountHit(Dir(s), i);
    assert NodeOk(s, own, Dir(s), NOINO, 0, Lookup(Dir(s), n));
  }

  lemma OrphansLoaded(s: State, own: Owner)
    requires Blocks(s, own) && Consistent(s, own)
    ensures Orphaned(s, own) == {} <==> forall k: nat :: k in s.vn ==> Node(s, k).links > 0
  {
    if k: nat :| k in s.vn && Node(s, k).links == 0 {
      LoadedLive(s, own, k);
      assert k in Orphaned(s, own);
    }
    if b :| b in Orphaned(s, own) {
      OwnedBound(s, own, b);
      assert NodeOk(s, own, Dir(s), NOINO, 0, own[b].0);
    }
  }
}
