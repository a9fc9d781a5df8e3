/** The in-memory vnodes: loading, syncing, dropping and erasing inodes, none of
    which anybody sees in the files. */
module SfsCache {
  import opened SfsLayout
  import opened SfsState

  ghost predicate FileSameAt(s: State, own: Owner, s': State, x: nat) {
    Live(own, x) ==> SameFile(s, s', x)
  }

  /** No live inode reads differently. */
  ghost predicate LiveSame(s: State, own: Owner, s': State) {
    forall x: nat :: Live(own, x) ==> SameFile(s, s', x)
  }

  /** No live inode reads differently and no block is allocated or freed. */
  ghost predicate Quiet(s: State, own: Owner, s': State) {
    && s'.nblocks == s.nblocks && |s'.disk| == |s.disk| && s'.used == s.used
    && (forall b: nat :: ReservedSame(s, s', b))
    && (forall x: nat :: FileSameAt(s, own, s', x))
  }

  /** Ownership survives a quiet change that keeps the vnodes in order. */
  lemma QuietOk(s: State, own: Owner, s': State)
    requires Blocks(s, own) && Quiet(s, own, s') && forall k :: VnodeOk(s', own, k)
    ensures Blocks(s', own) && Leaked(s', own) == Leaked(s, own)
  {
    forall k, t: nat | Live(own, k) && t < NSLOTS ensures Slot(s', k, t) == Slot(s, k, t) {
      assert FileSameAt(s, own, s', k);
    }
    forall b: nat ensures MapBit(s', b) { assert MapBit(s, b); }
    BlocksFrame(s, own, s');
  }

  lemma QuietTrans(s: State, own: Owner, s1: State, s2: State)
    requires Quiet(s, own, s1) && Quiet(s1, own, s2)
    ensures Quiet(s, own, s2)
  {
    forall b: nat ensures ReservedSame(s, s2, b) { assert ReservedSame(s, s1, b) && ReservedSame(s1, s2, b); }
    forall x: nat ensures FileSameAt(s, own, s2, x) {
      assert FileSameAt(s, own, s1, x) && FileSameAt(s1, own, s2, x);
    }
  }

  /** Changing the vnode table only, each live inode keeping its inode in force. */
  lemma TableQuiet(s: State, own: Owner, s': State)
    requires s'.nblocks == s.nblocks && s'.disk == s.disk && s'.used == s.used
    requires forall x: nat :: Live(own, x) ==> Node(s', x) == Node(s, x)
    ensures Quiet(s, own, s')
  {
    forall b: nat ensures ReservedSame(s, s', b) {}
    forall x: nat ensures FileSameAt(s, own, s', x) {
      if Live(own, x) { NodeSame(s, s', x); }
    }
  }

  lemma NodeSame(s: State, s': State, x: nat)
    requires s'.disk == s.disk && Node(s', x) == Node(s, x)
    ensures SameFile(s, s', x)
  {
    assert forall b: nat :: Disk(s', b) == Disk(s, b);
    forall t: nat ensures Slot(s', x, t) == Slot(s, x, t) {}
    forall fb: nat ensures FBlock(s', x, fb) == FBlock(s, x, fb) {}
  }

  // sfs_loadvnode

  function SetRef(s: State, k: nat, r: nat): State
    requires k in s.vn
  {
    State(s.nblocks, s.disk, s.used, s.vn[k := Vnode(s.vn[k].ino, s.vn[k].inode, s.vn[k].dirty, r)])
  }

  lemma SetRefOk(s: State, own: Owner, k: nat, r: nat)
    requires Blocks(s, own) && k in s.vn && r > 0
    ensures Blocks(SetRef(s, k, r), own) && Leaked(SetRef(s, k, r), own) == Leaked(s, own)
    ensures Quiet(s, own, SetRef(s, k, r))
  {
    var s' := SetRef(s, k, r);
    TableQuiet(s, own, s');
    forall x ensures VnodeOk(s', own, x) { assert VnodeOk(s, own, x); }
    QuietOk(s, own, s');
  }

  /** An inode that was not resident, read from its block. */
  function Load(s: State, k: nat): State {
    State(s.nblocks, s.disk, s.used, s.vn[k := Vnode(k, InodeOf(Disk(s, k)), false, 1)])
  }

  lemma LoadOk(s: State, own: Owner, k: nat)
    requires Blocks(s, own) && Live(own, k) && k !in s.vn
    ensures Blocks(Load(s, k), own) && Leaked(Load(s, k), own) == Leaked(s, own)
    ensures Quiet(s, own, Load(s, k))
  {
    var s' := Load(s, k);
    TableQuiet(s, own, s');
    forall x ensures VnodeOk(s', own, x) { assert VnodeOk(s, own, x); }
    QuietOk(s, own, s');
  }

  /** The vnode of k was picked up or read in. */
  ghost predicate Opened(s: State, s': State, k: nat) {
    s' == if k in s.vn then SetRef(s, k, s.vn[k].ref + 1) else Load(s, k)
  }

  /** A fresh inode in a block just allocated. */
  function Create(s: State, b: nat, kind: u16): State {
    State(s.nblocks, s.disk, s.used, s.vn[b := Vnode(b, InodeOf(Disk(s, b)).(kind := kind), true, 1)])
  }

  /** An inode with nothing attached and no links. */
  predicate Blank(i: Inode) {
    i.size == 0 && i.links == 0 && i.indirect == 0 && forall j :: 0 <= j < NDIRECT ==> i.direct[j] == 0
  }

  lemma CreateBlank(s: State, b: nat, kind: u16)
    requires AllZero(Disk(s, b))
    ensures Blank(Node(Create(s, b, kind), b)) && Node(Create(s, b, kind), b).kind == kind
  {
    ZeroInode(Disk(s, b));
  }

  lemma BlankSlot(s: State, b: nat, t: nat)
    requires Blank(Node(s, b)) && t < SELF
    ensures Slot(s, b, t) == 0
  {
    if NDIRECT <= t < MAXBLOCKS { ZeroEntries(s, 0, t - NDIRECT); }
  }

  lemma CreateSame(s0: State, own: Owner, s: State, s': State, b: nat, kind: u16)
    requires LiveSame(s0, own, s) && s' == Create(s, b, kind) && !Live(own, b)
    ensures LiveSame(s0, own, s')
  {
    forall x: nat | Live(own, x) ensures SameFile(s0, s', x) {
      forall t: nat ensures Slot(s', x, t) == Slot(s, x, t) {}
    }
  }

  lemma CreateOk(s: State, own: Owner, b: nat, kind: u16)
    requires Blocks(s, own) && b in Leaked(s, own) && Blank(Node(Create(s, b, kind), b))
    ensures var s', own' := Create(s, b, kind), own[b := (b, SELF)];
      && Blocks(s', own') && Leaked(s', own') == Leaked(s, own) - {b}
      && (forall x: nat :: Live(own', x) <==> Live(own, x) || x == b)
      && Quiet(s, own, s')
  {
    var s', own' := Create(s, b, kind), own[b := (b, SELF)];
    assert b !in own;
    TableQuiet(s, own, s');
    forall x: nat ensures Live(own', x) <==> Live(own, x) || x == b {}
    forall x: nat ensures MapBit(s', x) { assert MapBit(s, x); }
    forall x ensures VnodeOk(s', own', x) { assert VnodeOk(s, own, x); }
    forall x ensures BlockOk(s', own', x) { CreateBlock(s, own, b, kind, x); }
    forall x, t ensures SlotOk(s', own', x, t) { CreateSlot(s, own, b, kind, x, t); }
  }

  lemma CreateBlock(s: State, own: Owner, b: nat, kind: u16, x: nat)
    requires Blocks(s, own) && b in Leaked(s, own) && Quiet(s, own, Create(s, b, kind))
    ensures BlockOk(Create(s, b, kind), own[b := (b, SELF)], x)
  {
    assert BlockOk(s, own, x);
    if x in own && x != b { assert FileSameAt(s, own, Create(s, b, kind), own[x].0); }
  }

  lemma CreateSlot(s: State, own: Owner, b: nat, kind: u16, x: nat, t: nat)
    requires Blocks(s, own) && b in Leaked(s, own) && Quiet(s, own, Create(s, b, kind))
    requires Blank(Node(Create(s, b, kind), b))
    ensures SlotOk(Create(s, b, kind), own[b := (b, SELF)], x, t)
  {
    assert SlotOk(s, own, x, t);
    var s' := Create(s, b, kind);
    if x == b {
      if t < SELF { BlankSlot(s', b, t); }
    } else if Live(own, x) {
      assert FileSameAt(s, own, s', x);
    }
  }

  // sfs_sync_inode

  function SyncState(s: State, k: nat): State
    requires k in s.vn && k < |s.disk|
  {
    State(s.nblocks, s.disk[k := BlockOf(s.vn[k].inode)], s.used,
          s.vn[k := Vnode(s.vn[k].ino, s.vn[k].inode, false, s.vn[k].ref)])
  }

  lemma SyncFile(s: State, own: Owner, k: nat, x: nat)
    requires Blocks(s, own) && k in s.vn && Live(own, x)
    ensures k < |s.disk| && SameFile(s, SyncState(s, k), x)
  {
    LoadedLive(s, own, k);
    OwnedBound(s, own, k);
    OwnedBound(s, own, x);
    var s' := SyncState(s, k);
    assert Node(s', x) == Node(s, x);
    if Node(s, x).indirect != 0 { SlotOwned(s, own, x, IND); }
    forall t: nat ensures Slot(s', x, t) == Slot(s, x, t) {}
    forall fb: nat ensures FBlock(s', x, fb) == FBlock(s, x, fb) {
      if fb < MAXBLOCKS && Slot(s, x, fb) != 0 { SlotOwned(s, own, x, fb); }
    }
  }

  lemma SyncOk(s: State, own: Owner, k: nat)
    requires Blocks(s, own) && k in s.vn
    ensures k < |s.disk| && Blocks(SyncState(s, k), own) && Leaked(SyncState(s, k), own) == Leaked(s, own)
    ensures Quiet(s, own, SyncState(s, k))
  {
    LoadedLive(s, own, k);
    OwnedBound(s, own, k);
    var s' := SyncState(s, k);
    forall b: nat ensures ReservedSame(s, s', b) {}
    forall x: nat ensures FileSameAt(s, own, s', x) { if Live(own, x) { SyncFile(s, own, k, x); } }
    InodeRoundTrip(s.vn[k].inode);
    forall x ensures VnodeOk(s', own, x) { assert VnodeOk(s, own, x); }
    QuietOk(s, own, s');
  }

  // sfs_reclaim

  /** The vnode leaves the table. */
  function Unload(s: State, k: nat): State {
    State(s.nblocks, s.disk, s.used, s.vn - {k})
  }

  /** A clean vnode can be dropped: its block says the same. */
  lemma UnloadOk(s: State, own: Owner, k: nat)
    requires Blocks(s, own) && k in s.vn && !s.vn[k].dirty
    ensures Blocks(Unload(s, k), own) && Leaked(Unload(s, k), own) == Leaked(s, own)
    ensures Quiet(s, own, Unload(s, k))
  {
    var s' := Unload(s, k);
    assert VnodeOk(s, own, k);
    TableQuiet(s, own, s');
    forall x ensures VnodeOk(s', own, x) { assert VnodeOk(s, own, x); }
    QuietOk(s, own, s');
  }

  /** The vnode leaves the table and its inode block is freed. */
  function Erase(s: State, k: nat): State {
    State(s.nblocks, s.disk, s.used - {k}, s.vn - {k})
  }

  lemma EraseOk(s: State, own: Owner, k: nat)
    requires Blocks(s, own) && k in s.vn && k != ROOT
    requires forall t: nat :: t < SELF ==> Slot(s, k, t) == 0
    ensures var s', own' := Erase(s, k), own - {k};
      && Blocks(s', own') && Leaked(s', own') == Leaked(s, own)
      && (forall x: nat :: Live(own', x) <==> Live(own, x) && x != k)
      && (forall x: nat :: x != k ==> FileSameAt(s, own, s', x))
  {
    LoadedLive(s, own, k);
    OwnedBound(s, own, k);
    var s', own' := Erase(s, k), own - {k};
    forall x: nat ensures Live(own', x) <==> Live(own, x) && x != k {}
    forall x: nat | x != k ensures FileSameAt(s, own, s', x) { if Live(own, x) { NodeSame(s, s', x); } }
    forall x: nat ensures MapBit(s', x) { assert MapBit(s, x); }
    forall x ensures VnodeOk(s', own', x) { assert VnodeOk(s, own, x); }
    forall x ensures BlockOk(s', own', x) { EraseBlock(s, own, k, x); }
    forall x, t ensures SlotOk(s', own', x, t) { EraseSlot(s, own, k, x, t); }
  }

  lemma EraseBlock(s: State, own: Owner, k: nat, x: nat)
    requires Blocks(s, own) && k in s.vn && forall t: nat :: t < SELF ==> Slot(s, k, t) == 0
    ensures BlockOk(Erase(s, k), own - {k}, x)
  {
    assert BlockOk(s, own, x);
    if x in own && x != k {
      assert own[x].0 != k;
      NodeSame(s, Erase(s, k), own[x].0);
    }
  }

  lemma EraseSlot(s: State, own: Owner, k: nat, x: nat, t: nat)
    requires Blocks(s, own) && k in s.vn
    ensures SlotOk(Erase(s, k), own - {k}, x, t)
  {
    assert SlotOk(s, own, x, t);
    LoadedLive(s, own, k);
    if x != k && Live(own, x) { NodeSame(s, Erase(s, k), x); }
  }
}
