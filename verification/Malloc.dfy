/** The user-level heap: blocks laid end to end, each behind an in-band header. */
module Malloc {

  // Memory

  const MMAGIC := 2
  const FIELD := 0x2000_0000     // 2^29, the range of mh_prevblock and mh_nextblock

  /** Eight bytes of memory, read as a struct mheader: the six bit fields fill
      them exactly, so this is any content at all. */
  datatype RawCell = Cell(prev: nat, pad: nat, magic1: nat, next: nat, inuse: nat, magic2: nat)

  type Cell = c: RawCell | c.prev < FIELD && c.pad < 2 && c.magic1 < 4 && c.next < FIELD && c.inuse < 2 && c.magic2 < 4
    witness Cell(0, 0, 0, 0, 0, 0)

  /** Two words of 0xdeadbeef: 29 bits, 1 bit and 2 bits each. */
  const DEADBEEF: Cell := Cell(0x1bd5b7dd, 1, 3, 0x1bd5b7dd, 1, 3)

  predicate MagicOk(c: Cell) { c.magic1 == MMAGIC && c.magic2 == MMAGIC }

  // Blocks

  /** A block: its length in cells, header included, and whether it is in use. */
  datatype Blk = Blk(len: nat, used: bool)

  /** Blocks by where their headers are, in cells from the heap base. */
  type Blocks = map<nat, Blk>

  ghost predicate TileAt(bs: Blocks, n: nat, a: nat) {
    a in bs ==> bs[a].len > 0 && a + bs[a].len <= n && (a + bs[a].len < n ==> a + bs[a].len in bs)
  }

  ghost predicate Apart(bs: Blocks, a: nat, c: nat) {
    a in bs && c in bs && a < c ==> a + bs[a].len <= c
  }

  /** The blocks tile n cells: the first begins at 0, each next one where the
      last ended, none inside another. */
  ghost predicate Tiles(bs: Blocks, n: nat) {
    && (n > 0 ==> 0 in bs)
    && (forall a: nat :: TileAt(bs, n, a))
    && (forall a: nat, c: nat :: Apart(bs, a, c))
  }

  /** Block a and the one after it are not both free. */
  ghost predicate MergedAt(bs: Blocks, a: nat) {
    a in bs && a + bs[a].len in bs ==> bs[a].used || bs[a + bs[a].len].used
  }

  ghost predicate Merged(bs: Blocks) { forall a: nat :: MergedAt(bs, a) }

  /** The header at a says what block a is, and the next header says how long. */
  ghost predicate HeadAt(mem: seq<Cell>, bs: Blocks, a: nat) {
    a in bs ==>
      && a < |mem| && MagicOk(mem[a])
      && mem[a].next == bs[a].len && (mem[a].inuse == 1 <==> bs[a].used)
      && (a == 0 ==> mem[a].prev == 0)
      && (a + bs[a].len in bs && a + bs[a].len < |mem| ==> mem[a + bs[a].len].prev == bs[a].len)
  }

  ghost predicate Lays(mem: seq<Cell>, bs: Blocks) { forall a: nat :: HeadAt(mem, bs, a) }

  // Allocation

  predicate Fits(bs: Blocks, a: nat, need: nat) {
    a in bs && !bs[a].used && bs[a].len > need
  }

  /** Block a allocated: split if a header and a cell would be left over. */
  function Allocate(bs: Blocks, a: nat, need: nat): Blocks
    requires Fits(bs, a, need)
  {
    if bs[a].len - 1 - need < 2 then bs[a := Blk(bs[a].len, true)]
    else bs[a := Blk(need + 1, true)][a + need + 1 := Blk(bs[a].len - need - 1, false)]
  }

  lemma AllocateTiles(bs: Blocks, n: nat, a: nat, need: nat)
    requires Tiles(bs, n) && Fits(bs, a, need)
    ensures Tiles(Allocate(bs, a, need), n)
  {
    var bs' := Allocate(bs, a, need);
    forall x: nat ensures TileAt(bs', n, x) { assert TileAt(bs, n, x) && TileAt(bs, n, a); }
    forall x: nat, y: nat ensures Apart(bs', x, y) {
      assert TileAt(bs, n, a);
      assert Apart(bs, x, y) && Apart(bs, a, y) && Apart(bs, x, a) && Apart(bs, a, x);
    }
  }

  lemma AllocateMerged(bs: Blocks, n: nat, a: nat, need: nat)
    requires Tiles(bs, n) && Merged(bs) && Fits(bs, a, need)
    ensures Merged(Allocate(bs, a, need))
  {
    var bs' := Allocate(bs, a, need);
    forall x: nat ensures MergedAt(bs', x) {
      assert MergedAt(bs, x) && MergedAt(bs, a) && TileAt(bs, n, a);
      assert Apart(bs, x, a) && Apart(bs, a, x);
    }
  }

  /** A new block at the top. */
  function Grow(bs: Blocks, n: nat, need: nat): Blocks { bs[n := Blk(need + 1, true)] }

  lemma GrowTiles(bs: Blocks, n: nat, need: nat)
    requires Tiles(bs, n)
    ensures Tiles(Grow(bs, n, need), n + need + 1) && n !in bs
  {
    var bs', n' := Grow(bs, n, need), n + need + 1;
    assert TileAt(bs, n, n);
    forall x: nat ensures TileAt(bs', n', x) { assert TileAt(bs, n, x); }
    forall x: nat, y: nat ensures Apart(bs', x, y) { assert Apart(bs, x, y) && TileAt(bs, n, x) && TileAt(bs, n, y); }
  }

  lemma GrowMerged(bs: Blocks, n: nat, need: nat)
    requires Tiles(bs, n) && Merged(bs)
    ensures Merged(Grow(bs, n, need))
  {
    var bs' := Grow(bs, n, need);
    forall x: nat ensures MergedAt(bs', x) { assert MergedAt(bs, x) && TileAt(bs, n, x) && TileAt(bs, n, n + need + 1); }
  }

  // Release

  /** Block a and the one after it made one, if both are free. */
  function TryMerge(bs: Blocks, a: nat): Blocks
    requires a in bs
  {
    var c := a + bs[a].len;
    if c !in bs || bs[a].used || bs[c].used || c == a then bs
    else (bs - {c})[a := Blk(bs[a].len + bs[c].len, false)]
  }

  lemma TryMergeTiles(bs: Blocks, n: nat, a: nat)
    requires Tiles(bs, n) && a in bs
    ensures Tiles(TryMerge(bs, a), n)
  {
    var bs', c := TryMerge(bs, a), a + bs[a].len;
    assert TileAt(bs, n, a) && TileAt(bs, n, c);
    forall x: nat ensures TileAt(bs', n, x) { assert TileAt(bs, n, x) && Apart(bs, x, a) && Apart(bs, a, x); }
    forall x: nat, y: nat ensures Apart(bs', x, y) { assert Apart(bs, x, y) && Apart(bs, c, y) && Apart(bs, x, c); }
  }

  /** Block a marked free. */
  function Mark(bs: Blocks, a: nat): Blocks
    requires a in bs
  {
    bs[a := Blk(bs[a].len, false)]
  }

  lemma MarkTiles(bs: Blocks, n: nat, a: nat)
    requires Tiles(bs, n) && a in bs
    ensures Tiles(Mark(bs, a), n)
  {
    forall x: nat ensures TileAt(Mark(bs, a), n, x) { assert TileAt(bs, n, x); }
    forall x: nat, y: nat ensures Apart(Mark(bs, a), x, y) { assert Apart(bs, x, y); }
  }

  /** p is the block just below a. */
  predicate Below(bs: Blocks, p: nat, a: nat) { p in bs && p + bs[p].len == a }

  /** Block a freed and merged with its neighbours; p is the one below, if any. */
  function Release(bs: Blocks, a: nat, p: nat): Blocks
    requires a in bs && (a != 0 ==> Below(bs, p, a) && p < a)
  {
    var up := TryMerge(Mark(bs, a), a);
    if a == 0 then up else TryMerge(up, p)
  }

  lemma ReleaseTiles(bs: Blocks, n: nat, a: nat, p: nat)
    requires Tiles(bs, n) && a in bs && (a != 0 ==> Below(bs, p, a) && p < a)
    ensures Tiles(Release(bs, a, p), n)
  {
    MarkTiles(bs, n, a);
    TryMergeTiles(Mark(bs, a), n, a);
    if a != 0 { TryMergeTiles(TryMerge(Mark(bs, a), a), n, p); }
  }

  /** Freeing one block leaves no two free neighbours. */
  lemma ReleaseMerged(bs: Blocks, n: nat, a: nat, p: nat)
    requires Tiles(bs, n) && Merged(bs) && a in bs && (a != 0 ==> Below(bs, p, a) && p < a)
    ensures Merged(Release(bs, a, p))
  {
    var bs' := Release(bs, a, p);
    forall x: nat ensures MergedAt(bs', x) { ReleaseMergedAt(bs, n, a, p, x); }
  }

  lemma ReleaseMergedAt(bs: Blocks, n: nat, a: nat, p: nat, x: nat)
    requires Tiles(bs, n) && Merged(bs) && a in bs && (a != 0 ==> Below(bs, p, a) && p < a)
    ensures MergedAt(Release(bs, a, p), x)
  {
    var c := a + bs[a].len;
    assert TileAt(bs, n, a) && TileAt(bs, n, c) && TileAt(bs, n, x) && TileAt(bs, n, p);
    assert MergedAt(bs, x) && MergedAt(bs, a) && MergedAt(bs, c) && MergedAt(bs, p);
    assert Apart(bs, x, a) && Apart(bs, a, x) && Apart(bs, x, c) && Apart(bs, c, x) && Apart(bs, p, x) && Apart(bs, x, p);
  }

  // Malloc and free together

  /** Every block but the first has one below it. */
  lemma HasBelow(bs: Blocks, n: nat, a: nat, from: nat) returns (p: nat)
    requires Tiles(bs, n) && a in bs && from in bs && from < a
    ensures Below(bs, p, a) && p < a
    decreases a - from
  {
    assert TileAt(bs, n, from) && TileAt(bs, n, a) && Apart(bs, from, a);
    if from + bs[from].len == a {
      p := from;
    } else {
      p := HasBelow(bs, n, a, from + bs[from].len);
    }
  }

  /** Freeing what was just allocated from a free block restores the heap. */
  lemma AllocateRelease(bs: Blocks, n: nat, a: nat, need: nat, p: nat)
    requires Tiles(bs, n) && Merged(bs) && Fits(bs, a, need) && (a != 0 ==> Below(bs, p, a) && p < a)
    ensures Release(Allocate(bs, a, need), a, p) == bs
  {
    assert TileAt(bs, n, a) && MergedAt(bs, a) && MergedAt(bs, p) && Apart(bs, a, a + need + 1);
  }

  /** Freeing what the heap was grown for leaves one free block at the top. */
  lemma GrowRelease(bs: Blocks, n: nat, need: nat, p: nat)
    requires Tiles(bs, n) && (n != 0 ==> Below(bs, p, n) && p < n)
    ensures Release(Grow(bs, n, need), n, p) ==
      if n != 0 && !bs[p].used then bs[p := Blk(bs[p].len + need + 1, false)] else bs[n := Blk(need + 1, false)]
  {
    assert TileAt(bs, n, n) && TileAt(bs, n, n + need + 1);
  }

  // What the used blocks leave of choice

  /** The blocks in use are the same, `but` aside. */
  ghost predicate UsedSame(bs: Blocks, bs': Blocks, but: int) {
    forall a: nat :: a != but ==> UsedSameAt(bs, bs', a)
  }

  ghost predicate UsedSameAt(bs: Blocks, bs': Blocks, a: nat) {
    (UsedAt(bs, a) <==> UsedAt(bs', a)) && (UsedAt(bs, a) ==> bs'[a] == bs[a])
  }

  /** Two heaps of a size with the same blocks in use are the same, if neither has
      free neighbours. */
  lemma LayoutUnique(bs: Blocks, bs': Blocks, n: nat)
    requires Tiles(bs, n) && Merged(bs) && Tiles(bs', n) && Merged(bs') && UsedSame(bs, bs', -1)
    ensures bs == bs'
  {
    UsedSymmetric(bs, bs');
    forall a | a in bs ensures a in bs' && bs'[a] == bs[a] { LayoutAt(bs, bs', n, a); }
    forall a | a in bs' ensures a in bs { LayoutAt(bs', bs, n, a); }
  }

  lemma UsedSymmetric(bs: Blocks, bs': Blocks)
    requires UsedSame(bs, bs', -1)
    ensures UsedSame(bs', bs, -1)
  {
    forall a: nat ensures UsedSameAt(bs', bs, a) { assert UsedSameAt(bs, bs', a); }
  }

  lemma {:induction false} LayoutAt(bs: Blocks, bs': Blocks, n: nat, a: nat)
    requires Tiles(bs, n) && Merged(bs) && Tiles(bs', n) && Merged(bs') && UsedSame(bs, bs', -1) && a in bs
    ensures a in bs' && bs'[a] == bs[a]
    decreases a
  {
    assert TileAt(bs, n, a);
    if a != 0 {
      var p := HasBelow(bs, n, a, 0);
      LayoutAt(bs, bs', n, p);
      assert TileAt(bs', n, p);
    }
    assert UsedSameAt(bs, bs', a) && TileAt(bs', n, a);
    if !bs[a].used {
      UsedSymmetric(bs, bs');
      LongEnough(bs, bs', n, a);
      LongEnough(bs', bs, n, a);
    }
  }

  lemma LongEnough(bs: Blocks, bs': Blocks, n: nat, a: nat)
    requires Tiles(bs, n) && Merged(bs) && Tiles(bs', n) && UsedSame(bs, bs', -1)
    requires a in bs && a in bs' && !bs[a].used && !bs'[a].used
    ensures bs[a].len >= bs'[a].len
  {
    var c := a + bs[a].len;
    assert TileAt(bs, n, a) && TileAt(bs', n, a) && MergedAt(bs, a) && UsedSameAt(bs, bs', c) && Apart(bs', a, c);
  }

  predicate UsedAt(bs: Blocks, a: nat) { a in bs && bs[a].used }

  /** Block a is free and has room for so many bytes. */
  predicate Roomy(bs: Blocks, a: nat, bytes: nat) {
    a in bs && !bs[a].used && MBLOCKSIZE * (bs[a].len - 1) >= bytes
  }

  /** Of the free block at a so many bytes were handed out, or up to a cell more: what
      is left is a free block, if there is room for a header and a cell. */
  ghost predicate Carved(bs: Blocks, bs': Blocks, a: nat, bytes: nat) {
    && Roomy(bs, a, bytes) && UsedAt(bs', a) && UsedSame(bs, bs', a)
    && (if MBLOCKSIZE * (bs[a].len - 1) >= bytes + 2 * MBLOCKSIZE then
          && MBLOCKSIZE * (bs'[a].len - 1) == bytes
          && a + bs'[a].len in bs' && bs'[a + bs'[a].len] == Blk(bs[a].len - bs'[a].len, false)
        else bs'[a].len == bs[a].len)
    && (forall c: nat :: c != a && c != a + bs'[a].len ==> (c in bs' <==> c in bs) && (c in bs ==> bs'[c] == bs[c]))
  }

  lemma AllocateCarves(bs: Blocks, n: nat, a: nat, size: nat)
    requires Tiles(bs, n) && Fits(bs, a, Need(size))
    ensures Carved(bs, Allocate(bs, a, Need(size)), a, Rounded(size))
  {
    var bs', need := Allocate(bs, a, Need(size)), Need(size);
    assert Rounded(size) == MBLOCKSIZE * need;
    assert TileAt(bs, n, a);
    forall c: nat | c != a ensures UsedSameAt(bs, bs', c) { assert Apart(bs, a, c); }
  }

  lemma FitsRoomy(bs: Blocks, n: nat, a: nat, size: nat)
    requires Tiles(bs, n)
    ensures Fits(bs, a, Need(size)) <==> Roomy(bs, a, Rounded(size))
  {
    assert TileAt(bs, n, a);
  }

  // Regions handed out

  /** Cells of memory that belong to callers: the data of blocks in use. */
  ghost predicate Owned(bs: Blocks, a: nat, i: nat) {
    a in bs && bs[a].used && a < i < a + bs[a].len
  }

  /** No cell belongs to two regions. */
  lemma Disjoint(bs: Blocks, n: nat, a: nat, c: nat, i: nat)
    requires Tiles(bs, n) && Owned(bs, a, i) && Owned(bs, c, i)
    ensures a == c
  {
    assert Apart(bs, a, c) && Apart(bs, c, a);
  }

  /** A header is in no region. */
  lemma HeaderApart(bs: Blocks, n: nat, a: nat, c: nat, i: nat)
    requires Tiles(bs, n) && Owned(bs, a, i) && c in bs
    ensures i != c
  {
    assert Apart(bs, a, c) && Apart(bs, c, a);
  }

  // Changes to memory

  /** The blocks between __malloc_split and marking the block in use. */
  function Split(bs: Blocks, a: nat, need: nat): Blocks
    requires Fits(bs, a, need)
  {
    if bs[a].len - 1 - need < 2 then bs
    else bs[a := Blk(need + 1, false)][a + need + 1 := Blk(bs[a].len - need - 1, false)]
  }

  lemma SplitLays(mem: seq<Cell>, bs: Blocks, a: nat, need: nat, mem': seq<Cell>)
    requires Tiles(bs, |mem|) && Lays(mem, bs) && Fits(bs, a, need) && bs[a].len - 1 - need >= 2
    requires |mem'| == |mem| < FIELD
    requires forall i: nat :: i < |mem| && i != a && i != a + need + 1 && i != a + bs[a].len ==> mem'[i] == mem[i]
    requires a + bs[a].len <= |mem| && mem'[a] == mem[a].(next := need + 1)
    requires mem'[a + need + 1] == Cell(need + 1, 0, MMAGIC, bs[a].len - 1 - need, 0, MMAGIC)
    requires a + bs[a].len < |mem| ==> mem'[a + bs[a].len] == mem[a + bs[a].len].(prev := bs[a].len - 1 - need)
    ensures Lays(mem', Split(bs, a, need))
  {
    var bs' := Split(bs, a, need);
    forall x: nat ensures HeadAt(mem', bs', x) {
      assert HeadAt(mem, bs, x) && HeadAt(mem, bs, a) && TileAt(bs, |mem|, a) && TileAt(bs, |mem|, x);
      assert HeadAt(mem, bs, a + bs[a].len);
      assert Apart(bs, a, x) && Apart(bs, x, a);
    }
  }

  lemma UsedLays(mem: seq<Cell>, bs: Blocks, a: nat, used: bool)
    requires Lays(mem, bs) && a in bs && a < |mem|
    ensures Lays(mem[a := mem[a].(inuse := if used then 1 else 0)], bs[a := Blk(bs[a].len, used)])
  {
    var mem', bs' := mem[a := mem[a].(inuse := if used then 1 else 0)], bs[a := Blk(bs[a].len, used)];
    forall x: nat ensures HeadAt(mem', bs', x) { assert HeadAt(mem, bs, x); }
  }

  /** The header of a new top block. */
  lemma GrowLays(mem: seq<Cell>, bs: Blocks, need: nat, right: nat, mem': seq<Cell>)
    requires Tiles(bs, |mem|) && Lays(mem, bs) && |mem'| == |mem| + need + 1 < FIELD && right < FIELD
    requires forall i: nat :: i < |mem| ==> mem'[i] == mem[i]
    requires mem'[|mem|] == Cell(right, 0, MMAGIC, need + 1, 1, MMAGIC)
    requires |mem| == 0 ==> right == 0
    requires forall p: nat :: Below(bs, p, |mem|) ==> bs[p].len == right
    ensures Lays(mem', Grow(bs, |mem|, need))
  {
    var n, bs' := |mem|, Grow(bs, |mem|, need);
    assert TileAt(bs, n, n);
    forall x: nat ensures HeadAt(mem', bs', x) {
      assert HeadAt(mem, bs, x) && TileAt(bs, n, x);
      if x in bs && x + bs[x].len == n { assert Below(bs, x, n); }
    }
  }

  /** Only data of one block changed. */
  lemma DataLays(mem: seq<Cell>, bs: Blocks, a: nat, mem': seq<Cell>)
    requires Tiles(bs, |mem|) && Lays(mem, bs) && a in bs && |mem'| == |mem|
    requires forall i: nat :: i < |mem| && !(a < i < a + bs[a].len) ==> mem'[i] == mem[i]
    ensures Lays(mem', bs)
  {
    forall x: nat ensures HeadAt(mem', bs, x) {
      assert HeadAt(mem, bs, x) && TileAt(bs, |mem|, x) && TileAt(bs, |mem|, a);
      assert Apart(bs, a, x) && Apart(bs, x, a);
      if x in bs && x + bs[x].len in bs { assert Apart(bs, a, x + bs[x].len) && Apart(bs, x + bs[x].len, a); }
    }
  }

  lemma MergeLays(mem: seq<Cell>, bs: Blocks, a: nat, c: nat, mem': seq<Cell>)
    requires Tiles(bs, |mem|) && Lays(mem, bs) && a in bs && c in bs && c == a + bs[a].len && !bs[a].used && !bs[c].used
    requires |mem'| == |mem| < FIELD && bs[a].len + bs[c].len < FIELD && c < |mem|
    requires forall i: nat :: i < |mem| && i != a && i != c && i != c + bs[c].len ==> mem'[i] == mem[i]
    requires mem'[a] == mem[a].(next := bs[a].len + bs[c].len)
    requires c + bs[c].len < |mem| ==> mem'[c + bs[c].len] == mem[c + bs[c].len].(prev := bs[a].len + bs[c].len)
    ensures Lays(mem', TryMerge(bs, a))
  {
    var bs', d := TryMerge(bs, a), c + bs[c].len;
    assert TileAt(bs, |mem|, a) && TileAt(bs, |mem|, c);
    forall x: nat ensures HeadAt(mem', bs', x) {
      assert HeadAt(mem, bs, x) && HeadAt(mem, bs, a) && HeadAt(mem, bs, c) && HeadAt(mem, bs, d);
      assert TileAt(bs, |mem|, x) && Apart(bs, a, x) && Apart(bs, x, a) && Apart(bs, c, x) && Apart(bs, x, c);
    }
  }

  // The allocator

  const WORD := 0x1_0000_0000    // addresses and sizes are 32 bits
  const HALF := 0x8000_0000
  const MBLOCKSIZE := 8

  /** A size rounded up to whole cells, as the machine computes it. */
  function Rounded(size: nat): nat { (size + MBLOCKSIZE - 1) % WORD / MBLOCKSIZE * MBLOCKSIZE }

  /** The cells a request asks for. */
  function Need(size: nat): nat { Rounded(size) / MBLOCKSIZE }

  /** What sbrk is asked for when no block fits: it takes a signed int. */
  function Change(size: nat): int {
    var c := (Rounded(size) + MBLOCKSIZE) % WORD;
    if c < HALF then c else c - WORD
  }

  /** The sizes for which sbrk is asked for nothing, or to lower the break. */
  predicate TooBig(size: nat) { Rounded(size) + MBLOCKSIZE >= HALF }

  lemma Asked(size: nat)
    requires size < WORD
    ensures MBLOCKSIZE * (Need(size) + 1) == Rounded(size) + MBLOCKSIZE
    ensures TooBig(size) ==> -HALF <= Change(size) <= 0 && Change(size) % MBLOCKSIZE == 0
  {
  }

  /** The rounding gives enough room exactly up to 2^32 - 8, and a request that
      raises the break by that room and a header exactly up to 2^31 - 16. */
  lemma RoundedExact(size: nat)
    requires size < WORD
    ensures MBLOCKSIZE * Need(size) >= size <==> size <= WORD - MBLOCKSIZE
    ensures MBLOCKSIZE * Need(size) >= size && !TooBig(size) <==> size <= HALF - 2 * MBLOCKSIZE
    ensures Change(size) > 0 <==> !TooBig(size)
    ensures -HALF <= Change(size) < HALF && (Change(size) - (Rounded(size) + MBLOCKSIZE)) % WORD == 0
    ensures size <= WORD - MBLOCKSIZE ==> MBLOCKSIZE * Need(size) < size + MBLOCKSIZE
  {
  }

  /** The largest request is answered with a block that has no data at all. */
  lemma RoundedWraps()
    ensures Need(0xffff_ffff) == 0 && Rounded(0xffff_fff8) + MBLOCKSIZE == WORD
  {
  }

  /** A request that lowers the break by 65528 bytes. */
  lemma LowersBreak()
    ensures TooBig(0xffff_0000) && Change(0xffff_0000) == -65528
  {
  }

  /** Null: no memory.  Wild: a header was written past the top of the heap, which
      may have been lowered. */
  datatype Result = Null | Ptr(addr: nat) | Wild

  ghost predicate RegionKept(bs: Blocks, mem: seq<Cell>, bs': Blocks, mem': seq<Cell>, a: nat, i: nat) {
    Owned(bs, a, i) ==> Owned(bs', a, i) && i < |mem| && i < |mem'| && mem'[i] == mem[i]
  }

  /** Every region but the one at `but` is still handed out, with its contents. */
  ghost predicate RegionsKept(bs: Blocks, mem: seq<Cell>, bs': Blocks, mem': seq<Cell>, but: int) {
    forall a: nat, i: nat :: a != but ==> RegionKept(bs, mem, bs', mem', a, i)
  }

  class Heap {
    const heapbase: nat
    const deny: nat -> bool    // which calls of sbrk fail
    var heaptop: nat
    var mem: seq<Cell>         // what lies between them
    var calls: nat
    ghost var bs: Blocks

    ghost predicate Valid()
      reads this
    {
      && heapbase > 0 && heapbase % MBLOCKSIZE == 0 && heaptop < WORD
      && heaptop == heapbase + MBLOCKSIZE * |mem|
      && Tiles(bs, |mem|) && Merged(bs) && Lays(mem, bs)
    }

    /** __malloc_init, given the break: align the base. */
    constructor (brk: nat, deny: nat -> bool)
      requires 0 < brk < WORD - MBLOCKSIZE
      ensures Valid() && bs == map[] && mem == [] && brk <= heapbase < brk + MBLOCKSIZE
      ensures this.deny == deny && calls == 0
    {
      var base := if brk % MBLOCKSIZE != 0 then brk + (MBLOCKSIZE - brk % MBLOCKSIZE) else brk;
      heapbase, heaptop, this.deny := base, base, deny;
      mem, calls, bs := [], 0, map[];
      new;
      forall a: nat ensures TileAt(bs, 0, a) && MergedAt(bs, a) && HeadAt(mem, bs, a) {}
      forall a: nat, c: nat ensures Apart(bs, a, c) {}
    }

    /** __malloc_sbrk: the break is where we left it.  A negative change lowers it,
        below the heap if need be, and `__heaptop` follows modulo 2^32. */
    method Sbrk(change: int) returns (ok: bool)
      requires heapbase % MBLOCKSIZE == 0 && heaptop == heapbase + MBLOCKSIZE * |mem| < WORD
      requires -HALF <= change < HALF && change % MBLOCKSIZE == 0
      modifies this`heaptop, this`mem, this`calls
      ensures calls == old(calls) + 1
      ensures ok <==> !deny(old(calls)) && old(heaptop) + change < WORD
      ensures !ok ==> mem == old(mem) && heaptop == old(heaptop)
      ensures ok ==> heaptop == (old(heaptop) + change) % WORD
      ensures ok && change >= 0 ==>
        && |mem| == |old(mem)| + change / MBLOCKSIZE && mem[..|old(mem)|] == old(mem)
        && heaptop == heapbase + MBLOCKSIZE * |mem|
      ensures ok && change < 0 ==> |mem| <= |old(mem)| && mem == old(mem)[..|mem|]
      ensures ok && change < 0 && old(heaptop) + change >= heapbase ==> heaptop == heapbase + MBLOCKSIZE * |mem|
    {
      ok := !deny(calls) && heaptop + change < WORD;
      calls := calls + 1;
      if !ok { return; }
      if change >= 0 {
        mem := mem + seq(change / MBLOCKSIZE, _ => Cell(0, 0, 0, 0, 0, 0));
      } else {
        var left := heaptop + change - heapbase;
        mem := if left >= 0 then mem[..left / MBLOCKSIZE] else [];
      }
      heaptop := (heaptop + change) % WORD;
    }

    /** __malloc_split: neither internal error can occur. */
    method SplitBlock(a: nat, need: nat)
      requires Tiles(bs, |mem|) && Lays(mem, bs) && Fits(bs, a, need) && |mem| < FIELD
      modifies this`mem, this`bs
      ensures |mem| == |old(mem)| && bs == Split(old(bs), a, need) && Lays(mem, bs)
      ensures forall i: nat :: i < |mem| && !(a <= i <= a + old(bs)[a].len) ==> mem[i] == old(mem)[i]
      ensures a + old(bs)[a].len < |mem| ==> a + old(bs)[a].len in old(bs)
    {
      assert HeadAt(mem, bs, a) && TileAt(bs, |mem|, a) && HeadAt(mem, bs, a + bs[a].len);
      var next := mem[a].next;
      if next - 1 - need < 2 { return; }
      var mhnext, mhnew := a + next, a + need + 1;
      mem := mem[a := mem[a].(next := need + 1)];
      assert mhnew != mhnext;
      mem := mem[mhnew := Cell(need + 1, 0, MMAGIC, next - 1 - need, 0, MMAGIC)];
      if mhnext < |mem| {
        mem := mem[mhnext := mem[mhnext].(prev := next - 1 - need)];
      }
      SplitLays(old(mem), bs, a, need, mem);
      bs := Split(bs, a, need);
    }
  
    /** The tail of malloc's loop: split if possible and mark in use. */
    method Take(a: nat, need: nat)
      requires Valid() && Fits(bs, a, need)
      modifies this`mem, this`bs
      ensures Valid() && |mem| == |old(mem)| && bs == Allocate(old(bs), a, need)
      ensures RegionsKept(old(bs), old(mem), bs, mem, -1)
      ensures forall c: nat :: UsedAt(bs, c) <==> UsedAt(old(bs), c) || c == a
    {
      AllocateTiles(bs, |mem|, a, need);
      AllocateMerged(bs, |mem|, a, need);
      SplitBlock(a, need);
      assert HeadAt(mem, bs, a);
      UsedLays(mem, bs, a, true);
      mem := mem[a := mem[a].(inuse := 1)];
      bs := bs[a := Blk(bs[a].len, true)];
      assert bs == Allocate(old(bs), a, need);
      forall c: nat, i: nat ensures RegionKept(old(bs), old(mem), bs, mem, c, i) {
        AllocateKeeps(old(bs), |mem|, a, need, c, i);
      }
      forall c: nat ensures UsedAt(bs, c) <==> UsedAt(old(bs), c) || c == a { AllocateUsed(old(bs), |mem|, a, need, c); }
    }

    /** The end of malloc: grow the heap. */
    method Expand(need: nat, right: nat) returns (r: Result)
      requires Valid() && MBLOCKSIZE * (need + 1) < HALF && right < FIELD && (|mem| == 0 ==> right == 0)
      requires forall p: nat :: Below(bs, p, |mem|) ==> bs[p].len == right
      modifies this`mem, this`bs, this`heaptop, this`calls
      ensures Valid() && (r == Null || r == Ptr(heapbase + MBLOCKSIZE * (|old(mem)| + 1)))
      ensures r == Null ==> mem == old(mem) && bs == old(bs) && heaptop == old(heaptop)
      ensures calls == old(calls) + 1
      ensures r == Null <==> deny(old(calls)) || old(heaptop) + MBLOCKSIZE * (need + 1) >= WORD
      ensures r != Null ==> heaptop == old(heaptop) + MBLOCKSIZE * (need + 1)
      ensures r != Null ==> bs == Grow(old(bs), |old(mem)|, need) && RegionsKept(old(bs), old(mem), bs, mem, -1)
      ensures |old(mem)| !in old(bs)
    {
      var a := |mem|;
      GrowTiles(bs, a, need);
      var ok := Sbrk(MBLOCKSIZE * (need + 1));
      if !ok { return Null; }
      mem := mem[a := Cell(right, 0, MMAGIC, need + 1, 1, MMAGIC)];
      GrowMerged(bs, a, need);
      GrowLays(old(mem), bs, need, right, mem);
      bs := Grow(bs, a, need);
      forall c: nat, i: nat ensures RegionKept(old(bs), old(mem), bs, mem, c, i) { assert TileAt(old(bs), a, c); }
      r := Ptr(heapbase + MBLOCKSIZE * (a + 1));
    }

    /** malloc.  No "Heap corrupt" branch can be reached. */
    method Malloc(size: nat) returns (r: Result)
      requires Valid() && size < WORD
      modifies this`mem, this`bs, this`heaptop, this`calls
      ensures !r.Wild? ==> Valid() && RegionsKept(old(bs), old(mem), bs, mem, -1)
      ensures r.Ptr? ==> r.addr >= heapbase + MBLOCKSIZE
      ensures r.Ptr? && !old(Unmet(size)) ==>
        var a := BlockOf(r.addr);
        && r.addr == heapbase + MBLOCKSIZE * (a + 1) && (forall c: nat :: c < a ==> !Roomy(old(bs), c, Rounded(size)))
        && Carved(old(bs), bs, a, Rounded(size)) && heaptop == old(heaptop) && |mem| == |old(mem)|
      ensures r.Ptr? && old(Unmet(size)) ==>
        var a := |old(mem)|;
        && r.addr == heapbase + MBLOCKSIZE * (a + 1) && heaptop == old(heaptop) + Rounded(size) + MBLOCKSIZE
        && a !in old(bs) && bs.Keys == old(bs).Keys + {a} && bs == old(bs)[a := bs[a]]
        && bs[a].used && MBLOCKSIZE * (bs[a].len - 1) == Rounded(size)
      ensures r.Ptr? ==>
        Live(r.addr) && !old(Live(r.addr)) && MBLOCKSIZE * (bs[BlockOf(r.addr)].len - 1) >= Rounded(size)
      ensures r.Ptr? ==> forall c: nat :: UsedAt(bs, c) <==> UsedAt(old(bs), c) || c == BlockOf(r.addr)
      ensures r.Null? ==> bs == old(bs) && mem == old(mem) && heaptop == old(heaptop)
      ensures r.Null? <==>
        && old(Unmet(size))
        && (deny(old(calls)) || (!TooBig(size) && old(heaptop) + Rounded(size) + MBLOCKSIZE >= WORD))
      ensures calls == old(calls) + if old(Unmet(size)) then 1 else 0
      ensures r.Wild? <==> old(Unmet(size)) && TooBig(size) && !deny(old(calls))
      ensures r.Wild? ==> heaptop == (old(heaptop) + Change(size)) % WORD
      ensures r.Wild? && Change(size) == 0 ==> Valid() && bs == old(bs) && mem == old(mem)
    {
      var need := Need(size);
      var i, right := 0, 0;
      ghost var p := 0;
      while i < |mem|
        invariant 0 <= i <= |mem| && (i < |mem| ==> i in bs) && right < FIELD
        invariant if i == 0 then right == 0 else Below(bs, p, i) && bs[p].len == right
        invariant forall c: nat :: c < i ==> !Fits(bs, c, need)
        invariant mem == old(mem) && bs == old(bs) && heaptop == old(heaptop) && calls == old(calls)
        decreases |mem| - i
      {
        WalkHead(mem, bs, i, p);
        var mh := mem[i];
        assert MagicOk(mh);
        assert mh.prev == right;
        right := mh.next;
        if mh.inuse == 0 && mh.next - 1 >= need {
          AllocateCarves(bs, |mem|, i, size);
          RoomyBelow(bs, |mem|, i, size);
          Take(i, need);
          return Ptr(heapbase + MBLOCKSIZE * (i + 1));
        }
        NoFitBelow(bs, |mem|, i, need);
        p := i;
        i := i + mh.next;
      }
      assert i == |mem|;
      NoFit(bs, |mem|, size);
      OneBelow(bs, |mem|, p);
      r := Extend(size, right);
    }

    /** The end of malloc: no block fits. */
    method Extend(size: nat, right: nat) returns (r: Result)
      requires Valid() && size < WORD && Unmet(size) && right < FIELD && (|mem| == 0 ==> right == 0)
      requires forall p: nat :: Below(bs, p, |mem|) ==> bs[p].len == right
      modifies this`mem, this`bs, this`heaptop, this`calls
      ensures r.Null? ==> Valid() && bs == old(bs) && mem == old(mem) && RegionsKept(old(bs), old(mem), bs, mem, -1)
      ensures calls == old(calls) + 1 && (r.Null? ==> heaptop == old(heaptop))
      ensures r.Null? <==> deny(old(calls)) || (!TooBig(size) && old(heaptop) + Rounded(size) + MBLOCKSIZE >= WORD)
      ensures r.Wild? <==> TooBig(size) && !deny(old(calls))
      ensures r.Wild? ==> heaptop == (old(heaptop) + Change(size)) % WORD
      ensures r.Wild? && Change(size) == 0 ==> Valid() && bs == old(bs) && mem == old(mem)
      ensures r.Ptr? ==> heaptop == old(heaptop) + Rounded(size) + MBLOCKSIZE
      ensures r.Ptr? ==>
        && Valid() && r.addr == heapbase + MBLOCKSIZE * (|old(mem)| + 1) && |old(mem)| !in old(bs)
        && bs == Grow(old(bs), |old(mem)|, Need(size)) && RegionsKept(old(bs), old(mem), bs, mem, -1)
    {
      Asked(size);
      RegionsStay(mem, bs);
      if TooBig(size) {
        var ok := Sbrk(Change(size));
        if ok {
          assert Change(size) == 0 ==> mem[..|old(mem)|] == mem;
          return Wild;
        }
        r := Null;
      } else {
        r := Expand(Need(size), right);
      }
    }

    // free

    /** __malloc_trymerge: the two headers agree. */
    method MergeAt(a: nat, c: nat)
      requires Tiles(bs, |mem|) && Lays(mem, bs) && a in bs && c in bs && c == a + bs[a].len && |mem| < FIELD
      modifies this`mem, this`bs
      ensures |mem| == |old(mem)| && bs == TryMerge(old(bs), a) && Lays(mem, bs) && Tiles(bs, |mem|)
      ensures forall i: nat :: i < |mem| && i !in old(bs) ==> mem[i] == old(mem)[i]
      ensures a < |mem| && mem[a].inuse == old(mem)[a].inuse && mem[a].prev == old(mem)[a].prev
      ensures c < |mem| && (bs == old(bs) ==> mem == old(mem)) && (c !in bs ==> mem[c] == DEADBEEF)
    {
      TryMergeTiles(bs, |mem|, a);
      MergeHeads(mem, bs, a, c);
      assert mem[a].next == mem[c].prev;
      if mem[a].inuse == 1 || mem[c].inuse == 1 { return; }
      var d, len := c + mem[c].next, mem[a].next + mem[c].next;
      mem := mem[a := mem[a].(next := len)];
      if d < |mem| {
        mem := mem[d := mem[d].(prev := len)];
      }
      mem := mem[c := DEADBEEF];
      MergeLays(old(mem), bs, a, c, mem);
      bs := TryMerge(bs, a);
    }

    /** __malloc_deadbeef over the data of block a. */
    method Wipe(a: nat)
      requires Tiles(bs, |mem|) && Lays(mem, bs) && a in bs
      modifies this`mem
      ensures |mem| == |old(mem)| && Lays(mem, bs)
      ensures forall i: nat :: i < |mem| && !(a < i < a + bs[a].len) ==> mem[i] == old(mem)[i]
      ensures forall i: nat :: a < i < a + bs[a].len && i < |mem| ==> mem[i] == DEADBEEF
    {
      assert TileAt(bs, |mem|, a) && HeadAt(mem, bs, a);
      var i, end := a + 1, a + mem[a].next;
      while i < end
        invariant a < i <= end == a + bs[a].len <= |mem| == |old(mem)|
        invariant forall j: nat :: j < |mem| && !(a < j < i) ==> mem[j] == old(mem)[j]
        invariant forall j: nat :: a < j < i ==> mem[j] == DEADBEEF
      {
        mem := mem[i := DEADBEEF];
        i := i + 1;
      }
      DataLays(old(mem), bs, a, mem);
    }

    /** The block whose data begins at x. */
    function BlockOf(x: nat): nat
      requires x >= heapbase + MBLOCKSIZE
    {
      (x - heapbase) / MBLOCKSIZE - 1
    }

    /** x is a pointer malloc has given out and free has not taken back. */
    ghost predicate Live(x: nat)
      reads this
    {
      && x >= heapbase + MBLOCKSIZE && x % MBLOCKSIZE == 0
      && UsedAt(bs, BlockOf(x))
    }

    /** What may be passed to free: NULL, a live pointer, or one that free itself
        turns down.  Not a pointer in front of which the caller has forged a
        header. */
    ghost predicate Freeable(x: nat)
      reads this
    {
      || x == 0 || x < heapbase || x >= heaptop || Live(x)
      || (&& x >= heapbase + MBLOCKSIZE && x % MBLOCKSIZE == 0 && BlockOf(x) < |mem|
          && (!MagicOk(mem[BlockOf(x)]) || mem[BlockOf(x)].inuse == 0))
    }

    /** Mark block a free, wipe it and merge it with its neighbours. */
    method Put(a: nat) returns (ghost p: nat)
      requires Valid() && UsedAt(bs, a)
      modifies this`mem, this`bs
      ensures Valid() && |mem| == |old(mem)|
      ensures a != 0 ==> Below(old(bs), p, a) && p < a
      ensures bs == Release(old(bs), a, p)
      ensures RegionsKept(old(bs), old(mem), bs, mem, a)
      ensures a < |mem| && (!MagicOk(mem[a]) || mem[a].inuse == 0)
    {
      ghost var b0 := bs;
      p := 0;
      assert TileAt(bs, |mem|, a);
      if a != 0 { p := HasBelow(bs, |mem|, a, 0); }
      ReleaseTiles(bs, |mem|, a, p);
      ReleaseMerged(bs, |mem|, a, p);
      assert HeadAt(mem, bs, a) && TileAt(bs, |mem|, a) && HeadAt(mem, bs, p);
      UsedLays(mem, bs, a, false);
      MarkTiles(bs, |mem|, a);
      mem := mem[a := mem[a].(inuse := 0)];
      bs := Mark(bs, a);
      Wipe(a);
      var mhnext := a + mem[a].next;
      if mhnext < |mem| { MergeAt(a, mhnext); }
      assert mhnext < |mem| || mhnext !in Mark(b0, a) by { assert TileAt(b0, |mem|, mhnext); }
      assert bs == TryMerge(Mark(b0, a), a);
      if a != 0 {
        var mhprev := a - mem[a].prev;
        assert mhprev == p;
        MergeAt(mhprev, a);
      }
      forall c: nat, i: nat | c != a ensures RegionKept(b0, old(mem), bs, mem, c, i) {
        ReleaseKeeps(b0, |mem|, a, p, c, i);
      }
    }

    /** free */
    method Free(x: nat) returns (r: FreeResult)
      requires Valid() && Freeable(x)
      modifies this`mem, this`bs
      ensures Valid() && heaptop == old(heaptop)
      ensures r == Done && x != 0 ==> old(Live(x)) && !Live(x) && exists p: nat :: IsRelease(old(bs), BlockOf(x), p, bs)
      ensures r == Done && x != 0 ==> UsedSame(old(bs), bs, BlockOf(x)) && !UsedAt(bs, BlockOf(x)) && |mem| == |old(mem)|
      ensures r == Done && x != 0 ==> RegionsKept(old(bs), old(mem), bs, mem, BlockOf(x))
      ensures r == Done && x != 0 ==> forall c: nat :: UsedAt(bs, c) <==> UsedAt(old(bs), c) && c != BlockOf(x)
      ensures r == Done && x != 0 ==> BlockOf(x) < |mem| && (!MagicOk(mem[BlockOf(x)]) || mem[BlockOf(x)].inuse == 0)
      ensures r != Done || x == 0 ==> mem == old(mem) && bs == old(bs)
      ensures old(Live(x)) ==> (r == Done <==> x < heaptop)
      ensures r == Done ==> x == 0 || old(Live(x))
      ensures r == OutOfRange <==> x != 0 && (x < heapbase || x >= heaptop)
    {
      if x == 0 { return Done; }
      if x < heapbase || x >= heaptop { return OutOfRange; }
      var a := BlockOf(x);
      if a in bs { assert HeadAt(mem, bs, a); }
      if !MagicOk(mem[a]) { return CorruptHeader; }
      if mem[a].inuse == 0 { return AlreadyFree; }
      ghost var p := Put(a);
      assert IsRelease(old(bs), a, p, bs);
      forall c: nat ensures (UsedAt(bs, c) <==> UsedAt(old(bs), c) && c != a) && (c != a ==> UsedSameAt(old(bs), bs, c)) {
        ReleaseUsed(old(bs), |mem|, a, p, c);
      }
      r := Done;
    }

    /** The program stores into a region it was given. */
    method Store(x: nat, j: nat, c: Cell)
      requires Valid() && Live(x) && Owned(bs, BlockOf(x), BlockOf(x) + 1 + j)
      modifies this`mem
      ensures Valid() && BlockOf(x) + 1 + j < |old(mem)| && mem == old(mem)[BlockOf(x) + 1 + j := c]
    {
      var a := BlockOf(x);
      assert TileAt(bs, |mem|, a);
      DataLays(mem, bs, a, mem[a + 1 + j := c]);
      mem := mem[a + 1 + j := c];
    }

    /** No free block has room for size bytes. */
    ghost predicate Unmet(size: nat)
      reads this
    {
      forall a: nat :: !Roomy(bs, a, Rounded(size))
    }

    /** Cell j of the region a live pointer x points to. */
    ghost predicate InRegion(x: nat, j: nat)
      reads this
    {
      Live(x) && Owned(bs, BlockOf(x), BlockOf(x) + 1 + j)
    }

    /** Everything in m, by pointer and cell, is where the program put it. */
    ghost predicate Holding(m: Stores)
      reads this
    {
      forall x: nat, j: nat :: HoldsAt(heapbase, bs, mem, m, x, j)
    }

    ghost function Present(live: set<nat>, stores: Stores): Moment
      reads this
    {
      Moment(live, stores, bs, heaptop, calls)
    }

    /** The pointers and the stores are those of the heap. */
    ghost predicate Tracks(live: set<nat>, stores: Stores)
      reads this
    {
      Valid() && (forall x: nat :: x in live <==> Live(x)) && Holding(stores)
    }

    /** A program: allocations, frees of what is live, and stores into it, up to a
        request that goes wild.  Until then the headers tile the heap throughout, the
        live pointers are exactly those obtained and not yet freed, every region holds
        what was last stored in it, and each call has done what it is for. */
    method Run(program: seq<Call>) returns (live: set<nat>, stores: Stores, wild: bool, ghost h: seq<Moment>)
      requires Valid() && bs == map[]
      modifies this
      ensures !wild ==> Tracks(live, stores)
      ensures |h| > 0 && h[0] == Moment({}, map[], map[], old(heaptop), old(calls)) && Happened(heapbase, deny, h, program)
      ensures !wild ==> |h| == |program| + 1 && h[|program|] == Present(live, stores)
      ensures wild ==> |h| <= |program| && Bolts(deny, h[|h| - 1], program[|h| - 1])
    {
      live, stores, wild := {}, map[], false;
      h := [Present(live, stores)];
      var i := 0;
      while i < |program|
        invariant i <= |program| && !wild && Tracks(live, stores)
        invariant |h| == i + 1 && h[0] == Moment({}, map[], map[], old(heaptop), old(calls))
        invariant Happened(heapbase, deny, h, program) && h[i] == Present(live, stores)
      {
        live, stores, wild := Step(program[i], live, stores);
        if wild { return; }
        HappenedMore(heapbase, deny, h, program, Present(live, stores));
        h := h + [Present(live, stores)];
        i := i + 1;
      }
    }

    method Step(call: Call, before: set<nat>, m: Stores) returns (live: set<nat>, stores: Stores, wild: bool)
      requires Tracks(before, m)
      modifies this
      ensures !wild ==> Tracks(live, stores) && Did(heapbase, deny, old(Present(before, m)), Present(live, stores), call)
      ensures wild <==> Bolts(deny, old(Present(before, m)), call)
    {
      live, stores, wild := before, m, false;
      match call {
        case MallocCall(size) =>
          if size < WORD {
            live, wild := MallocStep(size, before, m);
          }
        case FreeCall(x) =>
          if x in live { live, stores := FreeStep(x, before, m); }
        case StoreCall(x, j, c) =>
          if x in live {
            assert HeadAt(mem, bs, BlockOf(x));
            if j + 1 < mem[BlockOf(x)].next {
              stores := StoreStep(x, j, c, m);
            }
          }
      }
    }

    method MallocStep(size: nat, before: set<nat>, ghost m: Stores) returns (live: set<nat>, wild: bool)
      requires Tracks(before, m) && size < WORD
      modifies this
      ensures !wild ==> Tracks(live, m) && Did(heapbase, deny, old(Present(before, m)), Present(live, m), MallocCall(size))
      ensures wild <==> TooBig(size) && old(Unmet(size)) && !deny(old(calls))
    {
      var r := Malloc(size);
      live, wild := before, r.Wild?;
      if wild { return; }
      HoldsKept(heapbase, old(bs), old(mem), bs, mem, m, -1);
      if r.Ptr? {
        live := live + {r.addr};
        forall x: nat ensures x in live <==> Live(x) { SamePointer(x, r.addr); }
        assert Got(heapbase, old(Present(before, m)), Present(live, m), size, r.addr);
      }
    }

    method FreeStep(x: nat, before: set<nat>, m: Stores) returns (live: set<nat>, stores: Stores)
      requires Tracks(before, m) && Live(x)
      modifies this`mem, this`bs
      ensures Tracks(live, stores)
      ensures if x < heaptop then live == before - {x} && stores == Forget(m, {x}) else live == before && stores == m
      ensures x >= heaptop ==> bs == old(bs)
      ensures x < heaptop ==> UsedSame(old(bs), bs, BlockOf(x)) && !UsedAt(bs, BlockOf(x))
    {
      live, stores := before, m;
      var r := Free(x);
      if r != Done { return; }
      live := live - {x};
      forall y: nat ensures y in live <==> Live(y) { SamePointer(y, x); }
      stores := Forget(m, {x});
      forall y: nat, j: nat ensures HoldsAt(heapbase, old(bs), old(mem), stores, y, j) {
        assert HoldsAt(heapbase, old(bs), old(mem), m, y, j);
      }
      forall y: nat, j: nat | (y, j) in stores ensures PtrBlock(heapbase, y) != BlockOf(x) {
        assert HoldsAt(heapbase, old(bs), old(mem), stores, y, j);
        SamePointer(y, x);
      }
      HoldsKept(heapbase, old(bs), old(mem), bs, mem, stores, BlockOf(x));
    }

    method StoreStep(x: nat, j: nat, c: Cell, m: Stores) returns (stores: Stores)
      requires Valid() && Holding(m) && Live(x) && Owned(bs, BlockOf(x), BlockOf(x) + 1 + j)
      modifies this`mem
      ensures Valid() && Holding(stores) && stores == m[(x, j) := c]
    {
      Store(x, j, c);
      stores := m[(x, j) := c];
      forall y: nat, k: nat ensures HoldsAt(heapbase, bs, mem, stores, y, k) {
        assert HoldsAt(heapbase, bs, old(mem), m, y, k);
        if (y, k) in m && PtrBlock(heapbase, y) + 1 + k == BlockOf(x) + 1 + j {
          Disjoint(bs, |mem|, PtrBlock(heapbase, y), BlockOf(x), BlockOf(x) + 1 + j);
          SamePointer(y, x);
        }
      }
    }

    lemma SamePointer(x: nat, y: nat)
      requires heapbase % MBLOCKSIZE == 0
      ensures
        && x >= heapbase + MBLOCKSIZE && x % MBLOCKSIZE == 0 && y >= heapbase + MBLOCKSIZE && y % MBLOCKSIZE == 0
        && BlockOf(x) == BlockOf(y)
        ==> x == y
    {
    }
  }

  /** The heap of a new program lowered below its own base. */
  method WildRequest() returns (h: Heap, r: Result)
    ensures r == Wild && h.heaptop == h.heapbase - 65528
  {
    LowersBreak();
    h := new Heap(0x40_0000, _ => false);
    r := h.Malloc(0xffff_0000);
  }

  /** A heap that is one free block. */
  lemma OneBlock(n: nat)
    requires n > 0
    ensures Tiles(map[0 := Blk(n, false)], n) && Merged(map[0 := Blk(n, false)])
  {
    var bs := map[0 := Blk(n, false)];
    forall a: nat, c: nat ensures TileAt(bs, n, a) && Apart(bs, a, c) && MergedAt(bs, a) {}
  }

  /** 800 bytes got and given back. */
  method Freed800() returns (h: Heap, p: Result)
    ensures fresh(h) && h.Valid() && p == Ptr(h.heapbase + 8) && h.heaptop == h.heapbase + 808
    ensures h.bs == map[0 := Blk(101, false)]
  {
    h := new Heap(0x40_0000, _ => false);
    p := h.Malloc(800);
    assert h.bs == map[0 := Blk(101, true)];
    var _ := h.Free(p.addr);
    OneBlock(101);
    forall a: nat ensures UsedSameAt(h.bs, map[0 := Blk(101, false)], a) {}
    LayoutUnique(h.bs, map[0 := Blk(101, false)], 101);
  }

  /** A block of 800 bytes, freed, serves two requests for 8: they lie side by side and
      the heap does not grow. */
  method SplitTwice() returns (h: Heap, q: Result, r: Result)
    ensures h.Valid() && q == Ptr(h.heapbase + 8) && r == Ptr(h.heapbase + 24) && h.heaptop == h.heapbase + 808
  {
    var p;
    h, p := Freed800();
    assert Rounded(8) == 8 && Roomy(h.bs, 0, Rounded(8));
    q := h.Malloc(8);
    assert h.BlockOf(q.addr) == 0;
    assert h.bs[0].len == 2 && h.bs[2] == Blk(99, false);
    assert Roomy(h.bs, 2, Rounded(8));
    r := h.Malloc(8);
    assert h.BlockOf(r.addr) == 2;
  }

  /** A pointer to nothing, got from malloc, that free turns down. */
  method FreeNothing() returns (h: Heap, x: nat, r: FreeResult)
    ensures h.Valid() && h.Live(x) && r == OutOfRange
  {
    h := new Heap(0x40_0000, _ => false);
    var p := h.Malloc(0);
    x := p.addr;
    assert TileAt(h.bs, |h.mem|, 0);
    r := h.Free(x);
  }

  // What calls do, from moment to moment

  datatype Moment = Moment(live: set<nat>, stores: Stores, bs: Blocks, top: nat, calls: nat)

  /** No free block has room, and sbrk fails or would pass the end of memory. */
  ghost predicate NoMemory(deny: nat -> bool, a: Moment, size: nat) {
    && (forall c: nat :: !Roomy(a.bs, c, Rounded(size)))
    && (deny(a.calls) || a.top + Rounded(size) + MBLOCKSIZE >= WORD)
  }

  /** p is new, and behind it is a region for size bytes. */
  ghost predicate Got(base: nat, a: Moment, b: Moment, size: nat, p: nat) {
    && p !in a.live && b.live == a.live + {p}
    && p >= base + MBLOCKSIZE && UsedAt(b.bs, PtrBlock(base, p)) && MBLOCKSIZE * (b.bs[PtrBlock(base, p)].len - 1) >= Rounded(size)
    && UsedSame(a.bs, b.bs, PtrBlock(base, p))
  }

  /** Cell j of the region behind x. */
  ghost predicate CellOf(base: nat, bs: Blocks, x: nat, j: nat) {
    x >= base + MBLOCKSIZE && Owned(bs, PtrBlock(base, x), PtrBlock(base, x) + 1 + j)
  }

  ghost predicate Did(base: nat, deny: nat -> bool, a: Moment, b: Moment, call: Call) {
    match call
    case MallocCall(size) =>
      && b.stores == a.stores
      && (if size >= WORD then b == a
          else if NoMemory(deny, a, size) then b.live == a.live && b.bs == a.bs && b.top == a.top
          else exists p: nat :: Got(base, a, b, size, p))
    case FreeCall(x) =>
      && b.top == a.top && b.calls == a.calls
      && (if x in a.live && x < a.top then
            && x >= base + MBLOCKSIZE && b.live == a.live - {x} && b.stores == Forget(a.stores, {x})
            && UsedSame(a.bs, b.bs, PtrBlock(base, x)) && !UsedAt(b.bs, PtrBlock(base, x))
          else b == a)
    case StoreCall(x, j, c) =>
      && b == a.(stores := b.stores)
      && b.stores == if x in a.live && CellOf(base, a.bs, x, j) then a.stores[(x, j) := c] else a.stores
  }

  /** The call goes wild. */
  ghost predicate Bolts(deny: nat -> bool, a: Moment, call: Call) {
    GoesWild(call) && (forall c: nat :: !Roomy(a.bs, c, Rounded(call.size))) && !deny(a.calls)
  }

  ghost predicate DidAt(base: nat, deny: nat -> bool, h: seq<Moment>, program: seq<Call>, i: nat) {
    i + 1 < |h| && i < |program| ==> Did(base, deny, h[i], h[i + 1], program[i])
  }

  ghost predicate Happened(base: nat, deny: nat -> bool, h: seq<Moment>, program: seq<Call>) {
    |h| <= |program| + 1 && forall i: nat :: DidAt(base, deny, h, program, i)
  }

  lemma HappenedMore(base: nat, deny: nat -> bool, h: seq<Moment>, program: seq<Call>, m: Moment)
    requires Happened(base, deny, h, program) && 0 < |h| <= |program| && Did(base, deny, h[|h| - 1], m, program[|h| - 1])
    ensures Happened(base, deny, h + [m], program)
  {
    forall i: nat ensures DidAt(base, deny, h + [m], program, i) { assert DidAt(base, deny, h, program, i); }
  }

  datatype Call = MallocCall(size: nat) | FreeCall(x: nat) | StoreCall(x: nat, j: nat, c: Cell)

  /** A request that goes wild if no block fits and sbrk does not fail. */
  predicate GoesWild(call: Call) { call.MallocCall? && call.size < WORD && TooBig(call.size) }

  /** What a program has stored, by pointer and cell. */
  type Stores = map<(nat, nat), Cell>

  /** The stores through pointers in gone forgotten. */
  function Forget(m: Stores, gone: set<nat>): Stores { map k | k in m && k.0 !in gone :: m[k] }

  function PtrBlock(base: nat, x: nat): int { (x - base) / MBLOCKSIZE - 1 }

  ghost predicate HoldsAt(base: nat, bs: Blocks, mem: seq<Cell>, m: Stores, x: nat, j: nat) {
    var a := PtrBlock(base, x);
    (x, j) in m ==>
      && x >= base + MBLOCKSIZE && x % MBLOCKSIZE == 0 && Owned(bs, a, a + 1 + j)
      && a + 1 + j < |mem| && mem[a + 1 + j] == m[(x, j)]
  }

  lemma HoldsKept(base: nat, bs: Blocks, mem: seq<Cell>, bs': Blocks, mem': seq<Cell>, m: Stores, but: int)
    requires RegionsKept(bs, mem, bs', mem', but)
    requires forall x: nat, j: nat :: HoldsAt(base, bs, mem, m, x, j)
    requires but == -1 || forall x: nat, j: nat :: (x, j) in m ==> PtrBlock(base, x) != but
    ensures forall x: nat, j: nat :: HoldsAt(base, bs', mem', m, x, j)
  {
    forall x: nat, j: nat ensures HoldsAt(base, bs', mem', m, x, j) {
      assert HoldsAt(base, bs, mem, m, x, j);
      if (x, j) in m {
        var a := PtrBlock(base, x);
        assert a >= 0 && RegionKept(bs, mem, bs', mem', a, a + 1 + j);
      }
    }
  }

  /** How free ends: done, or the program exits with a message. */
  datatype FreeResult = Done | OutOfRange | CorruptHeader | AlreadyFree

  ghost predicate IsRelease(bs: Blocks, a: nat, p: nat, bs': Blocks) {
    a in bs && (a != 0 ==> Below(bs, p, a) && p < a) && bs' == Release(bs, a, p)
  }

  /** The one live pointer free turns down: to an empty block at the very top. */
  lemma TopOnly(bs: Blocks, n: nat, a: nat)
    requires Tiles(bs, n) && a in bs
    ensures a + 1 >= n <==> bs[a].len == 1 && a + bs[a].len == n
  {
    assert TileAt(bs, n, a);
  }

  lemma ReleaseKeeps(bs: Blocks, n: nat, a: nat, p: nat, c: nat, i: nat)
    requires Tiles(bs, n) && UsedAt(bs, a) && (a != 0 ==> Below(bs, p, a) && p < a) && c != a
    ensures Owned(bs, c, i) ==> i < n && Owned(Release(bs, a, p), c, i) && !(a <= i < a + bs[a].len) && i !in bs
  {
    if Owned(bs, c, i) {
      ReleaseUsed(bs, n, a, p, c);
      assert TileAt(bs, n, c) && TileAt(bs, n, a) && Apart(bs, a, c) && Apart(bs, c, a);
      assert Apart(bs, c, i);
    }
  }

  // Which pointers are live

  lemma AllocateUsed(bs: Blocks, n: nat, a: nat, need: nat, c: nat)
    requires Tiles(bs, n) && Fits(bs, a, need)
    ensures UsedAt(Allocate(bs, a, need), c) <==> UsedAt(bs, c) || c == a
  {
    assert TileAt(bs, n, a) && Apart(bs, a, c);
  }

  lemma ReleaseUsed(bs: Blocks, n: nat, a: nat, p: nat, c: nat)
    requires Tiles(bs, n) && UsedAt(bs, a) && (a != 0 ==> Below(bs, p, a) && p < a)
    ensures UsedAt(Release(bs, a, p), c) <==> UsedAt(bs, c) && c != a
    ensures c in bs && UsedAt(Release(bs, a, p), c) ==> Release(bs, a, p)[c] == bs[c]
  {
    assert TileAt(bs, n, a) && TileAt(bs, n, p);
  }

  lemma MergeHeads(mem: seq<Cell>, bs: Blocks, a: nat, c: nat)
    requires Tiles(bs, |mem|) && Lays(mem, bs) && a in bs && c in bs && c == a + bs[a].len
    ensures c + bs[c].len <= |mem| && (c + bs[c].len < |mem| ==> c + bs[c].len in bs) && bs[a].len > 0 && bs[c].len > 0
    ensures mem[a].next == bs[a].len == mem[c].prev && mem[c].next == bs[c].len
    ensures (mem[a].inuse == 1 <==> bs[a].used) && (mem[c].inuse == 1 <==> bs[c].used)
  {
    assert HeadAt(mem, bs, a) && HeadAt(mem, bs, c) && TileAt(bs, |mem|, a) && TileAt(bs, |mem|, c);
  }

  lemma OwnedCell(mem: seq<Cell>, bs: Blocks, a: nat, i: nat)
    requires Tiles(bs, |mem|)
    ensures Owned(bs, a, i) ==> i < |mem|
  {
    assert TileAt(bs, |mem|, a);
  }

  lemma RegionsStay(mem: seq<Cell>, bs: Blocks)
    requires Tiles(bs, |mem|)
    ensures RegionsKept(bs, mem, bs, mem, -1)
  {
    forall a: nat, i: nat ensures RegionKept(bs, mem, bs, mem, a, i) { OwnedCell(mem, bs, a, i); }
  }

  lemma AllocateKeeps(bs: Blocks, n: nat, a: nat, need: nat, c: nat, i: nat)
    requires Tiles(bs, n) && Fits(bs, a, need)
    ensures Owned(bs, c, i) ==> i < n && Owned(Allocate(bs, a, need), c, i) && !(a <= i < a + bs[a].len) && i !in bs
  {
    assert TileAt(bs, n, c) && TileAt(bs, n, a) && Apart(bs, a, c) && Apart(bs, c, a) && Apart(bs, c, i);
  }

  /** What the walk finds at i. */
  lemma WalkHead(mem: seq<Cell>, bs: Blocks, i: nat, p: nat)
    requires Tiles(bs, |mem|) && Lays(mem, bs) && i < |mem| && i in bs && (i != 0 ==> Below(bs, p, i))
    ensures MagicOk(mem[i]) && mem[i].next == bs[i].len > 0 && (mem[i].inuse == 1 <==> bs[i].used)
    ensures mem[i].prev == if i == 0 then 0 else bs[p].len
    ensures i + bs[i].len <= |mem| && (i + bs[i].len < |mem| ==> i + bs[i].len in bs)
  {
    assert HeadAt(mem, bs, i) && TileAt(bs, |mem|, i) && HeadAt(mem, bs, p);
  }

  /** Nothing begins inside the block at i. */
  lemma NoFitBelow(bs: Blocks, n: nat, i: nat, need: nat)
    requires Tiles(bs, n) && i in bs && !Fits(bs, i, need) && forall c: nat :: c < i ==> !Fits(bs, c, need)
    ensures forall c: nat :: c < i + bs[i].len ==> !Fits(bs, c, need)
  {
    forall c: nat | c < i + bs[i].len ensures !Fits(bs, c, need) { assert Apart(bs, i, c); }
  }

  lemma NoFit(bs: Blocks, n: nat, size: nat)
    requires Tiles(bs, n) && forall c: nat :: c < n ==> !Fits(bs, c, Need(size))
    ensures forall a: nat :: !Roomy(bs, a, Rounded(size))
  {
    forall a: nat ensures !Roomy(bs, a, Rounded(size)) {
      assert TileAt(bs, n, a);
      FitsRoomy(bs, n, a, size);
    }
  }

  lemma RoomyBelow(bs: Blocks, n: nat, i: nat, size: nat)
    requires Tiles(bs, n) && forall c: nat :: c < i ==> !Fits(bs, c, Need(size))
    ensures forall c: nat :: c < i ==> !Roomy(bs, c, Rounded(size))
  {
    forall c: nat | c < i ensures !Roomy(bs, c, Rounded(size)) { FitsRoomy(bs, n, c, size); }
  }

  lemma OneBelow(bs: Blocks, n: nat, p: nat)
    requires Tiles(bs, n)
    ensures forall q: nat :: Below(bs, q, n) && Below(bs, p, n) ==> q == p
    ensures n == 0 ==> forall q: nat :: !Below(bs, q, n)
  {
    forall q: nat ensures Below(bs, q, n) && Below(bs, p, n) ==> q == p {
      assert Apart(bs, p, q) && Apart(bs, q, p) && TileAt(bs, n, p) && TileAt(bs, n, q);
    }
    if n == 0 {
      forall q: nat ensures !Below(bs, q, n) { assert TileAt(bs, n, q); }
    }
  }
}
