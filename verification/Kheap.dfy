/** The kernel heap: pages cut into blocks, with free lists through the blocks. */
module Kheap {

  // Sizes

  const WORD := 0x1_0000_0000
  const PAGE_SIZE: nat := 4096
  const NSIZES: nat := 8
  const NPAGEREFS: nat := 256
  const INVALID_OFFSET: nat := 0xffff
  const LARGEST: nat := 2048
  const DEADBEEF: nat := 0xdeadbeef

  /** sizes[t] */
  function Size(t: nat): nat {
    match t
    case 0 => 16 case 1 => 32 case 2 => 64 case 3 => 128
    case 4 => 256 case 5 => 512 case 6 => 1024 case _ => 2048
  }

  /** Blocks on a page. */
  function Count(t: nat): nat {
    match t
    case 0 => 256 case 1 => 128 case 2 => 64 case 3 => 32
    case 4 => 16 case 5 => 8 case 6 => 4 case _ => 2
  }

  /** Where block b begins: b * Size(t), case by case so that it stays linear. */
  function Off(t: nat, b: nat): nat {
    match t
    case 0 => 16 * b case 1 => 32 * b case 2 => 64 * b case 3 => 128 * b
    case 4 => 256 * b case 5 => 512 * b case 6 => 1024 * b case _ => 2048 * b
  }

  lemma OffIs(t: nat, b: nat)
    requires t < NSIZES
    ensures Off(t, b) == b * Size(t) && Off(t, b) % Size(t) == 0 && Count(t) == PAGE_SIZE / Size(t)
  {
    if t < 4 {
      if t == 0 {} else if t == 1 {} else if t == 2 {} else {}
    } else {
      if t == 4 {} else if t == 5 {} else if t == 6 {} else {}
    }
  }

  /** Blocks lie within the page, one after the other. */
  lemma OffApart(t: nat, b: nat, c: nat)
    requires t < NSIZES && b < Count(t)
    ensures Off(t, b) + Size(t) <= PAGE_SIZE
    ensures b < c ==> Off(t, b) + Size(t) <= Off(t, c)
    ensures b == c <==> Off(t, b) == Off(t, c)
  {
  }

  /** A size in pages, as the machine computes it. */
  function Pages(sz: nat): nat { (sz + PAGE_SIZE - 1) % WORD / PAGE_SIZE }

  /** The rounding gives enough pages exactly up to 2^32 - PAGE_SIZE, and none at
      all for anything larger. */
  lemma PagesExact(sz: nat)
    requires sz < WORD
    ensures Pages(sz) * PAGE_SIZE >= sz <==> sz <= WORD - PAGE_SIZE
    ensures sz > WORD - PAGE_SIZE ==> Pages(sz) == 0
    ensures sz <= WORD - PAGE_SIZE ==> Pages(sz) * PAGE_SIZE < sz + PAGE_SIZE
  {
  }

  /** The smallest size that is large enough. */
  predicate Fits(sz: nat, t: nat) { t < NSIZES && sz <= Size(t) && forall u :: 0 <= u < t ==> Size(u) < sz }

  /** blocktype */
  method BlockType(sz: nat) returns (t: nat)
    requires sz <= LARGEST
    ensures Fits(sz, t) && forall u: nat :: Fits(sz, u) ==> u == t
  {
    t := 0;
    while t < NSIZES
      invariant t <= NSIZES && (t > 0 ==> Size(t - 1) < sz) && forall u: nat :: u < t ==> Size(u) < sz
    {
      if sz <= Size(t) { return; }
      t := t + 1;
    }
    assert false;
  }

  // Free lists

  /** Memory, word by word. */
  type Memory = map<nat, nat>

  function Word(m: Memory, a: nat): nat { if a in m then m[a] else 0 }

  function Addr(page: nat, t: nat, b: nat): nat { page * PAGE_SIZE + Off(t, b) }

  ghost predicate FreeAt(m: Memory, page: nat, t: nat, fl: seq<nat>, i: nat) {
    i < |fl| ==> fl[i] < Count(t) && Word(m, Addr(page, t, fl[i])) == if i + 1 < |fl| then Addr(page, t, fl[i + 1]) else 0
  }

  ghost predicate Distinct(xs: seq<nat>) {
    forall i: nat, j: nat :: i < j < |xs| ==> xs[i] != xs[j]
  }

  /** Following the first word of each free block from offset `off` visits the
      blocks in fl, each once. */
  ghost predicate FreeList(m: Memory, page: nat, t: nat, off: nat, fl: seq<nat>) {
    && Distinct(fl)
    && (if fl == [] then off == INVALID_OFFSET else off == Off(t, fl[0]))
    && forall i: nat :: FreeAt(m, page, t, fl, i)
  }

  lemma PopList(m: Memory, page: nat, t: nat, off: nat, fl: seq<nat>)
    requires t < NSIZES && page > 0 && FreeList(m, page, t, off, fl) && fl != []
    ensures off == Off(t, fl[0]) < PAGE_SIZE && fl[0] < Count(t)
    ensures FreeList(m, page, t, if |fl| > 1 then Off(t, fl[1]) else INVALID_OFFSET, fl[1..])
    ensures Word(m, Addr(page, t, fl[0])) == if |fl| > 1 then Addr(page, t, fl[1]) else 0
    ensures |fl| > 1 ==> Off(t, fl[1]) < PAGE_SIZE
    ensures fl[0] !in fl[1..]
  {
    assert FreeAt(m, page, t, fl, 0) && FreeAt(m, page, t, fl, 1);
    OffApart(t, fl[0], 0);
    if |fl| > 1 { OffApart(t, fl[1], 0); }
    forall i: nat ensures FreeAt(m, page, t, fl[1..], i) { assert FreeAt(m, page, t, fl, i + 1); }
  }

  /** Free lists do not look outside the free blocks. */
  lemma ListFrame(m: Memory, m': Memory, page: nat, t: nat, off: nat, fl: seq<nat>)
    requires FreeList(m, page, t, off, fl)
    requires forall i: nat :: i < |fl| ==> Word(m', Addr(page, t, fl[i])) == Word(m, Addr(page, t, fl[i]))
    ensures FreeList(m', page, t, off, fl)
  {
    forall i: nat ensures FreeAt(m', page, t, fl, i) { assert FreeAt(m, page, t, fl, i); }
  }

  lemma PushList(m: Memory, m': Memory, page: nat, t: nat, off: nat, fl: seq<nat>, b: nat)
    requires t < NSIZES && FreeList(m, page, t, off, fl) && b < Count(t) && b !in fl
    requires forall i: nat :: i < |fl| ==> Word(m', Addr(page, t, fl[i])) == Word(m, Addr(page, t, fl[i]))
    requires Word(m', Addr(page, t, b)) == if fl == [] then 0 else Addr(page, t, fl[0])
    ensures FreeList(m', page, t, Off(t, b), [b] + fl)
  {
    var fl' := [b] + fl;
    ListFrame(m, m', page, t, off, fl);
    forall i: nat ensures FreeAt(m', page, t, fl', i) { if i > 0 { assert FreeAt(m', page, t, fl, i - 1); } }
  }

  function Elements(xs: seq<nat>): set<nat> { set x | x in xs }

  function Range(n: nat): set<nat> { if n == 0 then {} else Range(n - 1) + {n - 1} }

  lemma {:induction false} RangeIs(n: nat)
    ensures |Range(n)| == n && forall x: nat :: x in Range(n) <==> x < n
  {
    if n > 0 { RangeIs(n - 1); }
  }

  lemma {:induction false} ElementsCard(xs: seq<nat>)
    requires Distinct(xs)
    ensures |Elements(xs)| == |xs|
  {
    if xs != [] {
      var ys, x := xs[..|xs| - 1], xs[|xs| - 1];
      ElementsCard(ys);
      assert x !in ys;
      assert Elements(xs) == Elements(ys) + {x};
    }
  }

  lemma {:induction false} SubsetCard(s: set<nat>, r: set<nat>)
    requires s <= r
    ensures |s| <= |r| && (|s| == |r| ==> s == r)
    decreases s
  {
    if s != {} {
      var x :| x in s;
      SubsetCard(s - {x}, r - {x});
    } else if |r| == 0 {
      assert r == {};
    }
  }

  /** Distinct numbers below n: at most n of them, and n only if all. */
  lemma Pigeonhole(xs: seq<nat>, n: nat)
    requires Distinct(xs) && forall i :: 0 <= i < |xs| ==> xs[i] < n
    ensures |xs| <= n && (|xs| == n <==> forall x: nat :: x < n ==> x in xs)
  {
    ElementsCard(xs);
    RangeIs(n);
    assert Elements(xs) <= Range(n);
    SubsetCard(Elements(xs), Range(n));
    if forall x: nat :: x < n ==> x in xs { assert Elements(xs) == Range(n); }
    if |xs| == n {
      forall x: nat | x < n ensures x in xs { assert x in Range(n); }
    }
  }

  // Lists of page references

  /** struct pageref; a pointer to one is its index, -1 for NULL. */
  datatype PageRef = PageRef(nextSame: int, nextAll: int, page: nat, blktype: nat, freeoff: nat, nfree: nat)

  type PageRefs = p: seq<PageRef> | |p| == NPAGEREFS witness seq(NPAGEREFS, _ => PageRef(-1, -1, 0, 0, 0, 0))

  /** The two links: all pages, or pages of the same size. */
  function Next(prs: PageRefs, all: bool, r: nat): int
    requires r < NPAGEREFS
  {
    if all then prs[r].nextAll else prs[r].nextSame
  }

  function SetNext(prs: PageRefs, all: bool, r: nat, x: int): PageRefs
    requires r < NPAGEREFS
  {
    if all then prs[r := prs[r].(nextAll := x)] else prs[r := prs[r].(nextSame := x)]
  }

  ghost predicate LinkAt(prs: PageRefs, all: bool, xs: seq<nat>, i: nat) {
    i < |xs| ==> xs[i] < NPAGEREFS && Next(prs, all, xs[i]) == if i + 1 < |xs| then xs[i + 1] else -1
  }

  /** From `head` the links visit xs, each once. */
  ghost predicate Chain(prs: PageRefs, all: bool, head: int, xs: seq<nat>) {
    && Distinct(xs)
    && head == (if xs == [] then -1 else xs[0])
    && forall i: nat :: LinkAt(prs, all, xs, i)
  }

  lemma ChainFrame(prs: PageRefs, prs': PageRefs, all: bool, head: int, xs: seq<nat>)
    requires Chain(prs, all, head, xs)
    requires forall r: nat :: r in xs && r < NPAGEREFS ==> Next(prs', all, r) == Next(prs, all, r)
    ensures Chain(prs', all, head, xs)
  {
    forall i: nat ensures LinkAt(prs', all, xs, i) { assert LinkAt(prs, all, xs, i); }
  }

  /** A page put in front. */
  lemma ChainPush(prs: PageRefs, all: bool, head: int, xs: seq<nat>, r: nat)
    requires Chain(prs, all, head, xs) && r < NPAGEREFS && r !in xs
    ensures Chain(SetNext(prs, all, r, head), all, r, [r] + xs)
  {
    var prs', ys := SetNext(prs, all, r, head), [r] + xs;
    forall i: nat ensures LinkAt(prs', all, ys, i) { if i > 0 { assert LinkAt(prs, all, xs, i - 1); } }
  }

  function Without(xs: seq<nat>, i: nat): seq<nat>
    requires i < |xs|
  {
    xs[..i] + xs[i + 1..]
  }

  lemma WithoutIn(xs: seq<nat>, i: nat, r: nat)
    requires Distinct(xs) && i < |xs|
    ensures r in Without(xs, i) <==> r in xs && r != xs[i]
    ensures Distinct(Without(xs, i))
  {
    if r in xs && r != xs[i] {
      var j :| 0 <= j < |xs| && xs[j] == r;
      if j < i { assert Without(xs, i)[j] == r; } else { assert Without(xs, i)[j - 1] == r; }
    }
  }

  /** Page number i of the list unlinked. */
  lemma ChainUnlink(prs: PageRefs, all: bool, head: int, xs: seq<nat>, i: nat)
    requires Chain(prs, all, head, xs) && i < |xs|
    ensures xs[i] < NPAGEREFS && (i > 0 ==> xs[i - 1] < NPAGEREFS)
    ensures var next := Next(prs, all, xs[i]);
      if i == 0 then Chain(prs, all, next, Without(xs, i))
      else Chain(SetNext(prs, all, xs[i - 1], next), all, head, Without(xs, i))
  {
    assert LinkAt(prs, all, xs, i);
    if i > 0 { assert LinkAt(prs, all, xs, i - 1); }
    var next, ys := Next(prs, all, xs[i]), Without(xs, i);
    WithoutIn(xs, i, 0);
    var prs' := if i == 0 then prs else SetNext(prs, all, xs[i - 1], next);
    forall j: nat ensures LinkAt(prs', all, ys, j) { assert LinkAt(prs, all, xs, if j < i then j else j + 1); }
  }

  /** Page r differs at most in one of its links. */
  ghost predicate OnlyLink(prs: PageRefs, prs': PageRefs, all: bool, r: nat) {
    r < NPAGEREFS ==>
      && Next(prs', !all, r) == Next(prs, !all, r)
      && prs'[r].page == prs[r].page && prs'[r].blktype == prs[r].blktype
      && prs'[r].freeoff == prs[r].freeoff && prs'[r].nfree == prs[r].nfree
  }

  lemma SetNextOnly(prs: PageRefs, all: bool, r: nat, x: int)
    requires r < NPAGEREFS
    ensures forall q: nat :: OnlyLink(prs, SetNext(prs, all, r, x), all, q)
    ensures forall q: nat :: OnlyLink(prs, prs, all, q)
  {
    forall q: nat ensures OnlyLink(prs, SetNext(prs, all, r, x), all, q) {}
    forall q: nat ensures OnlyLink(prs, prs, all, q) {}
  }

  /** Half of remove_lists: walk to pr and take it out. */
  method Unlink(prs: PageRefs, all: bool, head: int, pr: nat, ghost xs: seq<nat>) returns (prs': PageRefs, head': int, ghost i: nat)
    requires Chain(prs, all, head, xs) && pr in xs
    ensures i < |xs| && xs[i] == pr && Chain(prs', all, head', Without(xs, i))
    ensures forall r: nat :: OnlyLink(prs, prs', all, r)
    ensures forall r: nat :: r < NPAGEREFS && r !in xs ==> Next(prs', all, r) == Next(prs, all, r)
  {
    prs', head' := prs, head;
    var guy, cur := -1, head;
    i := 0;
    while cur != -1
      invariant i <= |xs| && cur == (if i < |xs| then xs[i] else -1) && guy == (if i > 0 then xs[i - 1] else -1)
      invariant pr in xs[i..]
      decreases |xs| - i
    {
      assert LinkAt(prs, all, xs, i);
      if cur == pr {
        ChainUnlink(prs, all, head, xs, i);
        var next := Next(prs, all, pr);
        SetNextOnly(prs, all, if guy == -1 then pr else guy, next);
        if guy == -1 { head' := next; } else { prs' := SetNext(prs, all, guy, next); }
        return;
      }
      guy, cur := cur, Next(prs, all, cur);
      i := i + 1;
    }
    assert false;
  }

  // The whole heap

  /** Page references and their lists, memory, and the page allocator's regions
      (first page and length); then, for the proofs, the pages in the order of
      both kinds of list and the free list of each page. */
  datatype Heap = Heap(prs: PageRefs, bases: seq<int>, allbase: int, mem: Memory, regions: map<nat, nat>,
                       all: seq<nat>, same: seq<seq<nat>>, fl: map<nat, seq<nat>>)

  function PageOf(h: Heap, r: nat): nat { if r < NPAGEREFS then h.prs[r].page else 0 }
  function TypeOf(h: Heap, r: nat): nat { if r < NPAGEREFS then h.prs[r].blktype else 0 }
  function FreeOf(h: Heap, r: nat): seq<nat> { if r in h.fl then h.fl[r] else [] }

  /** A managed page: its free list is in order and counted; all its blocks are
      free only while it is being set up or taken down (`full`). */
  ghost predicate PageAt(h: Heap, full: int, r: nat) {
    r in h.all ==>
      && r < NPAGEREFS && PageOf(h, r) > 0 && TypeOf(h, r) < NSIZES
      && FreeList(h.mem, PageOf(h, r), TypeOf(h, r), h.prs[r].freeoff, FreeOf(h, r))
      && |FreeOf(h, r)| == h.prs[r].nfree && (r != full ==> h.prs[r].nfree < Count(TypeOf(h, r)))
      && PageOf(h, r) in h.regions && h.regions[PageOf(h, r)] == 1
  }

  ghost predicate PagesApart(h: Heap, r: nat, q: nat) {
    r in h.all && q in h.all && PageOf(h, r) == PageOf(h, q) ==> r == q
  }

  ghost predicate RegionsApart(h: Heap, p: nat, q: nat) {
    p in h.regions && q in h.regions && p < q ==> p + h.regions[p] <= q
  }

  ghost predicate SizeList(h: Heap, t: nat) {
    t < NSIZES && t < |h.bases| && t < |h.same| ==> Chain(h.prs, false, h.bases[t], h.same[t])
  }

  /** The size lists divide up the list of all pages. */
  ghost predicate Sorted(h: Heap, t: nat, r: nat) {
    t < NSIZES && t < |h.same| ==> (r in h.same[t] <==> r in h.all && TypeOf(h, r) == t)
  }

  ghost predicate Ok(h: Heap, full: int) {
    && |h.bases| == NSIZES && |h.same| == NSIZES
    && Chain(h.prs, true, h.allbase, h.all)
    && (forall t: nat :: SizeList(h, t))
    && (forall t: nat, r: nat :: Sorted(h, t, r))
    && (forall r: nat :: PageAt(h, full, r))
    && (forall r: nat, q: nat :: PagesApart(h, r, q))
    && (forall p: nat, q: nat :: RegionsApart(h, p, q))
  }

  // Blocks in use

  /** Block b of page r is handed out. */
  ghost predicate InUse(h: Heap, r: nat, b: nat) {
    r in h.all && b < Count(TypeOf(h, r)) && b !in FreeOf(h, r)
  }

  function BlockAddr(h: Heap, r: nat, b: nat): nat { Addr(PageOf(h, r), TypeOf(h, r), b) }

  /** Blocks do not overlap. */
  lemma BlocksApart(h: Heap, full: int, r: nat, b: nat, q: nat, c: nat)
    requires Ok(h, full) && r in h.all && b < Count(TypeOf(h, r)) && q in h.all && c < Count(TypeOf(h, q))
      && (r, b) != (q, c)
    ensures
      || BlockAddr(h, r, b) + Size(TypeOf(h, r)) <= BlockAddr(h, q, c)
      || BlockAddr(h, q, c) + Size(TypeOf(h, q)) <= BlockAddr(h, r, b)
  {
    assert PageAt(h, full, r) && PageAt(h, full, q) && PagesApart(h, r, q);
    OffApart(TypeOf(h, r), b, c);
    OffApart(TypeOf(h, q), c, b);
    PageOrder(PageOf(h, r), PageOf(h, q));
  }

  lemma PageOrder(p: nat, q: nat)
    ensures p < q ==> p * PAGE_SIZE + PAGE_SIZE <= q * PAGE_SIZE
    ensures q < p ==> q * PAGE_SIZE + PAGE_SIZE <= p * PAGE_SIZE
  {
  }

  // Taking a block

  /** The first free block of page r taken. */
  ghost function Pop(h: Heap, r: nat): Heap
    requires r < NPAGEREFS && h.prs[r].nfree > 0
  {
    var fl, pr := FreeOf(h, r), h.prs[r];
    var off := if |fl| > 1 then Off(pr.blktype, fl[1]) else INVALID_OFFSET;
    h.(prs := h.prs[r := pr.(freeoff := off, nfree := pr.nfree - 1)], fl := h.fl[r := if fl == [] then [] else fl[1..]])
  }

  lemma PopOk(h: Heap, full: int, r: nat)
    requires Ok(h, full) && r in h.all && r < NPAGEREFS && h.prs[r].nfree > 0 && (full == -1 || full == r)
    ensures Ok(Pop(h, r), -1) && FreeOf(h, r) != [] && FreeOf(h, r)[0] < Count(TypeOf(h, r))
    ensures forall q: nat, c: nat :: InUse(Pop(h, r), q, c) <==> InUse(h, q, c) || (q == r && c == FreeOf(h, r)[0])
  {
    var h', fl := Pop(h, r), FreeOf(h, r);
    assert PageAt(h, full, r);
    PopList(h.mem, PageOf(h, r), TypeOf(h, r), h.prs[r].freeoff, fl);
    FreeBound(h, full, r);
    LinksKept(h, h');
    forall q: nat ensures PageAt(h', -1, q) { assert PageAt(h, full, q); }
    forall q: nat, c: nat ensures PagesApart(h', q, c) { assert PagesApart(h, q, c); }
    forall q: nat, c: nat ensures RegionsApart(h', q, c) { assert RegionsApart(h, q, c); }
  }

  lemma FreeBound(h: Heap, full: int, r: nat)
    requires Ok(h, full) && r in h.all
    ensures |FreeOf(h, r)| <= Count(TypeOf(h, r))
    ensures |FreeOf(h, r)| == Count(TypeOf(h, r)) <==> forall b: nat :: !InUse(h, r, b)
  {
    assert PageAt(h, full, r);
    var fl := FreeOf(h, r);
    forall i | 0 <= i < |fl| ensures fl[i] < Count(TypeOf(h, r)) {
      assert FreeAt(h.mem, PageOf(h, r), TypeOf(h, r), fl, i);
    }
    var n := Count(TypeOf(h, r));
    Pigeonhole(fl, n);
    if forall b: nat :: !InUse(h, r, b) {
      forall x: nat | x < n ensures x in fl { assert !InUse(h, r, x); }
    }
  }

  /** Changing offsets and counts keeps the lists. */
  lemma LinksKept(h: Heap, h': Heap)
    requires |h.bases| == NSIZES && |h.same| == NSIZES && Chain(h.prs, true, h.allbase, h.all)
    requires (forall t: nat :: SizeList(h, t)) && (forall t: nat, r: nat :: Sorted(h, t, r))
    requires h'.bases == h.bases && h'.allbase == h.allbase && h'.all == h.all && h'.same == h.same
    requires forall r: nat :: r < NPAGEREFS ==>
      h'.prs[r].nextAll == h.prs[r].nextAll && h'.prs[r].nextSame == h.prs[r].nextSame && h'.prs[r].blktype == h.prs[r].blktype
    ensures Chain(h'.prs, true, h'.allbase, h'.all)
    ensures (forall t: nat :: SizeList(h', t)) && (forall t: nat, r: nat :: Sorted(h', t, r))
  {
    ChainFrame(h.prs, h'.prs, true, h.allbase, h.all);
    forall t: nat ensures SizeList(h', t) {
      assert SizeList(h, t);
      if t < NSIZES { ChainFrame(h.prs, h'.prs, false, h.bases[t], h.same[t]); }
    }
    forall t: nat, r: nat ensures Sorted(h', t, r) { assert Sorted(h, t, r); }
  }

  // Giving a block back

  /** Block b of page r put in front of the free list. */
  ghost function Push(h: Heap, r: nat, b: nat, mem: Memory): Heap
    requires r < NPAGEREFS
  {
    var pr := h.prs[r];
    h.(prs := h.prs[r := pr.(freeoff := Off(pr.blktype, b), nfree := pr.nfree + 1)], mem := mem, fl := h.fl[r := [b] + FreeOf(h, r)])
  }

  /** mem' differs from mem only in the block at a. */
  ghost predicate Only(mem: Memory, mem': Memory, a: nat, size: nat) {
    forall x: nat :: !(a <= x < a + size) ==> Word(mem', x) == Word(mem, x)
  }

  lemma PushOk(h: Heap, r: nat, b: nat, mem: Memory)
    requires Ok(h, -1) && InUse(h, r, b) && r < NPAGEREFS && Only(h.mem, mem, BlockAddr(h, r, b), Size(TypeOf(h, r)))
    requires Word(mem, BlockAddr(h, r, b)) ==
      if h.prs[r].freeoff == INVALID_OFFSET then 0 else PageOf(h, r) * PAGE_SIZE + h.prs[r].freeoff
    ensures Ok(Push(h, r, b, mem), r)
    ensures forall q: nat, c: nat :: InUse(Push(h, r, b, mem), q, c) <==> InUse(h, q, c) && !(q == r && c == b)
  {
    var h' := Push(h, r, b, mem);
    LinksKept(h, h');
    forall q: nat ensures PageAt(h', r, q) { PushPage(h, r, b, mem, q); }
    forall q: nat, c: nat ensures PagesApart(h', q, c) { assert PagesApart(h, q, c); }
    forall q: nat, c: nat ensures RegionsApart(h', q, c) { assert RegionsApart(h, q, c); }
  }

  lemma PushPage(h: Heap, r: nat, b: nat, mem: Memory, q: nat)
    requires Ok(h, -1) && InUse(h, r, b) && r < NPAGEREFS && Only(h.mem, mem, BlockAddr(h, r, b), Size(TypeOf(h, r)))
    requires Word(mem, BlockAddr(h, r, b)) ==
      if h.prs[r].freeoff == INVALID_OFFSET then 0 else PageOf(h, r) * PAGE_SIZE + h.prs[r].freeoff
    ensures PageAt(Push(h, r, b, mem), r, q)
  {
    assert PageAt(h, -1, q) && PageAt(h, -1, r);
    if q in h.all {
      var fl, t := FreeOf(h, q), TypeOf(h, q);
      forall i: nat | i < |fl| ensures Word(mem, Addr(PageOf(h, q), t, fl[i])) == Word(h.mem, Addr(PageOf(h, q), t, fl[i])) {
        assert FreeAt(h.mem, PageOf(h, q), t, fl, i);
        BlocksApart(h, -1, r, b, q, fl[i]);
        SizePositive(t);
      }
      if q == r {
        InvalidOff(h, r);
        PushList(h.mem, mem, PageOf(h, q), t, h.prs[q].freeoff, fl, b);
      } else {
        ListFrame(h.mem, mem, PageOf(h, q), t, h.prs[q].freeoff, fl);
      }
    }
  }

  lemma SizePositive(t: nat)
    ensures Size(t) > 0
  {
  }

  /** The invalid offset is not an offset. */
  lemma InvalidOff(h: Heap, r: nat)
    requires Ok(h, -1) && r in h.all && r < NPAGEREFS
    ensures h.prs[r].freeoff == INVALID_OFFSET <==> FreeOf(h, r) == []
    ensures FreeOf(h, r) != [] ==> Addr(PageOf(h, r), TypeOf(h, r), FreeOf(h, r)[0]) == PageOf(h, r) * PAGE_SIZE + h.prs[r].freeoff
  {
    assert PageAt(h, -1, r);
    var fl := FreeOf(h, r);
    if fl != [] {
      assert FreeAt(h.mem, PageOf(h, r), TypeOf(h, r), fl, 0);
      OffApart(TypeOf(h, r), fl[0], 0);
    }
  }

  // A new page

  /** No region reaches page p. */
  ghost predicate Unclaimed(regions: map<nat, nat>, p: nat, n: nat) {
    forall q: nat :: ClaimApart(regions, p, n, q)
  }

  predicate ClaimApart(regions: map<nat, nat>, p: nat, n: nat, q: nat) {
    q in regions ==> q + regions[q] <= p || p + n <= q
  }

  /** The page allocator comes up with page p, and n pages from there are nobody's. */
  ghost predicate Gives(regions: map<nat, nat>, p: nat, n: nat) {
    p != 0 && p !in regions && Unclaimed(regions, p, n)
  }

  ghost predicate NoRoomAt(h: Heap, t: nat, q: nat) {
    q in h.all && q < NPAGEREFS && TypeOf(h, q) == t ==> h.prs[q].nfree == 0
  }

  ghost predicate NoRoom(h: Heap, t: nat) { forall q: nat :: NoRoomAt(h, t, q) }

  ghost predicate AllUsed(h: Heap) { forall q: nat :: q < NPAGEREFS ==> q in h.all }

  /** Nothing to be had for a block of type t, if the page allocator has p. */
  ghost predicate Starved(h: Heap, t: nat, p: nat) {
    NoRoom(h, t) && (AllUsed(h) || !Gives(h.regions, p, 1))
  }

  /** The i-th page of its size is r, and is the first with room. */
  ghost predicate FirstRoom(h: Heap, t: nat, r: nat, i: nat) {
    && t < |h.same| && i < |h.same[t]| && h.same[t][i] == r < NPAGEREFS && h.prs[r].nfree > 0
    && forall j :: 0 <= j < i ==> NoRoomAt(h, t, h.same[t][j])
  }

  /** Page p, cut into blocks of type t that are all free, under reference r. */
  ghost function AddPage(h: Heap, r: nat, p: nat, t: nat, off: nat, fl: seq<nat>, mem: Memory): Heap
    requires r < NPAGEREFS && t < NSIZES == |h.bases| == |h.same|
  {
    Heap(h.prs[r := PageRef(h.bases[t], h.allbase, p, t, off, Count(t))], h.bases[t := r], r, mem, h.regions[p := 1],
         [r] + h.all, h.same[t := [r] + h.same[t]], h.fl[r := fl])
  }

  lemma AddPageOk(h: Heap, r: nat, p: nat, t: nat, off: nat, fl: seq<nat>, mem: Memory)
    requires Ok(h, -1) && r < NPAGEREFS && r !in h.all && t < NSIZES && p > 0 && Unclaimed(h.regions, p, 1)
    requires FreeList(mem, p, t, off, fl) && |fl| == Count(t)
    requires Only(h.mem, mem, p * PAGE_SIZE, PAGE_SIZE)
    ensures Ok(AddPage(h, r, p, t, off, fl, mem), r)
    ensures forall q: nat, c: nat :: InUse(AddPage(h, r, p, t, off, fl, mem), q, c) <==> InUse(h, q, c)
  {
    var h' := AddPage(h, r, p, t, off, fl, mem);
    AddPageLists(h, r, p, t, off, fl, mem);
    forall q: nat ensures PageAt(h', r, q) { AddPageAt(h, r, p, t, off, fl, mem, q); }
    forall q: nat, c: nat ensures PagesApart(h', q, c) {
      assert PagesApart(h, q, c) && PageAt(h, -1, q) && PageAt(h, -1, c);
      assert ClaimApart(h.regions, p, 1, p);
    }
    forall q: nat, c: nat ensures RegionsApart(h', q, c) {
      assert RegionsApart(h, q, c) && ClaimApart(h.regions, p, 1, q) && ClaimApart(h.regions, p, 1, c);
    }
    forall q: nat, c: nat ensures InUse(h', q, c) <==> InUse(h, q, c) {
      if q == r { AllFree(mem, p, t, off, fl, c); }
    }
  }

  lemma AddPageRefs(h: Heap, r: nat, p: nat, t: nat, off: nat, fl: seq<nat>, mem: Memory)
    requires r < NPAGEREFS && t < NSIZES == |h.bases| == |h.same| && r !in h.all
    ensures forall q: nat :: RefKept(h, AddPage(h, r, p, t, off, fl, mem), q)
  {
    var h' := AddPage(h, r, p, t, off, fl, mem);
    forall q: nat ensures RefKept(h, h', q) {}
  }

  lemma AllFree(mem: Memory, p: nat, t: nat, off: nat, fl: seq<nat>, c: nat)
    requires FreeList(mem, p, t, off, fl) && |fl| == Count(t)
    ensures c < Count(t) ==> c in fl
  {
    forall i | 0 <= i < |fl| ensures fl[i] < Count(t) { assert FreeAt(mem, p, t, fl, i); }
    Pigeonhole(fl, Count(t));
  }

  lemma AddPageLists(h: Heap, r: nat, p: nat, t: nat, off: nat, fl: seq<nat>, mem: Memory)
    requires Ok(h, -1) && r < NPAGEREFS && r !in h.all && t < NSIZES
    ensures var h' := AddPage(h, r, p, t, off, fl, mem);
      && Chain(h'.prs, true, h'.allbase, h'.all)
      && (forall u: nat :: SizeList(h', u)) && (forall u: nat, q: nat :: Sorted(h', u, q))
  {
    var h' := AddPage(h, r, p, t, off, fl, mem);
    assert Sorted(h, t, r);
    ChainPush(h.prs, true, h.allbase, h.all, r);
    ChainFrame(SetNext(h.prs, true, r, h.allbase), h'.prs, true, r, h'.all);
    forall u: nat ensures SizeList(h', u) {
      if u < NSIZES {
        assert SizeList(h, u) && Sorted(h, u, r);
        if u == t {
          ChainPush(h.prs, false, h.bases[t], h.same[t], r);
          ChainFrame(SetNext(h.prs, false, r, h.bases[t]), h'.prs, false, r, h'.same[t]);
        } else {
          ChainFrame(h.prs, h'.prs, false, h.bases[u], h.same[u]);
        }
      }
    }
    forall u: nat, q: nat ensures Sorted(h', u, q) { assert Sorted(h, u, q); }
  }

  lemma AddPageAt(h: Heap, r: nat, p: nat, t: nat, off: nat, fl: seq<nat>, mem: Memory, q: nat)
    requires Ok(h, -1) && r < NPAGEREFS && r !in h.all && t < NSIZES && p > 0 && Unclaimed(h.regions, p, 1)
    requires FreeList(mem, p, t, off, fl) && |fl| == Count(t) && Only(h.mem, mem, p * PAGE_SIZE, PAGE_SIZE)
    ensures PageAt(AddPage(h, r, p, t, off, fl, mem), r, q)
  {
    assert PageAt(h, -1, q);
    if q in h.all {
      assert ClaimApart(h.regions, p, 1, PageOf(h, q));
      var fq, u := FreeOf(h, q), TypeOf(h, q);
      forall i: nat | i < |fq| ensures Word(mem, Addr(PageOf(h, q), u, fq[i])) == Word(h.mem, Addr(PageOf(h, q), u, fq[i])) {
        assert FreeAt(h.mem, PageOf(h, q), u, fq, i);
        OffApart(u, fq[i], 0);
        SizePositive(u);
        PageOrder(PageOf(h, q), p);
      }
      ListFrame(h.mem, mem, PageOf(h, q), u, h.prs[q].freeoff, fq);
    }
  }

  // Releasing a page

  /** Page reference all[j], whose page is same[t][i], taken off both lists and
      its page given back. */
  ghost function DropPage(h: Heap, t: nat, i: nat, j: nat, prs: PageRefs, base: int, allbase: int): Heap
    requires t < NSIZES == |h.bases| == |h.same| && i < |h.same[t]| && j < |h.all|
  {
    Heap(prs, h.bases[t := base], allbase, h.mem, h.regions - {PageOf(h, h.all[j])},
         Without(h.all, j), h.same[t := Without(h.same[t], i)], h.fl)
  }

  ghost predicate LinksOnly(prs: PageRefs, prs': PageRefs, r: nat) {
    r < NPAGEREFS ==>
      && prs'[r].page == prs[r].page && prs'[r].blktype == prs[r].blktype
      && prs'[r].freeoff == prs[r].freeoff && prs'[r].nfree == prs[r].nfree
  }

  lemma DropPageOk(h: Heap, r: nat, t: nat, i: nat, j: nat, prs: PageRefs, base: int, allbase: int)
    requires Ok(h, r) && r < NPAGEREFS && t == TypeOf(h, r) && t < NSIZES && (forall b: nat :: !InUse(h, r, b))
    requires i < |h.same[t]| && h.same[t][i] == r && j < |h.all| && h.all[j] == r
    requires Chain(prs, false, base, Without(h.same[t], i)) && Chain(prs, true, allbase, Without(h.all, j))
    requires forall q: nat :: LinksOnly(h.prs, prs, q)
    requires forall q: nat :: q < NPAGEREFS && q !in h.same[t] ==> prs[q].nextSame == h.prs[q].nextSame
    ensures Ok(DropPage(h, t, i, j, prs, base, allbase), -1)
    ensures forall q: nat, c: nat :: InUse(DropPage(h, t, i, j, prs, base, allbase), q, c) <==> InUse(h, q, c)
  {
    var h' := DropPage(h, t, i, j, prs, base, allbase);
    forall u: nat, q: nat ensures Sorted(h', u, q) {
      assert Sorted(h, u, q) && Sorted(h, t, q) && LinksOnly(h.prs, prs, q) && SizeList(h, t);
      WithoutIn(h.all, j, q);
      WithoutIn(h.same[t], i, q);
    }
    forall u: nat ensures SizeList(h', u) { DropSizeList(h, r, t, i, j, prs, base, allbase, u); }
    forall q: nat ensures PageAt(h', -1, q) {
      assert PageAt(h, r, q) && PageAt(h, r, r) && LinksOnly(h.prs, prs, q) && PagesApart(h, q, r);
      WithoutIn(h.all, j, q);
    }
    forall q: nat, c: nat ensures PagesApart(h', q, c) {
      assert PagesApart(h, q, c) && LinksOnly(h.prs, prs, q) && LinksOnly(h.prs, prs, c);
      WithoutIn(h.all, j, q);
      WithoutIn(h.all, j, c);
    }
    forall q: nat, c: nat ensures RegionsApart(h', q, c) { assert RegionsApart(h, q, c); }
    forall q: nat, c: nat ensures InUse(h', q, c) <==> InUse(h, q, c) {
      assert LinksOnly(h.prs, prs, q);
      WithoutIn(h.all, j, q);
    }
  }

  lemma DropSizeList(h: Heap, r: nat, t: nat, i: nat, j: nat, prs: PageRefs, base: int, allbase: int, u: nat)
    requires Ok(h, r) && r < NPAGEREFS && t == TypeOf(h, r) && t < NSIZES && i < |h.same[t]| && j < |h.all|
    requires Chain(prs, false, base, Without(h.same[t], i))
    requires forall q: nat :: q < NPAGEREFS && q !in h.same[t] ==> prs[q].nextSame == h.prs[q].nextSame
    ensures SizeList(DropPage(h, t, i, j, prs, base, allbase), u)
  {
    if u < NSIZES && u != t {
      assert SizeList(h, u);
      forall q: nat | q in h.same[u] && q < NPAGEREFS ensures Next(prs, false, q) == Next(h.prs, false, q) {
        assert Sorted(h, u, q) && Sorted(h, t, q);
      }
      ChainFrame(h.prs, prs, false, h.bases[u], h.same[u]);
    }
  }

  // The allocator

  /** A bit is set exactly for the page references on the list of all. */
  ghost predicate BitAt(inuse: seq<bool>, all: seq<nat>, r: nat) {
    r < NPAGEREFS && r < |inuse| ==> (inuse[r] <==> r in all)
  }

  class Kheap {
    const offer: nat -> nat      // the page the page allocator comes up with, 0 for none
    var prs: PageRefs
    var inuse: seq<bool>
    var bases: seq<int>          // sizebases
    var allbase: int
    var mem: Memory
    var regions: map<nat, nat>   // the page allocator's view: first page and length
    var calls: nat
    ghost var all: seq<nat>
    ghost var same: seq<seq<nat>>
    ghost var fl: map<nat, seq<nat>>

    ghost function H(): Heap
      reads this
    {
      Heap(prs, bases, allbase, mem, regions, all, same, fl)
    }

    ghost predicate Valid()
      reads this
    {
      |inuse| == NPAGEREFS && Ok(H(), -1) && forall r: nat :: BitAt(inuse, all, r)
    }

    constructor (offer: nat -> nat)
      ensures Valid() && all == [] && regions == map[]
    {
      this.offer := offer;
      prs, inuse := seq(NPAGEREFS, _ => PageRef(-1, -1, 0, 0, 0, 0)), seq(NPAGEREFS, _ => false);
      bases, allbase, mem, regions, calls := seq(NSIZES, _ => -1), -1, map[], map[], 0;
      all, same, fl := [], seq(NSIZES, _ => []), map[];
      new;
      forall t: nat ensures SizeList(H(), t) { forall i: nat ensures LinkAt(prs, false, [], i) {} }
      forall i: nat ensures LinkAt(prs, true, all, i) {}
      forall t: nat, r: nat ensures Sorted(H(), t, r) {}
      forall r: nat ensures PageAt(H(), -1, r) && BitAt(inuse, all, r) {}
      forall r: nat, q: nat ensures PagesApart(H(), r, q) && RegionsApart(H(), r, q) {}
    }

    /** allocpageref: the lowest unused page reference. */
    method AllocPageRef() returns (r: int)
      requires Valid()
      modifies this`inuse
      ensures r == -1 ==> inuse == old(inuse) && AllUsed(H())
      ensures r != -1 ==> 0 <= r < NPAGEREFS && r !in all && !old(inuse)[r] && inuse == old(inuse)[r := true]
    {
      var i := 0;
      while i < NPAGEREFS
        invariant 0 <= i <= NPAGEREFS && inuse == old(inuse) && forall q: nat :: q < i ==> q in all
      {
        assert BitAt(inuse, all, i);
        if !inuse[i] {
          inuse := inuse[i := true];
          return i;
        }
        i := i + 1;
      }
      r := -1;
    }

    /** alloc_kpages: pages nobody has, or nothing. */
    method AllocKpages(n: nat) returns (p: nat)
      modifies this`regions, this`calls
      ensures p == if Gives(old(regions), offer(old(calls)), n) then offer(old(calls)) else 0
      ensures regions == if p == 0 then old(regions) else old(regions)[p := n]
      ensures calls == old(calls) + 1
    {
      p := offer(calls);
      calls := calls + 1;
      if p !in regions && forall q :: q in regions ==> ClaimApart(regions, p, n, q) {
        if p != 0 { regions := regions[p := n]; }
      } else {
        p := 0;
      }
    }
  
    /** Thread the blocks of a fresh page into a list, the last one first. */
    method SetupPage(page: nat, t: nat) returns (off: nat, ghost list: seq<nat>)
      requires t < NSIZES && page > 0
      modifies this`mem
      ensures FreeList(mem, page, t, off, list) && |list| == Count(t)
        && Only(old(mem), mem, page * PAGE_SIZE, PAGE_SIZE)
    {
      OffApart(t, 0, 1);
      mem := mem[Addr(page, t, 0) := 0];
      list := [0];
      forall k: nat ensures FreeAt(mem, page, t, list, k) {}
      var i := 1;
      while i < Count(t)
        invariant 1 <= i <= Count(t) && |list| == i && list[0] == i - 1 && forall k :: 0 <= k < |list| ==> list[k] < i
        invariant FreeList(mem, page, t, Off(t, i - 1), list)
        invariant Only(old(mem), mem, page * PAGE_SIZE, PAGE_SIZE)
      {
        ghost var before := mem;
        mem := mem[Addr(page, t, i) := Addr(page, t, i - 1)];
        OffApart(t, i, 0);
        SizePositive(t);
        forall k: nat | k < |list| ensures Word(mem, Addr(page, t, list[k])) == Word(before, Addr(page, t, list[k])) {
          OffApart(t, list[k], i);
        }
        PushList(before, mem, page, t, Off(t, i - 1), list, i);
        list := [i] + list;
        i := i + 1;
      }
      off := Off(t, Count(t) - 1);
    }

    /** The doalloc part of subpage_kmalloc: the assertions hold. */
    method TakeFrom(r: nat, ghost full: int) returns (ptr: nat)
      requires Ok(H(), full) && r in all && r < NPAGEREFS && prs[r].nfree > 0 && (full == -1 || full == r)
      modifies this`prs, this`fl
      ensures H() == Pop(old(H()), r) && FreeOf(old(H()), r) != []
      ensures ptr == BlockAddr(old(H()), r, FreeOf(old(H()), r)[0])
    {
      assert PageAt(H(), full, r);
      PopList(mem, PageOf(H(), r), TypeOf(H(), r), prs[r].freeoff, FreeOf(H(), r));
      var pr := prs[r];
      assert pr.freeoff < PAGE_SIZE;
      var prpage := pr.page * PAGE_SIZE;
      ptr := prpage + pr.freeoff;
      var next := Word(mem, ptr);
      fl := fl[r := FreeOf(H(), r)[1..]];
      if next != 0 {
        assert pr.nfree - 1 > 0;
        assert next - prpage < PAGE_SIZE;
        prs := prs[r := pr.(freeoff := next - prpage, nfree := pr.nfree - 1)];
      } else {
        assert pr.nfree - 1 == 0;
        prs := prs[r := pr.(freeoff := INVALID_OFFSET, nfree := pr.nfree - 1)];
      }
    }

    /** The search of subpage_kmalloc: the first page of the list with room. */
    method FindRoom(t: nat) returns (r: int)
      requires Valid() && t < NSIZES
      ensures r == -1 <==> NoRoom(H(), t)
      ensures r != -1 ==> 0 <= r < NPAGEREFS && r in all && prs[r].blktype == t && prs[r].nfree > 0
      ensures r != -1 ==> exists i: nat :: FirstRoom(H(), t, r, i)
    {
      assert SizeList(H(), t);
      r := bases[t];
      ghost var i := 0;
      while r != -1
        invariant i <= |same[t]| && r == (if i < |same[t]| then same[t][i] else -1)
        invariant forall j :: 0 <= j < i ==> NoRoomAt(H(), t, same[t][j])
        decreases |same[t]| - i
      {
        assert LinkAt(prs, false, same[t], i) && Sorted(H(), t, same[t][i]);
        assert prs[r].blktype == t;
        if prs[r].nfree > 0 {
          assert FirstRoom(H(), t, r, i) && !NoRoomAt(H(), t, r);
          return;
        }
        r := prs[r].nextSame;
        i := i + 1;
      }
      forall q: nat ensures NoRoomAt(H(), t, q) { assert Sorted(H(), t, q); }
    }
  
    /** The end of subpage_kmalloc: a new page, its blocks all free.  Gives the
        reference back when there is no page. */
    method NewPage(t: nat) returns (r: int)
      requires Valid() && t < NSIZES
      modifies this
      ensures r == -1 <==> AllUsed(old(H())) || !Gives(old(regions), offer(old(calls)), 1)
      ensures calls == old(calls) + if AllUsed(old(H())) then 0 else 1
      ensures r == -1 ==> H() == old(H()) && inuse == old(inuse)
      ensures r != -1 ==>
        && 0 <= r < NPAGEREFS && Ok(H(), r) && r in all && r !in old(all) && TypeOf(H(), r) == t && prs[r].nfree == Count(t)
        && |inuse| == NPAGEREFS && (forall q: nat :: BitAt(inuse, all, q))
        && (forall q: nat, c: nat :: InUse(H(), q, c) <==> InUse(old(H()), q, c))
        && (forall q: nat :: RefKept(old(H()), H(), q)) && Grown(old(H()), H(), r)
        && Unclaimed(old(regions), PageOf(H(), r), 1) && Only(old(mem), mem, PageOf(H(), r) * PAGE_SIZE, PAGE_SIZE)
    {
      r := AllocPageRef();
      if r == -1 { return; }
      var p := AllocKpages(1);
      if p == 0 {
        inuse := inuse[r := false];
        assert inuse == old(inuse);
        return -1;
      }
      var off;
      ghost var list;
      off, list := SetupPage(p, t);
      AddPageOk(old(H()), r, p, t, off, list, mem);
      Enlist(r, p, t, off, list);
      assert H() == AddPage(old(H()), r, p, t, off, list, mem);
      AddPageRefs(old(H()), r, p, t, off, list, mem);
      forall q: nat ensures BitAt(inuse, all, q) { assert BitAt(old(inuse), old(all), q); }
    }

    /** Fill in a page reference and put it in front of both its lists. */
    method Enlist(r: nat, p: nat, t: nat, off: nat, ghost list: seq<nat>)
      requires r < NPAGEREFS && t < NSIZES == |bases| == |same|
      modifies this`prs, this`bases, this`allbase, this`all, this`same, this`fl
      ensures prs == old(prs)[r := PageRef(old(bases)[t], old(allbase), p, t, off, Count(t))]
      ensures bases == old(bases)[t := r] && allbase == r
      ensures all == [r] + old(all) && same == old(same)[t := [r] + old(same)[t]] && fl == old(fl)[r := list]
    {
      prs := prs[r := PageRef(bases[t], allbase, p, t, off, Count(t))];
      bases := bases[t := r];
      allbase := r;
      all, same, fl := [r] + all, same[t := [r] + same[t]], fl[r := list];
    }

    /** subpage_kmalloc: block b of page r, of the smallest size that will do. */
    method SubpageKmalloc(sz: nat) returns (ptr: nat, ghost r: nat, ghost b: nat)
      requires Valid() && sz <= LARGEST
      modifies this
      ensures Valid() && (ptr == 0 ==> H() == old(H()))
      ensures forall t: nat :: Fits(sz, t) ==> (ptr == 0 <==> Starved(old(H()), t, offer(old(calls))))
      ensures forall t: nat :: Fits(sz, t) ==> calls == old(calls) + if NoRoom(old(H()), t) && !AllUsed(old(H())) then 1 else 0
      ensures ptr != 0 ==> Handed(old(H()), H(), r, b) && ptr == BlockAddr(H(), r, b) && Grown(old(H()), H(), r)
      ensures ptr != 0 ==> Fits(sz, TypeOf(H(), r))
      ensures ptr != 0 && !NoRoom(old(H()), TypeOf(H(), r)) ==>
        && (exists i: nat :: FirstRoom(old(H()), TypeOf(H(), r), r, i))
        && FreeOf(old(H()), r) != [] && b == FreeOf(old(H()), r)[0]
      ensures ptr != 0 ==> mem == old(mem) || Only(old(mem), mem, PageOf(H(), r) * PAGE_SIZE, PAGE_SIZE)
      ensures ptr != 0 && mem != old(mem) ==> Unclaimed(old(regions), PageOf(H(), r), 1)
    {
      ptr, r, b := 0, 0, 0;
      var t := BlockType(sz);
      var pr := FindRoom(t);
      ghost var full := -1;
      if pr == -1 {
        pr := NewPage(t);
        if pr == -1 { return; }
        full := pr;
        CountPositive(t);
      } else {
        forall q: nat ensures RefKept(H(), H(), q) {}
      }
      ghost var h1 := H();
      PopOk(h1, full, pr);
      r, b := pr, FreeOf(h1, pr)[0];
      ptr := TakeFrom(pr, full);
      assert PageAt(h1, full, r);
      forall q: nat ensures RefKept(old(H()), H(), q) { assert RefKept(old(H()), h1, q); }
    }

    /** The search of subpage_kfree. */
    method FindPage(ptr: nat) returns (r: int)
      requires Valid()
      ensures r == -1 ==> forall q: nat :: q in all ==> PageOf(H(), q) != ptr / PAGE_SIZE
      ensures r != -1 ==> 0 <= r < NPAGEREFS && r in all && prs[r].page == ptr / PAGE_SIZE
    {
      r := allbase;
      ghost var i := 0;
      while r != -1
        invariant i <= |all| && r == (if i < |all| then all[i] else -1)
        invariant forall j :: 0 <= j < i ==> PageOf(H(), all[j]) != ptr / PAGE_SIZE
        decreases |all| - i
      {
        assert LinkAt(prs, true, all, i) && PageAt(H(), -1, all[i]);
        var prpage := prs[r].page * PAGE_SIZE;
        assert prs[r].blktype < NSIZES;
        if ptr >= prpage && ptr < prpage + PAGE_SIZE { return; }
        r := prs[r].nextAll;
        i := i + 1;
      }
    }

    /** fill_deadbeef */
    method Fill(ptr: nat, len: nat)
      requires len % 4 == 0
      modifies this`mem
      ensures Only(old(mem), mem, ptr, len)
    {
      var i := 0;
      while i < len / 4
        invariant 0 <= i <= len / 4 && Only(old(mem), mem, ptr, len)
      {
        mem := mem[ptr + 4 * i := DEADBEEF];
        i := i + 1;
      }
    }

    /** Put block b of page r on its free list. */
    method PutBack(r: nat, ghost b: nat, ptr: nat)
      requires Valid() && InUse(H(), r, b) && r < NPAGEREFS && ptr == BlockAddr(H(), r, b)
      modifies this`mem, this`prs, this`fl
      ensures H() == Push(old(H()), r, b, mem) && Ok(H(), r) && Only(old(mem), mem, ptr, Size(TypeOf(old(H()), r)))
      ensures forall q: nat, c: nat :: InUse(H(), q, c) <==> InUse(old(H()), q, c) && !(q == r && c == b)
    {
      assert PageAt(H(), -1, r);
      ghost var size := Size(prs[r].blktype);
      SizeWords(prs[r].blktype);
      Fill(ptr, Size(prs[r].blktype));
      var pr := prs[r];
      mem := mem[ptr := if pr.freeoff == INVALID_OFFSET then 0 else pr.page * PAGE_SIZE + pr.freeoff];
      PushOk(old(H()), r, b, mem);
      fl := fl[r := [b] + FreeOf(H(), r)];
      prs := prs[r := pr.(freeoff := ptr - pr.page * PAGE_SIZE, nfree := pr.nfree + 1)];
    }

    /** remove_lists */
    method RemoveLists(r: nat) returns (ghost i: nat, ghost j: nat)
      requires Ok(H(), r) && r in all && r < NPAGEREFS && prs[r].blktype < NSIZES
      modifies this`prs, this`bases, this`allbase, this`all, this`same
      ensures var t := old(prs)[r].blktype;
        && i < |old(same)[t]| && old(same)[t][i] == r && j < |old(all)| && old(all)[j] == r
        && |bases| == NSIZES && bases == old(bases)[t := bases[t]]
        && all == Without(old(all), j) && same == old(same)[t := Without(old(same)[t], i)]
        && Chain(prs, false, bases[t], Without(old(same)[t], i)) && Chain(prs, true, allbase, all)
        && (forall q: nat :: LinksOnly(old(prs), prs, q))
        && (forall q: nat :: q < NPAGEREFS && q !in old(same)[t] ==> prs[q].nextSame == old(prs)[q].nextSame)
    {
      ghost var h := H();
      var t := prs[r].blktype;
      assert Sorted(h, t, r) && SizeList(h, t);
      var prs1, base;
      prs1, base, i := Unlink(prs, false, bases[t], r, same[t]);
      UnlinkAll(h, prs1);
      prs, allbase, j := Unlink(prs1, true, allbase, r, all);
      UnlinkBoth(h, r, t, i, prs1, base, prs);
      bases := bases[t := base];
      all, same := Without(all, j), same[t := Without(same[t], i)];
    }

    /** remove_lists, free_kpages and freepageref, for a page with no block in use. */
    method ReleasePage(r: nat)
      requires Ok(H(), r) && |inuse| == NPAGEREFS && (forall q: nat :: BitAt(inuse, all, q)) && r in all
        && r < NPAGEREFS
      requires forall b: nat :: !InUse(H(), r, b)
      modifies this
      ensures Valid() && r !in all && mem == old(mem) && regions == old(regions) - {PageOf(old(H()), r)}
      ensures forall q: nat, c: nat :: InUse(H(), q, c) <==> InUse(old(H()), q, c)
      ensures forall q: nat :: q != r ==> RefKept(old(H()), H(), q)
      ensures forall q: nat :: q in all ==> q in old(all)
    {
      ghost var h := H();
      assert PageAt(h, r, r);
      var t, page := prs[r].blktype, prs[r].page;
      ghost var i, j := RemoveLists(r);
      regions := regions - {page};
      inuse := inuse[r := false];
      DropPageOk(h, r, t, i, j, prs, bases[t], allbase);
      assert H() == DropPage(h, t, i, j, prs, bases[t], allbase);
      DropRefs(h, r, t, i, j, prs, bases[t], allbase);
      forall q: nat ensures BitAt(inuse, all, q) {
        assert BitAt(old(inuse), old(all), q);
        WithoutIn(old(all), j, q);
      }
    }

    /** subpage_kfree of block b of page r, once its page reference is found: the
        page goes back to the page allocator exactly when no other block of it
        is in use. */
    method FreeBlock(ptr: nat, r: nat, ghost b: nat)
      requires Valid() && IsBlock(H(), ptr, r, b) && r < NPAGEREFS
      modifies this
      ensures Valid() && Only(old(mem), mem, ptr, Size(TypeOf(old(H()), r)))
      ensures Taken(old(H()), H(), r, b)
    {
      ghost var h := H();
      BlockPage(h, ptr, r, b);
      var t, offset := prs[r].blktype, ptr - prs[r].page * PAGE_SIZE;
      assert offset < PAGE_SIZE && offset % Size(t) == 0;
      PutBack(r, b, ptr);
      ghost var h1 := H();
      FreeBound(h1, r, r);
      assert PageAt(h1, r, r);
      assert prs[r].nfree <= Count(t);
      PushRefs(h, r, b, mem);
      if prs[r].nfree == Count(t) {
        ReleasePage(r);
        forall q: nat | q != r ensures RefKept(h, H(), q) { assert RefKept(h, h1, q) && RefKept(h1, H(), q); }
      } else {
        StillUsed(h1, r, b);
        NotFull(h1, r);
      }
    }

    /** subpage_kfree: `ours` says whether the pointer was on one of our pages. */
    method SubpageKfree(ptr: nat) returns (ours: bool, ghost r: nat, ghost b: nat)
      requires Valid() && Freeable(H(), ptr)
      modifies this
      ensures Valid() && (ours <==> !IsBig(old(H()), ptr))
      ensures !ours ==> H() == old(H())
      ensures ours ==> IsBlock(old(H()), ptr, r, b) && Taken(old(H()), H(), r, b)
      ensures ours ==> Only(old(mem), mem, ptr, Size(TypeOf(old(H()), r)))
    {
      r, b := 0, 0;
      ghost var h := H();
      var pr := FindPage(ptr);
      if pr == -1 {
        if !IsBig(h, ptr) {
          r, b :| IsBlock(h, ptr, r, b);
          BlockPage(h, ptr, r, b);
          assert false;
        }
        return false, r, b;
      }
      r, b :| IsBlock(h, ptr, r, b);
      BlockPage(h, ptr, r, b);
      assert pr == r by { assert PagesApart(h, r, pr); }
      FreeBlock(ptr, pr, b);
      ours := true;
    }

    /** kmalloc */
    method Kmalloc(sz: nat) returns (ptr: nat, ghost r: nat, ghost b: nat)
      requires Valid() && sz < WORD
      modifies this
      ensures Valid() && (ptr == 0 ==> H() == old(H()))
      ensures sz < LARGEST ==> forall t: nat :: Fits(sz, t) ==> (ptr == 0 <==> Starved(old(H()), t, offer(old(calls))))
      ensures sz >= LARGEST ==> (ptr == 0 <==> !Gives(old(regions), offer(old(calls)), Pages(sz))) && calls == old(calls) + 1
      ensures sz < LARGEST ==> forall t: nat :: Fits(sz, t) ==>
        calls == old(calls) + if NoRoom(old(H()), t) && !AllUsed(old(H())) then 1 else 0
      ensures ptr != 0 && sz < LARGEST ==>
        && Handed(old(H()), H(), r, b) && ptr == BlockAddr(H(), r, b) && Fits(sz, TypeOf(H(), r))
        && (mem == old(mem) || (Unclaimed(old(regions), PageOf(H(), r), 1) && Only(old(mem), mem, PageOf(H(), r) * PAGE_SIZE, PAGE_SIZE)))
        && Grown(old(H()), H(), r)
      ensures ptr != 0 && sz >= LARGEST ==>
        && ptr % PAGE_SIZE == 0 && IsBig(H(), ptr) && H() == old(H()).(regions := regions)
        && Unclaimed(old(regions), ptr / PAGE_SIZE, Pages(sz)) && ptr / PAGE_SIZE !in old(regions)
        && regions == old(regions)[ptr / PAGE_SIZE := Pages(sz)]
    {
      r, b := 0, 0;
      if sz >= LARGEST {
        var npages := Pages(sz);
        var p := AllocKpages(npages);
        if p == 0 { return 0, 0, 0; }
        ptr := p * PAGE_SIZE;
        PageDiv(p, 0);
        ClaimOk(old(H()), p, npages);
        assert H() == old(H()).(regions := regions);
        return;
      }
      ptr, r, b := SubpageKmalloc(sz);
    }

    /** kfree of a live pointer or NULL. */
    method Kfree(ptr: nat) returns (ghost r: nat, ghost b: nat)
      requires Valid() && (ptr == 0 || Freeable(H(), ptr))
      modifies this
      ensures Valid() && (ptr == 0 ==> H() == old(H()))
      ensures ptr != 0 && IsBig(old(H()), ptr) ==> H() == old(H()).(regions := old(regions) - {ptr / PAGE_SIZE})
      ensures ptr != 0 && !IsBig(old(H()), ptr) ==>
        && IsBlock(old(H()), ptr, r, b) && Taken(old(H()), H(), r, b)
        && Only(old(mem), mem, ptr, Size(TypeOf(old(H()), r)))
    {
      r, b := 0, 0;
      if ptr == 0 { return; }
      var ours;
      ours, r, b := SubpageKfree(ptr);
      if !ours {
        assert ptr % PAGE_SIZE == 0;
        UnclaimOk(H(), ptr / PAGE_SIZE);
        regions := regions - {ptr / PAGE_SIZE};
        assert H() == old(H()).(regions := old(regions) - {ptr / PAGE_SIZE});
      }
    }

    /** The caller stores a word in what it was given. */
    method Store(x: nat, o: nat, w: nat)
      requires Valid() && InRegion(H(), x, o)
      modifies this`mem
      ensures Valid() && H() == old(H()).(mem := old(mem)[x + o := w])
    {
      StoreOk(H(), x, o, w);
      mem := mem[x + o := w];
      assert H() == old(H()).(mem := old(mem)[x + o := w]);
    }

    /** The bytes behind a live pointer. */
    method Extent(x: nat) returns (n: nat)
      requires Valid() && Freeable(H(), x)
      ensures forall o: nat :: InRegion(H(), x, o) <==> o % 4 == 0 && o + 4 <= n
    {
      var r := FindPage(x);
      if r == -1 {
        forall q: nat, c: nat ensures !IsBlock(H(), x, q, c) {
          if IsBlock(H(), x, q, c) { BlockPage(H(), x, q, c); }
        }
        return regions[x / PAGE_SIZE] * PAGE_SIZE;
      }
      assert PageAt(H(), -1, r);
      ghost var q: nat, c: nat :| IsBlock(H(), x, q, c);
      BlockPage(H(), x, q, c);
      assert PagesApart(H(), q, r);
      n := Size(prs[r].blktype);
      forall o: nat | o % 4 == 0 && o + 4 <= n ensures InRegion(H(), x, o) { assert BlockHas(H(), x, q, c, o); }
      forall o: nat | InRegion(H(), x, o) ensures o % 4 == 0 && o + 4 <= n {
        var q': nat, c': nat :| BlockHas(H(), x, q', c', o);
        BlockPage(H(), x, q', c');
        assert PagesApart(H(), q', r);
      }
    }

    ghost function Present(live: set<nat>, stores: Stores): Moment
      reads this
    {
      Moment(live, stores, H(), calls)
    }

    /** The pointers and the stores are those of the heap. */
    ghost predicate Tracks(live: set<nat>, stores: Stores)
      reads this
    {
      Valid() && (forall x: nat :: x in live <==> Freeable(H(), x)) && Holds(H(), stores)
    }

    /** One call: `live` are the pointers obtained and not freed, m what is stored
        behind them. */
    method Step(call: Call, before: set<nat>, m: Stores) returns (live: set<nat>, stores: Stores)
      requires Tracks(before, m)
      modifies this
      ensures Tracks(live, stores) && Did(offer, old(Present(before, m)), Present(live, stores), call)
    {
      live, stores := before, m;
      match call {
        case KmallocCall(sz) =>
          if sz < WORD { live := KmallocStep(sz, before, m); }
        case KfreeCall(ptr) =>
          if ptr in live && ptr != 0 { live, stores := KfreeStep(ptr, before, m); }
        case StoreCall(ptr, o, w) =>
          if ptr in live {
            var n := Extent(ptr);
            if o % 4 == 0 && o + 4 <= n {
              stores := StoreStep(ptr, o, w, m);
            } else {
              assert !InRegion(H(), ptr, o);
            }
          }
      }
    }

    method KmallocStep(sz: nat, before: set<nat>, ghost m: Stores) returns (live: set<nat>)
      requires Tracks(before, m) && sz < WORD
      modifies this
      ensures Tracks(live, m) && Did(offer, old(Present(before, m)), Present(live, m), KmallocCall(sz))
    {
      ghost var h := H();
      live := before;
      var ptr;
      ghost var r, b;
      ptr, r, b := Kmalloc(sz);
      if ptr == 0 { return; }
      live := live + {ptr};
      if sz < LARGEST {
        forall x: nat ensures x in live <==> Freeable(H(), x) { HandedLive(h, H(), ptr, r, b, x); }
        HandedHolds(h, H(), r, b, m);
        HandedNew(h, H(), ptr, r, b, sz);
      } else {
        forall x: nat ensures x in live <==> Freeable(H(), x) { ClaimLive(h, ptr / PAGE_SIZE, Pages(sz), x); }
        ClaimHolds(h, ptr / PAGE_SIZE, Pages(sz), m);
        ClaimNew(h, H(), ptr, sz);
      }
      assert Got(old(Present(before, m)), Present(live, m), sz, ptr);
    }

    method KfreeStep(ptr: nat, before: set<nat>, m: Stores) returns (live: set<nat>, stores: Stores)
      requires Tracks(before, m) && ptr in before && ptr != 0
      modifies this
      ensures Tracks(live, stores) && live == before - {ptr} && stores == Forget(m, {ptr})
    {
      ghost var h := H();
      live, stores := before - {ptr}, Forget(m, {ptr});
      ghost var r, b := Kfree(ptr);
      if IsBig(h, ptr) {
        forall x: nat ensures x in live <==> Freeable(H(), x) { UnclaimLive(h, ptr, x); }
        UnclaimHolds(h, ptr, m);
      } else {
        forall x: nat ensures x in live <==> Freeable(H(), x) { TakenLive(h, H(), ptr, r, b, x); }
        TakenHolds(h, H(), ptr, r, b, m);
      }
    }

    method StoreStep(ptr: nat, o: nat, w: nat, m: Stores) returns (stores: Stores)
      requires Valid() && Holds(H(), m) && InRegion(H(), ptr, o)
      modifies this`mem
      ensures Valid() && Holds(H(), stores) && stores == m[(ptr, o) := w]
      ensures forall x: nat :: Freeable(H(), x) <==> Freeable(old(H()), x)
    {
      ghost var h := H();
      Store(ptr, o, w);
      stores := m[(ptr, o) := w];
      StoreHolds(h, ptr, o, w, m);
      forall x: nat ensures Freeable(H(), x) <==> Freeable(h, x) { MemLive(h, H().mem, x); }
    }

    /** A run of kmalloc, kfree on live pointers, and stores behind them, from the
        empty heap: the live pointers are exactly those obtained and not freed, behind
        each is what was last stored there, and each call has done what it is for. */
    method Run(program: seq<Call>) returns (live: set<nat>, stores: Stores, ghost h: seq<Moment>)
      requires Valid() && all == [] && regions == map[]
      modifies this
      ensures Tracks(live, stores)
      ensures |h| == |program| + 1 && h[0] == old(Present({}, map[])) && h[|program|] == Present(live, stores)
      ensures Happened(offer, h, program)
    {
      live, stores := {}, map[];
      h := [Present(live, stores)];
      for i := 0 to |program|
        invariant Tracks(live, stores) && |h| == i + 1 && h[0] == old(Present({}, map[]))
        invariant Happened(offer, h, program) && h[i] == Present(live, stores)
      {
        live, stores := Step(program[i], live, stores);
        HappenedMore(offer, h, program, Present(live, stores));
        h := h + [Present(live, stores)];
      }
    }
  }

  // What calls do, from moment to moment

  datatype Moment = Moment(live: set<nat>, stores: Stores, h: Heap, calls: nat)

  /** Nothing is to be had for a request. */
  ghost predicate NoMemory(offer: nat -> nat, a: Moment, sz: nat) {
    if sz < LARGEST then forall t: nat :: Fits(sz, t) ==> Starved(a.h, t, offer(a.calls))
    else !Gives(a.h.regions, offer(a.calls), Pages(sz))
  }

  /** p is new, and behind it are so many bytes. */
  ghost predicate Got(a: Moment, b: Moment, sz: nat, p: nat) {
    && p != 0 && p !in a.live && b.live == a.live + {p}
    && (sz <= WORD - PAGE_SIZE ==> Room(b.h, p, sz))
  }

  ghost predicate Room(h: Heap, p: nat, sz: nat) {
    forall o: nat :: o % 4 == 0 && o + 4 <= sz ==> InRegion(h, p, o)
  }

  ghost predicate Did(offer: nat -> nat, a: Moment, b: Moment, call: Call) {
    match call
    case KmallocCall(sz) =>
      && b.stores == a.stores
      && (if sz >= WORD then b == a
          else if NoMemory(offer, a, sz) then b.live == a.live && b.h == a.h
          else exists p: nat :: Got(a, b, sz, p))
    case KfreeCall(ptr) =>
      if ptr in a.live && ptr != 0 then b.live == a.live - {ptr} && b.stores == Forget(a.stores, {ptr}) else b == a
    case StoreCall(ptr, o, w) =>
      && b.live == a.live && b.calls == a.calls
      && b.stores == if ptr in a.live && InRegion(a.h, ptr, o) then a.stores[(ptr, o) := w] else a.stores
  }

  ghost predicate DidAt(offer: nat -> nat, h: seq<Moment>, program: seq<Call>, i: nat) {
    i + 1 < |h| && i < |program| ==> Did(offer, h[i], h[i + 1], program[i])
  }

  ghost predicate Happened(offer: nat -> nat, h: seq<Moment>, program: seq<Call>) {
    |h| <= |program| + 1 && forall i: nat :: DidAt(offer, h, program, i)
  }

  lemma HappenedMore(offer: nat -> nat, h: seq<Moment>, program: seq<Call>, m: Moment)
    requires Happened(offer, h, program) && 0 < |h| <= |program| && Did(offer, h[|h| - 1], m, program[|h| - 1])
    ensures Happened(offer, h + [m], program)
  {
    forall i: nat ensures DidAt(offer, h + [m], program, i) { assert DidAt(offer, h, program, i); }
  }

  /** A block handed out was nobody's before, and is large enough. */
  lemma HandedNew(h: Heap, h': Heap, ptr: nat, r: nat, b: nat, sz: nat)
    requires Ok(h', -1) && Handed(h, h', r, b) && Grown(h, h', r) && IsBlock(h', ptr, r, b) && sz <= Size(TypeOf(h', r))
    ensures !Freeable(h, ptr) && Room(h', ptr, sz)
  {
    BlockPage(h', ptr, r, b);
    assert RefKept(h, h', r);
    if q: nat, c: nat :| IsBlock(h, ptr, q, c) {
      assert RefKept(h, h', q);
      BlockKept(h, h', ptr, q, c);
      BlockPage(h', ptr, q, c);
      assert PagesApart(h', q, r);
      SameBlock(h', ptr, r, b, c);
    }
    forall o: nat | o % 4 == 0 && o + 4 <= sz ensures InRegion(h', ptr, o) { assert BlockHas(h', ptr, r, b, o); }
  }

  lemma SameBlock(h: Heap, ptr: nat, r: nat, b: nat, c: nat)
    requires Ok(h, -1) && IsBlock(h, ptr, r, b) && IsBlock(h, ptr, r, c)
    ensures b == c
  {
    assert PageAt(h, -1, r);
    OffApart(TypeOf(h, r), b, c);
  }

  lemma ClaimNew(h: Heap, h': Heap, ptr: nat, sz: nat)
    requires Ok(h, -1) && ptr / PAGE_SIZE !in h.regions && IsBig(h', ptr) && sz < WORD
    requires h'.regions[ptr / PAGE_SIZE] == Pages(sz)
    ensures !Freeable(h, ptr) && (sz <= WORD - PAGE_SIZE ==> Room(h', ptr, sz))
  {
    PagesExact(sz);
    if q: nat, c: nat :| IsBlock(h, ptr, q, c) {
      assert PageAt(h, -1, q);
      BlockPage(h, ptr, q, c);
    }
    if sz <= WORD - PAGE_SIZE {
      forall o: nat | o % 4 == 0 && o + 4 <= sz ensures InRegion(h', ptr, o) { assert BigHas(h', ptr, o); }
    }
  }

  datatype Call = KmallocCall(sz: nat) | KfreeCall(ptr: nat) | StoreCall(ptr: nat, o: nat, w: nat)

  // What is stored in blocks and regions

  /** Words stored, by pointer and offset. */
  type Stores = map<(nat, nat), nat>

  /** The stores through pointers in gone forgotten. */
  function Forget(m: Stores, gone: set<nat>): Stores { map k | k in m && k.0 !in gone :: m[k] }

  ghost predicate BlockHas(h: Heap, x: nat, r: nat, b: nat, o: nat) {
    IsBlock(h, x, r, b) && o + 4 <= Size(TypeOf(h, r))
  }

  ghost predicate BigHas(h: Heap, x: nat, o: nat) {
    IsBig(h, x) && o + 4 <= h.regions[x / PAGE_SIZE] * PAGE_SIZE
  }

  /** The word at offset o of what x points to. */
  ghost predicate InRegion(h: Heap, x: nat, o: nat) {
    o % 4 == 0 && (BigHas(h, x, o) || exists r: nat, b: nat :: BlockHas(h, x, r, b, o))
  }

  ghost predicate HoldsAt(h: Heap, m: Stores, x: nat, o: nat) {
    (x, o) in m ==> InRegion(h, x, o) && Word(h.mem, x + o) == m[(x, o)]
  }

  ghost predicate Holds(h: Heap, m: Stores) { forall x: nat, o: nat :: HoldsAt(h, m, x, o) }

  /** A word handed out lies on pages of its region. */
  lemma WordPage(h: Heap, x: nat, o: nat) returns (p: nat)
    requires Ok(h, -1) && InRegion(h, x, o)
    ensures p in h.regions && p * PAGE_SIZE <= x && x + o + 4 <= (p + h.regions[p]) * PAGE_SIZE
  {
    if BigHas(h, x, o) {
      p := x / PAGE_SIZE;
    } else {
      var r: nat, b: nat :| BlockHas(h, x, r, b, o);
      assert PageAt(h, -1, r);
      OffApart(TypeOf(h, r), b, 0);
      p := PageOf(h, r);
    }
  }

  /** A word handed out lies in no other block, free or not. */
  lemma WordApart(h: Heap, x: nat, o: nat, q: nat, c: nat)
    requires Ok(h, -1) && InRegion(h, x, o) && q in h.all && c < Count(TypeOf(h, q)) && !IsBlock(h, x, q, c)
    ensures x + o + 4 <= BlockAddr(h, q, c) || BlockAddr(h, q, c) + Size(TypeOf(h, q)) <= x + o
  {
    if BigHas(h, x, o) {
      assert PageAt(h, -1, q) && RegionsApart(h, PageOf(h, q), x / PAGE_SIZE) && RegionsApart(h, x / PAGE_SIZE, PageOf(h, q));
      OffApart(TypeOf(h, q), c, 0);
    } else {
      var r: nat, b: nat :| BlockHas(h, x, r, b, o);
      BlocksApart(h, -1, r, b, q, c);
    }
  }

  /** Words behind different pointers are different. */
  lemma WordsApart(h: Heap, x: nat, o: nat, y: nat, k: nat)
    requires Ok(h, -1) && InRegion(h, x, o) && InRegion(h, y, k) && x != y
    ensures x + o != y + k
  {
    if r: nat, b: nat :| BlockHas(h, y, r, b, k) {
      WordApart(h, x, o, r, b);
    } else if r: nat, b: nat :| BlockHas(h, x, r, b, o) {
      WordApart(h, y, k, r, b);
    } else {
      assert RegionsApart(h, x / PAGE_SIZE, y / PAGE_SIZE) && RegionsApart(h, y / PAGE_SIZE, x / PAGE_SIZE);
    }
  }

  lemma StoreOk(h: Heap, x: nat, o: nat, w: nat)
    requires Ok(h, -1) && InRegion(h, x, o)
    ensures Ok(h.(mem := h.mem[x + o := w]), -1)
  {
    var h' := h.(mem := h.mem[x + o := w]);
    LinksKept(h, h');
    forall q: nat ensures PageAt(h', -1, q) {
      assert PageAt(h, -1, q);
      if q in h.all {
        var fl, u := FreeOf(h, q), TypeOf(h, q);
        forall i: nat | i < |fl| ensures Word(h'.mem, Addr(PageOf(h, q), u, fl[i])) == Word(h.mem, Addr(PageOf(h, q), u, fl[i])) {
          assert FreeAt(h.mem, PageOf(h, q), u, fl, i);
          WordApart(h, x, o, q, fl[i]);
          SizePositive(u);
        }
        ListFrame(h.mem, h'.mem, PageOf(h, q), u, h.prs[q].freeoff, fl);
      }
    }
    forall q: nat, c: nat ensures PagesApart(h', q, c) { assert PagesApart(h, q, c); }
    forall q: nat, c: nat ensures RegionsApart(h', q, c) { assert RegionsApart(h, q, c); }
  }

  /** The contents of memory do not matter for what is handed out. */
  lemma MemLive(h: Heap, mem: Memory, x: nat)
    ensures Freeable(h.(mem := mem), x) <==> Freeable(h, x)
  {
    var h' := h.(mem := mem);
    forall r: nat, b: nat ensures IsBlock(h', x, r, b) <==> IsBlock(h, x, r, b) {}
  }

  lemma MemRegion(h: Heap, mem: Memory, x: nat, o: nat)
    ensures InRegion(h.(mem := mem), x, o) <==> InRegion(h, x, o)
  {
    var h' := h.(mem := mem);
    forall r: nat, b: nat ensures BlockHas(h', x, r, b, o) <==> BlockHas(h, x, r, b, o) {}
  }

  lemma StoreHolds(h: Heap, x: nat, o: nat, w: nat, m: Stores)
    requires Ok(h, -1) && Holds(h, m) && InRegion(h, x, o)
    ensures Holds(h.(mem := h.mem[x + o := w]), m[(x, o) := w])
  {
    var h', m' := h.(mem := h.mem[x + o := w]), m[(x, o) := w];
    forall y: nat, k: nat ensures HoldsAt(h', m', y, k) {
      assert HoldsAt(h, m, y, k);
      MemRegion(h, h'.mem, y, k);
      if (y, k) in m && y != x { WordsApart(h, x, o, y, k); }
    }
  }

  lemma HandedHolds(h: Heap, h': Heap, r: nat, b: nat, m: Stores)
    requires Ok(h, -1) && Holds(h, m) && Handed(h, h', r, b) && Grown(h, h', r)
    requires h'.mem == h.mem || (Unclaimed(h.regions, PageOf(h', r), 1) && Only(h.mem, h'.mem, PageOf(h', r) * PAGE_SIZE, PAGE_SIZE))
    ensures Holds(h', m)
  {
    forall x: nat, o: nat ensures HoldsAt(h', m, x, o) {
      assert HoldsAt(h, m, x, o);
      if (x, o) in m {
        HandedRegion(h, h', r, b, x, o);
        var p := WordPage(h, x, o);
        assert h'.mem == h.mem || ClaimApart(h.regions, PageOf(h', r), 1, p);
      }
    }
  }

  lemma HandedRegion(h: Heap, h': Heap, r: nat, b: nat, x: nat, o: nat)
    requires Handed(h, h', r, b) && Grown(h, h', r) && InRegion(h, x, o)
    ensures InRegion(h', x, o)
  {
    if BigHas(h, x, o) {
      forall q: nat | q in h'.all ensures PageOf(h', q) != x / PAGE_SIZE { assert RefKept(h, h', q); }
    } else {
      var q: nat, c: nat :| BlockHas(h, x, q, c, o);
      assert RefKept(h, h', q) && InUse(h', q, c);
      assert BlockHas(h', x, q, c, o);
    }
  }

  lemma ClaimHolds(h: Heap, p: nat, n: nat, m: Stores)
    requires Holds(h, m) && p !in h.regions
    ensures Holds(h.(regions := h.regions[p := n]), m)
  {
    var h' := h.(regions := h.regions[p := n]);
    forall x: nat, o: nat ensures HoldsAt(h', m, x, o) {
      assert HoldsAt(h, m, x, o);
      if r: nat, b: nat :| BlockHas(h, x, r, b, o) { assert BlockHas(h', x, r, b, o); }
    }
  }

  lemma UnclaimHolds(h: Heap, ptr: nat, m: Stores)
    requires Holds(h, m) && IsBig(h, ptr)
    ensures Holds(h.(regions := h.regions - {ptr / PAGE_SIZE}), Forget(m, {ptr}))
  {
    var h' := h.(regions := h.regions - {ptr / PAGE_SIZE});
    forall x: nat, o: nat ensures HoldsAt(h', Forget(m, {ptr}), x, o) {
      assert HoldsAt(h, m, x, o);
      if r: nat, b: nat :| BlockHas(h, x, r, b, o) { assert BlockHas(h', x, r, b, o); }
    }
  }

  lemma TakenHolds(h: Heap, h': Heap, ptr: nat, r: nat, b: nat, m: Stores)
    requires Ok(h, -1) && Holds(h, m) && IsBlock(h, ptr, r, b) && Taken(h, h', r, b)
    requires Only(h.mem, h'.mem, ptr, Size(TypeOf(h, r)))
    ensures Holds(h', Forget(m, {ptr}))
  {
    forall x: nat, o: nat ensures HoldsAt(h', Forget(m, {ptr}), x, o) {
      assert HoldsAt(h, m, x, o);
      if (x, o) in m && x != ptr {
        TakenRegion(h, h', ptr, r, b, x, o);
        WordApart(h, x, o, r, b);
      }
    }
  }

  lemma TakenRegion(h: Heap, h': Heap, ptr: nat, r: nat, b: nat, x: nat, o: nat)
    requires IsBlock(h, ptr, r, b) && Taken(h, h', r, b) && InRegion(h, x, o) && x != ptr
    ensures InRegion(h', x, o)
  {
    if BigHas(h, x, o) {
      forall q: nat | q in h'.all ensures PageOf(h', q) != x / PAGE_SIZE { assert RefKept(h, h', q); }
    } else {
      var q: nat, c: nat :| BlockHas(h, x, q, c, o);
      assert InUse(h', q, c) && RefKept(h, h', q);
      assert BlockHas(h', x, q, c, o);
    }
  }

  lemma BlockKept(h: Heap, h': Heap, x: nat, q: nat, c: nat)
    requires IsBlock(h, x, q, c) && InUse(h', q, c) && RefKept(h, h', q)
    ensures Freeable(h', x)
  {
    assert IsBlock(h', x, q, c);
  }

  /** Handing out a block makes one more pointer live. */
  lemma HandedLive(h: Heap, h': Heap, ptr: nat, r: nat, b: nat, x: nat)
    requires Handed(h, h', r, b) && Grown(h, h', r) && IsBlock(h', ptr, r, b)
    ensures Freeable(h', x) <==> Freeable(h, x) || x == ptr
  {
    if x == ptr { assert IsBlock(h', x, r, b); }
    if IsBig(h, x) {
      forall q: nat | q in h'.all ensures PageOf(h', q) != x / PAGE_SIZE { assert RefKept(h, h', q); }
    } else if q: nat, c: nat :| IsBlock(h, x, q, c) {
      assert RefKept(h, h', q);
      BlockKept(h, h', x, q, c);
    }
    if IsBig(h', x) {
      forall q: nat | q in h.all ensures PageOf(h, q) != x / PAGE_SIZE { assert RefKept(h, h', q); }
    } else if q: nat, c: nat :| IsBlock(h', x, q, c) && x != ptr {
      assert RefKept(h, h', q) && InUse(h, q, c);
      assert IsBlock(h, x, q, c);
    }
  }

  /** Freeing a block makes one pointer dead. */
  lemma TakenLive(h: Heap, h': Heap, ptr: nat, r: nat, b: nat, x: nat)
    requires Ok(h, -1) && IsBlock(h, ptr, r, b) && Taken(h, h', r, b)
    ensures Freeable(h', x) <==> Freeable(h, x) && x != ptr
  {
    if Freeable(h, x) && x != ptr { TakenKeeps(h, h', ptr, r, b, x); }
    if Freeable(h', x) { TakenBefore(h, h', ptr, r, b, x); }
  }

  lemma TakenKeeps(h: Heap, h': Heap, ptr: nat, r: nat, b: nat, x: nat)
    requires Ok(h, -1) && IsBlock(h, ptr, r, b) && Taken(h, h', r, b) && Freeable(h, x) && x != ptr
    ensures Freeable(h', x)
  {
    if IsBig(h, x) {
      forall q: nat | q in h'.all ensures PageOf(h', q) != x / PAGE_SIZE { assert RefKept(h, h', q); }
    } else {
      var q: nat, c: nat :| IsBlock(h, x, q, c);
      assert InUse(h', q, c) && RefKept(h, h', q);
      BlockKept(h, h', x, q, c);
    }
  }

  lemma TakenBefore(h: Heap, h': Heap, ptr: nat, r: nat, b: nat, x: nat)
    requires Ok(h, -1) && IsBlock(h, ptr, r, b) && Taken(h, h', r, b) && Freeable(h', x)
    ensures Freeable(h, x) && x != ptr
  {
    BlockPage(h, ptr, r, b);
    if IsBig(h', x) {
      forall q: nat | q in h.all ensures PageOf(h, q) != x / PAGE_SIZE {
        if q != r || r in h'.all { assert RefKept(h, h', q); }
      }
    } else {
      var q: nat, c: nat :| IsBlock(h', x, q, c);
      assert RefKept(h, h', q) && InUse(h, q, c);
      assert IsBlock(h, x, q, c);
      BlocksApart(h, -1, r, b, q, c);
      SizeWords(TypeOf(h, r));
      SizeWords(TypeOf(h, q));
    }
  }

  lemma UnclaimLive(h: Heap, ptr: nat, x: nat)
    requires Ok(h, -1) && IsBig(h, ptr)
    ensures Freeable(h.(regions := h.regions - {ptr / PAGE_SIZE}), x) <==> Freeable(h, x) && x != ptr
  {
    var h' := h.(regions := h.regions - {ptr / PAGE_SIZE});
    if q: nat, c: nat :| IsBlock(h, x, q, c) {
      BlockPage(h, x, q, c);
      assert IsBlock(h', x, q, c);
    }
    if q: nat, c: nat :| IsBlock(h', x, q, c) { assert IsBlock(h, x, q, c); }
  }

  lemma ClaimLive(h: Heap, p: nat, n: nat, x: nat)
    requires p !in h.regions && IsBig(h.(regions := h.regions[p := n]), p * PAGE_SIZE)
    ensures Freeable(h.(regions := h.regions[p := n]), x) <==> Freeable(h, x) || x == p * PAGE_SIZE
  {
    var h' := h.(regions := h.regions[p := n]);
    if q: nat, c: nat :| IsBlock(h, x, q, c) { assert IsBlock(h', x, q, c); }
    if q: nat, c: nat :| IsBlock(h', x, q, c) { assert IsBlock(h, x, q, c); }
  }

  // What may be freed

  /** The address of block b of page r. */
  ghost predicate IsBlock(h: Heap, ptr: nat, r: nat, b: nat) {
    InUse(h, r, b) && ptr == BlockAddr(h, r, b)
  }

  /** A region of whole pages that is not cut into blocks. */
  ghost predicate IsBig(h: Heap, ptr: nat) {
    && ptr % PAGE_SIZE == 0 && ptr / PAGE_SIZE in h.regions
    && (forall q: nat :: q in h.all ==> PageOf(h, q) != ptr / PAGE_SIZE)
  }

  /** A pointer kmalloc gave out and kfree has not taken back. */
  ghost predicate Freeable(h: Heap, ptr: nat) {
    IsBig(h, ptr) || exists r: nat, b: nat :: IsBlock(h, ptr, r, b)
  }

  /** Block b of page r is free, every other block as before; the page is given
      back exactly when that was its last block in use. */
  ghost predicate Taken(h: Heap, h': Heap, r: nat, b: nat) {
    && (forall q: nat, c: nat :: InUse(h', q, c) <==> InUse(h, q, c) && !(q == r && c == b))
    && (forall q: nat :: q != r ==> RefKept(h, h', q))
    && (r in h'.all ==> RefKept(h, h', r)) && (forall q: nat :: q in h'.all ==> q in h.all)
    && (r !in h'.all <==> forall c: nat :: c != b ==> !InUse(h, r, c))
    && h'.regions == if r in h'.all then h.regions else h.regions - {PageOf(h, r)}
  }

  lemma ClaimOk(h: Heap, p: nat, n: nat)
    requires Ok(h, -1) && Unclaimed(h.regions, p, n) && p !in h.regions
    ensures Ok(h.(regions := h.regions[p := n]), -1) && IsBig(h.(regions := h.regions[p := n]), p * PAGE_SIZE)
  {
    var h' := h.(regions := h.regions[p := n]);
    LinksKept(h, h');
    forall q: nat ensures PageAt(h', -1, q) {
      assert PageAt(h, -1, q) && ClaimApart(h.regions, p, n, PageOf(h, q));
    }
    forall q: nat, c: nat ensures PagesApart(h', q, c) { assert PagesApart(h, q, c); }
    forall q: nat, c: nat ensures RegionsApart(h', q, c) {
      assert RegionsApart(h, q, c) && ClaimApart(h.regions, p, n, q) && ClaimApart(h.regions, p, n, c);
    }
    PageDiv(p, 0);
    forall q: nat | q in h'.all ensures PageOf(h', q) != p { assert PageAt(h, -1, q); }
  }

  lemma UnclaimOk(h: Heap, p: nat)
    requires Ok(h, -1) && forall q: nat :: q in h.all ==> PageOf(h, q) != p
    ensures Ok(h.(regions := h.regions - {p}), -1)
  {
    var h' := h.(regions := h.regions - {p});
    LinksKept(h, h');
    forall q: nat ensures PageAt(h', -1, q) { assert PageAt(h, -1, q); }
    forall q: nat, c: nat ensures PagesApart(h', q, c) { assert PagesApart(h, q, c); }
    forall q: nat, c: nat ensures RegionsApart(h', q, c) { assert RegionsApart(h, q, c); }
  }

  lemma BlockPage(h: Heap, ptr: nat, r: nat, b: nat)
    requires Ok(h, -1) && IsBlock(h, ptr, r, b)
    ensures r < NPAGEREFS && TypeOf(h, r) < NSIZES && ptr / PAGE_SIZE == PageOf(h, r) && ptr > 0
    ensures ptr - PageOf(h, r) * PAGE_SIZE == Off(TypeOf(h, r), b) < PAGE_SIZE
      && Off(TypeOf(h, r), b) % Size(TypeOf(h, r)) == 0
  {
    assert PageAt(h, -1, r);
    OffApart(TypeOf(h, r), b, 0);
    OffIs(TypeOf(h, r), b);
    SizeWords(TypeOf(h, r));
    PageDiv(PageOf(h, r), Off(TypeOf(h, r), b));
  }

  lemma PushRefs(h: Heap, r: nat, b: nat, mem: Memory)
    requires r < NPAGEREFS
    ensures forall q: nat :: RefKept(h, Push(h, r, b, mem), q)
  {
    forall q: nat ensures RefKept(h, Push(h, r, b, mem), q) {}
  }

  lemma StillUsed(h: Heap, r: nat, b: nat)
    requires Ok(h, r) && r in h.all && r < NPAGEREFS && h.prs[r].nfree != Count(TypeOf(h, r))
    ensures exists c: nat :: InUse(h, r, c)
  {
    FreeBound(h, r, r);
    assert PageAt(h, r, r);
  }

  /** A page that is not full of free blocks needs no exception. */
  lemma NotFull(h: Heap, r: nat)
    requires Ok(h, r) && r < NPAGEREFS && h.prs[r].nfree != Count(TypeOf(h, r)) && r in h.all
    ensures Ok(h, -1)
  {
    FreeBound(h, r, r);
    forall q: nat ensures PageAt(h, -1, q) { assert PageAt(h, r, q); }
  }

  lemma PageDiv(p: nat, o: nat)
    requires o < PAGE_SIZE
    ensures (p * PAGE_SIZE + o) / PAGE_SIZE == p
  {
  }

  lemma DropRefs(h: Heap, r: nat, t: nat, i: nat, j: nat, prs: PageRefs, base: int, allbase: int)
    requires t < NSIZES == |h.bases| == |h.same| && i < |h.same[t]| && j < |h.all| && h.all[j] == r && Distinct(h.all)
    requires forall q: nat :: LinksOnly(h.prs, prs, q)
    ensures forall q: nat :: q != r ==> RefKept(h, DropPage(h, t, i, j, prs, base, allbase), q)
    ensures r !in Without(h.all, j)
  {
    var h' := DropPage(h, t, i, j, prs, base, allbase);
    forall q: nat | q != r ensures RefKept(h, h', q) {
      assert LinksOnly(h.prs, prs, q);
      WithoutIn(h.all, j, q);
    }
    WithoutIn(h.all, j, r);
  }

  lemma SizeWords(t: nat)
    ensures Size(t) % 4 == 0 && Size(t) > 0
  {
  }

  /** Unlinking from the size list does not disturb the list of all. */
  lemma UnlinkAll(h: Heap, prs: PageRefs)
    requires Chain(h.prs, true, h.allbase, h.all) && forall r: nat :: OnlyLink(h.prs, prs, false, r)
    ensures Chain(prs, true, h.allbase, h.all)
  {
    forall r: nat | r in h.all && r < NPAGEREFS ensures Next(prs, true, r) == Next(h.prs, true, r) {
      assert OnlyLink(h.prs, prs, false, r);
    }
    ChainFrame(h.prs, prs, true, h.allbase, h.all);
  }

  lemma UnlinkBoth(h: Heap, r: nat, t: nat, i: nat, prs1: PageRefs, base: int, prs2: PageRefs)
    requires t < |h.same| && i < |h.same[t]| && Chain(prs1, false, base, Without(h.same[t], i))
    requires (forall q: nat :: OnlyLink(h.prs, prs1, false, q)) && forall q: nat :: OnlyLink(prs1, prs2, true, q)
    requires forall q: nat :: q < NPAGEREFS && q !in h.same[t] ==> Next(prs1, false, q) == Next(h.prs, false, q)
    ensures Chain(prs2, false, base, Without(h.same[t], i))
    ensures forall q: nat :: LinksOnly(h.prs, prs2, q)
    ensures forall q: nat :: q < NPAGEREFS && q !in h.same[t] ==> prs2[q].nextSame == h.prs[q].nextSame
  {
    forall q: nat | q < NPAGEREFS ensures Next(prs2, false, q) == Next(prs1, false, q) {
      assert OnlyLink(prs1, prs2, true, q);
    }
    ChainFrame(prs1, prs2, false, base, Without(h.same[t], i));
    forall q: nat ensures LinksOnly(h.prs, prs2, q) { assert OnlyLink(h.prs, prs1, false, q) && OnlyLink(prs1, prs2, true, q); }
    forall q: nat | q < NPAGEREFS && q !in h.same[t] ensures prs2[q].nextSame == h.prs[q].nextSame {
      assert Next(prs1, false, q) == Next(h.prs, false, q);
    }
  }

  lemma CountPositive(t: nat)
    ensures Count(t) > 0
  {
  }

  ghost predicate RefKept(h: Heap, h': Heap, q: nat) {
    q in h.all ==> q in h'.all && PageOf(h', q) == PageOf(h, q) && TypeOf(h', q) == TypeOf(h, q)
  }

  /** No page appeared but perhaps that of r, which nobody had. */
  ghost predicate Grown(h: Heap, h': Heap, r: nat) {
    && (forall q: nat :: q in h'.all ==> q in h.all || q == r)
    && (r !in h.all ==> PageOf(h', r) !in h.regions)
    && (forall p: nat :: p in h.regions ==> p in h'.regions && h'.regions[p] == h.regions[p])
    && (forall p: nat :: p in h'.regions ==> p in h.regions || p == PageOf(h', r))
  }

  /** Block b of page r was free and is now in use; every other block is as before. */
  ghost predicate Handed(h: Heap, h': Heap, r: nat, b: nat) {
    && !InUse(h, r, b)
    && (forall q: nat, c: nat :: InUse(h', q, c) <==> InUse(h, q, c) || (q == r && c == b))
    && (forall q: nat :: RefKept(h, h', q))
  }
}
