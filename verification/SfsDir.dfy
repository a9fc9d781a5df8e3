/** The root directory: its entries, the names they give, and link counts. */
module SfsDir {
  import opened SfsLayout
  import opened SfsState
  import opened SfsFile
  import opened SfsCache
  import opened SfsView

  // Sequences of entries

  ghost predicate NamesDiffer(d: seq<Entry>, i: nat, j: nat) {
    i < j < |d| && d[i].ino != NOINO && d[j].ino != NOINO ==> d[i].name != d[j].name
  }

  ghost predicate UniqueNames(d: seq<Entry>) {
    forall i: nat, j: nat :: NamesDiffer(d, i, j)
  }

  /** How many entries name inode k. */
  ghost function Count(d: seq<Entry>, k: nat): nat {
    if d == [] then 0 else Count(d[..|d| - 1], k) + One(d[|d| - 1].ino == k)
  }

  function One(b: bool): nat { if b then 1 else 0 }

  lemma CountAppend(d: seq<Entry>, e: Entry, k: nat)
    ensures Count(d + [e], k) == Count(d, k) + One(e.ino == k)
  {
    assert (d + [e])[..|d|] == d;
  }

  lemma {:induction false} CountUpdate(d: seq<Entry>, i: nat, e: Entry, k: nat)
    requires i < |d|
    ensures Count(d[i := e], k) == Count(d, k) - One(d[i].ino == k) + One(e.ino == k)
  {
    var n := |d| - 1;
    if i == n {
      assert d[i := e][..n] == d[..n];
    } else {
      assert d[i := e][..n] == d[..n][i := e];
      CountUpdate(d[..n], i, e, k);
    }
  }

  lemma {:induction false} CountBound(d: seq<Entry>, k: nat)
    ensures Count(d, k) <= |d|
  {
    if d != [] { CountBound(d[..|d| - 1], k); }
  }

  lemma {:induction false} CountHit(d: seq<Entry>, i: nat)
    requires i < |d|
    ensures Count(d, d[i].ino) > 0
  {
    var n := |d| - 1;
    if i < n { CountHit(d[..n], i); }
  }

  /** The inode a name stands for, 0 for none. */
  ghost function Lookup(d: seq<Entry>, name: Name): nat {
    if d == [] then NOINO
    else if d[|d| - 1].ino != NOINO && d[|d| - 1].name == name then d[|d| - 1].ino
    else Lookup(d[..|d| - 1], name)
  }

  lemma {:induction false} LookupNone(d: seq<Entry>, name: Name)
    requires forall i :: 0 <= i < |d| && d[i].ino != NOINO ==> d[i].name != name
    ensures Lookup(d, name) == NOINO
  {
    if d != [] { LookupNone(d[..|d| - 1], name); }
  }

  lemma UniquePrefix(d: seq<Entry>, n: nat)
    requires UniqueNames(d) && n <= |d|
    ensures UniqueNames(d[..n])
  {
    forall i: nat, j: nat ensures NamesDiffer(d[..n], i, j) { assert NamesDiffer(d, i, j); }
  }

  lemma {:induction false} LookupAt(d: seq<Entry>, i: nat, name: Name)
    requires UniqueNames(d) && i < |d| && d[i].ino != NOINO && d[i].name == name
    ensures Lookup(d, name) == d[i].ino
  {
    var n := |d| - 1;
    if i < n {
      assert NamesDiffer(d, i, n);
      UniquePrefix(d, n);
      LookupAt(d[..n], i, name);
    }
  }

  lemma {:induction false} LookupSome(d: seq<Entry>, name: Name) returns (i: nat)
    requires Lookup(d, name) != NOINO
    ensures i < |d| && d[i].ino == Lookup(d, name) && d[i].name == name
  {
    i := |d| - 1;
    if !(d[i].ino != NOINO && d[i].name == name) { i := LookupSome(d[..i], name); }
  }

  /** What an entry written over slot i, or appended, does to the directory. */
  function Put(d: seq<Entry>, i: nat, e: Entry): seq<Entry>
    requires i <= |d|
  {
    if i < |d| then d[i := e] else d + [e]
  }

  function At(d: seq<Entry>, i: nat): Entry {
    if i < |d| then d[i] else Entry(NOINO, [])
  }

  lemma CountPut(d: seq<Entry>, i: nat, e: Entry, k: nat)
    requires i <= |d| && k != NOINO
    ensures Count(Put(d, i, e), k) == Count(d, k) - One(At(d, i).ino == k) + One(e.ino == k)
  {
    if i < |d| { CountUpdate(d, i, e, k); } else { CountAppend(d, e, k); }
  }

  /** A new name in a free slot. */
  lemma PutName(d: seq<Entry>, i: nat, e: Entry)
    requires UniqueNames(d) && i <= |d| && At(d, i).ino == NOINO && e.ino != NOINO && 0 !in e.name
    requires Lookup(d, e.name) == NOINO
    ensures UniqueNames(Put(d, i, e))
    ensures forall n: Name :: Lookup(Put(d, i, e), n) == if n == e.name then e.ino else Lookup(d, n)
  {
    var d' := Put(d, i, e);
    forall j: nat | j < |d| && d[j].ino != NOINO ensures d[j].name != e.name {
      if d[j].name == e.name { LookupAt(d, j, e.name); }
    }
    forall a: nat, b: nat ensures NamesDiffer(d', a, b) { assert NamesDiffer(d, a, b); }
    forall n: Name ensures Lookup(d', n) == if n == e.name then e.ino else Lookup(d, n) {
      if n == e.name { LookupAt(d', i, n); } else { LookupSame(d, d', i, n); }
    }
  }

  /** What name n stands for once slot i is free. */
  ghost function Freed(d: seq<Entry>, i: nat, n: Name): nat {
    if At(d, i).ino != NOINO && n == At(d, i).name then NOINO else Lookup(d, n)
  }

  /** An entry freed. */
  lemma PutFree(d: seq<Entry>, i: nat, e: Entry)
    requires UniqueNames(d) && i <= |d| && e.ino == NOINO
    ensures UniqueNames(Put(d, i, e))
    ensures forall n: Name :: Lookup(Put(d, i, e), n) == Freed(d, i, n)
  {
    var d' := Put(d, i, e);
    forall a: nat, b: nat ensures NamesDiffer(d', a, b) { assert NamesDiffer(d, a, b); }
    forall n: Name ensures Lookup(d', n) == Freed(d, i, n) {
      if At(d, i).ino != NOINO && n == At(d, i).name { FreedName(d, d', i, n); } else { LookupSame(d, d', i, n); }
    }
  }

  lemma FreedName(d: seq<Entry>, d': seq<Entry>, i: nat, n: Name)
    requires UniqueNames(d) && i < |d| == |d'| && d[i].ino != NOINO && d[i].name == n
    requires d'[i].ino == NOINO && forall j :: 0 <= j < |d| && j != i ==> d'[j] == d[j]
    ensures Lookup(d', n) == NOINO
  {
    forall j | 0 <= j < |d'| && d'[j].ino != NOINO ensures d'[j].name != n {
      assert NamesDiffer(d, i, j) && NamesDiffer(d, j, i);
    }
    LookupNone(d', n);
  }

  /** Names other than those in slot i are not affected by it. */
  lemma LookupSame(d: seq<Entry>, d': seq<Entry>, i: nat, n: Name)
    requires UniqueNames(d) && UniqueNames(d') && i <= |d| && i < |d'| && d' == Put(d, i, d'[i])
    requires At(d, i).ino != NOINO ==> At(d, i).name != n
    requires d'[i].ino != NOINO ==> d'[i].name != n
    ensures Lookup(d', n) == Lookup(d, n)
  {
    if Lookup(d, n) != NOINO {
      var j := LookupSome(d, n);
      LookupAt(d', j, n);
    } else if Lookup(d', n) != NOINO {
      var j := LookupSome(d', n);
      LookupAt(d, j, n);
    }
  }

  // The directory of a volume

  function Tabulate<T>(f: nat -> T, n: nat): (r: seq<T>)
    ensures |r| == n
  {
    if n == 0 then [] else Tabulate(f, n - 1) + [f(n - 1)]
  }

  lemma {:induction false} TabulateAt<T>(f: nat -> T, n: nat, i: nat)
    requires i < n
    ensures Tabulate(f, n)[i] == f(i)
  {
    if i < n - 1 { TabulateAt(f, n - 1, i); }
  }

  lemma {:induction false} TabulateSame<T>(f: nat -> T, g: nat -> T, n: nat)
    requires forall i: nat :: i < n ==> g(i) == f(i)
    ensures Tabulate(g, n) == Tabulate(f, n)
  {
    if n > 0 { TabulateSame(f, g, n - 1); }
  }

  /** One element replaced or appended. */
  lemma TabulatePut(f: nat -> Entry, g: nat -> Entry, n: nat, i: nat)
    requires i <= n && forall j: nat :: j < n && j != i ==> g(j) == f(j)
    ensures Tabulate(g, if i < n then n else n + 1) == Put(Tabulate(f, n), i, g(i))
  {
    var d, d' := Tabulate(f, n), Tabulate(g, if i < n then n else n + 1);
    forall j: nat | j < |d'| ensures d'[j] == Put(d, i, g(i))[j] {
      TabulateAt(g, |d'|, j);
      if j < n { TabulateAt(f, n, j); }
    }
  }

  /** Slot i of the directory as bytes. */
  function RawEntry(s: State, i: nat): (b: seq<byte>)
    ensures |b| == DIRSIZE
  {
    var lo, hi := DIRSIZE * i, DIRSIZE * i + DIRSIZE;
    Tabulate(BytesFrom(s, lo), hi - lo)
  }

  function BytesFrom(s: State, lo: nat): nat -> byte { (j: nat) => FByte(s, ROOT, lo + j) }

  function EntryAt(s: State, i: nat): Entry { EntryOf(RawEntry(s, i)) }

  function Entries(s: State): nat -> Entry { (i: nat) => EntryAt(s, i) }

  function Dir(s: State): (d: seq<Entry>) { Tabulate(Entries(s), Node(s, ROOT).size / DIRSIZE) }

  lemma RawAt(s: State, i: nat, j: nat)
    requires j < DIRSIZE
    ensures RawEntry(s, i)[j] == FByte(s, ROOT, DIRSIZE * i + j)
  {
    var lo, hi := DIRSIZE * i, DIRSIZE * i + DIRSIZE;
    var f := BytesFrom(s, lo);
    TabulateAt(f, hi - lo, j);
    assert f(j) == FByte(s, ROOT, lo + j);
  }

  lemma RawSame(s: State, s': State, i: nat)
    requires forall o: nat :: DIRSIZE * i <= o < DIRSIZE * i + DIRSIZE ==> ByteKept(s, s', ROOT, o)
    ensures Entries(s')(i) == Entries(s)(i)
  {
    forall j: nat | j < DIRSIZE ensures RawEntry(s', i)[j] == RawEntry(s, i)[j] {
      RawAt(s, i, j);
      RawAt(s', i, j);
      assert ByteKept(s, s', ROOT, DIRSIZE * i + j);
    }
    assert RawEntry(s', i) == RawEntry(s, i);
  }

  lemma DirSame(s: State, s': State)
    requires Node(s', ROOT).size == Node(s, ROOT).size && forall o: nat :: ByteKept(s, s', ROOT, o)
    ensures Dir(s') == Dir(s)
  {
    forall i: nat ensures Entries(s')(i) == Entries(s)(i) { RawSame(s, s', i); }
    TabulateSame(Entries(s), Entries(s'), Node(s, ROOT).size / DIRSIZE);
  }

  // Agreement with the inodes

  ghost predicate ZeroPast(s: State, o: nat) {
    o >= Node(s, ROOT).size ==> FByte(s, ROOT, o) == 0
  }

  /** The root is a directory of whole entries with distinct names, and nothing
      but zeros follows the last one. */
  ghost predicate RootOk(s: State, own: Owner) {
    && Live(own, ROOT) && Node(s, ROOT).kind == TYPE_DIR
    && Node(s, ROOT).size % DIRSIZE == 0 && Node(s, ROOT).size <= MAXBLOCKS * BLOCKSIZE
    && (forall o: nat :: ZeroPast(s, o))
    && UniqueNames(Dir(s))
  }

  /** An inode that is named exists; its link count is the number of names, one
      more for the root and `owe` more for x; without links it is in use. */
  ghost predicate NodeOk(s: State, own: Owner, d: seq<Entry>, x: nat, owe: int, k: nat) {
    && (k != NOINO && Count(d, k) > 0 ==> Live(own, k))
    && (Live(own, k) ==>
          && Node(s, k).links == Count(d, k) + One(k == ROOT) + (if k == x then owe else 0)
          && Node(s, k).kind == (if k == ROOT then TYPE_DIR else TYPE_FILE)
          && (Node(s, k).links == 0 ==> k in s.vn))
  }

  /** Directory and inodes agree up to x's link count. */
  ghost predicate Tree(s: State, own: Owner, x: nat, owe: int) {
    && RootOk(s, own)
    && (forall k: nat :: NodeOk(s, own, Dir(s), x, owe, k))
  }

  ghost predicate Consistent(s: State, own: Owner) {
    Tree(s, own, NOINO, 0)
  }

  lemma TreeClosed(s: State, own: Owner, x: nat)
    ensures Tree(s, own, x, 0) <==> Consistent(s, own)
  {
    if Tree(s, own, x, 0) {
      forall k: nat ensures NodeOk(s, own, Dir(s), NOINO, 0, k) { assert NodeOk(s, own, Dir(s), x, 0, k); }
    }
    if Consistent(s, own) {
      forall k: nat ensures NodeOk(s, own, Dir(s), x, 0, k) { assert NodeOk(s, own, Dir(s), NOINO, 0, k); }
    }
  }

  ghost predicate NameKept(s: State, s': State, n: Name) {
    Lookup(Dir(s'), n) == Lookup(Dir(s), n)
  }

  ghost predicate SameNames(s: State, s': State) {
    forall n: Name :: NameKept(s, s', n)
  }

  /** A change that leaves the directory alone. */
  lemma TreeFrame(s: State, own: Owner, s': State, own': Owner, x: nat, owe: int)
    requires Tree(s, own, x, owe) && Live(own', ROOT) && SameMeta(s, s', ROOT)
      && forall o: nat :: ByteKept(s, s', ROOT, o)
    requires forall k: nat :: NodeOk(s', own', Dir(s), x, owe, k)
    ensures Tree(s', own', x, owe) && Dir(s') == Dir(s)
  {
    DirSame(s, s');
    forall o: nat ensures ZeroPast(s', o) { assert ZeroPast(s, o) && ByteKept(s, s', ROOT, o); }
  }

  // Writing an entry

  lemma ZeroSlot(s: State, i: nat)
    requires DIRSIZE * i >= Node(s, ROOT).size && forall o: nat :: ZeroPast(s, o)
    ensures Entries(s)(i) == Entry(NOINO, [])
  {
    forall j: nat | j < DIRSIZE ensures RawEntry(s, i)[j] == 0 {
      RawAt(s, i, j);
      assert ZeroPast(s, DIRSIZE * i + j);
    }
    ZeroEntry(RawEntry(s, i));
  }

  lemma StoredEntry(s: State, i: nat, bytes: seq<byte>)
    requires |bytes| == DIRSIZE && Stored(s, ROOT, DIRSIZE * i, bytes)
    ensures Entries(s)(i) == EntryOf(bytes)
  {
    forall j: nat | j < DIRSIZE ensures RawEntry(s, i)[j] == bytes[j] {
      RawAt(s, i, j);
      assert StoredAt(s, ROOT, DIRSIZE * i, bytes, j);
    }
    assert RawEntry(s, i) == bytes;
  }

  /** The directory now reads d', and nothing but its contents changed. */
  ghost predicate Rewrote(s: State, own: Owner, s': State, own': Owner, d': seq<Entry>) {
    && Views(s, own, s', own', {ROOT}) && Live(own', ROOT)
    && s'.vn.Keys == s.vn.Keys && (ROOT in s.vn ==> s'.vn[ROOT].ref == s.vn[ROOT].ref)
    && Node(s', ROOT).links == Node(s, ROOT).links && Node(s', ROOT).kind == Node(s, ROOT).kind
    && Node(s', ROOT).size == DIRSIZE * |d'| && DIRSIZE * |d'| <= MAXBLOCKS * BLOCKSIZE
    && (forall o: nat :: ZeroPast(s', o))
    && Dir(s') == d'
  }

  /** Slot i, which may be the one after the last, was overwritten. */
  lemma DirPut(s: State, s': State, i: nat, bytes: seq<byte>)
    requires Node(s, ROOT).size % DIRSIZE == 0 && i <= |Dir(s)| && |bytes| == DIRSIZE
    requires Node(s', ROOT).size == Max(Node(s, ROOT).size, DIRSIZE * i + DIRSIZE)
    requires forall o: nat :: o < DIRSIZE * i || DIRSIZE * i + DIRSIZE <= o ==> ByteKept(s, s', ROOT, o)
    requires Stored(s', ROOT, DIRSIZE * i, bytes)
    ensures Dir(s') == Put(Dir(s), i, EntryOf(bytes))
  {
    StoredEntry(s', i, bytes);
    forall j: nat | j != i ensures Entries(s')(j) == Entries(s)(j) { RawSame(s, s', j); }
    TabulatePut(Entries(s), Entries(s'), |Dir(s)|, i);
  }

  lemma TabulateMore(f: nat -> Entry, g: nat -> Entry, n: nat, e: Entry)
    requires (forall j: nat :: g(j) == f(j)) && f(n) == e
    ensures Tabulate(g, n + 1) == Put(Tabulate(f, n), n, e)
  {
    TabulatePut(f, g, n, n);
  }

  /** The directory grew by a slot that reads as free. */
  lemma DirGrown(s: State, s': State)
    requires Node(s, ROOT).size % DIRSIZE == 0 && (forall o: nat :: ZeroPast(s, o))
      && forall o: nat :: ByteKept(s, s', ROOT, o)
    requires Node(s', ROOT).size == Node(s, ROOT).size + DIRSIZE
    ensures Dir(s') == Put(Dir(s), |Dir(s)|, Entry(NOINO, []))
  {
    var n := Node(s, ROOT).size / DIRSIZE;
    ZeroSlot(s, n);
    forall j: nat ensures Entries(s')(j) == Entries(s)(j) { RawSame(s, s', j); }
    TabulateMore(Entries(s), Entries(s'), n, Entry(NOINO, []));
    assert Node(s', ROOT).size / DIRSIZE == n + 1;
  }

  /** The entry was stored. */
  lemma EntryWritten(s: State, own: Owner, s': State, own': Owner, i: nat, bytes: seq<byte>)
    requires RootOk(s, own) && i <= |Dir(s)| && |bytes| == DIRSIZE && DIRSIZE * (i + 1) <= MAXBLOCKS * BLOCKSIZE
    requires FileWrote(s, own, s', own', ROOT, DIRSIZE * i, bytes, DIRSIZE)
    ensures Rewrote(s, own, s', own', Put(Dir(s), i, EntryOf(bytes)))
  {
    var off, d, d' := DIRSIZE * i, Dir(s), Put(Dir(s), i, EntryOf(bytes));
    ViewsWrote(s, own, s', own', ROOT, off, bytes, DIRSIZE);
    assert WriteAt(s, own, s', own', ROOT, off, DIRSIZE, DIRSIZE, ROOT);
    assert bytes[..DIRSIZE] == bytes;
    DirPut(s, s', i, bytes);
    forall o: nat ensures ZeroPast(s', o) { assert ZeroPast(s, o) && (o >= off + DIRSIZE ==> ByteKept(s, s', ROOT, o)); }
  }

  /** The entry was not stored, but the directory may have grown. */
  lemma EntryLost(s: State, own: Owner, s': State, own': Owner, i: nat, bytes: seq<byte>)
    requires RootOk(s, own) && i <= |Dir(s)| && (bytes == [] || |bytes| == DIRSIZE)
    requires DIRSIZE * i + |bytes| <= MAXBLOCKS * BLOCKSIZE
    requires FileWrote(s, own, s', own', ROOT, DIRSIZE * i, bytes, 0)
    ensures Lost(s, own, s', own')
  {
    var off, d := DIRSIZE * i, Dir(s);
    var d' := if i == |d| && bytes != [] then Put(d, i, Entry(NOINO, [])) else d;
    ViewsWrote(s, own, s', own', ROOT, off, bytes, 0);
    assert WriteAt(s, own, s', own', ROOT, off, |bytes|, 0, ROOT);
    if d' == d { DirSame(s, s'); } else { DirGrown(s, s'); }
    forall o: nat ensures ZeroPast(s', o) { assert ZeroPast(s, o) && ByteKept(s, s', ROOT, o); }
    assert Rewrote(s, own, s', own', d');
  }

  /** Directory and inodes after entry e was put into slot i: y gained or lost a name. */
  lemma TreePut(s: State, own: Owner, s': State, own': Owner, i: nat, e: Entry, y: nat)
    requires Consistent(s, own) && !Live(own, NOINO) && i <= |Dir(s)| && Rewrote(s, own, s', own', Put(Dir(s), i, e))
    requires e.ino != NOINO ==>
      At(Dir(s), i).ino == NOINO && y == e.ino && Live(own, y) && 0 !in e.name && Lookup(Dir(s), e.name) == NOINO
    requires e.ino == NOINO ==> y == At(Dir(s), i).ino
    ensures Tree(s', own', y, if e.ino != NOINO then -1 else if y != NOINO then 1 else 0)
  {
    var d := Dir(s);
    var owe := if e.ino != NOINO then -1 else if y != NOINO then 1 else 0;
    if e.ino != NOINO { PutName(d, i, e); } else { PutFree(d, i, e); }
    forall k: nat ensures NodeOk(s', own', Put(d, i, e), y, owe, k) {
      assert NodeOk(s, own, d, NOINO, 0, k);
      if k != ROOT { assert ViewAt(s, own, s', own', k); }
      NodePut(s, own, s', own', d, i, e, y, owe, k);
    }
  }

  lemma NodePut(s: State, own: Owner, s': State, own': Owner, d: seq<Entry>, i: nat, e: Entry, y: nat, owe: int, k: nat)
    requires NodeOk(s, own, d, NOINO, 0, k) && i <= |d| && !Live(own, NOINO)
    requires Live(own', k) <==> Live(own, k)
    requires Live(own, k) ==>
      Node(s', k).links == Node(s, k).links && Node(s', k).kind == Node(s, k).kind && (k in s'.vn <==> k in s.vn)
    requires e.ino != NOINO ==> At(d, i).ino == NOINO && y == e.ino && Live(own, y)
    requires e.ino == NOINO ==> y == At(d, i).ino
    requires owe == if e.ino != NOINO then -1 else if y != NOINO then 1 else 0
    ensures NodeOk(s', own', Put(d, i, e), y, owe, k)
  {
    if k != NOINO { CountPut(d, i, e, k); }
  }

  // Changes that leave the directory alone

  lemma NodeKept(s: State, own: Owner, s': State, own': Owner, d: seq<Entry>, x: nat, owe: int, k: nat)
    requires NodeOk(s, own, d, x, owe, k)
    requires Live(own', k) <==> Live(own, k)
    requires Live(own, k) ==> SameMeta(s, s', k) && (k in s.vn ==> k in s'.vn || Node(s, k).links > 0)
    ensures NodeOk(s', own', d, x, owe, k)
  {
  }

  /** Inodes in `but` changed in ways that still agree with the directory. */
  lemma TreeViews(s: State, own: Owner, s': State, own': Owner, but: set<nat>, x: nat, owe: int)
    requires Tree(s, own, x, owe) && Views(s, own, s', own', but) && ROOT !in but
    requires forall k: nat :: k in but ==> NodeOk(s', own', Dir(s), x, owe, k)
    ensures Tree(s', own', x, owe) && Dir(s') == Dir(s)
  {
    assert ViewAt(s, own, s', own', ROOT);
    forall k: nat ensures NodeOk(s', own', Dir(s), x, owe, k) {
      if k !in but {
        assert ViewAt(s, own, s', own', k);
        assert NodeOk(s, own, Dir(s), x, owe, k);
        NodeKept(s, own, s', own', Dir(s), x, owe, k);
      }
    }
    TreeFrame(s, own, s', own', x, owe);
  }

  /** Loading or syncing. */
  lemma TreeQuiet(s: State, own: Owner, s': State, x: nat, owe: int)
    requires Tree(s, own, x, owe) && Quiet(s, own, s') && s.vn.Keys <= s'.vn.Keys
    ensures Tree(s', own, x, owe) && Dir(s') == Dir(s)
  {
    assert FileSameAt(s, own, s', ROOT);
    DataBytes(s, s', ROOT);
    forall k: nat ensures NodeOk(s', own, Dir(s), x, owe, k) {
      assert FileSameAt(s, own, s', k);
      assert NodeOk(s, own, Dir(s), x, owe, k);
      NodeKept(s, own, s', own, Dir(s), x, owe, k);
    }
    TreeFrame(s, own, s', own, x, owe);
  }

  /** A reference given up: an inode disappears only without names. */
  lemma TreeReleased(s: State, own: Owner, s': State, own': Owner, k: nat)
    requires Consistent(s, own) && Live(own, k) && Released(s, own, s', own', k)
    ensures Consistent(s', own') && Dir(s') == Dir(s)
  {
    var d := Dir(s);
    assert NodeOk(s, own, d, NOINO, 0, k);
    assert ROOT != k ==> ViewAt(s, own, s', own', ROOT);
    forall j: nat ensures NodeOk(s', own', d, NOINO, 0, j) {
      assert NodeOk(s, own, d, NOINO, 0, j);
      if j != k {
        assert ViewAt(s, own, s', own', j);
        NodeKept(s, own, s', own', d, NOINO, 0, j);
      }
    }
    TreeFrame(s, own, s', own', NOINO, 0);
  }

  /** A new inode without names. */
  lemma TreeNew(s: State, own: Owner, s': State, own': Owner, b: nat)
    requires Consistent(s, own) && Views(s, own, s', own', {b}) && !Live(own, b)
    requires b != NOINO && b in s'.vn && Node(s', b).links == 0 && Node(s', b).kind == TYPE_FILE
    ensures Consistent(s', own') && Dir(s') == Dir(s)
  {
    assert NodeOk(s, own, Dir(s), NOINO, 0, b);
    TreeViews(s, own, s', own', {b}, NOINO, 0);
  }

  /** The link count of k is adjusted. */
  lemma TreeLinks(s: State, own: Owner, s': State, k: nat, l: u16, owe: int)
    requires Tree(s, own, k, owe) && k in s.vn && Live(own, k) && s' == SetMeta(s, k, s.vn[k].inode.size, l)
    ensures Tree(s', own, k, owe + l - Node(s, k).links) && Dir(s') == Dir(s)
    ensures Views(s, own, s', own, {k}) && s'.vn.Keys == s.vn.Keys && s'.vn[k].ref == s.vn[k].ref
  {
    var n := s.vn[k].inode.size;
    var d, owe' := Dir(s), owe + l - Node(s, k).links;
    MetaSame(s, k, n, l, ROOT);
    DirSame(s, s');
    forall j: nat ensures NodeOk(s', own, d, k, owe', j) {
      assert NodeOk(s, own, d, k, owe, j);
      if j != k { MetaSame(s, k, n, l, j); }
    }
    forall o: nat ensures ZeroPast(s', o) { assert ZeroPast(s, o) && ByteKept(s, s', ROOT, o); }
    MetaTable(s, k, n, l);
    forall j: nat | j !in {k} ensures ViewAt(s, own, s', own, j) { MetaSame(s, k, n, l, j); }
  }

  // The outcome of writing an entry

  /** The directory kept its entries; it may have grown by a free slot. */
  ghost predicate Lost(s: State, own: Owner, s': State, own': Owner) {
    && Rewrote(s, own, s', own', Dir(s'))
    && (Dir(s') == Dir(s) || Dir(s') == Put(Dir(s), |Dir(s)|, Entry(NOINO, [])))
  }

  /** An entry never crosses a block, so it is stored whole or not at all. */
  lemma WholeEntry(i: nat, m: nat)
    requires Stops(DIRSIZE * i, DIRSIZE, m)
    ensures m == 0 || m == DIRSIZE
  {
    var q, r := i / 8, i % 8;
    assert i == 8 * q + r;
    if m != DIRSIZE { EntryEnd(q, r, m); }
  }

  lemma EntryEnd(q: nat, r: nat, m: nat)
    requires r < 8 && m < DIRSIZE
    ensures (DIRSIZE * (8 * q + r) + m) % BLOCKSIZE == DIRSIZE * r + m
  {
    assert DIRSIZE * (8 * q + r) + m == BLOCKSIZE * q + (DIRSIZE * r + m);
    assert DIRSIZE * r + m < BLOCKSIZE;
  }

  lemma WriteDone(s: State, own: Owner, s': State, own': Owner, i: nat, sd: Entry, bytes: seq<byte>, exact: bool)
    requires RootOk(s, own) && i <= |Dir(s)| && |sd.name| < NAMELEN && 0 !in sd.name
    requires FileWrite(s, own, s', own', ROOT, DIRSIZE * i, bytes, DIRSIZE, exact)
    requires Stops(DIRSIZE * i, DIRSIZE, |bytes|) && bytes == EntryBytes(sd)[..|bytes|]
    requires bytes == [] || DIRSIZE * i + |bytes| <= MAXBLOCKS * BLOCKSIZE
    ensures exact && bytes != [] ==> Rewrote(s, own, s', own', Put(Dir(s), i, sd))
    ensures !exact || bytes == [] ==> Lost(s, own, s', own')
  {
    WholeEntry(i, |bytes|);
    var m: nat :| Lands(DIRSIZE * i, m, |bytes|, DIRSIZE, exact, BLOCKSIZE - 1) && FileWrote(s, own, s', own', ROOT, DIRSIZE * i, bytes, m);
    if exact && bytes != [] {
      EntryRoundTrip(sd);
      assert bytes == EntryBytes(sd);
      EntryWritten(s, own, s', own', i, bytes);
    } else {
      if bytes != [] { WholeEntry(i, m); }
      RootFits(s, own);
      EntryLost(s, own, s', own', i, bytes);
    }
  }

  lemma RootFits(s: State, own: Owner)
    requires RootOk(s, own)
    ensures DIRSIZE * |Dir(s)| == Node(s, ROOT).size <= MAXBLOCKS * BLOCKSIZE
  {
  }

  lemma TreeLost(s: State, own: Owner, s': State, own': Owner)
    requires Consistent(s, own) && !Live(own, NOINO) && Lost(s, own, s', own')
    ensures Consistent(s', own') && SameNames(s, s')
  {
    var d := Dir(s);
    if Dir(s') == d {
      forall k: nat ensures NodeOk(s', own', d, NOINO, 0, k) {
        assert NodeOk(s, own, d, NOINO, 0, k);
        if k != ROOT { assert ViewAt(s, own, s', own', k); }
      }
      forall n: Name ensures NameKept(s, s', n) {}
    } else {
      var e := Entry(NOINO, []);
      TreePut(s, own, s', own', |d|, e, NOINO);
      PutFree(d, |d|, e);
      forall n: Name ensures NameKept(s, s', n) { assert Lookup(Put(d, |d|, e), n) == Freed(d, |d|, n); }
    }
  }

  /** An entry in a hole of the directory reads as free. */
  lemma HoleSlot(s: State, i: nat)
    requires Slot(s, ROOT, DIRSIZE * i / BLOCKSIZE) == 0
    ensures Entries(s)(i) == Entry(NOINO, [])
  {
    forall j: nat | j < DIRSIZE ensures RawEntry(s, i)[j] == 0 {
      RawAt(s, i, j);
      SameBlock(i, j);
      HoleByte(s, DIRSIZE * i + j);
    }
    ZeroEntry(RawEntry(s, i));
  }

  lemma SameBlock(i: nat, j: nat)
    requires j < DIRSIZE
    ensures (DIRSIZE * i + j) / BLOCKSIZE == DIRSIZE * i / BLOCKSIZE
  {
    assert DIRSIZE * i + j == BLOCKSIZE * (i / 8) + (DIRSIZE * (i % 8) + j);
  }

  lemma HoleByte(s: State, o: nat)
    requires Slot(s, ROOT, o / BLOCKSIZE) == 0
    ensures FByte(s, ROOT, o) == 0
  {
  }

  /** A name lies in a block that exists. */
  lemma NamedMapped(s: State, i: nat)
    requires i < |Dir(s)| && Dir(s)[i].ino != NOINO
    ensures Slot(s, ROOT, i / 8) != 0
  {
    if Slot(s, ROOT, i / 8) == 0 {
      assert DIRSIZE * i / BLOCKSIZE == i / 8;
      TabulateAt(Entries(s), |Dir(s)|, i);
      HoleSlot(s, i);
    }
  }
}
