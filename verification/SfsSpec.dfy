/** What the operations mean: for names and for files as byte strings, and over whole
    runs.  Blocks, slots and vnodes no longer appear, except that a file somebody
    holds open is known by its inode number.  `own` only says which files exist. */
module SfsSpec {
  import opened SfsLayout
  import opened SfsState
  import opened SfsFile
  import opened SfsTruncate
  import opened SfsCache
  import opened SfsView
  import opened SfsDir
  import opened Sfs
  import opened SfsOps

  /** What the kernel may be asked to do. A vnode is named by its inode number;
      asking for one that nobody holds does nothing. */
  datatype Op =
    | CreatOp(name: Name, excl: bool)
    | LinkOp(name: Name, k: nat)
    | RemoveOp(name: Name)
    | RenameOp(n1: Name, n2: Name)
    | LookupOp(name: Name)
    | ReadOp(k: nat, off: nat, n: nat)
    | WriteOp(k: nat, off: nat, data: seq<byte>)
    | TruncateOp(k: nat, len: nat)
    | CloseOp(k: nat)
    | SyncOp

  predicate RootOp(op: Op) { op.CreatOp? || op.LinkOp? || op.RemoveOp? || op.RenameOp? || op.LookupOp? }

  /** Names and files are as they were. */
  ghost predicate Same(s: State, own: Owner, s': State, own': Owner) {
    SameNames(s, s') && FilesKept(s, own, s', own', {ROOT})
  }

  ghost predicate SameContent(s: State, s': State, k: nat) {
    Node(s', k).size == Node(s, k).size && forall o: nat :: ByteKept(s, s', k, o)
  }

  // The effect of each operation

  ghost predicate Made(s: State, own: Owner, s': State, own': Owner, name: Name, k: nat) {
    !Live(own, k) && Live(own', k) && NameSet(s, s', name, k) && Node(s', k).size == 0 && Node(s', k).links == 1
  }

  /** One new empty file under one new name, or nothing, for the reason e. */
  ghost predicate CreatEffect(s: State, own: Owner, s': State, own': Owner, name: Name, excl: bool, e: Err) {
    && CreatErr(s, name, excl, e) && FilesKept(s, own, s', own', {ROOT})
    && (if e == Ok && Lookup(Dir(s), name) == NOINO then exists k: nat :: Made(s, own, s', own', name, k)
        else SameNames(s, s'))
  }

  /** One new name for file k, or nothing, for the reason e. */
  ghost predicate LinkEffect(s: State, own: Owner, s': State, own': Owner, name: Name, k: nat, e: Err) {
    && LinkErr(s, name, e)
    && (if e == Ok then
          && NameSet(s, s', name, k) && FilesKept(s, own, s', own', {ROOT, k})
          && (k != ROOT && Live(own, k) ==> Live(own', k) && SameContent(s, s', k))
        else Same(s, own, s', own'))
  }

  /** The name gone, and the file with it if nobody else names or holds it. */
  ghost predicate RemoveEffect(s: State, own: Owner, s': State, own': Owner, name: Name, clean: bool) {
    var k := Lookup(Dir(s), name);
    || ((k == NOINO || !clean) && Same(s, own, s', own'))
    || (&& k != NOINO && NameSet(s, s', name, NOINO) && FilesKept(s, own, s', own', {ROOT, k})
        && (k != ROOT ==> Fate(s, own, s', own', k, clean)))
  }

  /** Name n1 turned into n2, or nothing, for the reason e. */
  ghost predicate RenameEffect(s: State, own: Owner, s': State, own': Owner, n1: Name, n2: Name, e: Err) {
    && RenameErr(s, n1, n2, e) && FilesKept(s, own, s', own', {ROOT})
    && (if e == Ok then NameMoved(s, s', n1, n2, Lookup(Dir(s), n1)) else SameNames(s, s'))
  }

  /** Nothing can be written at offset o of file k: no file is that long, or there
      is no block there and none to be had. */
  ghost predicate Stuck(s: State, k: nat, o: nat) {
    o >= MAXBLOCKS * BLOCKSIZE || (Slot(s, k, o / BLOCKSIZE) == 0 && Free(s) == {})
  }

  /** The first n bytes of the data in file k, and its size extended over them; all
      of them, unless there was a fault or nothing more could be written. */
  ghost predicate WriteEffect(s: State, own: Owner, s': State, own': Owner, k: nat, off: nat, data: seq<byte>, clean: bool) {
    && SameNames(s, s') && FilesKept(s, own, s', own', {ROOT, k})
    && exists n: nat ::
      && n <= |data| && FileWrite(s, own, s', own', k, off, data[..n], |data|, clean)
      && (clean && n < |data| ==> Stuck(s', k, off + n))
  }

  /** File k cut to len bytes, with its bytes as far as they stay. */
  ghost predicate CutEffect(s: State, own: Owner, s': State, own': Owner, k: nat, len: nat, clean: bool) {
    && SameNames(s, s') && FilesKept(s, own, s', own', {ROOT, k}) && HeadKept(s, s', k, len)
    && (clean ==> FileCut(s, own, s', own', k, len) && Node(s', k).size == len && forall t: nat :: SlotStays(s, s', k, len, t))
  }

  /** A reference to file k given up.  Other references keep the file as it is; with
      the last one a file without names goes, and its blocks are free. */
  ghost predicate CloseEffect(s: State, own: Owner, s': State, own': Owner, k: nat, clean: bool) {
    var last := Node(s, k).links == 0 && Refs(s, k) <= 1;
    && SameNames(s, s') && FilesKept(s, own, s', own', if last then {ROOT, k} else {ROOT})
    && (Refs(s, k) > 1 ==> Refd(s, s', k, -1))
    && (clean && last ==> !Live(own', k) && AllFreed(s, s', k))
  }

  /** What an operation does to who holds what, without a fault. */
  ghost predicate RefsEffect(s: State, s': State, op: Op) {
    match op
    case CreatOp(name, excl) =>
      var k := Lookup(Dir(s'), name);
      Refd(s, s', k, One(k != NOINO && (Lookup(Dir(s), name) == NOINO || !excl)))
    case LookupOp(name) => Refd(s, s', Lookup(Dir(s), name), One(Lookup(Dir(s), name) != NOINO))
    case CloseOp(k) => Refd(s, s', k, if k in s.vn then -1 else 0)
    case _ => Refd(s, s', 0, 0)
  }

  /** Without a fault no operation fails for one. */
  predicate Because(e: Err, clean: bool) { clean ==> !Faulty(e) }

  /** A rename of a name that stands for the root directory. */
  ghost predicate Deadly(s: State, op: Op) { op.RenameOp? && Lookup(Dir(s), op.n1) == ROOT }

  /** What an operation that comes back has done; `clean` if no request failed. */
  ghost predicate Effect(s: State, own: Owner, s': State, own': Owner, op: Op, clean: bool) {
    match op
    case CreatOp(name, excl) => exists e: Err :: Because(e, clean) && CreatEffect(s, own, s', own', name, excl, e)
    case LinkOp(name, k) =>
      if k in s.vn || k == ROOT then exists e: Err :: Because(e, clean) && LinkEffect(s, own, s', own', name, k, e)
      else Same(s, own, s', own')
    case RemoveOp(name) => RemoveEffect(s, own, s', own', name, clean)
    case RenameOp(n1, n2) =>
      && (clean ==> !Deadly(s, op))
      && exists e: Err :: Because(e, clean) && RenameEffect(s, own, s', own', n1, n2, e)
    case WriteOp(k, off, data) =>
      if k in s.vn && k != ROOT && off + |data| < 0x8000_0000 then WriteEffect(s, own, s', own', k, off, data, clean)
      else Same(s, own, s', own')
    case TruncateOp(k, len) =>
      if k in s.vn && k != ROOT && len < 0x8000_0000 then CutEffect(s, own, s', own', k, len, clean)
      else Same(s, own, s', own')
    case CloseOp(k) =>
      if k in s.vn then CloseEffect(s, own, s', own', k, clean) else Same(s, own, s', own')
    case _ => Same(s, own, s', own')
  }

  // Operations on the root directory fetch its vnode first and give it up after

  lemma KeptAround(s: State, own: Owner, s1: State, own1: Owner, s2: State, own2: Owner, s3: State, own3: Owner, but: set<nat>)
    requires FilesKept(s, own, s1, own1, {}) && FilesKept(s1, own1, s2, own2, but) && FilesKept(s2, own2, s3, own3, {})
    ensures FilesKept(s, own, s3, own3, but)
  {
    KeptMore(s, own, s1, own1, {}, but);
    KeptMore(s2, own2, s3, own3, {}, but);
    KeptTrans(s, own, s1, own1, s2, own2, but);
    KeptTrans(s, own, s2, own2, s3, own3, but);
  }

  /** Fetching the root, from s to s1, and giving it up, from s2 to s3. */
  ghost predicate Around(s: State, own: Owner, s1: State, s2: State, own2: Owner, s3: State, own3: Owner) {
    && Opened(s, s1, ROOT) && Dir(s1) == Dir(s) && FilesKept(s, own, s1, own, {})
    && Views(s2, own2, s3, own3, {ROOT}) && Dir(s3) == Dir(s2) && FilesKept(s2, own2, s3, own3, {})
  }

  lemma NamesAround(s: State, own: Owner, s1: State, s2: State, own2: Owner, s3: State, own3: Owner)
    requires Around(s, own, s1, s2, own2, s3, own3)
    ensures SameNames(s1, s2) ==> SameNames(s, s3)
    ensures forall name: Name, k: nat :: NameSet(s1, s2, name, k) ==> NameSet(s, s3, name, k)
    ensures forall n1: Name, n2: Name, k: nat :: NameMoved(s1, s2, n1, n2, k) ==> NameMoved(s, s3, n1, n2, k)
  {
    if SameNames(s1, s2) {
      forall n: Name ensures NameKept(s, s3, n) { assert NameKept(s1, s2, n); }
    }
  }

  lemma ContentAround(s: State, own: Owner, s1: State, s2: State, own2: Owner, s3: State, own3: Owner, k: nat)
    requires Around(s, own, s1, s2, own2, s3, own3) && Live(own, k) && Live(own2, k)
    ensures Live(own3, k) && SameMeta(s, s1, k) && SameMeta(s2, s3, k)
    ensures (forall o: nat :: ByteKept(s1, s2, k, o)) ==> forall o: nat :: ByteKept(s, s3, k, o)
  {
    assert FileKept(s, own, s1, own, k) && FileKept(s2, own2, s3, own3, k);
    if forall o: nat :: ByteKept(s1, s2, k, o) {
      forall o: nat ensures ByteKept(s, s3, k, o) {
        assert ByteKept(s, s1, k, o) && ByteKept(s1, s2, k, o) && ByteKept(s2, s3, k, o);
      }
    }
  }

  lemma CreatAround(s: State, own: Owner, s1: State, s2: State, own2: Owner, s3: State, own3: Owner,
                    name: Name, excl: bool, e: Err)
    requires Around(s, own, s1, s2, own2, s3, own3) && CreatEffect(s1, own, s2, own2, name, excl, e)
    ensures CreatEffect(s, own, s3, own3, name, excl, e)
  {
    RoomFound(s, s1, ROOT);
    CreatErrSame(s, s1, name, excl, e);
    NamesAround(s, own, s1, s2, own2, s3, own3);
    KeptAround(s, own, s1, own, s2, own2, s3, own3, {ROOT});
    if e == Ok && Lookup(Dir(s), name) == NOINO {
      var k: nat :| Made(s1, own, s2, own2, name, k);
      assert FileKept(s2, own2, s3, own3, k);
      assert Made(s, own, s3, own3, name, k);
    }
  }

  lemma LinkAround(s: State, own: Owner, s1: State, s2: State, own2: Owner, s3: State, own3: Owner, name: Name, k: nat, e: Err)
    requires Around(s, own, s1, s2, own2, s3, own3) && LinkEffect(s1, own, s2, own2, name, k, e)
    ensures LinkEffect(s, own, s3, own3, name, k, e)
  {
    RoomFound(s, s1, ROOT);
    LinkErrSame(s, s1, name, e);
    NamesAround(s, own, s1, s2, own2, s3, own3);
    if e == Ok {
      KeptAround(s, own, s1, own, s2, own2, s3, own3, {ROOT, k});
      if k != ROOT && Live(own, k) { ContentAround(s, own, s1, s2, own2, s3, own3, k); }
    } else {
      KeptAround(s, own, s1, own, s2, own2, s3, own3, {ROOT});
    }
  }

  lemma RemoveAround(s: State, own: Owner, s1: State, s2: State, own2: Owner, s3: State, own3: Owner, name: Name, clean: bool)
    requires Around(s, own, s1, s2, own2, s3, own3) && RemoveEffect(s1, own, s2, own2, name, clean)
    requires Lookup(Dir(s), name) != NOINO ==> Live(own, Lookup(Dir(s), name))
    ensures RemoveEffect(s, own, s3, own3, name, clean)
  {
    var k := Lookup(Dir(s), name);
    NamesAround(s, own, s1, s2, own2, s3, own3);
    if Same(s1, own, s2, own2) { KeptAround(s, own, s1, own, s2, own2, s3, own3, {ROOT}); }
    if k != NOINO && NameSet(s1, s2, name, NOINO) && FilesKept(s1, own, s2, own2, {ROOT, k})
       && (k != ROOT ==> Fate(s1, own, s2, own2, k, clean)) {
      KeptAround(s, own, s1, own, s2, own2, s3, own3, {ROOT, k});
      if k != ROOT { FateAround(s, own, s1, s2, own2, s3, own3, k, clean); }
    }
  }

  lemma FateAround(s: State, own: Owner, s1: State, s2: State, own2: Owner, s3: State, own3: Owner, k: nat, clean: bool)
    requires Around(s, own, s1, s2, own2, s3, own3) && Fate(s1, own, s2, own2, k, clean) && k != ROOT && Live(own, k)
    ensures Fate(s, own, s3, own3, k, clean)
  {
    assert FileKept(s, own, s1, own, k) && (k in s1.vn <==> k in s.vn);
    assert ViewAt(s2, own2, s3, own3, k);
    if Live(own2, k) { ContentAround(s, own, s1, s2, own2, s3, own3, k); }
  }

  lemma RenameAround(s: State, own: Owner, s1: State, s2: State, own2: Owner, s3: State, own3: Owner, n1: Name, n2: Name, e: Err)
    requires Around(s, own, s1, s2, own2, s3, own3) && RenameEffect(s1, own, s2, own2, n1, n2, e)
    ensures RenameEffect(s, own, s3, own3, n1, n2, e)
  {
    RoomFound(s, s1, ROOT);
    if LinkErr(s1, n2, e) { LinkErrSame(s, s1, n2, e); }
    NamesAround(s, own, s1, s2, own2, s3, own3);
    KeptAround(s, own, s1, own, s2, own2, s3, own3, {ROOT});
  }

  lemma RefsAround(s: State, own: Owner, s1: State, s2: State, own2: Owner, s3: State, own3: Owner, op: Op)
    requires Around(s, own, s1, s2, own2, s3, own3) && RefsEffect(s1, s2, op) && Refd(s2, s3, ROOT, -1) && RootOp(op)
    ensures RefsEffect(s, s3, op)
  {
    RefdOpened(s, s1, ROOT);
    if op.CreatOp? {
      var k := Lookup(Dir(s2), op.name);
      RefdAround(s, s1, s2, s3, ROOT, k, One(k != NOINO && (Lookup(Dir(s), op.name) == NOINO || !op.excl)));
    } else if op.LookupOp? {
      RefdAround(s, s1, s2, s3, ROOT, Lookup(Dir(s), op.name), One(Lookup(Dir(s), op.name) != NOINO));
    } else {
      RefdAround(s, s1, s2, s3, ROOT, 0, 0);
    }
  }

  lemma SameAround(s: State, own: Owner, s1: State, s2: State, own2: Owner, s3: State, own3: Owner)
    requires Around(s, own, s1, s2, own2, s3, own3) && Same(s1, own, s2, own2)
    ensures Same(s, own, s3, own3)
  {
    NamesAround(s, own, s1, s2, own2, s3, own3);
    KeptAround(s, own, s1, own, s2, own2, s3, own3, {ROOT});
  }

  // The name of the root

  /** No name stands for the root directory. */
  ghost predicate RootUnnamed(s: State) { forall n: Name :: Lookup(Dir(s), n) != ROOT }

  predicate LinksRoot(op: Op) { op.LinkOp? && op.k == ROOT }

  lemma RootSame(s: State, s': State)
    requires RootUnnamed(s) && SameNames(s, s')
    ensures RootUnnamed(s')
  {
    forall n: Name ensures Lookup(Dir(s'), n) != ROOT { assert NameKept(s, s', n); }
  }

  /** Only link can give the root a name. */
  lemma OnlyLinkNamesRoot(s: State, own: Owner, s': State, own': Owner, op: Op, clean: bool)
    requires RootUnnamed(s) && Effect(s, own, s', own', op, clean) && !LinksRoot(op) && Live(own, ROOT)
    ensures RootUnnamed(s')
  {
    if SameNames(s, s') {
      RootSame(s, s');
    } else if op.CreatOp? {
      var e: Err :| Because(e, clean) && CreatEffect(s, own, s', own', op.name, op.excl, e);
      var k: nat :| Made(s, own, s', own', op.name, k);
    } else if op.LinkOp? {
      var e: Err :| Because(e, clean) && LinkEffect(s, own, s', own', op.name, op.k, e);
    } else if op.RenameOp? {
      var e: Err :| Because(e, clean) && RenameEffect(s, own, s', own', op.n1, op.n2, e);
    }
  }

  // What lasts

  /** The operation does not take name n away, nor change file k. */
  predicate Spares(op: Op, n: Name, k: nat) {
    match op
    case RemoveOp(name) => name != n
    case RenameOp(n1, _) => n1 != n
    case WriteOp(x, _, _) => x != k
    case TruncateOp(x, _) => x != k
    case _ => true
  }

  /** Two names make two links. */
  lemma TwoNames(d: seq<Entry>, n: Name, m: Name)
    requires n != m && Lookup(d, n) == Lookup(d, m) != NOINO
    ensures Count(d, Lookup(d, n)) >= 2
  {
    var i := LookupSome(d, n);
    var j := LookupSome(d, m);
    var k := Lookup(d, n);
    CountUpdate(d, i, Entry(NOINO, []), k);
    assert d[i := Entry(NOINO, [])][j] == d[j];
    CountHit(d[i := Entry(NOINO, [])], j);
  }

  /** File k, named n, as it was. */
  ghost predicate Kept(s: State, s': State, n: Name, k: nat) {
    Lookup(Dir(s'), n) == k && SameContent(s, s', k)
  }

  lemma KeptSame(s: State, own: Owner, s': State, own': Owner, but: set<nat>, n: Name, k: nat)
    requires SameNames(s, s') && FilesKept(s, own, s', own', but) && k !in but && Lookup(Dir(s), n) == k && Live(own, k)
    ensures Kept(s, s', n, k)
  {
    assert NameKept(s, s', n) && FileKept(s, own, s', own', k);
  }

  lemma LastsCreat(s: State, own: Owner, s': State, own': Owner, name: Name, excl: bool, e: Err, n: Name, k: nat)
    requires CreatEffect(s, own, s', own', name, excl, e)
    requires Lookup(Dir(s), n) == k != NOINO && k != ROOT && Live(own, k)
    ensures Kept(s, s', n, k)
  {
    if SameNames(s, s') {
      KeptSame(s, own, s', own', {ROOT}, n, k);
    } else {
      var x: nat :| Made(s, own, s', own', name, x);
      assert FileKept(s, own, s', own', k);
    }
  }

  lemma LastsLink(s: State, own: Owner, s': State, own': Owner, name: Name, x: nat, e: Err, n: Name, k: nat)
    requires LinkEffect(s, own, s', own', name, x, e)
    requires Lookup(Dir(s), n) == k != NOINO && k != ROOT && Live(own, k)
    ensures Kept(s, s', n, k)
  {
    if e != Ok {
      KeptSame(s, own, s', own', {ROOT}, n, k);
    } else if x != k {
      assert FileKept(s, own, s', own', k);
    }
  }

  lemma LastsRename(s: State, own: Owner, s': State, own': Owner, n1: Name, n2: Name, e: Err, n: Name, k: nat)
    requires RenameEffect(s, own, s', own', n1, n2, e) && n1 != n
    requires Lookup(Dir(s), n) == k != NOINO && k != ROOT && Live(own, k)
    ensures Kept(s, s', n, k)
  {
    if e != Ok { KeptSame(s, own, s', own', {ROOT}, n, k); }
    assert FileKept(s, own, s', own', k);
  }

  /** File k, named n, through one operation that spares them. */
  lemma Lasts(s: State, own: Owner, s': State, own': Owner, op: Op, n: Name, k: nat)
    requires Consistent(s, own) && Effect(s, own, s', own', op, true) && Spares(op, n, k)
    requires Lookup(Dir(s), n) == k != NOINO && k != ROOT
    ensures Kept(s, s', n, k)
  {
    var i := LookupSome(Dir(s), n);
    NamedLive(s, own, i);
    if op.CreatOp? {
      var e: Err :| Because(e, true) && CreatEffect(s, own, s', own', op.name, op.excl, e);
      LastsCreat(s, own, s', own', op.name, op.excl, e, n, k);
    } else if op.LinkOp? && (op.k in s.vn || op.k == ROOT) {
      var e: Err :| Because(e, true) && LinkEffect(s, own, s', own', op.name, op.k, e);
      LastsLink(s, own, s', own', op.name, op.k, e, n, k);
    } else if op.RemoveOp? {
      LastsRemove(s, own, s', own', op.name, n, k);
    } else if op.RenameOp? {
      var e: Err :| Because(e, true) && RenameEffect(s, own, s', own', op.n1, op.n2, e);
      LastsRename(s, own, s', own', op.n1, op.n2, e, n, k);
    } else {
      KeptSame(s, own, s', own', if Same(s, own, s', own') then {ROOT} else {ROOT, op.k}, n, k);
    }
  }

  lemma LastsRemove(s: State, own: Owner, s': State, own': Owner, name: Name, n: Name, k: nat)
    requires Consistent(s, own) && RemoveEffect(s, own, s', own', name, true) && name != n
    requires Lookup(Dir(s), n) == k != NOINO && k != ROOT && Live(own, k)
    ensures Kept(s, s', n, k)
  {
    if Lookup(Dir(s), name) == k {
      TwoNames(Dir(s), n, name);
      assert NodeOk(s, own, Dir(s), NOINO, 0, k);
    } else {
      assert FileKept(s, own, s', own', k);
      if SameNames(s, s') { assert NameKept(s, s', n); }
    }
  }

  // Whole runs

  /** A state, and how many requests had failed by then. */
  datatype Moment = Moment(s: State, own: Owner, faults: nat)

  ghost predicate Between(a: Moment, b: Moment, op: Op) {
    && a.faults <= b.faults && Effect(a.s, a.own, b.s, b.own, op, b.faults == a.faults)
    && (b.faults == a.faults ==> RefsEffect(a.s, b.s, op))
  }

  ghost predicate InOrder(a: Moment) { Consistent(a.s, a.own) }

  ghost predicate OrderAt(h: seq<Moment>, i: nat) { i < |h| ==> InOrder(h[i]) }

  ghost predicate StepAt(h: seq<Moment>, ops: seq<Op>, i: nat) {
    i < |ops| && i + 1 < |h| ==> Between(h[i], h[i + 1], ops[i])
  }

  /** A sequence of moments, each in order, with what each operation does between. */
  ghost predicate History(h: seq<Moment>, ops: seq<Op>) {
    && |h| == |ops| + 1
    && (forall i: nat :: OrderAt(h, i))
    && (forall i: nat :: StepAt(h, ops, i))
  }

  lemma HistoryMore(h: seq<Moment>, ops: seq<Op>, m: Moment, op: Op)
    requires History(h, ops) && InOrder(m) && Between(h[|ops|], m, op)
    ensures History(h + [m], ops + [op])
  {
    var h', ops' := h + [m], ops + [op];
    forall i: nat ensures OrderAt(h', i) { assert OrderAt(h, i); }
    forall i: nat ensures StepAt(h', ops', i) { assert StepAt(h, ops, i); }
  }

  lemma KeptTwice(h: seq<Moment>, ops: seq<Op>, m: nat, n: Name, k: nat)
    requires History(h, ops) && m < |ops| && Spares(ops[m], n, k) && k != NOINO && k != ROOT
    requires Kept(h[0].s, h[m].s, n, k) && h[m + 1].faults == h[m].faults
    ensures Kept(h[0].s, h[m + 1].s, n, k)
  {
    var a, b, c := h[0], h[m], h[m + 1];
    assert OrderAt(h, m) && StepAt(h, ops, m);
    Lasts(b.s, b.own, c.s, c.own, ops[m], n, k);
    forall o: nat ensures ByteKept(a.s, c.s, k, o) { assert ByteKept(a.s, b.s, k, o) && ByteKept(b.s, c.s, k, o); }
  }

  lemma {:induction false} FaultsGrow(h: seq<Moment>, ops: seq<Op>, m: nat)
    requires History(h, ops) && m <= |ops|
    ensures h[0].faults <= h[m].faults && (m > 0 ==> h[0].faults <= h[m - 1].faults <= h[m].faults)
  {
    if m > 0 {
      FaultsGrow(h, ops, m - 1);
      assert StepAt(h, ops, m - 1);
    }
  }

  /** A file keeps its name and its contents through every history without faults
      whose operations do not take the name away or change the file, whatever they
      do to others. */
  lemma {:induction false} ContentLasts(h: seq<Moment>, ops: seq<Op>, n: Name, k: nat, m: nat)
    requires History(h, ops) && m <= |ops| && Lookup(Dir(h[0].s), n) == k != NOINO && k != ROOT
    requires h[m].faults == h[0].faults && forall i :: 0 <= i < m ==> Spares(ops[i], n, k)
    ensures Kept(h[0].s, h[m].s, n, k)
  {
    if m == 0 {
      forall o: nat ensures ByteKept(h[0].s, h[0].s, k, o) {}
    } else {
      FaultsGrow(h, ops, m);
      ContentLasts(h, ops, n, k, m - 1);
      KeptTwice(h, ops, m - 1, n, k);
    }
  }
}
