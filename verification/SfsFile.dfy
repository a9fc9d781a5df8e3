/** A file as a flat array of bytes, and writes to it. */
module SfsFile {
  import opened SfsLayout
  import opened SfsState
  import U = Uio

  ghost predicate StoredAt(s: State, k: nat, off: nat, bytes: seq<byte>, i: nat) {
    i < |bytes| ==> FByte(s, k, off + i) == bytes[i]
  }

  /** File k holds `bytes` from offset off on. */
  ghost predicate Stored(s: State, k: nat, off: nat, bytes: seq<byte>) {
    forall i: nat :: StoredAt(s, k, off, bytes, i)
  }

  ghost predicate ByteKept(s: State, s': State, x: nat, o: nat) {
    FByte(s', x, o) == FByte(s, x, o)
  }

  /** Inode x is the same except that bytes lo..hi of file k may differ. */
  ghost predicate TouchAt(s: State, own: Owner, s': State, own': Owner, k: nat, lo: nat, hi: nat, x: nat) {
    && (Live(own', x) <==> Live(own, x))
    && (Live(own, x) ==>
          && SameMeta(s, s', x)
          && forall o: nat :: x != k || o < lo || hi <= o ==> ByteKept(s, s', x, o))
  }

  /** Nothing but bytes lo..hi of file k changed. */
  ghost predicate Touches(s: State, own: Owner, s': State, own': Owner, k: nat, lo: nat, hi: nat) {
    && SameTable(s, s')
    && forall x: nat :: TouchAt(s, own, s', own', k, lo, hi, x)
  }

  lemma TouchNothing(s: State, own: Owner, s': State, own': Owner, k: nat, lo: nat)
    requires Extends(s, own, s', own')
    ensures Touches(s, own, s', own', k, lo, lo)
  {
    forall x: nat ensures TouchAt(s, own, s', own', k, lo, lo, x) {
      assert SameAt(s, own, s', own', x);
      if Live(own, x) {
        forall o: nat ensures ByteKept(s, s', x, o) {
          assert FBlock(s', x, o / BLOCKSIZE) == FBlock(s, x, o / BLOCKSIZE);
        }
      }
    }
  }

  lemma TouchTrans(s: State, own: Owner, s1: State, own1: Owner, s2: State, own2: Owner, k: nat, lo: nat, mid: nat, hi: nat)
    requires lo <= mid <= hi
    requires Touches(s, own, s1, own1, k, lo, mid) && Touches(s1, own1, s2, own2, k, mid, hi)
    ensures Touches(s, own, s2, own2, k, lo, hi)
  {
    TableTrans(s, s1, s2);
    forall x: nat ensures TouchAt(s, own, s2, own2, k, lo, hi, x) {
      assert TouchAt(s, own, s1, own1, k, lo, mid, x) && TouchAt(s1, own1, s2, own2, k, mid, hi, x);
      if Live(own, x) {
        forall o: nat | x != k || o < lo || hi <= o ensures ByteKept(s, s2, x, o) {
          assert ByteKept(s, s1, x, o) && ByteKept(s1, s2, x, o);
        }
      }
    }
  }

  lemma StoredConcat(s: State, k: nat, off: nat, b1: seq<byte>, b2: seq<byte>)
    requires Stored(s, k, off, b1) && Stored(s, k, off + |b1|, b2)
    ensures Stored(s, k, off, b1 + b2)
  {
    forall i: nat ensures StoredAt(s, k, off, b1 + b2, i) {
      if i < |b1| { assert StoredAt(s, k, off, b1, i); }
      else if i < |b1| + |b2| { assert StoredAt(s, k, off + |b1|, b2, i - |b1|); }
    }
  }

  /** Bytes below the touched range survive. */
  lemma StoredKept(s: State, own: Owner, s': State, own': Owner, k: nat, lo: nat, hi: nat, off: nat, bytes: seq<byte>)
    requires Touches(s, own, s', own', k, lo, hi) && Live(own, k) && off + |bytes| <= lo
    requires Stored(s, k, off, bytes)
    ensures Stored(s', k, off, bytes)
  {
    assert TouchAt(s, own, s', own', k, lo, hi, k);
    forall i: nat ensures StoredAt(s', k, off, bytes, i) {
      assert StoredAt(s, k, off, bytes, i);
      if i < |bytes| { assert ByteKept(s, s', k, off + i); }
    }
  }

  lemma FByteAt(s: State, k: nat, fb: nat, i: nat)
    requires i < BLOCKSIZE
    ensures FByte(s, k, fb * BLOCKSIZE + i) == FBlock(s, k, fb)[i]
  {
    assert (fb * BLOCKSIZE + i) / BLOCKSIZE == fb && (fb * BLOCKSIZE + i) % BLOCKSIZE == i;
  }

  /** The byte at o when block fb of file k became `data`. */
  lemma DataByte(s: State, s': State, k: nat, fb: nat, data: Block, x: nat, o: nat)
    requires BlockSet(s, s', k, fb, data, x)
    ensures FByte(s', x, o) == if x == k && o / BLOCKSIZE == fb then data[o % BLOCKSIZE] else FByte(s, x, o)
  {
    assert FBlock(s', x, o / BLOCKSIZE) == if x == k && o / BLOCKSIZE == fb then data else FBlock(s, x, o / BLOCKSIZE);
  }

  lemma TouchByte(s: State, s': State, k: nat, fb: nat, a: nat, bytes: seq<byte>, x: nat, o: nat)
    requires a + |bytes| <= BLOCKSIZE
    requires BlockSet(s, s', k, fb, U.Splice(FBlock(s, k, fb), a, bytes), x)
    ensures x != k || o < fb * BLOCKSIZE + a || fb * BLOCKSIZE + a + |bytes| <= o ==> ByteKept(s, s', x, o)
    ensures x == k && fb * BLOCKSIZE + a <= o < fb * BLOCKSIZE + a + |bytes| ==>
      FByte(s', k, o) == bytes[o - (fb * BLOCKSIZE + a)]
  {
    DataByte(s, s', k, fb, U.Splice(FBlock(s, k, fb), a, bytes), x, o);
    U.SpliceAt(FBlock(s, k, fb), a, bytes, o % BLOCKSIZE);
  }

  lemma TouchFile(s: State, own: Owner, s': State, k: nat, fb: nat, a: nat, bytes: seq<byte>, x: nat)
    requires a + |bytes| <= BLOCKSIZE && BlockSet(s, s', k, fb, U.Splice(FBlock(s, k, fb), a, bytes), x)
    ensures TouchAt(s, own, s', own, k, fb * BLOCKSIZE + a, fb * BLOCKSIZE + a + |bytes|, x)
  {
    var lo, hi := fb * BLOCKSIZE + a, fb * BLOCKSIZE + a + |bytes|;
    forall o: nat | x != k || o < lo || hi <= o ensures ByteKept(s, s', x, o) {
      TouchByte(s, s', k, fb, a, bytes, x, o);
    }
  }

  lemma TouchStored(s: State, s': State, k: nat, fb: nat, a: nat, bytes: seq<byte>)
    requires a + |bytes| <= BLOCKSIZE && BlockSet(s, s', k, fb, U.Splice(FBlock(s, k, fb), a, bytes), k)
    ensures Stored(s', k, fb * BLOCKSIZE + a, bytes)
  {
    var lo := fb * BLOCKSIZE + a;
    forall i: nat ensures StoredAt(s', k, lo, bytes, i) {
      if i < |bytes| { TouchByte(s, s', k, fb, a, bytes, k, lo + i); }
    }
  }

  /** Writing `bytes` over part of a mapped block. */
  lemma TouchWrite(s: State, own: Owner, s': State, k: nat, fb: nat, a: nat, bytes: seq<byte>)
    requires Blocks(s, own) && Live(own, k) && fb < MAXBLOCKS && 0 < Slot(s, k, fb) < |s.disk|
      && a + |bytes| <= BLOCKSIZE
    requires s' == SetDisk(s, Slot(s, k, fb), U.Splice(FBlock(s, k, fb), a, bytes))
    ensures Blocks(s', own) && Leaked(s', own) == Leaked(s, own)
    ensures Touches(s, own, s', own, k, fb * BLOCKSIZE + a, fb * BLOCKSIZE + a + |bytes|)
    ensures Stored(s', k, fb * BLOCKSIZE + a, bytes)
  {
    var data := U.Splice(FBlock(s, k, fb), a, bytes);
    DataWrite(s, own, s', k, fb, data);
    var lo, hi := fb * BLOCKSIZE + a, fb * BLOCKSIZE + a + |bytes|;
    forall x: nat ensures TouchAt(s, own, s', own, k, lo, hi, x) {
      if Live(own, x) {
        assert BlockSet(s, s', k, fb, data, x);
        TouchFile(s, own, s', k, fb, a, bytes, x);
      }
    }
    assert BlockSet(s, s', k, fb, data, k);
    TouchStored(s, s', k, fb, a, bytes);
  }

  // Transfers in pieces

  /** Byte i of memory after n bytes of the file were read to `base` over `data0`. */
  ghost predicate ReadAt(s: State, k: nat, off: nat, n: nat, data0: seq<byte>, base: nat, data: seq<byte>, i: nat) {
    i < |data0| && i < |data| ==> data[i] == if base <= i < base + n then FByte(s, k, off + (i - base)) else data0[i]
  }

  ghost predicate HasRead(s: State, k: nat, off: nat, n: nat, data0: seq<byte>, base: nat, data: seq<byte>) {
    base + n <= |data0| && |data| == |data0| && forall i: nat :: ReadAt(s, k, off, n, data0, base, data, i)
  }

  lemma HasReadNothing(s: State, k: nat, off: nat, data: seq<byte>, base: nat)
    requires base <= |data|
    ensures HasRead(s, k, off, 0, data, base, data)
  {
    forall i: nat ensures ReadAt(s, k, off, 0, data, base, data, i) {}
  }

  lemma HasReadMore(s: State, k: nat, off: nat, m: nat, n: nat, data0: seq<byte>, base: nat, data1: seq<byte>, data2: seq<byte>)
    requires HasRead(s, k, off, m, data0, base, data1) && HasRead(s, k, off + m, n, data1, base + m, data2)
    ensures HasRead(s, k, off, m + n, data0, base, data2)
  {
    var mn := m + n;
    forall i: nat ensures ReadAt(s, k, off, mn, data0, base, data2, i) {
      assert ReadAt(s, k, off, m, data0, base, data1, i) && ReadAt(s, k, off + m, n, data1, base + m, data2, i);
    }
  }

  /** Part of a block moved into memory. */
  lemma HasReadBlock(s: State, k: nat, fb: nat, a: nat, n: nat, data0: seq<byte>, base: nat)
    requires a + n <= BLOCKSIZE && base + n <= |data0|
    ensures HasRead(s, k, fb * BLOCKSIZE + a, n, data0, base, U.Splice(data0, base, FBlock(s, k, fb)[a..a + n]))
  {
    var bytes := FBlock(s, k, fb)[a..a + n];
    var data, off := U.Splice(data0, base, bytes), fb * BLOCKSIZE + a;
    forall i: nat ensures ReadAt(s, k, off, n, data0, base, data, i) {
      if i < |data0| {
        U.SpliceAt(data0, base, bytes, i);
        if base <= i < base + n { FByteAt(s, k, fb, a + (i - base)); }
      }
    }
  }

  lemma HasReadWhole(s: State, k: nat, fb: nat, data0: seq<byte>, base: nat)
    requires base + BLOCKSIZE <= |data0|
    ensures HasRead(s, k, fb * BLOCKSIZE, BLOCKSIZE, data0, base, U.Splice(data0, base, FBlock(s, k, fb)))
  {
    HasReadBlock(s, k, fb, 0, BLOCKSIZE, data0, base);
    assert FBlock(s, k, fb)[0..BLOCKSIZE] == FBlock(s, k, fb);
  }

  /** A transfer of n bytes at off may stop after m: at the start, at the end, or
      between two blocks. */
  predicate Stops(off: nat, n: nat, m: nat) {
    m <= n && (m == 0 || m == n || (off + m) % BLOCKSIZE == 0)
  }

  lemma StopsMore(off: nat, n: nat, m: nat, n': nat)
    requires m == 0 || (off + m) % BLOCKSIZE == 0
    requires m <= n && Stops(off + m, n - m, n')
    ensures Stops(off, n, m + n')
  {
  }

  /** The first m of `bytes` are at off of file k; nothing else changed. */
  ghost predicate Wrote(s0: State, own0: Owner, s: State, own: Owner, k: nat, off: nat, bytes: seq<byte>, m: nat) {
    && Stops(off, |bytes|, m)
    && Touches(s0, own0, s, own, k, off, off + m)
    && Stored(s, k, off, bytes[..m])
  }

  /** Bytes m to n of a write at off are counted but not stored: none, or part of
      one block, at most `most` of them. */
  predicate Gap(off: nat, m: nat, n: nat, most: nat) {
    m == n || (m < n <= m + most && (off + m) % BLOCKSIZE + (n - m) <= BLOCKSIZE)
  }

  /** Of a request for `total` bytes that counts n as written, m are on the file:
      without a fault all n, and with one not the whole request, and all but the
      last piece of what was counted. */
  predicate Lands(off: nat, m: nat, n: nat, total: nat, exact: bool, most: nat) {
    if exact then m == n else (m < total || total == 0) && Gap(off, m, n, most)
  }

  /** The bytes a request counts as written, as far as they landed. */
  ghost predicate HasWritten(s0: State, own0: Owner, s: State, own: Owner, k: nat, off: nat, bytes: seq<byte>,
                             total: nat, exact: bool, most: nat) {
    exists m: nat :: Lands(off, m, |bytes|, total, exact, most) && Wrote(s0, own0, s, own, k, off, bytes, m)
  }

  /** What a failed write counts too much is the one piece it moved last: up to the
      end of a block or of the request, and not a whole block. */
  lemma LostPiece(off: nat, m: nat, n: nat, total: nat)
    requires Stops(off, total, n) && Stops(off, n, m) && m < n && Gap(off, m, n, BLOCKSIZE - 1)
    ensures n - m == U.Min(BLOCKSIZE - (off + m) % BLOCKSIZE, total - m)
    ensures n == total || (m == 0 && off % BLOCKSIZE != 0)
  {
    if n != total { LostHead(off, m, n); }
  }

  lemma LostHead(off: nat, m: nat, n: nat)
    requires m < n < m + BLOCKSIZE && (off + n) % BLOCKSIZE == 0 && (off + m) % BLOCKSIZE + (n - m) <= BLOCKSIZE
    ensures (off + m) % BLOCKSIZE != 0 && n - m == BLOCKSIZE - (off + m) % BLOCKSIZE
  {
    var r := (off + m) % BLOCKSIZE;
    assert (r + (n - m)) % BLOCKSIZE == 0;
  }

  lemma HasWrittenUpTo(s0: State, own0: Owner, s: State, own: Owner, k: nat, off: nat, bytes: seq<byte>,
                       total: nat, exact: bool, most: nat, more: nat)
    requires HasWritten(s0, own0, s, own, k, off, bytes, total, exact, most) && most <= more
    ensures HasWritten(s0, own0, s, own, k, off, bytes, total, exact, more)
  {
    var m: nat :| Lands(off, m, |bytes|, total, exact, most) && Wrote(s0, own0, s, own, k, off, bytes, m);
    assert Lands(off, m, |bytes|, total, exact, more);
  }

  lemma WroteMore(s0: State, own0: Owner, s1: State, own1: Owner, s2: State, own2: Owner, k: nat, off: nat,
                  b1: seq<byte>, b2: seq<byte>, m: nat)
    requires Live(own0, k) && (b1 == [] || (off + |b1|) % BLOCKSIZE == 0)
    requires Wrote(s0, own0, s1, own1, k, off, b1, |b1|)
    requires Wrote(s1, own1, s2, own2, k, off + |b1|, b2, m)
    ensures Wrote(s0, own0, s2, own2, k, off, b1 + b2, |b1| + m)
  {
    var mid, hi := off + |b1|, off + |b1| + m;
    StopsMore(off, |b1| + |b2|, |b1|, m);
    TouchTrans(s0, own0, s1, own1, s2, own2, k, off, mid, hi);
    assert TouchAt(s0, own0, s1, own1, k, off, mid, k);
    assert b1[..|b1|] == b1 && (b1 + b2)[..|b1| + m] == b1 + b2[..m];
    StoredKept(s1, own1, s2, own2, k, mid, hi, off, b1);
    StoredConcat(s2, k, off, b1, b2[..m]);
  }

  lemma HasWrittenMore(s0: State, own0: Owner, s1: State, own1: Owner, s2: State, own2: Owner, k: nat, off: nat,
                       b1: seq<byte>, b2: seq<byte>, total: nat, exact: bool, most: nat)
    requires Live(own0, k) && (b1 == [] || (off + |b1|) % BLOCKSIZE == 0)
    requires |b1| < total || |b1| == total == 0
    requires HasWritten(s0, own0, s1, own1, k, off, b1, total, true, most)
    requires HasWritten(s1, own1, s2, own2, k, off + |b1|, b2, total - |b1|, exact, most)
    ensures HasWritten(s0, own0, s2, own2, k, off, b1 + b2, total, exact, most)
  {
    var m: nat :| Lands(off + |b1|, m, |b2|, total - |b1|, exact, most) && Wrote(s1, own1, s2, own2, k, off + |b1|, b2, m);
    WroteMore(s0, own0, s1, own1, s2, own2, k, off, b1, b2, m);
    assert Lands(off, |b1| + m, |b1 + b2|, total, exact, most);
  }

  /** A write that reached no disk block. */
  lemma HasWrittenNothing(s: State, own: Owner, s': State, own': Owner, k: nat, off: nat, bytes: seq<byte>,
                          total: nat, exact: bool, most: nat)
    requires Extends(s, own, s', own') && (exact ==> bytes == [])
    requires |bytes| <= most && (bytes == [] || off % BLOCKSIZE + |bytes| <= BLOCKSIZE)
    ensures HasWritten(s, own, s', own', k, off, bytes, total, exact, most)
  {
    assert Lands(off, 0, |bytes|, total, exact, most);
    TouchNothing(s, own, s', own', k, off);
    forall i: nat ensures StoredAt(s', k, off, bytes[..0], i) {}
    assert Wrote(s, own, s', own', k, off, bytes, 0);
  }

  /** Mapping a block and then writing part of it. */
  lemma HasWrittenBlock(s: State, own: Owner, s1: State, s2: State, own1: Owner, k: nat, fb: nat, a: nat, bytes: seq<byte>,
                        total: nat, most: nat)
    requires Extends(s, own, s1, own1) && Blocks(s1, own1) && Live(own, k) && Live(own1, k)
    requires fb < MAXBLOCKS && Slot(s1, k, fb) != 0 && a + |bytes| <= BLOCKSIZE && Slot(s1, k, fb) < |s1.disk|
    requires s2 == SetDisk(s1, Slot(s1, k, fb), U.Splice(FBlock(s1, k, fb), a, bytes))
    ensures Blocks(s2, own1) && Leaked(s2, own1) == Leaked(s1, own1)
    ensures HasWritten(s, own, s2, own1, k, fb * BLOCKSIZE + a, bytes, total, true, most)
  {
    TouchWrite(s1, own1, s2, k, fb, a, bytes);
    WroteBlock(s, own, s1, s2, own1, k, fb * BLOCKSIZE + a, bytes, total, most);
  }

  /** Mapping a block and then writing all of it. */
  lemma HasWrittenWhole(s: State, own: Owner, s1: State, s2: State, own1: Owner, k: nat, fb: nat, bytes: Block, total: nat)
    requires Extends(s, own, s1, own1) && Blocks(s1, own1) && Live(own, k) && Live(own1, k)
    requires fb < MAXBLOCKS && Slot(s1, k, fb) != 0 && Slot(s1, k, fb) < |s1.disk|
    requires s2 == SetDisk(s1, Slot(s1, k, fb), bytes)
    ensures Blocks(s2, own1) && Leaked(s2, own1) == Leaked(s1, own1)
    ensures HasWritten(s, own, s2, own1, k, fb * BLOCKSIZE, bytes, total, true, 0)
  {
    assert U.Splice(FBlock(s1, k, fb), 0, bytes) == bytes;
    HasWrittenBlock(s, own, s1, s2, own1, k, fb, 0, bytes, total, 0);
  }

  lemma WroteBlock(s: State, own: Owner, s1: State, s2: State, own1: Owner, k: nat, lo: nat, bytes: seq<byte>,
                   total: nat, most: nat)
    requires Extends(s, own, s1, own1) && Touches(s1, own1, s2, own1, k, lo, lo + |bytes|) && Stored(s2, k, lo, bytes)
    ensures HasWritten(s, own, s2, own1, k, lo, bytes, total, true, most)
  {
    assert Lands(lo, |bytes|, |bytes|, total, true, most);
    TouchNothing(s, own, s1, own1, k, lo);
    TouchTrans(s, own, s1, own1, s2, own1, k, lo, lo, lo + |bytes|);
    assert bytes[..|bytes|] == bytes;
    assert Wrote(s, own, s2, own1, k, lo, bytes, |bytes|);
  }

  /** The file system and a request at one moment. */
  datatype Point = Point(s: State, own: Owner, faults: nat, leaks: nat,
                         data: seq<byte>, base: nat, offset: nat, iovlen: nat, resid: nat)

  /** From moment a to moment c, file k and the request agree on the bytes moved,
      offset, resid and iovec account for each, nothing else changes, without
      faults nothing leaks, and a file has no bytes past its last block.  A fault
      can leave up to `most` bytes counted but not stored. */
  ghost predicate Moved(a: Point, c: Point, k: nat, rw: U.Direction, most: nat) {
    && c.offset >= a.offset && |c.data| == |a.data| && a.base + a.iovlen <= |a.data| && c.iovlen >= 0
    && c.base == a.base + (c.offset - a.offset) && c.iovlen == a.iovlen - (c.offset - a.offset)
    && c.resid == a.resid - (c.offset - a.offset)
    && (if rw.Read? then MovedIn(a, c, k) else MovedOut(a, c, k, most))
    && c.faults >= a.faults && (c.faults == a.faults ==> c.leaks == a.leaks)
    && (c.offset == a.offset || c.offset <= MAXBLOCKS * BLOCKSIZE)
  }

  ghost predicate MovedIn(a: Point, c: Point, k: nat) {
    && Untouched(a.s, a.own, c.s, c.own)
    && c.offset >= a.offset && HasRead(c.s, k, a.offset, c.offset - a.offset, a.data, a.base, c.data)
  }

  ghost predicate MovedOut(a: Point, c: Point, k: nat, most: nat) {
    && c.data == a.data && a.base <= c.base <= |c.data|
    && HasWritten(a.s, a.own, c.s, c.own, k, a.offset, c.data[a.base..c.base], a.resid, c.faults == a.faults, most)
  }

  function CursorAt(a: Point): U.Cursor { U.Cursor(|a.data|, a.base, a.iovlen, a.offset, a.resid) }

  /** A read of file k between two moments: the request got the bytes of the file
      up to where it stands, which is not past the end, and all of them if it
      succeeded; nothing changed. */
  ghost predicate ReadDone(a: Point, c: Point, k: nat, ok: bool) {
    && Untouched(a.s, a.own, c.s, c.own)
    && c.offset >= a.offset && U.Advanced(CursorAt(a), CursorAt(c), c.offset - a.offset)
    && HasRead(c.s, k, a.offset, c.offset - a.offset, a.data, a.base, c.data)
    && (c.offset > a.offset ==> c.offset <= Node(c.s, k).size)
    && (ok ==> c.resid == 0 || c.offset >= Node(c.s, k).size)
  }

  /** A read clipped at the end of the file: `extra` bytes of the request are set
      aside at b and put back after the transfer to c. */
  lemma ClippedDone(a: Point, b: Point, c: Point, d: Point, k: nat, extra: nat, ok: bool)
    requires a.offset < Node(a.s, k).size && a.base + a.iovlen <= |a.data| && a.resid <= a.iovlen && extra <= a.resid
    requires b == a.(resid := a.resid - extra) && d == c.(resid := c.resid + extra) && c.resid >= 0
    requires extra == if a.offset + a.resid > Node(a.s, k).size then a.offset + a.resid - Node(a.s, k).size else 0
    requires Moved(b, c, k, U.Read, BLOCKSIZE - 1) && (ok ==> c.resid == 0)
    ensures ReadDone(a, d, k, ok)
  {
  }

  lemma MovedTrans(a: Point, b: Point, c: Point, k: nat, rw: U.Direction, most: nat)
    requires Moved(a, b, k, rw, most) && Moved(b, c, k, rw, most) && b.faults == a.faults && Live(a.own, k)
    requires b.offset == a.offset || b.offset % BLOCKSIZE == 0
    requires b.resid > 0 || a.resid == 0
    ensures Moved(a, c, k, rw, most)
  {
    if rw.Read? {
      HasReadMore(a.s, k, a.offset, b.offset - a.offset, c.offset - b.offset, a.data, a.base, b.data, c.data);
    } else {
      MovedOutTrans(a, b, c, k, most);
    }
  }

  lemma MovedOutTrans(a: Point, b: Point, c: Point, k: nat, most: nat)
    requires MovedOut(a, b, k, most) && MovedOut(b, c, k, most) && b.faults == a.faults && Live(a.own, k)
    requires b.offset == a.offset || b.offset % BLOCKSIZE == 0
    requires b.offset == a.offset + (b.base - a.base) && b.resid == a.resid - (b.base - a.base)
      && (b.resid > 0 || a.resid == 0)
    ensures MovedOut(a, c, k, most)
  {
    var b1, b2 := a.data[a.base..b.base], a.data[b.base..c.base];
    HasWrittenMore(a.s, a.own, b.s, b.own, c.s, c.own, k, a.offset, b1, b2, a.resid, c.faults == b.faults, most);
    assert b1 + b2 == a.data[a.base..c.base];
  }

  /** One more piece of len bytes, which may have failed. */
  lemma PieceDone(z: Point, a: Point, c: Point, k: nat, rw: U.Direction, skip: nat, len: nat, most: nat)
    requires Moved(z, a, k, rw, most) && Moved(a, c, k, rw, most) && a.faults == z.faults && Live(z.own, k)
    requires a.offset % BLOCKSIZE == skip && (skip == 0 || a.offset == z.offset)
    requires c.offset == a.offset || c.offset == a.offset + len
    requires len <= a.resid && (len > 0 || z.resid == 0) && (len == a.resid || skip + len == BLOCKSIZE)
    ensures Moved(z, c, k, rw, most) && Stops(z.offset, z.resid, c.offset - z.offset)
    ensures c.offset == a.offset + len && skip + len == BLOCKSIZE ==> c.offset % BLOCKSIZE == 0
  {
    MovedTrans(z, a, c, k, rw, most);
    PieceEnd(a.offset, skip, len);
    StopsMore(z.offset, z.resid, a.offset - z.offset, c.offset - a.offset);
  }

  lemma PathsDone(z: Point, own: Owner, own': Owner, k: nat, o: nat)
    requires Grows(z.own, own, k, Paths(z.offset, z.resid)) && Grows(own, own', k, Path(o / BLOCKSIZE))
    requires Path(o / BLOCKSIZE) <= Paths(z.offset, z.resid)
    ensures Grows(z.own, own', k, Paths(z.offset, z.resid))
  {
    GrowsTrans(z.own, own, own', k, Paths(z.offset, z.resid), Path(o / BLOCKSIZE));
    GrowsMore(z.own, own', k, Paths(z.offset, z.resid) + Path(o / BLOCKSIZE), Paths(z.offset, z.resid));
  }

  lemma PieceEnd(off: nat, skip: nat, len: nat)
    requires off % BLOCKSIZE == skip
    ensures skip + len == BLOCKSIZE ==> (off + len) % BLOCKSIZE == 0
  {
  }

  lemma MovedUpTo(a: Point, c: Point, k: nat, rw: U.Direction, most: nat, more: nat)
    requires Moved(a, c, k, rw, most) && most <= more
    ensures Moved(a, c, k, rw, more)
  {
    if rw.Write? {
      HasWrittenUpTo(a.s, a.own, c.s, c.own, k, a.offset, c.data[a.base..c.base], a.resid, c.faults == a.faults, most, more);
    }
  }

  lemma MovedNothing(a: Point, c: Point, k: nat, rw: U.Direction, most: nat)
    requires c.data == a.data && c.base == a.base && c.offset == a.offset && c.iovlen == a.iovlen && c.resid == a.resid
    requires a.base + a.iovlen <= |a.data| && c.faults >= a.faults && (c.faults == a.faults ==> c.leaks == a.leaks)
    requires if rw.Read? then Untouched(a.s, a.own, c.s, c.own) else Extends(a.s, a.own, c.s, c.own)
    ensures Moved(a, c, k, rw, most)
  {
    if rw.Read? {
      HasReadNothing(a.s, k, a.offset, a.data, a.base);
    } else {
      assert c.data[a.base..c.base] == [];
      HasWrittenNothing(a.s, a.own, c.s, c.own, k, a.offset, [], a.resid, c.faults == a.faults, most);
    }
  }

  // The size of a file

  function Max(a: nat, b: nat): nat { if a < b then b else a }

  /** A new size and link count for a loaded inode. */
  function SetMeta(s: State, k: nat, n: u32, l: u16): State
    requires k in s.vn
  {
    SetNode(s, k, s.vn[k].inode.(size := n, links := l))
  }

  function Resize(s: State, k: nat, n: u32): State
    requires k in s.vn
  {
    SetMeta(s, k, n, s.vn[k].inode.links)
  }

  lemma MetaSame(s: State, k: nat, n: u32, l: u16, x: nat)
    requires k in s.vn
    ensures forall t: nat :: Slot(SetMeta(s, k, n, l), x, t) == Slot(s, x, t)
    ensures forall o: nat :: ByteKept(s, SetMeta(s, k, n, l), x, o)
    ensures x != k ==> Node(SetMeta(s, k, n, l), x) == Node(s, x)
  {
    var s' := SetMeta(s, k, n, l);
    forall t: nat ensures Slot(s', x, t) == Slot(s, x, t) {}
    forall o: nat ensures ByteKept(s, s', x, o) {
      assert Slot(s', x, o / BLOCKSIZE) == Slot(s, x, o / BLOCKSIZE);
    }
  }

  lemma MetaTable(s: State, k: nat, n: u32, l: u16)
    requires k in s.vn
    ensures SameTable(s, SetMeta(s, k, n, l))
  {
    var s' := SetMeta(s, k, n, l);
    forall x: nat ensures VnodeSame(s, s', x) {}
    forall b: nat ensures ReservedSame(s, s', b) {}
  }

  lemma MetaOk(s: State, own: Owner, k: nat, n: u32, l: u16)
    requires Blocks(s, own) && k in s.vn
    ensures Blocks(SetMeta(s, k, n, l), own) && Leaked(SetMeta(s, k, n, l), own) == Leaked(s, own)
  {
    var s' := SetMeta(s, k, n, l);
    MetaTable(s, k, n, l);
    TableVnodes(s, own, s');
    forall x, t: nat | Live(own, x) && t < NSLOTS ensures Slot(s', x, t) == Slot(s, x, t) { MetaSame(s, k, n, l, x); }
    forall b: nat ensures MapBit(s', b) { assert MapBit(s, b); }
    BlocksFrame(s, own, s');
  }

  /** Inode x after a write at off to file k of n bytes, m of which got there. */
  ghost predicate WriteAt(s: State, own: Owner, s': State, own': Owner, k: nat, off: nat, n: nat, m: nat, x: nat) {
    && (Live(own', x) <==> Live(own, x))
    && (Live(own, x) ==>
          && Node(s', x).kind == Node(s, x).kind && Node(s', x).links == Node(s, x).links
          && Node(s', x).size == (if x == k then Max(Node(s, x).size, off + n) else Node(s, x).size)
          && forall o: nat :: x != k || o < off || off + m <= o ==> ByteKept(s, s', x, o))
  }

  /** A write of `bytes` at off of file k: the first m are stored, the size is
      extended over all of them, and nothing else changed. */
  ghost predicate FileWrote(s: State, own: Owner, s': State, own': Owner, k: nat, off: nat, bytes: seq<byte>, m: nat) {
    && Stops(off, |bytes|, m) && SameTable(s, s')
    && (forall x: nat :: WriteAt(s, own, s', own', k, off, |bytes|, m, x))
    && Stored(s', k, off, bytes[..m])
  }

  /** The same for a request of `total` bytes: all of `bytes` unless there was a
      fault, and then all but less than a block. */
  ghost predicate FileWrite(s: State, own: Owner, s': State, own': Owner, k: nat, off: nat, bytes: seq<byte>, total: nat, exact: bool) {
    exists m: nat :: Lands(off, m, |bytes|, total, exact, BLOCKSIZE - 1) && FileWrote(s, own, s', own', k, off, bytes, m)
  }

  /** A write to file k between two moments: the file got the bytes the request
      counts, up to where it stopped, and its size covers them all. */
  ghost predicate Written(a: Point, c: Point, k: nat) {
    && c.data == a.data && c.offset >= a.offset && U.Advanced(CursorAt(a), CursorAt(c), c.offset - a.offset)
    && Stops(a.offset, a.resid, c.offset - a.offset)
    && (c.offset == a.offset || c.offset <= MAXBLOCKS * BLOCKSIZE)
    && FileWrite(a.s, a.own, c.s, c.own, k, a.offset, c.data[a.base..c.base], a.resid, c.faults == a.faults)
  }

  /** How much of what a write counts is stored: all of it without a fault, and
      with one all but at most the last piece, which is not a whole block. */
  lemma WrittenGap(a: Point, c: Point, k: nat) returns (m: nat)
    requires Written(a, c, k)
    ensures var n := c.offset - a.offset;
      && a.base <= c.base <= |c.data| && FileWrote(a.s, a.own, c.s, c.own, k, a.offset, c.data[a.base..c.base], m)
      && m <= n && (c.faults == a.faults ==> m == n)
      && (m < n ==>
            && n - m == U.Min(BLOCKSIZE - (a.offset + m) % BLOCKSIZE, a.resid - m) < BLOCKSIZE
            && (n == a.resid || (m == 0 && a.offset % BLOCKSIZE != 0)))
  {
    var bytes, n := c.data[a.base..c.base], c.offset - a.offset;
    m :| Lands(a.offset, m, |bytes|, a.resid, c.faults == a.faults, BLOCKSIZE - 1)
         && FileWrote(a.s, a.own, c.s, c.own, k, a.offset, bytes, m);
    if m < n { LostPiece(a.offset, m, n, a.resid); }
  }

  /** The transfer and then the size. */
  lemma WrittenDone(a: Point, b: Point, c: Point, k: nat)
    requires Moved(a, b, k, U.Write, BLOCKSIZE - 1) && Stops(a.offset, a.resid, b.offset - a.offset)
    requires U.Advanced(CursorAt(a), CursorAt(b), b.offset - a.offset) && k in b.s.vn && Live(a.own, k)
      && b.offset < 0x1_0000_0000
    requires c == b.(s := if b.offset > Node(b.s, k).size then Resize(b.s, k, b.offset) else b.s, leaks := c.leaks)
    ensures Written(a, c, k)
  {
    FileWriteDone(a.s, a.own, b.s, c.s, c.own, k, a.offset, b.data[a.base..b.base], a.resid, b.faults == a.faults);
  }

  /** The data transfer followed by the size update. */
  lemma FileWroteDone(s0: State, own0: Owner, s1: State, s2: State, own: Owner, k: nat, off: nat, bytes: seq<byte>, m: nat)
    requires Wrote(s0, own0, s1, own, k, off, bytes, m) && k in s1.vn && Live(own0, k)
    requires off + |bytes| < 0x1_0000_0000
    requires s2 == if off + |bytes| > Node(s1, k).size then Resize(s1, k, off + |bytes|) else s1
    ensures FileWrote(s0, own0, s2, own, k, off, bytes, m)
  {
    var n := off + |bytes|;
    var hi := off + m;
    assert TouchAt(s0, own0, s1, own, k, off, hi, k);
    MetaTable(s1, k, n, s1.vn[k].inode.links);
    if s2 != s1 { TableTrans(s0, s1, s2); }
    forall x: nat ensures WriteAt(s0, own0, s2, own, k, off, |bytes|, m, x) {
      assert TouchAt(s0, own0, s1, own, k, off, hi, x);
      MetaSame(s1, k, n, s1.vn[k].inode.links, x);
      if Live(own0, x) {
        forall o: nat | x != k || o < off || hi <= o ensures ByteKept(s0, s2, x, o) {
          assert ByteKept(s0, s1, x, o);
        }
      }
    }
    ResizeStored(s1, s2, k, n, off, bytes[..m]);
  }

  lemma FileWriteDone(s0: State, own0: Owner, s1: State, s2: State, own: Owner, k: nat, off: nat, bytes: seq<byte>, total: nat, exact: bool)
    requires HasWritten(s0, own0, s1, own, k, off, bytes, total, exact, BLOCKSIZE - 1) && k in s1.vn && Live(own0, k)
    requires off + |bytes| < 0x1_0000_0000
    requires s2 == if off + |bytes| > Node(s1, k).size then Resize(s1, k, off + |bytes|) else s1
    ensures FileWrite(s0, own0, s2, own, k, off, bytes, total, exact)
  {
    var m: nat :| Lands(off, m, |bytes|, total, exact, BLOCKSIZE - 1) && Wrote(s0, own0, s1, own, k, off, bytes, m);
    FileWroteDone(s0, own0, s1, s2, own, k, off, bytes, m);
  }

  lemma ResizeStored(s1: State, s2: State, k: nat, n: u32, off: nat, bytes: seq<byte>)
    requires k in s1.vn && (s2 == s1 || s2 == Resize(s1, k, n)) && Stored(s1, k, off, bytes)
    ensures Stored(s2, k, off, bytes)
  {
    MetaSame(s1, k, n, s1.vn[k].inode.links, k);
    forall i: nat ensures StoredAt(s2, k, off, bytes, i) {
      assert StoredAt(s1, k, off, bytes, i) && (s2 != s1 ==> ByteKept(s1, s2, k, off + i));
    }
  }
}
