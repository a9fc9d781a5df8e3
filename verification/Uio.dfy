/** A kernel-space transfer request: struct uio with its one iovec. */
module Uio {
  import opened SfsLayout

  datatype Direction = Read | Write

  /** The memory with `bytes` written over it at `at`. */
  function Splice(mem: seq<byte>, at: nat, bytes: seq<byte>): (r: seq<byte>)
    requires at + |bytes| <= |mem|
    ensures |r| == |mem|
  {
    mem[..at] + bytes + mem[at + |bytes|..]
  }

  lemma SpliceAt(mem: seq<byte>, at: nat, bytes: seq<byte>, i: nat)
    requires at + |bytes| <= |mem| && i < |mem|
    ensures Splice(mem, at, bytes)[i] == if at <= i < at + |bytes| then bytes[i - at] else mem[i]
  {
  }

  lemma SpliceTwice(mem: seq<byte>, at: nat, x: seq<byte>, y: seq<byte>)
    requires at + |x| + |y| <= |mem|
    ensures Splice(Splice(mem, at, x), at + |x|, y) == Splice(mem, at, x + y)
  {
  }

  function ZeroBytes(n: nat): (r: seq<byte>)
    ensures |r| == n
  {
    seq(n, _ => 0)
  }

  lemma ZerosConcat(a: nat, b: nat)
    ensures ZeroBytes(a) + ZeroBytes(b) == ZeroBytes(a + b)
  {
  }

  lemma ZeroPrefix(n: nat, k: nat)
    requires k <= n
    ensures ZeroBytes(n)[..k] == ZeroBytes(k)
  {
  }

  lemma ZeroStep(mem: seq<byte>, at: nat, done: nat, amt: nat)
    requires at + done + amt <= |mem|
    ensures Splice(Splice(mem, at, ZeroBytes(done)), at + done, ZeroBytes(amt)) == Splice(mem, at, ZeroBytes(done + amt))
  {
    SpliceTwice(mem, at, ZeroBytes(done), ZeroBytes(amt));
    ZerosConcat(done, amt);
  }

  const WORD := 0x1_0000_0000

  function Min(a: nat, b: nat): nat { if a < b then a else b }

  /** Where a request stands: how much memory, which part of it is left to
      transfer, and the offset in the file. */
  datatype Cursor = Cursor(memory: nat, base: nat, iovlen: nat, offset: nat, resid: nat)

  /** The request advanced by n bytes, within bounds. */
  predicate Advanced(a: Cursor, b: Cursor, n: nat) {
    && n <= a.iovlen && n <= a.resid
    && b == Cursor(a.memory, a.base + n, a.iovlen - n, a.offset + n, a.resid - n)
    && b.base + b.iovlen <= b.memory && b.resid <= b.iovlen
  }

  /** The request after n bytes have moved, whatever was left. */
  function Shifted(a: Cursor, n: nat): Cursor
    requires n <= a.iovlen && n < WORD
  {
    Cursor(a.memory, a.base + n, a.iovlen - n, a.offset + n, if n <= a.resid then a.resid - n else WORD + a.resid - n)
  }

  /** How many bytes uiomove moves, and when it dies. */
  function Moves(a: Cursor, n: nat): nat { if a.resid == 0 then 0 else Min(n, a.iovlen) }

  predicate MoveDies(a: Cursor, n: nat) { 0 < a.resid != a.iovlen < n }

  /** The same for zeros, which come sixteen at a time: a request is overrun unless
      it ends with its iovec or with such a piece. */
  predicate Stops(a: Cursor) { a.resid == 0 || a.resid == a.iovlen || (a.resid < a.iovlen && a.resid % 16 == 0) }

  function ZeroMoves(a: Cursor, n: nat): nat { Min(n, if Stops(a) then a.resid else a.iovlen) }

  predicate ZeroDies(a: Cursor, n: nat) { !Stops(a) && a.iovlen < n }

  lemma ZeroMovesMore(a: Cursor, done: nat, amt: nat)
    requires done % 16 == 0 && amt <= 16 && done + amt < WORD && !ZeroDies(a, done)
    ensures ZeroMoves(a, done) <= a.iovlen
    ensures var c := Shifted(a, ZeroMoves(a, done));
      && ZeroMoves(a, done + amt) == ZeroMoves(a, done) + Moves(c, amt)
      && (ZeroDies(a, done + amt) <==> MoveDies(c, amt))
  {
  }

  class Uio {
    var data: seq<byte>  // the memory the iovec points into
    var base: nat        // iov_kbase, as an index into data
    var iovlen: nat
    var offset: nat
    var resid: nat
    const rw: Direction

    ghost predicate Valid()
      reads this
    {
      base + iovlen <= |data| && resid <= iovlen
    }

    ghost function At(): Cursor
      reads this
    {
      Cursor(|data|, base, iovlen, offset, resid)
    }

    /** mk_kuio */
    constructor (kbuf: seq<byte>, pos: nat, rw: Direction)
      ensures Valid() && data == kbuf && base == 0 && iovlen == resid == |kbuf| && offset == pos && this.rw == rw
    {
      data, base, iovlen, offset, resid := kbuf, 0, |kbuf|, pos, |kbuf|;
      this.rw := rw;
    }

    /** One round of uiomove: size bytes at ptr + at.  uio_resid is unsigned. */
    method Copy(ptr: seq<byte>, at: nat, size: nat) returns (ptr': seq<byte>)
      requires base + iovlen <= |data| && at + size <= |ptr| && size <= iovlen && size < WORD
      modifies this
      ensures At() == Shifted(old(At()), size)
      ensures rw.Read? ==> ptr' == ptr && data == Splice(old(data), old(base), ptr[at..at + size])
      ensures rw.Write? ==> data == old(data) && ptr' == Splice(ptr, at, data[old(base)..base])
    {
      ptr' := ptr;
      if rw.Read? {
        data := Splice(data, base, ptr[at..at + size]);
      } else {
        ptr' := Splice(ptr, at, data[base..base + size]);
      }
      resid := if size <= resid then resid - size else WORD + resid - size;
      base, iovlen, offset := base + size, iovlen - size, offset + size;
    }

    /** uiomove: n bytes between the buffer ptr and the request, in the direction
        of the request.  Nothing moves when nothing is left, and no more than the
        iovec holds; but what is left only stops it between two rounds, so that a
        request shorter than its iovec is overrun, and uio_resid wraps around.
        It dies exactly if the iovec is used up and something is left of both. */
    method Move(ptr: seq<byte>, n: nat) returns (ptr': seq<byte>, dead: bool)
      requires base + iovlen <= |data| && n <= |ptr| && n < WORD
      modifies this
      ensures At() == Shifted(old(At()), Moves(old(At()), n))
      ensures dead <==> MoveDies(old(At()), n)
      ensures rw.Read? ==> ptr' == ptr && data == Splice(old(data), old(base), ptr[..Moves(old(At()), n)])
      ensures rw.Write? ==> data == old(data) && ptr' == Splice(ptr, 0, data[old(base)..base])
    {
      ptr', dead := ptr, false;
      var left: nat, done: nat := n, 0;
      while left > 0 && resid > 0
        invariant left + done == n && (done == 0 || done == Moves(old(At()), n)) && done <= old(iovlen) && !dead
        invariant At() == Shifted(old(At()), done) && (done == 0 || left == 0 || iovlen == 0)
        invariant done == 0 ==> data == old(data) && ptr' == ptr
        invariant done > 0 && rw.Read? ==> ptr' == ptr && data == Splice(old(data), old(base), ptr[..done])
        invariant done > 0 && rw.Write? ==> data == old(data) && ptr' == Splice(ptr, 0, data[old(base)..base])
        decreases left
      {
        var size := if iovlen > left then left else iovlen;
        if size == 0 {
          dead := true;
          break;
        }
        ptr' := Copy(ptr', done, size);
        left, done := left - size, done + size;
      }
      assert done == 0 ==> Splice(data, base, []) == data && Splice(ptr, 0, []) == ptr;
    }

    /** uiomove where the request is as long as its iovec, or n is within it. */
    method MoveWithin(ptr: seq<byte>, n: nat) returns (ptr': seq<byte>)
      requires Valid() && n <= |ptr| && n < WORD && (n <= resid || iovlen == resid)
      modifies this
      ensures Valid() && Advanced(old(At()), At(), Min(n, old(resid)))
      ensures rw.Read? ==> ptr' == ptr && data == Splice(old(data), old(base), ptr[..Min(n, old(resid))])
      ensures rw.Write? ==> data == old(data) && ptr' == Splice(ptr, 0, data[old(base)..base])
    {
      var dead;
      ptr', dead := Move(ptr, n);
      assert !dead;
    }

    /** uiomove of the next n bytes of a read out of the middle of a buffer. */
    method Drain(buf: seq<byte>, skip: nat, n: nat)
      requires Valid() && rw.Read? && skip + n <= |buf| && n <= resid && n < WORD
      modifies this
      ensures Valid() && Advanced(old(At()), At(), n)
      ensures data == Splice(old(data), old(base), buf[skip..skip + n])
    {
      assert buf[skip..][..n] == buf[skip..skip + n];
      var _ := MoveWithin(buf[skip..], n);
    }

    /** uiomove of the next n bytes of a write into the middle of a buffer. */
    method Fill(buf: seq<byte>, skip: nat, n: nat) returns (r: seq<byte>)
      requires Valid() && rw.Write? && skip + n <= |buf| && n <= resid && n < WORD
      modifies this
      ensures Valid() && data == old(data) && Advanced(old(At()), At(), n)
      ensures r == Splice(buf, skip, data[old(base)..base])
    {
      var part := MoveWithin(buf[skip..], n);
      r := buf[..skip] + part;
    }

    method MoveFewZeros(amt: nat) returns (dead: bool)
      requires base + iovlen <= |data| && rw.Read? && amt <= 16
      modifies this
      ensures At() == Shifted(old(At()), Moves(old(At()), amt)) && (dead <==> MoveDies(old(At()), amt))
      ensures data == Splice(old(data), old(base), ZeroBytes(Moves(old(At()), amt)))
    {
      ZeroPrefix(16, Moves(At(), amt));
      var zeros;
      zeros, dead := Move(ZeroBytes(16), amt);
    }

    /** uiomovezeros: n zero bytes into the request, sixteen at a time. */
    method MoveZeros(n: nat) returns (dead: bool)
      requires base + iovlen <= |data| && rw.Read? && n < WORD
      modifies this
      ensures dead <==> ZeroDies(old(At()), n)
      ensures Zeroed(old(At()), old(data), At(), data, ZeroMoves(old(At()), n))
    {
      dead := false;
      var done: nat := 0;
      assert Splice(data, base, []) == data;
      while done < n
        invariant done <= n && (done == n || done % 16 == 0) && !ZeroDies(old(At()), done) && !dead
        invariant Zeroed(old(At()), old(data), At(), data, ZeroMoves(old(At()), done))
      {
        done, dead := MoveSomeZeros(n, done, old(At()), old(data));
        if dead { return; }
      }
    }

    /** One round of uiomovezeros. */
    method MoveSomeZeros(n: nat, done: nat, ghost a: Cursor, ghost m: seq<byte>) returns (more: nat, dead: bool)
      requires done < n < WORD && done % 16 == 0 && rw.Read? && !ZeroDies(a, done)
      requires Zeroed(a, m, At(), data, ZeroMoves(a, done))
      modifies this
      ensures done < more <= n && (more == n || more % 16 == 0)
      ensures dead <==> ZeroDies(a, more)
      ensures Zeroed(a, m, At(), data, ZeroMoves(a, more)) && (dead ==> ZeroMoves(a, n) == ZeroMoves(a, more))
    {
      var amt := if 16 > n - done then n - done else 16;
      ZeroMovesMore(a, done, amt);
      ghost var at, mem := At(), data;
      dead := MoveFewZeros(amt);
      more := done + amt;
      ZeroedMore(a, m, at, mem, At(), data, ZeroMoves(a, done), Moves(at, amt));
    }
  }

  /** n zero bytes moved into a request that stood at a over memory m. */
  ghost predicate Zeroed(a: Cursor, m: seq<byte>, b: Cursor, mem: seq<byte>, n: nat) {
    && n <= a.iovlen && n < WORD && a.base + a.iovlen <= |m| == a.memory == |mem|
    && b == Shifted(a, n) && mem == Splice(m, a.base, ZeroBytes(n))
  }

  lemma ZeroedMore(a: Cursor, m: seq<byte>, b: Cursor, mem: seq<byte>, c: Cursor, mem': seq<byte>, n: nat, k: nat)
    requires Zeroed(a, m, b, mem, n) && Zeroed(b, mem, c, mem', k) && n + k < WORD
    ensures Zeroed(a, m, c, mem', n + k)
  {
    ZeroStep(m, a.base, n, k);
  }
}
