/** The ring-buffer queue under the wait lists. */
module Queue {
  import opened Rings

  const MAXSIZE: nat := 0x1000_0000   // more pointers than this never fit in memory

  class Queue<T(0)> {
    const deny: nat -> bool   // which calls of kmalloc fail
    var size: nat
    var nextwrite: nat
    var nextread: nat
    var data: array<T>
    var calls: nat

    ghost predicate Valid()
      reads this, data
    {
      0 < size <= MAXSIZE && data.Length == size && nextread < size && nextwrite < size
    }

    ghost function Contents(): seq<T>
      requires Valid()
      reads this, data
    {
      Ring(data[..], nextread, Used(size, nextread, nextwrite))
    }

    /** q_create */
    constructor (size: nat, deny: nat -> bool)
      requires 0 < size <= MAXSIZE
      ensures Valid() && fresh(data) && this.size == size && Contents() == []
    {
      this.size, this.deny, calls := size, deny, 0;
      data := new T[size];
      nextread, nextwrite := 0, 0;
    }

    /** q_empty */
    method Empty() returns (b: bool)
      requires Valid()
      ensures b == (Contents() == [])
    {
      b := nextwrite == nextread;
    }

    /** q_addtail: grows when the ring is full. */
    method AddTail(x: T) returns (ok: bool)
      requires Valid()
      modifies this, data
      ensures Valid() && (data == old(data) || fresh(data))
      ensures Contents() == if ok then old(Contents()) + [x] else old(Contents())
      ensures old(|Contents()|) + 1 < old(size) ==>
        ok && size == old(size) && data == old(data) && nextread == old(nextread) && calls == old(calls)
      ensures size >= old(size) && calls >= old(calls)
      ensures !ok ==> deny(old(calls)) || old(size) * 2 > MAXSIZE
      decreases if Used(size, nextread, nextwrite) + 1 < size then 0 else 2, 0
    {
      WrapIsMod(size, nextwrite + 1);
      UsedNext(size, nextread, nextwrite);
      var nextnext := (nextwrite + 1) % size;
      if nextnext == nextread {
        ok := Grow(size + 1);
        if !ok { return; }
        WrapIsMod(size, nextwrite + 1);
        UsedNext(size, nextread, nextwrite);
        nextnext := (nextwrite + 1) % size;
      }
      Store(x, nextnext);
      ok := true;
    }

    /** The end of q_addtail. */
    method Store(x: T, nextnext: nat)
      requires Valid() && nextnext == Wrap(size, nextwrite + 1) && nextnext != nextread
      modifies this`nextwrite, data
      ensures Valid() && Contents() == old(Contents()) + [x]
    {
      UsedNext(size, nextread, nextwrite);
      RingAppend(data[..], nextread, Used(size, nextread, nextwrite), x);
      data[nextwrite] := x;
      nextwrite := nextnext;
    }

    /** q_grow: the elements go over one by one, in order, and none of these
        calls of q_addtail grows again. */
    method Grow(targetsize: nat) returns (ok: bool)
      requires Valid() && size < targetsize
      modifies this, data
      ensures Valid() && Contents() == old(Contents()) && (data == old(data) || fresh(data))
      ensures ok ==> size >= targetsize && fresh(data)
      ensures !ok ==> size == old(size) && data == old(data) && nextread == old(nextread) && nextwrite == old(nextwrite)
      ensures calls >= old(calls) && size >= old(size)
      ensures !ok ==> deny(old(calls)) || Doubled(old(size), targetsize) > MAXSIZE
      decreases 1, 1
    {
      var olddata, onr, onw := data, nextread, nextwrite;
      ghost var contents := Contents();
      var nsize := NewSize(size, targetsize);
      ok := !deny(calls) && nsize <= MAXSIZE;
      calls := calls + 1;
      if !ok { return; }
      size, data := nsize, new T[nsize];
      nextread, nextwrite := 0, 0;
      Copy(olddata, onr, onw, contents);
    }

    /** The loop of q_grow. */
    method Copy(olddata: array<T>, onr: nat, onw: nat, ghost contents: seq<T>)
      requires Valid() && Contents() == [] && nextread == 0 && data != olddata && olddata.Length < size
      requires onr < olddata.Length && onw < olddata.Length
      requires contents == Ring(olddata[..], onr, Used(olddata.Length, onr, onw))
      modifies this, data
      ensures Valid() && Contents() == contents && size == old(size) && data == old(data) && calls == old(calls)
      decreases 1, 0
    {
      var osize := olddata.Length;
      var i: nat := onr;
      while i != onw
        invariant Valid() && data == old(data) && size == old(size) && nextread == 0 && calls == old(calls) && i < osize
        invariant Used(osize, onr, i) <= |contents| && Contents() == contents[..Used(osize, onr, i)]
        decreases |contents| - Used(osize, onr, i)
      {
        ghost var k := Used(osize, onr, i);
        BeforeEnd(osize, onr, onw, i);
        RingAt(olddata[..], onr, |contents|, i);
        var result := AddTail(olddata[i]);
        assert result;
        WrapIsMod(osize, i + 1);
        UsedNext(osize, onr, i);
        i := (i + 1) % osize;
        assert contents[..k] + [contents[k]] == contents[..k + 1];
      }
    }

    /** q_preallocate: afterwards one less than `n` elements fit without growing. */
    method Preallocate(n: nat) returns (ok: bool)
      requires Valid()
      modifies this, data
      ensures Valid() && Contents() == old(Contents()) && (ok ==> size >= n)
      ensures !ok ==> n > old(size) && (deny(old(calls)) || Doubled(old(size), n) > MAXSIZE)
      ensures n <= old(size) ==> size == old(size) && data == old(data)
    {
      ok := true;
      if n > size { ok := Grow(n); }
    }

    /** q_remhead */
    method RemHead() returns (x: T)
      requires Valid() && Contents() != []
      modifies this`nextread
      ensures Valid() && [x] + Contents() == old(Contents()) && size == old(size)
    {
      RingTail(data[..], nextread, Used(size, nextread, nextwrite));
      x := data[nextread];
      WrapIsMod(size, nextread + 1);
      nextread := (nextread + 1) % size;
    }

    /** get_head */
    method GetHead() returns (x: T)
      requires Valid() && Contents() != []
      ensures x == Contents()[0]
    {
      RingTail(data[..], nextread, Used(size, nextread, nextwrite));
      x := data[nextread];
    }
  }

  /** The size q_grow arrives at by doubling. */
  function Doubled(size: nat, targetsize: nat): nat
    requires size > 0
    decreases targetsize - size
  {
    if size >= targetsize then size else Doubled(size * 2, targetsize)
  }

  method NewSize(size: nat, targetsize: nat) returns (nsize: nat)
    requires size > 0
    ensures nsize == Doubled(size, targetsize) && nsize >= targetsize && nsize >= size
  {
    nsize := size;
    while nsize < targetsize
      invariant nsize >= size && Doubled(nsize, targetsize) == Doubled(size, targetsize)
      decreases targetsize - nsize
    {
      nsize := nsize * 2;
    }
  }
}
