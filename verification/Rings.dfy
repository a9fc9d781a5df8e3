/** Sequences kept in a ring: an array read from some position on, around its end. */
module Rings {

  /** How many elements lie between the two positions of a ring. */
  function Used(size: nat, r: nat, w: nat): nat
    requires r < size && w < size
  {
    if w >= r then w - r else w + size - r
  }

  function Wrap(size: nat, i: nat): nat
    requires 0 < size && i < 2 * size
  {
    if i < size then i else i - size
  }

  lemma WrapIsMod(size: nat, i: nat)
    requires 0 < size && i < 2 * size
    ensures i % size == Wrap(size, i)
  {
    if i >= size { ModOnce(size, i); }
  }

  lemma ModOnce(size: nat, i: nat)
    requires 0 < size <= i < 2 * size
    ensures i % size == i - size
  {
    assert i == size * 1 + (i - size);
  }

  /** A position the copying loop has not finished with. */
  lemma BeforeEnd(size: nat, r: nat, w: nat, i: nat)
    requires r < size && w < size && i < size && Used(size, r, i) <= Used(size, r, w) && i != w
    ensures Used(size, r, i) < Used(size, r, w) < size
    ensures Wrap(size, i + 1) != r
  {
  }

  /** The elements of a ring from position r on. */
  function Ring<T>(d: seq<T>, r: nat, n: nat): (c: seq<T>)
    requires r < |d| && n <= |d|
    ensures |c| == n
  {
    if n == 0 then [] else Ring(d, r, n - 1) + [d[Wrap(|d|, r + n - 1)]]
  }

  lemma {:induction false} RingFrame<T>(d: seq<T>, r: nat, n: nat, m: nat, x: T)
    requires r < |d| && n <= m < |d|
    ensures Ring(d[Wrap(|d|, r + m) := x], r, n) == Ring(d, r, n)
  {
    if n > 0 { RingFrame(d, r, n - 1, m, x); }
  }

  lemma RingAppend<T>(d: seq<T>, r: nat, n: nat, x: T)
    requires r < |d| && n < |d|
    ensures Ring(d[Wrap(|d|, r + n) := x], r, n + 1) == Ring(d, r, n) + [x]
  {
    RingFrame(d, r, n, n, x);
  }

  lemma {:induction false} RingTail<T>(d: seq<T>, r: nat, n: nat)
    requires r < |d| && 0 < n <= |d|
    ensures Ring(d, r, n) == [d[r]] + Ring(d, Wrap(|d|, r + 1), n - 1)
  {
    if n > 1 {
      RingTail(d, r, n - 1);
      assert Wrap(|d|, Wrap(|d|, r + 1) + n - 2) == Wrap(|d|, r + n - 1);
    }
  }

  lemma {:induction false} RingIndex<T>(d: seq<T>, r: nat, n: nat, k: nat)
    requires r < |d| && k < n <= |d|
    ensures Ring(d, r, n)[k] == d[Wrap(|d|, r + k)]
  {
    if k < n - 1 { RingIndex(d, r, n - 1, k); }
  }

  /** The element at position i of the ring. */
  lemma RingAt<T>(d: seq<T>, r: nat, n: nat, i: nat)
    requires r < |d| && i < |d| && n <= |d| && Used(|d|, r, i) < n
    ensures Ring(d, r, n)[Used(|d|, r, i)] == d[i]
  {
    RingIndex(d, r, n, Used(|d|, r, i));
  }

  lemma UsedNext(size: nat, r: nat, w: nat)
    requires r < size && w < size
    ensures Wrap(size, r + Used(size, r, w)) == w && Used(size, r, w) < size
    ensures Wrap(size, w + 1) != r ==> Used(size, r, Wrap(size, w + 1)) == Used(size, r, w) + 1
    ensures Wrap(size, w + 1) == r <==> Used(size, r, w) + 1 == size
  {
  }
}
