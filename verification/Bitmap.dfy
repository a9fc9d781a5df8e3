/** Arrays of bits, kept in bytes. */
module Bitmap {

  const BITS_PER_WORD := 8
  const WORD_ALLBITS: bv8 := 0xff

  datatype Option<T> = None | Some(value: T)

  function Words(nbits: nat): nat { (nbits + BITS_PER_WORD - 1) / BITS_PER_WORD }

  /** Bit `off` of a byte. */
  predicate WordBit(w: bv8, off: nat)
    requires off < BITS_PER_WORD
  {
    w & ((1 as bv8) << off) != 0
  }

  /** Bit i of a byte sequence. */
  predicate Bit(v: seq<bv8>, i: nat) {
    i / BITS_PER_WORD < |v| && WordBit(v[i / BITS_PER_WORD], i % BITS_PER_WORD)
  }

  lemma WordSet(w: bv8, off: nat, k: nat)
    requires off < BITS_PER_WORD && k < BITS_PER_WORD
    ensures WordBit(w | ((1 as bv8) << off), k) == (k == off || WordBit(w, k))
  {
  }

  lemma WordClear(w: bv8, off: nat, k: nat)
    requires off < BITS_PER_WORD && k < BITS_PER_WORD
    ensures WordBit(w & !((1 as bv8) << off), k) == (k != off && WordBit(w, k))
  {
  }

  lemma WordFull(w: bv8)
    requires forall k :: 0 <= k < BITS_PER_WORD ==> WordBit(w, k)
    ensures w == WORD_ALLBITS
  {
    assert WordBit(w, 0) && WordBit(w, 1) && WordBit(w, 2) && WordBit(w, 3);
    assert WordBit(w, 4) && WordBit(w, 5) && WordBit(w, 6) && WordBit(w, 7);
  }

  lemma FullWord(k: nat)
    requires k < BITS_PER_WORD
    ensures WordBit(WORD_ALLBITS, k)
  {
  }

  lemma BitSet(v: seq<bv8>, i: nat, k: nat)
    requires i < BITS_PER_WORD * |v| && k < BITS_PER_WORD * |v|
    ensures var ix := i / BITS_PER_WORD;
      Bit(v[ix := v[ix] | ((1 as bv8) << (i % BITS_PER_WORD))], k) == (k == i || Bit(v, k))
  {
    if k / BITS_PER_WORD == i / BITS_PER_WORD {
      WordSet(v[i / BITS_PER_WORD], i % BITS_PER_WORD, k % BITS_PER_WORD);
    }
  }

  lemma BitClear(v: seq<bv8>, i: nat, k: nat)
    requires i < BITS_PER_WORD * |v| && k < BITS_PER_WORD * |v|
    ensures var ix := i / BITS_PER_WORD;
      Bit(v[ix := v[ix] & !((1 as bv8) << (i % BITS_PER_WORD))], k) == (k != i && Bit(v, k))
  {
    if k / BITS_PER_WORD == i / BITS_PER_WORD {
      WordClear(v[i / BITS_PER_WORD], i % BITS_PER_WORD, k % BITS_PER_WORD);
    }
  }

  /** The indices below nbits whose bit is set. */
  ghost function Indices(v: seq<bv8>, nbits: nat): set<nat> {
    set i: nat | i < nbits && Bit(v, i)
  }

  lemma IndicesPlus(v: seq<bv8>, w: seq<bv8>, nbits: nat, i: nat)
    requires i < nbits && forall k: nat :: k < nbits ==> Bit(w, k) == (k == i || Bit(v, k))
    ensures Indices(w, nbits) == Indices(v, nbits) + {i}
  {
  }

  lemma IndicesMinus(v: seq<bv8>, w: seq<bv8>, nbits: nat, i: nat)
    requires i < nbits && forall k: nat :: k < nbits ==> Bit(w, k) == (k != i && Bit(v, k))
    ensures Indices(w, nbits) == Indices(v, nbits) - {i}
  {
  }

  lemma IndicesSet(v: seq<bv8>, nbits: nat, i: nat)
    requires i < nbits <= BITS_PER_WORD * |v|
    ensures var ix := i / BITS_PER_WORD;
      Indices(v[ix := v[ix] | ((1 as bv8) << (i % BITS_PER_WORD))], nbits) == Indices(v, nbits) + {i}
  {
    var ix := i / BITS_PER_WORD;
    var w := v[ix := v[ix] | ((1 as bv8) << (i % BITS_PER_WORD))];
    forall k: nat | k < nbits ensures Bit(w, k) == (k == i || Bit(v, k)) { BitSet(v, i, k); }
    IndicesPlus(v, w, nbits, i);
  }

  lemma IndicesClear(v: seq<bv8>, nbits: nat, i: nat)
    requires i < nbits <= BITS_PER_WORD * |v|
    ensures var ix := i / BITS_PER_WORD;
      Indices(v[ix := v[ix] & !((1 as bv8) << (i % BITS_PER_WORD))], nbits) == Indices(v, nbits) - {i}
  {
    var ix := i / BITS_PER_WORD;
    var w := v[ix := v[ix] & !((1 as bv8) << (i % BITS_PER_WORD))];
    forall k: nat | k < nbits ensures Bit(w, k) == (k != i && Bit(v, k)) { BitClear(v, i, k); }
    IndicesMinus(v, w, nbits, i);
  }

  /** The leftover bits of the last byte are marked in use. */
  ghost predicate Padded(v: seq<bv8>, nbits: nat) {
    && |v| == Words(nbits)
    && forall i: nat :: nbits <= i < BITS_PER_WORD * |v| ==> Bit(v, i)
  }

  lemma FullBelow(v: seq<bv8>, ix: nat, offset: nat)
    requires ix <= |v| && forall i :: 0 <= i < ix ==> v[i] == WORD_ALLBITS
    requires offset < BITS_PER_WORD && (offset > 0 ==> ix < |v|)
    requires forall k :: 0 <= k < offset ==> WordBit(v[ix], k)
    ensures forall i: nat :: i < ix * BITS_PER_WORD + offset ==> Bit(v, i)
  {
    forall i: nat | i < ix * BITS_PER_WORD + offset ensures Bit(v, i) {
      if i / BITS_PER_WORD < ix { FullWord(i % BITS_PER_WORD); }
    }
  }

  /** The inner loop of bitmap_alloc: a byte that is not full has a lowest clear bit. */
  method FirstClear(w: bv8) returns (offset: nat)
    requires w != WORD_ALLBITS
    ensures offset < BITS_PER_WORD && !WordBit(w, offset)
    ensures forall k :: 0 <= k < offset ==> WordBit(w, k)
  {
    offset := 0;
    while offset < BITS_PER_WORD
      invariant offset <= BITS_PER_WORD
      invariant forall k :: 0 <= k < offset ==> WordBit(w, k)
    {
      if w & ((1 as bv8) << offset) == 0 {
        return;
      }
      offset := offset + 1;
    }
    WordFull(w);
    assert false;
  }

  class Bitmap {
    const nbits: nat
    const v: array<bv8>

    ghost predicate Valid()
      reads v
    {
      Padded(v[..], nbits)
    }

    ghost function Marked(): set<nat>
      reads v
    {
      Indices(v[..], nbits)
    }

    /** bitmap_create */
    constructor (nbits: nat)
      ensures Valid() && fresh(v) && this.nbits == nbits && Marked() == {}
    {
      var words := Words(nbits);
      this.nbits := nbits;
      v := new bv8[words](_ => 0);
      new;
      if nbits / BITS_PER_WORD < words {
        var ix := words - 1;
        var overbits := nbits - ix * BITS_PER_WORD;
        for j := overbits to BITS_PER_WORD
          invariant forall i :: 0 <= i < ix ==> v[i] == 0
          invariant forall k :: 0 <= k < BITS_PER_WORD ==> WordBit(v[ix], k) == (overbits <= k < j)
        {
          ghost var w := v[ix];
          v[ix] := v[ix] | ((1 as bv8) << j);
          forall k | 0 <= k < BITS_PER_WORD ensures WordBit(v[ix], k) == (k == j || WordBit(w, k)) {
            WordSet(w, j, k);
          }
        }
        assert forall k :: 0 <= k < BITS_PER_WORD ==> WordBit(v[ix], k) == (overbits <= k);
      }
    }

    /** bitmap_alloc: the lowest unmarked index, or ENOSPC when there is none. */
    method Alloc() returns (r: Option<nat>)
      requires Valid()
      modifies v
      ensures Valid()
      ensures r.None? ==> v[..] == old(v[..]) && (forall i: nat :: i < nbits ==> i in Marked())
      ensures r.Some? ==>
        && r.value < nbits && r.value !in old(Marked())
        && Marked() == old(Marked()) + {r.value}
        && (forall i: nat :: i < r.value ==> i in old(Marked()))
    {
      for ix := 0 to v.Length
        invariant v[..] == old(v[..])
        invariant forall i :: 0 <= i < ix ==> v[i] == WORD_ALLBITS
      {
        if v[ix] != WORD_ALLBITS {
          var offset := FirstClear(v[ix]);
          v[ix] := v[ix] | ((1 as bv8) << offset);
          var index := ix * BITS_PER_WORD + offset;
          FullBelow(old(v[..]), ix, offset);
          MarkStep(old(v[..]), v[..], index);
          return Some(index);
        }
      }
      FullBelow(v[..], v.Length, 0);
      return None;
    }

    /** Setting a clear bit keeps the padding and adds one index below nbits. */
    lemma MarkStep(before: seq<bv8>, after: seq<bv8>, i: nat)
      requires Padded(before, nbits) && i < BITS_PER_WORD * |before| && !Bit(before, i)
      requires after == before[i / BITS_PER_WORD := before[i / BITS_PER_WORD] | ((1 as bv8) << (i % BITS_PER_WORD))]
      ensures i < nbits && Padded(after, nbits)
      ensures Indices(after, nbits) == Indices(before, nbits) + {i}
    {
      IndicesSet(before, nbits, i);
      forall k: nat | nbits <= k < BITS_PER_WORD * |after| ensures Bit(after, k) { BitSet(before, i, k); }
    }

    /** bitmap_mark: asserts that the bit is clear. */
    method Mark(index: nat)
      requires Valid() && index < nbits && index !in Marked()
      modifies v
      ensures Valid() && Marked() == old(Marked()) + {index}
    {
      var ix, mask := index / BITS_PER_WORD, (1 as bv8) << (index % BITS_PER_WORD);
      v[ix] := v[ix] | mask;
      MarkStep(old(v[..]), v[..], index);
    }

    /** bitmap_unmark: asserts that the bit is set. */
    method Unmark(index: nat)
      requires Valid() && index in Marked()
      modifies v
      ensures Valid() && Marked() == old(Marked()) - {index}
    {
      var ix, mask := index / BITS_PER_WORD, (1 as bv8) << (index % BITS_PER_WORD);
      v[ix] := v[ix] & !mask;
      UnmarkStep(old(v[..]), v[..], index);
    }

    lemma UnmarkStep(before: seq<bv8>, after: seq<bv8>, i: nat)
      requires Padded(before, nbits) && i < nbits
      requires after == before[i / BITS_PER_WORD := before[i / BITS_PER_WORD] & !((1 as bv8) << (i % BITS_PER_WORD))]
      ensures Padded(after, nbits)
      ensures Indices(after, nbits) == Indices(before, nbits) - {i}
    {
      IndicesClear(before, nbits, i);
      forall k: nat | nbits <= k < BITS_PER_WORD * |after| ensures Bit(after, k) { BitClear(before, i, k); }
    }

    /** bitmap_isset */
    method IsSet(index: nat) returns (b: bool)
      requires Valid() && index < nbits
      ensures b == (index in Marked())
    {
      var ix, mask := index / BITS_PER_WORD, (1 as bv8) << (index % BITS_PER_WORD);
      b := v[ix] & mask != 0;
    }
  }
}
