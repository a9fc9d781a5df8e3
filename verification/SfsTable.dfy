/** The array of loaded vnodes, seen as a map from inode numbers. */
module SfsTable {
  import opened SfsLayout
  import opened SfsState

  /** No inode is loaded twice. */
  ghost predicate Unique(vs: seq<Vnode>) {
    forall i, j :: 0 <= i < j < |vs| ==> vs[i].ino != vs[j].ino
  }

  ghost function Table(vs: seq<Vnode>): map<nat, Vnode> {
    if vs == [] then map[]
    else Table(vs[..|vs| - 1])[vs[|vs| - 1].ino := vs[|vs| - 1]]
  }

  lemma {:induction false} TableHas(vs: seq<Vnode>, k: nat)
    ensures k in Table(vs) <==> exists i :: 0 <= i < |vs| && vs[i].ino == k
  {
    if vs != [] {
      var n := |vs| - 1;
      TableHas(vs[..n], k);
      if k in Table(vs[..n]) {
        var i :| 0 <= i < n && vs[..n][i].ino == k;
        assert vs[i].ino == k;
      }
    }
  }

  lemma {:induction false} TableAt(vs: seq<Vnode>, i: nat)
    requires Unique(vs) && i < |vs|
    ensures vs[i].ino in Table(vs) && Table(vs)[vs[i].ino] == vs[i]
  {
    var n := |vs| - 1;
    if i < n { TableAt(vs[..n], i); }
  }

  /** Where the vnode of inode k is. */
  function IndexOf(vs: seq<Vnode>, k: nat): (i: nat)
    requires k in Table(vs)
    ensures i < |vs| && vs[i].ino == k && Table(vs)[k] == vs[i]
  {
    var n := |vs| - 1;
    if vs[n].ino == k then n else IndexOf(vs[..n], k)
  }

  /** Replacing the entry of an inode is a map update. */
  lemma {:induction false} TableUpdate(vs: seq<Vnode>, i: nat, v: Vnode)
    requires Unique(vs) && i < |vs| && v.ino == vs[i].ino
    ensures Unique(vs[i := v]) && Table(vs[i := v]) == Table(vs)[v.ino := v]
  {
    var n := |vs| - 1;
    if i == n {
      assert vs[i := v][..n] == vs[..n];
    } else {
      assert vs[i := v][..n] == vs[..n][i := v];
      TableUpdate(vs[..n], i, v);
    }
  }

  /** array_add of an inode that is not loaded. */
  lemma TableAppend(vs: seq<Vnode>, v: Vnode)
    requires Unique(vs) && v.ino !in Table(vs)
    ensures Unique(vs + [v]) && Table(vs + [v]) == Table(vs)[v.ino := v]
  {
    assert (vs + [v])[..|vs|] == vs;
    TableHas(vs, v.ino);
  }

  function Without(vs: seq<Vnode>, i: nat): (r: seq<Vnode>)
    requires i < |vs|
    ensures |r| == |vs| - 1
  {
    vs[..i] + vs[i + 1..]
  }

  /** array_remove. */
  lemma {:induction false} TableRemove(vs: seq<Vnode>, i: nat)
    requires Unique(vs) && i < |vs|
    ensures Table(Without(vs, i)) == Table(vs) - {vs[i].ino}
  {
    var n := |vs| - 1;
    var w := vs[..n];
    if i == n {
      assert Without(vs, i) == w;
      TableHas(w, vs[n].ino);
    } else {
      TableRemove(w, i);
      assert Without(vs, i)[..n - 1] == Without(w, i);
      assert Without(vs, i)[n - 1] == vs[n];
    }
  }

  lemma UniqueRemove(vs: seq<Vnode>, i: nat)
    requires Unique(vs) && i < |vs|
    ensures Unique(Without(vs, i))
  {
  }
}
