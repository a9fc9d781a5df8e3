/** The additive feedback generator behind random() and its state arrays. */
module Random {
  import opened Rings

  const WORD: nat := 0x1_0000_0000
  const MAX_TYPES: nat := 5

  type u32 = x: int | 0 <= x < 0x1_0000_0000

  function Deg(t: nat): nat {
    match t
    case 0 => 0 case 1 => 7 case 2 => 15 case 3 => 31 case _ => 63
  }

  function Sep(t: nat): nat {
    match t
    case 0 => 0 case 1 => 3 case 2 => 1 case 3 => 3 case _ => 1
  }

  // The generators as sequences

  /** A linear congruential generator, or the last Deg(t) terms of the
      recurrence x(n) = x(n - deg) + x(n - sep). */
  datatype Gen = Lcg(x: u32) | Additive(t: nat, w: seq<u32>)

  predicate GenOk(g: Gen) {
    g.Additive? ==> 1 <= g.t < MAX_TYPES && |g.w| == Deg(g.t)
  }

  function Congruential(x: int): u32 { (x * 1103515245 + 12345) % 0x8000_0000 }
  function Add(x: int, y: int): u32 { (x + y) % WORD }

  /** The next term. */
  function Term(g: Gen): u32
    requires GenOk(g)
  {
    if g.Lcg? then Congruential(g.x) else Add(g.w[0], g.w[Deg(g.t) - Sep(g.t)])
  }

  function Advance(g: Gen): (g': Gen)
    requires GenOk(g)
    ensures GenOk(g')
  {
    if g.Lcg? then Lcg(Term(g)) else Additive(g.t, g.w[1..] + [Term(g)])
  }

  /** What random() returns. */
  function Output(g: Gen): nat
    requires GenOk(g)
  {
    if g.Lcg? then Term(g) else Term(g) / 2
  }

  /** What the next n calls return. */
  function Outputs(g: Gen, n: nat): (r: seq<nat>)
    requires GenOk(g)
    ensures |r| == n
    decreases n
  {
    if n == 0 then [] else [Output(g)] + Outputs(Advance(g), n - 1)
  }

  lemma {:induction false} OutputRange(g: Gen, n: nat)
    requires GenOk(g)
    ensures forall i :: 0 <= i < n ==> Outputs(g, n)[i] < 0x8000_0000
    decreases n
  {
    if n > 0 { OutputRange(Advance(g), n - 1); }
  }

  // The tables

  /** The generator in a state array, given its type and rear position. */
  function Decode(words: seq<u32>, t: nat, rear: nat): (g: Gen)
    requires t < MAX_TYPES && |words| >= 2 && |words| > Deg(t) && (t > 0 ==> rear < Deg(t))
    ensures GenOk(g)
  {
    if t == 0 then Lcg(words[1])
    else Additive(t, Ring(words[1..Deg(t) + 1], Wrap(Deg(t), rear + Sep(t)), Deg(t)))
  }

  /** The word in front of the state: type and rear position. */
  function Mux(t: nat, rear: nat): nat { if t == 0 then 0 else MAX_TYPES * rear + t }

  predicate Sound(words: seq<u32>, t: nat, rear: nat) {
    t < MAX_TYPES && |words| >= 2 && |words| > Deg(t) && (t > 0 ==> rear < Deg(t))
  }

  /** An array that has been set up and put aside. */
  predicate Stored(words: seq<u32>) {
    |words| >= 2 && Sound(words, words[0] % MAX_TYPES, words[0] / MAX_TYPES)
  }

  function StoredGen(words: seq<u32>): (g: Gen)
    requires Stored(words)
    ensures GenOk(g)
  {
    Decode(words, words[0] % MAX_TYPES, words[0] / MAX_TYPES)
  }

  function Labelled(words: seq<u32>, t: nat, rear: nat): (r: seq<u32>)
    requires Sound(words, t, rear)
    ensures |r| == |words|
  {
    words[0 := Mux(t, rear)]
  }

  /** Saving the position and reading it back. */
  lemma MuxRoundTrip(words: seq<u32>, t: nat, rear: nat)
    requires Sound(words, t, rear)
    ensures Mux(t, rear) % MAX_TYPES == t && (t > 0 ==> Mux(t, rear) / MAX_TYPES == rear)
    ensures Stored(Labelled(words, t, rear)) && StoredGen(Labelled(words, t, rear)) == Decode(words, t, rear)
    ensures Decode(Labelled(words, t, rear), t, rear) == Decode(words, t, rear)
  {
    assert Labelled(words, t, rear)[1..Deg(t) + 1] == words[1..Deg(t) + 1];
  }

  /** One call of random() leaves the stored word behind, so that setstate to the
      current array would then go back. */
  lemma StoredWordStale(words: seq<u32>, t: nat, rear: nat)
    requires Sound(words, t, rear) && t > 0 && words[0] == Mux(t, rear)
    ensures words[0] != Mux(t, Wrap(Deg(t), rear + 1))
  {
  }

  /** One step of the table: the rear term added to the front one, both moved on. */
  lemma StepDecodes(words: seq<u32>, t: nat, rear: nat, words': seq<u32>, rear': nat)
    requires Sound(words, t, rear) && t > 0 && |words'| == |words| && rear' == Wrap(Deg(t), rear + 1)
    requires var f := Wrap(Deg(t), rear + Sep(t)); words' == words[f + 1 := Add(words[f + 1], words[rear + 1])]
    ensures Sound(words', t, rear') && Decode(words', t, rear') == Advance(Decode(words, t, rear))
    ensures words'[Wrap(Deg(t), rear + Sep(t)) + 1] == Term(Decode(words, t, rear))
  {
    var n, f := Deg(t), Wrap(Deg(t), rear + Sep(t));
    var s := words[1..n + 1];
    var x := Add(words[f + 1], words[rear + 1]);
    assert words'[1..n + 1] == s[f := x];
    WrapSwap(n, rear, Sep(t));
    TermAt(words, t, rear);
    RingShift(s, f, x);
  }

  lemma TermAt(words: seq<u32>, t: nat, rear: nat)
    requires Sound(words, t, rear) && t > 0
    ensures Term(Decode(words, t, rear)) == Add(words[Wrap(Deg(t), rear + Sep(t)) + 1], words[rear + 1])
  {
    var n, f := Deg(t), Wrap(Deg(t), rear + Sep(t));
    var s := words[1..n + 1];
    WrapSwap(n, rear, Sep(t));
    RingIndex(s, f, n, 0);
    RingIndex(s, f, n, n - Sep(t));
  }

  lemma WrapSwap(n: nat, rear: nat, sep: nat)
    requires rear < n && 0 < sep < n
    ensures Wrap(n, Wrap(n, rear + 1) + sep) == Wrap(n, Wrap(n, rear + sep) + 1)
    ensures Wrap(n, Wrap(n, rear + sep) + (n - sep)) == rear
    ensures Wrap(n, rear + sep) != rear
  {
  }

  /** The oldest element of a full ring replaced by a new one, which is then the last. */
  lemma RingShift(s: seq<u32>, f: nat, x: u32)
    requires f < |s|
    ensures Ring(s[f := x], Wrap(|s|, f + 1), |s|) == Ring(s, f, |s|)[1..] + [x]
  {
    var n, g := |s|, Wrap(|s|, f + 1);
    RingTail(s, f, n);
    assert Wrap(n, g + (n - 1)) == f;
    RingFrame(s, g, n - 1, n - 1, x);
  }

  /** The largest generator that n bytes have room for. */
  function TypeFor(n: nat): (t: nat)
    ensures t < MAX_TYPES && (n >= 8 ==> 4 * (Deg(t) + 1) <= n)
    ensures forall u :: 0 < u < MAX_TYPES && 4 * (Deg(u) + 1) <= n ==> u <= t
  {
    if n < 32 then 0 else if n < 64 then 1 else if n < 128 then 2 else if n < 256 then 3 else 4
  }

  class State {
    var mem: map<nat, seq<u32>>   // the arrays, by name
    var cur: nat                  // the one in use
    var rtype: nat
    var deg: nat
    var sep: nat
    var fptr: nat                 // positions in the array, counted from its second word
    var rptr: nat

    /** The front pointer is sep places before the rear one, cyclically. */
    ghost predicate Table()
      reads this
    {
      && cur in mem && Sound(mem[cur], rtype, rptr)
      && deg == Deg(rtype) && sep == Sep(rtype)
      && (rtype > 0 ==> fptr == Wrap(deg, rptr + sep))
    }

    /** The word in front of the state tells the type, if not always the position. */
    ghost predicate Valid()
      reads this
    {
      Table() && Stored(mem[cur]) && mem[cur][0] % MAX_TYPES == rtype
    }

    /** The table the library starts with: a generator of type 3, rear position 0.
        `others` is memory that the program may use for more of them. */
    constructor (name: nat, randtbl: seq<u32>, others: map<nat, seq<u32>>)
      requires |randtbl| == Deg(3) + 1 && randtbl[0] == 3
      ensures Ready({name}) && cur == name && mem == others[name := randtbl]
      ensures GenOf(name) == Additive(3, Ring(randtbl[1..], Sep(3), Deg(3)))
    {
      mem, cur, rtype, deg, sep, fptr, rptr := others[name := randtbl], name, 3, Deg(3), Sep(3), 3, 0;
      new;
      assert randtbl[1..Deg(3) + 1] == randtbl[1..];
    }

    /** The generator that array x holds. */
    ghost function GenOf(x: nat): (g: Gen)
      reads this
      requires Table() && x in mem && (x != cur ==> Stored(mem[x]))
      ensures GenOk(g)
    {
      if x == cur then Decode(mem[x], rtype, rptr) else StoredGen(mem[x])
    }

    /** Both pointers go on by one: the rear one need not be tested when the front
        one has wrapped. */
    method Move()
      requires 0 < sep < deg && rptr < deg && fptr == Wrap(deg, rptr + sep)
      modifies this`fptr, this`rptr
      ensures rptr == Wrap(deg, old(rptr) + 1) && fptr == Wrap(deg, rptr + sep)
    {
      WrapSwap(deg, rptr, sep);
      fptr := fptr + 1;
      if fptr >= deg {
        fptr := 0;
        rptr := rptr + 1;
        assert rptr < deg;
      } else {
        rptr := rptr + 1;
        if rptr >= deg { rptr := 0; }
      }
    }

    /** random_unlocked with a trinomial. */
    method Feedback() returns (i: nat)
      requires Table() && rtype > 0
      modifies this`mem, this`fptr, this`rptr
      ensures Table() && mem == old(mem)[cur := mem[cur]] && |mem[cur]| == |old(mem[cur])|
        && mem[cur][0] == old(mem[cur])[0]
      ensures rptr == Wrap(deg, old(rptr) + 1)
      ensures Decode(mem[cur], rtype, rptr) == Advance(Decode(old(mem[cur]), rtype, old(rptr)))
      ensures i == Term(Decode(old(mem[cur]), rtype, old(rptr))) / 2
    {
      var s := mem[cur];
      ghost var rear := rptr;
      var front: int, back: int := s[fptr + 1], s[rptr + 1];
      s := s[fptr + 1 := (front + back) % 0x1_0000_0000];
      i := s[fptr + 1] / 2;
      mem := mem[cur := s];
      Move();
      StepDecodes(old(mem[cur]), rtype, rear, s, rptr);
    }

    /** random_unlocked */
    method Random() returns (i: nat)
      requires Table()
      modifies this`mem, this`fptr, this`rptr
      ensures Table() && i == Output(old(GenOf(cur))) && GenOf(cur) == Advance(old(GenOf(cur)))
      ensures mem == old(mem)[cur := mem[cur]] && |mem[cur]| == |old(mem[cur])| && mem[cur][0] == old(mem[cur])[0]
      ensures rptr == if rtype == 0 then old(rptr) else Wrap(deg, old(rptr) + 1)
    {
      if rtype == 0 {
        var x: int := mem[cur][1];
        x := (x * 1103515245 + 12345) % 0x8000_0000;
        var s: seq<u32> := mem[cur];
        s := s[1 := x];
        mem := mem[cur := s];
        i := x;
      } else {
        i := Feedback();
      }
    }

    /** srandom_unlocked: the rear pointer ends up where it began. */
    method Srandom(x: u32)
      requires cur in mem && Sound(mem[cur], rtype, 0) && deg == Deg(rtype) && sep == Sep(rtype)
      modifies this`mem, this`fptr, this`rptr
      ensures Table() && mem == old(mem)[cur := mem[cur]] && |mem[cur]| == |old(mem[cur])|
        && mem[cur][0] == old(mem[cur])[0]
      ensures GenOf(cur) == Seeded(rtype, x) && (rtype > 0 ==> rptr == 0)
    {
      var s: seq<u32> := mem[cur];
      s := s[1 := x];
      mem := mem[cur := s];
      if rtype > 0 {
        FillTable(x);
        fptr, rptr := sep, 0;
        Discard();
      }
    }

    /** The ten laps around the table that srandom throws away. */
    method Discard()
      requires Table() && rtype > 0 && rptr == 0
      modifies this`mem, this`fptr, this`rptr
      ensures Table() && mem == old(mem)[cur := mem[cur]] && |mem[cur]| == |old(mem[cur])|
        && mem[cur][0] == old(mem[cur])[0]
      ensures GenOf(cur) == After(old(GenOf(cur)), 10 * deg) && rptr == 0
    {
      var i := 0;
      while i < 10 * deg
        invariant i <= 10 * deg && Table() && rptr == i % deg
        invariant mem == old(mem)[cur := mem[cur]] && |mem[cur]| == |old(mem[cur])| && mem[cur][0] == old(mem[cur])[0]
        invariant GenOf(cur) == After(old(GenOf(cur)), i)
      {
        var _ := Random();
        WrapStep(rtype, i);
        i := i + 1;
      }
      TenLaps(rtype);
    }

    /** The seeds, by a congruential generator. */
    method FillTable(x: u32)
      requires cur in mem && Sound(mem[cur], rtype, 0) && rtype > 0 && deg == Deg(rtype) && mem[cur][1] == x
      modifies this`mem
      ensures cur in mem && mem == old(mem)[cur := mem[cur]] && |mem[cur]| == |old(mem[cur])|
        && mem[cur][0] == old(mem[cur])[0]
      ensures mem[cur][1..deg + 1] == Seeds(x, deg)
    {
      var i := 1;
      assert mem[cur][1..2] == Seeds(x, 1);
      while i < deg
        invariant 1 <= i <= deg && cur in mem && mem == old(mem)[cur := mem[cur]]
        invariant |mem[cur]| == |old(mem[cur])| && mem[cur][0] == old(mem[cur])[0]
        invariant mem[cur][1..i + 1] == Seeds(x, i)
      {
        var s: seq<u32> := mem[cur];
        assert s[i] == Seeds(x, i)[i - 1];
        var last: int := s[i];
        var s' := s[i + 1 := (1103515245 * last + 12345) % 0x1_0000_0000];
        mem := mem[cur := s'];
        assert s'[1..i + 2] == s[1..i + 1] + [Seed(s[i])];
        i := i + 1;
      }
    }

    /** The arrays in xs have been set up, and one of them is in use. */
    ghost predicate Ready(xs: set<nat>)
      reads this
    {
      Valid() && cur in xs && xs <= mem.Keys && forall x :: x in xs ==> Stored(mem[x])
    }

    /** Remember type and rear position in front of the current state. */
    method Save()
      requires Table()
      modifies this`mem
      ensures Valid() && mem == old(mem)[cur := Labelled(old(mem[cur]), rtype, rptr)]
      ensures Stored(mem[cur]) && StoredGen(mem[cur]) == old(GenOf(cur)) && GenOf(cur) == old(GenOf(cur))
    {
      MuxRoundTrip(mem[cur], rtype, rptr);
      mem := mem[cur := Labelled(mem[cur], rtype, rptr)];
    }

    /** Use array x, with a generator of type t and the given rear position. */
    method Resume(x: nat, t: nat, rear: nat)
      requires x in mem && Sound(mem[x], t, rear)
      modifies this`cur, this`rtype, this`deg, this`sep, this`fptr, this`rptr
      ensures Table() && cur == x && rtype == t && (t > 0 ==> rptr == rear)
    {
      cur, rtype, deg, sep := x, t, Deg(t), Sep(t);
      if rtype != 0 {
        rptr := rear;
        WrapIsMod(deg, rear + sep);
        fptr := (rear + sep) % deg;
      }
    }

    /** setstate.  Another array resumes where it was left, and nothing is lost of
        the one put aside.  Switching to the array already in use keeps its type
        but goes back to the position last saved in it, because that is read
        before saving. */
    method SetState(x: nat, ghost xs: set<nat>) returns (ostate: nat)
      requires Ready(xs) && x in xs
      modifies this
      ensures Ready(xs) && cur == x && ostate == old(cur) && SameSizes(old(mem), mem)
      ensures x != old(cur) ==> forall y :: y in xs ==> GenOf(y) == old(GenOf(y))
      ensures x == old(cur) ==> rtype == old(rtype) && (rtype > 0 ==> rptr == old(mem[x][0]) / MAX_TYPES)
      ensures x == old(cur) && rtype > 0 ==> (rptr == old(rptr) <==> old(mem[x][0]) == Mux(rtype, old(rptr)))
    {
      ostate := cur;
      var t, rear := mem[x][0] % MAX_TYPES, mem[x][0] / MAX_TYPES;
      Save();
      Resume(x, t, rear);
    }

    /** initstate: set up an array of n bytes and use it. */
    method InitState(seed: u32, x: nat, n: nat, ghost xs: set<nat>) returns (ok: bool, ostate: nat)
      requires Ready(xs) && x in mem && n <= 4 * |mem[x]| && n < WORD
      modifies this
      ensures ok <==> n >= 8
      ensures SameSizes(old(mem), mem)
      ensures ok ==> Ready(xs + {x}) && cur == x && GenOf(x) == Seeded(TypeFor(n), seed) && StoredGen(mem[x]) == GenOf(x)
      ensures ok ==> forall y :: y in xs && y != x ==> GenOf(y) == old(GenOf(y))
      ensures !ok ==> Ready(xs) && cur == old(cur) && forall y :: y in xs ==> GenOf(y) == old(GenOf(y))
    {
      ostate := cur;
      Save();
      if n < 8 { return false, ostate; }
      SetUp(seed, x, TypeFor(n));
      ok := true;
    }

    /** Start array x as a generator of type t. */
    method SetUp(seed: u32, x: nat, t: nat)
      requires x in mem && Sound(mem[x], t, 0)
      modifies this
      ensures Valid() && cur == x && mem == old(mem)[x := mem[x]] && |mem[x]| == |old(mem[x])|
      ensures GenOf(x) == Seeded(t, seed) && Stored(mem[x]) && StoredGen(mem[x]) == GenOf(x)
    {
      rtype, deg, sep, cur := t, Deg(t), Sep(t), x;
      Srandom(seed);
      Save();
    }

    /** The arrays stand where the pool says. */
    ghost predicate Matches(p: Pool)
      reads this
    {
      && PoolOk(p) && Ready(p.book.Keys) && cur == p.cur
      && forall x :: x in p.book ==> Follows(p.book[x], GenOf(x))
    }

    method DrawStep(ghost p: Pool) returns (n: nat)
      requires Matches(p)
      modifies this
      ensures Matches(Next(p, Draw)) && [n] == Yield(p, Draw) && SameSizes(old(mem), mem)
    {
      FollowsMore(p.book[cur], GenOf(cur));
      n := Random();
    }

    /** Switching to the array in use is not part of a run: SetState says what it does. */
    method SwitchStep(x: nat, known: set<nat>, ghost p: Pool)
      requires Matches(p) && known == p.book.Keys
      modifies this
      ensures Matches(Next(p, Switch(x))) && SameSizes(old(mem), mem)
    {
      if x in known && x != cur { var _ := SetState(x, known); }
    }

    method ReseedStep(seed: u32, ghost p: Pool)
      requires Matches(p)
      modifies this
      ensures Matches(Next(p, Reseed(seed))) && SameSizes(old(mem), mem)
    {
      KindIs(p.book[cur], GenOf(cur), mem[cur], rtype, rptr);
      Srandom(seed);
      FollowsStart(GenOf(cur));
    }

    method InitStep(x: nat, seed: u32, n: nat, ghost p: Pool)
      requires Matches(p) && Legal(mem, Init(x, seed, n))
      modifies this
      ensures Matches(Next(p, Init(x, seed, n))) && SameSizes(old(mem), mem)
    {
      var ok, _ := InitState(seed, x, n, p.book.Keys);
      if ok { FollowsStart(GenOf(cur)); }
    }

    method Step(a: Action, known: set<nat>, ghost p: Pool) returns (out: seq<nat>, now: set<nat>)
      requires Matches(p) && known == p.book.Keys && Legal(mem, a)
      modifies this
      ensures Matches(Next(p, a)) && out == Yield(p, a) && SameSizes(old(mem), mem) && now == Next(p, a).book.Keys
    {
      NextKeys(p, a);
      out, now := [], known;
      match a
      case Draw =>
        var n := DrawStep(p);
        out := [n];
      case Switch(x) => SwitchStep(x, known, p);
      case Reseed(seed) => ReseedStep(seed, p);
      case Init(x, seed, n) =>
        InitStep(x, seed, n, p);
        if n >= 8 { now := now + {x}; }
    }

    /** Any sequence of calls: each array yields the numbers that its generator
        would yield alone since it was last seeded, whatever happens to the others.
        `start` are the arrays the program has set up before. */
    method Run(script: seq<Action>, start: set<nat>, ghost p: Pool) returns (out: seq<nat>)
      requires Matches(p) && start == p.book.Keys && forall i :: 0 <= i < |script| ==> Legal(mem, script[i])
      modifies this
      ensures Matches(Played(p, script)) && out == Drawn(p, script)
    {
      out := [];
      ghost var q := p;
      var known := start;
      var i := 0;
      while i < |script|
        invariant i <= |script| && SameSizes(old(mem), mem) && Matches(q) && known == q.book.Keys
        invariant PoolOk(p) && q == Played(p, script[..i]) && out == Drawn(p, script[..i])
      {
        PlayedNext(p, script, i);
        LegalKept(old(mem), mem, script[i]);
        var more;
        more, known := Step(script[i], known, q);
        q := Next(q, script[i]);
        out := out + more;
        i := i + 1;
      }
      assert script[..i] == script;
    }
  }

  predicate SameSizes(m: map<nat, seq<u32>>, m': map<nat, seq<u32>>) {
    m'.Keys == m.Keys && forall x :: x in m ==> |m'[x]| == |m[x]|
  }

  // The library as a pool of independent generators

  datatype Action = Draw | Switch(x: nat) | Reseed(seed: u32) | Init(x: nat, seed: u32, n: nat)

  /** initstate may be given any array, of the size that it is. */
  predicate Legal(mem: map<nat, seq<u32>>, a: Action) {
    a.Init? ==> a.x in mem && a.n <= 4 * |mem[a.x]| && a.n < WORD
  }

  lemma LegalKept(m: map<nat, seq<u32>>, m': map<nat, seq<u32>>, a: Action)
    requires SameSizes(m, m') && Legal(m, a)
    ensures Legal(m', a)
  {
  }

  /** Where a generator was seeded and what it has yielded since. */
  datatype Track = Track(start: Gen, out: seq<nat>)

  datatype Pool = Pool(cur: nat, book: map<nat, Track>)

  ghost predicate PoolOk(p: Pool) {
    p.cur in p.book && forall x :: x in p.book ==> GenOk(p.book[x].start)
  }

  function Kind(g: Gen): nat { if g.Lcg? then 0 else g.t }

  /** What each call does to the pool: a number drawn is the next of the current
      generator, and seeding starts one anew. */
  ghost function Next(p: Pool, a: Action): (q: Pool)
    requires PoolOk(p)
    ensures PoolOk(q)
  {
    match a
    case Draw =>
      var t := p.book[p.cur];
      p.(book := p.book[p.cur := Track(t.start, Outputs(t.start, |t.out| + 1))])
    case Switch(x) => if x in p.book then p.(cur := x) else p
    case Reseed(seed) => p.(book := p.book[p.cur := Track(Seeded(Kind(p.book[p.cur].start), seed), [])])
    case Init(x, seed, n) => if n < 8 then p else Pool(x, p.book[x := Track(Seeded(TypeFor(n), seed), [])])
  }

  lemma NextKeys(p: Pool, a: Action)
    requires PoolOk(p)
    ensures Next(p, a).book.Keys == p.book.Keys + if a.Init? && a.n >= 8 then {a.x} else {}
  {
  }

  /** The number drawn, if one is. */
  ghost function Yield(p: Pool, a: Action): (r: seq<nat>)
    requires PoolOk(p)
  {
    if a.Draw? then [Output(After(p.book[p.cur].start, |p.book[p.cur].out|))] else []
  }

  ghost function Played(p: Pool, script: seq<Action>): (q: Pool)
    requires PoolOk(p)
    ensures PoolOk(q)
  {
    if script == [] then p else Next(Played(p, script[..|script| - 1]), script[|script| - 1])
  }

  ghost function Drawn(p: Pool, script: seq<Action>): (r: seq<nat>)
    requires PoolOk(p)
  {
    if script == [] then []
    else
      var n := |script| - 1;
      Drawn(p, script[..n]) + Yield(Played(p, script[..n]), script[n])
  }

  lemma PlayedNext(p: Pool, script: seq<Action>, i: nat)
    requires PoolOk(p) && i < |script|
    ensures Played(p, script[..i + 1]) == Next(Played(p, script[..i]), script[i])
    ensures Drawn(p, script[..i + 1]) == Drawn(p, script[..i]) + Yield(Played(p, script[..i]), script[i])
  {
    assert script[..i + 1][..i] == script[..i];
  }

  /** t records the first outputs of its generator, and g is where that stands. */
  ghost predicate Follows(t: Track, g: Gen) {
    GenOk(t.start) && GenOk(g) && t.out == Outputs(t.start, |t.out|) && g == After(t.start, |t.out|)
  }

  lemma FollowsStart(g: Gen)
    requires GenOk(g)
    ensures Follows(Track(g, []), g)
  {
  }

  lemma FollowsMore(t: Track, g: Gen)
    requires Follows(t, g)
    ensures Follows(Track(t.start, Outputs(t.start, |t.out| + 1)), Advance(g))
    ensures Outputs(t.start, |t.out| + 1) == t.out + [Output(g)]
  {
    OutputsAppend(t.start, |t.out|);
  }

  lemma {:induction false} KindKept(g: Gen, n: nat)
    requires GenOk(g)
    ensures Kind(After(g, n)) == Kind(g)
    decreases n
  {
    if n > 0 { KindKept(g, n - 1); }
  }

  lemma KindIs(t: Track, g: Gen, words: seq<u32>, rtype: nat, rear: nat)
    requires Follows(t, g) && Sound(words, rtype, rear) && g == Decode(words, rtype, rear)
    ensures Kind(t.start) == rtype
  {
    KindKept(t.start, |t.out|);
  }

  lemma {:induction false} OutputsAppend(g: Gen, n: nat)
    requires GenOk(g)
    ensures Outputs(g, n + 1) == Outputs(g, n) + [Output(After(g, n))]
    decreases n
  {
    if n > 0 {
      OutputsAppend(Advance(g), n - 1);
      AfterFirst(g, n - 1);
      assert Outputs(g, n + 1) == [Output(g)] + Outputs(Advance(g), n);
    }
  }

  lemma {:induction false} AfterFirst(g: Gen, n: nat)
    requires GenOk(g)
    ensures After(Advance(g), n) == After(g, n + 1)
    decreases n
  {
    if n > 0 { AfterFirst(g, n - 1); }
  }

  function Seed(x: int): u32 { (1103515245 * x + 12345) % WORD }

  function Seeds(x: u32, n: nat): (s: seq<u32>)
    ensures |s| == n
  {
    if n == 0 then [] else if n == 1 then [x] else Seeds(x, n - 1) + [Seed(Seeds(x, n - 1)[n - 2])]
  }

  function After(g: Gen, n: nat): (g': Gen)
    requires GenOk(g)
    ensures GenOk(g')
    decreases n
  {
    if n == 0 then g else Advance(After(g, n - 1))
  }

  /** What srandom sets up. */
  function Seeded(t: nat, x: u32): Gen
    requires t < MAX_TYPES
  {
    if t == 0 then Lcg(x) else After(Additive(t, Ring(Seeds(x, Deg(t)), Sep(t), Deg(t))), 10 * Deg(t))
  }

  /** Counting modulo the degree. */
  lemma WrapStep(t: nat, i: nat)
    requires 1 <= t < MAX_TYPES
    ensures Wrap(Deg(t), i % Deg(t) + 1) == (i + 1) % Deg(t)
  {
    if t == 1 { Mod7(i); } else if t == 2 { Mod15(i); } else if t == 3 { Mod31(i); } else { Mod63(i); }
  }

  lemma TenLaps(t: nat)
    requires 1 <= t < MAX_TYPES
    ensures 10 * Deg(t) % Deg(t) == 0
  {
  }

  lemma Mod7(i: nat)
    ensures (i + 1) % 7 == if i % 7 + 1 < 7 then i % 7 + 1 else 0
  {
  }

  lemma Mod15(i: nat)
    ensures (i + 1) % 15 == if i % 15 + 1 < 15 then i % 15 + 1 else 0
  {
  }

  lemma Mod31(i: nat)
    ensures (i + 1) % 31 == if i % 31 + 1 < 31 then i % 31 + 1 else 0
  {
  }

  lemma Mod63(i: nat)
    ensures (i + 1) % 63 == if i % 63 + 1 < 63 then i % 63 + 1 else 0
  {
  }
}
