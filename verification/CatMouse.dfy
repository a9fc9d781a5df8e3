/** Cats and mice sharing two bowls under one lock and two condition variables. */
module CatMouse {

  // One step is one lock operation, one cv_wait, one cv_broadcast, or one block
  // of updates made while the lock is held.  Any number of cats and mice, any
  // interleaving.

  const NFOODBOWLS := 2
  const ROUNDS := 4

  type Kind = k: int | 0 <= k < 2
  const CAT: Kind := 0
  const MOUSE: Kind := 1

  function Other(k: Kind): Kind { 1 - k }

  /** What an animal is about to do. */
  datatype Pc =
    | Want       // lock_acquire at the top of a round
    | Check      // lock held: the wait-loop test
    | Asleep     // in cv_wait, on the queue of its own spot
    | Woken      // in cv_wait, woken: lock_acquire
    | Pick       // lock held: search for a bowl
    | Seated     // lock held: lock_release before eating
    | Eating     // lock_acquire after eating
    | Finish     // lock held: iteration++, busy--, free the bowl
    | WakeOwn    // lock held: cv_broadcast of the own spot
    | WakeOther  // lock held: cv_broadcast of the other spot if none of the own kind eats
    | Leave      // lock held: lock_release
    | Done

  datatype Animal = Animal(kind: Kind, pc: Pc, iteration: nat, bowl: nat)

  datatype Option<T> = None | Some(value: T)

  /** busy[k], spot[k]: busycat/busymouse and the sleepers of cat_spot/mouse_spot. */
  datatype State = State(
    animals: seq<Animal>,
    busy: seq<int>,
    bowls: seq<bool>,
    holder: Option<nat>,
    spot: seq<seq<nat>>)

  predicate Shape(s: State) {
    |s.busy| == |s.spot| == 2 && |s.bowls| == NFOODBOWLS
  }

  // Steps

  predicate MustWait(s: State, k: Kind)
    requires Shape(s)
  {
    s.busy[Other(k)] > 0 || s.busy[k] == NFOODBOWLS
  }

  /** The bowl search: the first free bowl, or NFOODBOWLS when there is none. */
  function FreeBowl(bowls: seq<bool>): (b: nat)
    requires |bowls| == NFOODBOWLS
    ensures b <= NFOODBOWLS
    ensures b < NFOODBOWLS ==> !bowls[b]
    ensures forall i :: 0 <= i < b && i < NFOODBOWLS ==> bowls[i]
    ensures b == NFOODBOWLS <==> forall i :: 0 <= i < NFOODBOWLS ==> bowls[i]
  {
    if !bowls[0] then 0 else if !bowls[1] then 1 else NFOODBOWLS
  }

  /** cv_broadcast: empty the queue from its head, waking each thread. */
  function WakeAll(animals: seq<Animal>, queue: seq<nat>): (r: seq<Animal>)
    ensures |r| == |animals|
    decreases |queue|
  {
    if queue == [] then animals
    else
      var i := queue[0];
      var woken :=
        if i < |animals| && animals[i].pc.Asleep? then animals[i := animals[i].(pc := Woken)] else animals;
      WakeAll(woken, queue[1..])
  }

  predicate Enabled(s: State, i: nat) {
    i < |s.animals| && match s.animals[i].pc
    case Want | Woken | Eating => s.holder.None?
    case Asleep | Done => false
    case _ => true
  }

  function Goto(s: State, i: nat, pc: Pc): State
    requires i < |s.animals|
  {
    s.(animals := s.animals[i := s.animals[i].(pc := pc)])
  }

  function Broadcast(s: State, k: Kind): State
    requires Shape(s)
  {
    s.(animals := WakeAll(s.animals, s.spot[k]), spot := s.spot[k := []])
  }

  function Sit(s: State, i: nat): State
    requires Shape(s) && i < |s.animals|
  {
    var a, b := s.animals[i], FreeBowl(s.bowls);
    if b == NFOODBOWLS then Goto(s, i, Want)  // falls out of the search with the lock still held
    else s.(animals := s.animals[i := a.(pc := Seated, bowl := b)],
            bowls := s.bowls[b := true],
            busy := s.busy[a.kind := s.busy[a.kind] + 1])
  }

  function Rise(s: State, i: nat): State
    requires Shape(s) && i < |s.animals|
  {
    var a := s.animals[i];
    s.(animals := s.animals[i := a.(pc := WakeOwn, iteration := a.iteration + 1)],
       bowls := if a.bowl < NFOODBOWLS then s.bowls[a.bowl := false] else s.bowls,
       busy := s.busy[a.kind := s.busy[a.kind] - 1])
  }

  function Step(s: State, i: nat): State
    requires Shape(s) && Enabled(s, i)
  {
    var a := s.animals[i];
    match a.pc
    case Want | Woken => Goto(s, i, Check).(holder := Some(i))
    case Check =>
      if MustWait(s, a.kind)
      then Goto(s, i, Asleep).(holder := None, spot := s.spot[a.kind := s.spot[a.kind] + [i]])
      else Goto(s, i, Pick)
    case Pick => Sit(s, i)
    case Seated => Goto(s, i, Eating).(holder := None)
    case Eating => Goto(s, i, Finish).(holder := Some(i))
    case Finish => Rise(s, i)
    case WakeOwn => Broadcast(Goto(s, i, WakeOther), a.kind)
    case WakeOther =>
      if s.busy[a.kind] == 0 then Broadcast(Goto(s, i, Leave), Other(a.kind)) else Goto(s, i, Leave)
    case Leave => Goto(s, i, if a.iteration < ROUNDS then Want else Done).(holder := None)
  }

  ghost predicate Init(s: State) {
    && s.busy == [0, 0] && s.bowls == [false, false] && s.spot == [[], []] && s.holder.None?
    && (forall i :: 0 <= i < |s.animals| ==> s.animals[i].pc.Want? && s.animals[i].iteration == 0)
  }

  // Counting

  datatype Role = Eats(kind: Kind) | EatsFrom(bowl: nat)

  predicate AtTable(a: Animal) {
    a.pc.Seated? || a.pc.Eating? || a.pc.Finish?
  }

  predicate Has(a: Animal, role: Role) {
    AtTable(a) && match role case Eats(k) => a.kind == k case EatsFrom(b) => a.bowl == b
  }

  function One(b: bool): nat { if b then 1 else 0 }

  function Count(animals: seq<Animal>, role: Role): nat {
    if animals == [] then 0
    else Count(animals[..|animals| - 1], role) + One(Has(animals[|animals| - 1], role))
  }

  lemma {:induction false} CountUpdate(animals: seq<Animal>, i: nat, a: Animal, role: Role)
    requires i < |animals|
    ensures Count(animals[i := a], role) + One(Has(animals[i], role)) == Count(animals, role) + One(Has(a, role))
  {
    var n := |animals| - 1;
    if i == n {
      assert animals[i := a][..n] == animals[..n];
    } else {
      assert animals[i := a][..n] == animals[..n][i := a];
      CountUpdate(animals[..n], i, a, role);
    }
  }

  lemma {:induction false} CountSame(a: seq<Animal>, b: seq<Animal>, role: Role)
    requires |a| == |b| && forall i :: 0 <= i < |a| ==> Has(a[i], role) == Has(b[i], role)
    ensures Count(a, role) == Count(b, role)
  {
    if a != [] { CountSame(a[..|a| - 1], b[..|b| - 1], role); }
  }

  lemma {:induction false} CountWitness(animals: seq<Animal>, role: Role) returns (i: nat)
    requires Count(animals, role) > 0
    ensures i < |animals| && Has(animals[i], role)
  {
    i := |animals| - 1;
    if !Has(animals[i], role) { i := CountWitness(animals[..i], role); }
  }

  lemma {:induction false} CountTwo(animals: seq<Animal>, i: nat, j: nat, role: Role)
    requires i < j < |animals| && Has(animals[i], role) && Has(animals[j], role)
    ensures Count(animals, role) >= 2
  {
    var a := animals[j].(pc := Done);
    CountUpdate(animals, j, a, role);
    CountUpdate(animals[j := a], i, animals[i].(pc := Done), role);
  }

  /** Every eater is one of the two kinds and sits at one of the two bowls. */
  lemma {:induction false} CountTables(animals: seq<Animal>)
    requires forall i :: 0 <= i < |animals| && AtTable(animals[i]) ==> animals[i].bowl < NFOODBOWLS
    ensures Count(animals, Eats(CAT)) + Count(animals, Eats(MOUSE))
         == Count(animals, EatsFrom(0)) + Count(animals, EatsFrom(1))
  {
    if animals != [] { CountTables(animals[..|animals| - 1]); }
  }

  // The invariant

  predicate HasLock(a: Animal) {
    || a.pc.Check? || a.pc.Pick? || a.pc.Seated? || a.pc.Finish?
    || a.pc.WakeOwn? || a.pc.WakeOther? || a.pc.Leave?
  }

  ghost predicate AnimalOk(s: State, i: nat)
    requires Shape(s) && i < |s.animals|
  {
    var a := s.animals[i];
    && (HasLock(a) <==> s.holder == Some(i))
    && (a.pc.Pick? ==> !MustWait(s, a.kind))
    && (AtTable(a) ==> a.bowl < NFOODBOWLS)
    && (match a.pc
        case Done => a.iteration == ROUNDS
        case WakeOwn | WakeOther | Leave => 0 < a.iteration <= ROUNDS
        case _ => a.iteration < ROUNDS)
  }

  predicate SleepsAt(animals: seq<Animal>, i: nat, k: Kind) {
    i < |animals| && animals[i].kind == k && animals[i].pc.Asleep?
  }

  /** The queue of a spot holds exactly the sleepers of its kind. */
  ghost predicate SpotOk(s: State, k: Kind)
    requires Shape(s)
  {
    forall i: nat :: i in s.spot[k] <==> SleepsAt(s.animals, i, k)
  }

  /** The animal is still going to broadcast spot k. */
  predicate Owes(a: Animal, k: Kind) {
    a.pc.WakeOwn? || (a.pc.WakeOther? && a.kind != k)
  }

  /** Nobody sleeps at spot k without a reason, unless its wake-up is on the way. */
  ghost predicate WakeupOk(s: State, k: Kind)
    requires Shape(s)
  {
    s.spot[k] != [] ==>
      || MustWait(s, k)
      || (s.holder.Some? && s.holder.value < |s.animals| && Owes(s.animals[s.holder.value], k))
  }

  ghost predicate TablesOk(s: State)
    requires Shape(s)
  {
    && (forall k: Kind :: s.busy[k] == Count(s.animals, Eats(k)))
    && (forall b :: 0 <= b < NFOODBOWLS ==> One(s.bowls[b]) == Count(s.animals, EatsFrom(b)))
    && (s.busy[CAT] == 0 || s.busy[MOUSE] == 0)
  }

  ghost predicate Inv(s: State) {
    && Shape(s)
    && (s.holder.Some? ==> s.holder.value < |s.animals|)
    && (forall i :: 0 <= i < |s.animals| ==> AnimalOk(s, i))
    && (forall k: Kind :: SpotOk(s, k))
    && (forall k: Kind :: WakeupOk(s, k))
    && TablesOk(s)
  }

  lemma {:induction false} CountNone(animals: seq<Animal>, role: Role)
    requires forall i :: 0 <= i < |animals| ==> !AtTable(animals[i])
    ensures Count(animals, role) == 0
  {
    if animals != [] { CountNone(animals[..|animals| - 1], role); }
  }

  lemma InitInv(s: State)
    requires Init(s)
    ensures Inv(s)
  {
    forall role: Role ensures Count(s.animals, role) == 0 { CountNone(s.animals, role); }
  }

  /** What a broadcast does to one animal. */
  lemma {:induction false} WakeAllAt(animals: seq<Animal>, queue: seq<nat>, i: nat)
    requires i < |animals|
    ensures WakeAll(animals, queue)[i]
         == if i in queue && animals[i].pc.Asleep? then animals[i].(pc := Woken) else animals[i]
    decreases |queue|
  {
    if queue != [] {
      var j := queue[0];
      var woken :=
        if j < |animals| && animals[j].pc.Asleep? then animals[j := animals[j].(pc := Woken)] else animals;
      WakeAllAt(woken, queue[1..], i);
      assert queue == [j] + queue[1..];
    }
  }

  /** At Pick a bowl is free: the search cannot fail. */
  lemma BowlFree(s: State, i: nat)
    requires Inv(s) && i < |s.animals| && s.animals[i].pc.Pick?
    ensures FreeBowl(s.bowls) < NFOODBOWLS
  {
    assert AnimalOk(s, i);
    forall j | 0 <= j < |s.animals| && AtTable(s.animals[j]) ensures s.animals[j].bowl < NFOODBOWLS {
      assert AnimalOk(s, j);
    }
    CountTables(s.animals);
    assert s.busy[CAT] == Count(s.animals, Eats(CAT)) && s.busy[MOUSE] == Count(s.animals, Eats(MOUSE));
    assert One(s.bowls[0]) == Count(s.animals, EatsFrom(0)) && One(s.bowls[1]) == Count(s.animals, EatsFrom(1));
  }

  // Every step keeps the invariant

  ghost predicate CanStep(s: State, i: nat) {
    Inv(s) && Enabled(s, i)
  }

  /** While the lock is held nobody but its holder can move. */
  lemma HolderMoves(s: State, i: nat)
    requires CanStep(s, i) && s.holder.Some?
    ensures s.holder == Some(i) && HasLock(s.animals[i])
  {
    assert AnimalOk(s, i);
  }

  /** Animal j, seen from a step of animal i. */
  lemma StepOther(s: State, i: nat, j: nat)
    requires CanStep(s, i) && j < |s.animals| && j != i
    ensures |Step(s, i).animals| == |s.animals|
    ensures var b := Step(s, i).animals[j];
      b == s.animals[j] || (s.animals[j].pc.Asleep? && b == s.animals[j].(pc := Woken))
  {
    var a := s.animals[i];
    if a.pc.WakeOwn? {
      WakeAllAt(Goto(s, i, WakeOther).animals, s.spot[a.kind], j);
    } else if a.pc.WakeOther? && s.busy[a.kind] == 0 {
      WakeAllAt(Goto(s, i, Leave).animals, s.spot[Other(a.kind)], j);
    }
  }

  /** Animal i, after its own step. */
  lemma StepSelf(s: State, i: nat)
    requires CanStep(s, i)
    ensures |Step(s, i).animals| == |s.animals|
    ensures var a, b := s.animals[i], Step(s, i).animals[i];
      && b.kind == a.kind
      && (a.pc.WakeOwn? ==> b == a.(pc := WakeOther))
      && (a.pc.WakeOther? ==> b == a.(pc := Leave))
  {
    var a := s.animals[i];
    if a.pc.WakeOwn? {
      WakeAllAt(Goto(s, i, WakeOther).animals, s.spot[a.kind], i);
    } else if a.pc.WakeOther? && s.busy[a.kind] == 0 {
      WakeAllAt(Goto(s, i, Leave).animals, s.spot[Other(a.kind)], i);
    }
  }

  lemma StepAnimal(s: State, i: nat, j: nat)
    requires CanStep(s, i) && j < |s.animals|
    ensures Shape(Step(s, i)) && |Step(s, i).animals| == |s.animals|
    ensures AnimalOk(Step(s, i), j)
  {
    assert AnimalOk(s, i) && AnimalOk(s, j);
    if s.holder.Some? { HolderMoves(s, i); }
    if s.animals[i].pc.Pick? { BowlFree(s, i); }
    if i == j {
      StepSelf(s, i);
    } else {
      StepOther(s, i, j);
    }
  }

  lemma StepSpot(s: State, i: nat, k: Kind)
    requires CanStep(s, i)
    ensures Shape(Step(s, i)) && SpotOk(Step(s, i), k)
  {
    var a, t := s.animals[i], Step(s, i);
    StepSelf(s, i);
    assert SpotOk(s, k);
    forall j: nat ensures j in t.spot[k] <==> SleepsAt(t.animals, j, k) {
      assert j in s.spot[k] <==> SleepsAt(s.animals, j, k);
      if j < |s.animals| && j != i {
        StepOther(s, i, j);
        if s.animals[j].pc.Asleep? { StepWakes(s, i, j); }
      }
    }
  }

  /** A step wakes exactly the sleepers of the spot it broadcasts. */
  lemma StepWakes(s: State, i: nat, j: nat)
    requires CanStep(s, i) && j < |s.animals| && j != i && s.animals[j].pc.Asleep?
    ensures Shape(Step(s, i)) && |Step(s, i).animals| == |s.animals|
    ensures var k, a := s.animals[j].kind, s.animals[i];
      Step(s, i).animals[j].pc.Woken? <==>
        (a.pc.WakeOwn? && a.kind == k) || (a.pc.WakeOther? && a.kind != k && s.busy[a.kind] == 0)
  {
    var a, k := s.animals[i], s.animals[j].kind;
    forall x: Kind ensures j in s.spot[x] <==> k == x {
      assert SpotOk(s, x) && SleepsAt(s.animals, j, k);
      assert j in s.spot[x] <==> SleepsAt(s.animals, j, x);
    }
    if a.pc.WakeOwn? {
      WakeAllAt(Goto(s, i, WakeOther).animals, s.spot[a.kind], j);
    } else if a.pc.WakeOther? && s.busy[a.kind] == 0 {
      WakeAllAt(Goto(s, i, Leave).animals, s.spot[Other(a.kind)], j);
    }
  }

  /** Only the moving animal changes its place at the table. */
  lemma StepCount(s: State, i: nat, role: Role)
    requires CanStep(s, i)
    ensures |Step(s, i).animals| == |s.animals|
    ensures Count(Step(s, i).animals, role) + One(Has(s.animals[i], role))
         == Count(s.animals, role) + One(Has(Step(s, i).animals[i], role))
  {
    var t := Step(s, i);
    StepSelf(s, i);
    var u := s.animals[i := t.animals[i]];
    forall j | 0 <= j < |u| ensures Has(t.animals[j], role) == Has(u[j], role) {
      if j != i { StepOther(s, i, j); }
    }
    CountSame(t.animals, u, role);
    CountUpdate(s.animals, i, t.animals[i], role);
  }

  lemma StepBusy(s: State, i: nat, k: Kind)
    requires CanStep(s, i)
    ensures Shape(Step(s, i)) && Step(s, i).busy[k] == Count(Step(s, i).animals, Eats(k))
  {
    StepCount(s, i, Eats(k));
    StepSelf(s, i);
    assert s.busy[k] == Count(s.animals, Eats(k));
    if s.animals[i].pc.Pick? { BowlFree(s, i); }
  }

  lemma StepBowl(s: State, i: nat, b: nat)
    requires CanStep(s, i) && b < NFOODBOWLS
    ensures Shape(Step(s, i)) && One(Step(s, i).bowls[b]) == Count(Step(s, i).animals, EatsFrom(b))
  {
    StepCount(s, i, EatsFrom(b));
    StepSelf(s, i);
    assert One(s.bowls[b]) == Count(s.animals, EatsFrom(b));
    assert AnimalOk(s, i);
    if s.animals[i].pc.Pick? { BowlFree(s, i); }
  }

  lemma StepTables(s: State, i: nat)
    requires CanStep(s, i)
    ensures Shape(Step(s, i)) && TablesOk(Step(s, i))
  {
    forall k: Kind ensures Step(s, i).busy[k] == Count(Step(s, i).animals, Eats(k)) { StepBusy(s, i, k); }
    forall b | 0 <= b < NFOODBOWLS ensures One(Step(s, i).bowls[b]) == Count(Step(s, i).animals, EatsFrom(b)) {
      StepBowl(s, i, b);
    }
    assert AnimalOk(s, i);
    assert forall k: Kind :: s.busy[k] == Count(s.animals, Eats(k));
  }

  lemma StepWakeup(s: State, i: nat, k: Kind)
    requires CanStep(s, i)
    ensures Shape(Step(s, i)) && WakeupOk(Step(s, i), k)
  {
    var a := s.animals[i];
    StepSelf(s, i);
    assert AnimalOk(s, i) && WakeupOk(s, k);
    if s.holder.Some? { HolderMoves(s, i); }
    assert forall x: Kind :: s.busy[x] == Count(s.animals, Eats(x));
    if a.pc.Pick? { BowlFree(s, i); }
  }

  lemma StepInv(s: State, i: nat)
    requires CanStep(s, i)
    ensures Inv(Step(s, i)) && |Step(s, i).animals| == |s.animals|
  {
    var t := Step(s, i);
    StepSelf(s, i);
    forall j | 0 <= j < |t.animals| ensures Shape(t) && AnimalOk(t, j) { StepAnimal(s, i, j); }
    forall k: Kind ensures Shape(t) && SpotOk(t, k) && WakeupOk(t, k) {
      StepSpot(s, i, k);
      StepWakeup(s, i, k);
    }
    StepTables(s, i);
  }

  // Every run is finite

  /** Pays for one animal's remaining steps, `n` animals being around; finishing
      a meal pays for waking everybody twice. */
  function Credit(a: Animal, n: nat): nat {
    (if a.iteration < ROUNDS then (ROUNDS - a.iteration) * (20 + 4 * n) else 0) +
    match a.pc
    case WakeOwn => 15 + 4 * n
    case WakeOther => 14 + 2 * n
    case Leave => 13
    case Want => 12
    case Woken => 11
    case Check => 10
    case Asleep => 9
    case Pick => 8
    case Seated => 7
    case Eating => 6
    case Finish => 5
    case Done => 0
  }

  function Total(animals: seq<Animal>, n: nat): nat {
    if animals == [] then 0
    else Total(animals[..|animals| - 1], n) + Credit(animals[|animals| - 1], n)
  }

  lemma {:induction false} TotalUpdate(animals: seq<Animal>, i: nat, a: Animal, n: nat)
    requires i < |animals|
    ensures Total(animals[i := a], n) == Total(animals, n) - Credit(animals[i], n) + Credit(a, n)
  {
    var m := |animals| - 1;
    if i == m {
      assert animals[i := a][..m] == animals[..m];
    } else {
      assert animals[i := a][..m] == animals[..m][i := a];
      TotalUpdate(animals[..m], i, a, n);
    }
  }

  lemma {:induction false} TotalBound(a: seq<Animal>, b: seq<Animal>, n: nat, waking: bool)
    requires |a| == |b|
    requires forall i :: 0 <= i < |a| ==> Credit(b[i], n) <= Credit(a[i], n) + if waking then 2 else 0
    ensures Total(b, n) <= Total(a, n) + if waking then 2 * |a| else 0
  {
    var m := |a| - 1;
    if a != [] {
      assert Credit(b[m], n) <= Credit(a[m], n) + if waking then 2 else 0;
      TotalBound(a[..m], b[..m], n, waking);
    }
  }

  lemma SelfCredit(s: State, i: nat, n: nat)
    requires CanStep(s, i)
    ensures |Step(s, i).animals| == |s.animals|
    ensures var a, b := s.animals[i], Step(s, i).animals[i];
      Credit(b, n) < Credit(a, n) && (a.pc.WakeOwn? || a.pc.WakeOther? ==> Credit(b, n) + 2 * n < Credit(a, n))
  {
    StepSelf(s, i);
    assert AnimalOk(s, i);
    if s.animals[i].pc.Pick? { BowlFree(s, i); }
    if s.animals[i].pc.Finish? {
      var r := ROUNDS - s.animals[i].iteration;
      assert r * (20 + 4 * n) == (r - 1) * (20 + 4 * n) + (20 + 4 * n);
    }
  }

  lemma StepTotal(s: State, i: nat)
    requires CanStep(s, i)
    ensures var n := |s.animals|;
      |Step(s, i).animals| == n && Total(Step(s, i).animals, n) < Total(s.animals, n)
  {
    var n, t := |s.animals|, Step(s, i);
    SelfCredit(s, i, n);
    var u := s.animals[i := t.animals[i]];
    TotalUpdate(s.animals, i, t.animals[i], n);
    var waking := s.animals[i].pc.WakeOwn? || s.animals[i].pc.WakeOther?;
    forall j | 0 <= j < n ensures Credit(t.animals[j], n) <= Credit(u[j], n) + if waking then 2 else 0 {
      if j != i {
        StepOther(s, i, j);
        if s.animals[j].pc.Asleep? { StepWakes(s, i, j); }
      }
    }
    TotalBound(u, t.animals, n, waking);
  }

  // Runs

  ghost predicate Runs(s: State, sched: seq<nat>)
    decreases |sched|
  {
    sched != [] ==> Shape(s) && Enabled(s, sched[0]) && Runs(Step(s, sched[0]), sched[1..])
  }

  ghost function Exec(s: State, sched: seq<nat>): State
    requires Runs(s, sched)
    decreases |sched|
  {
    if sched == [] then s else Exec(Step(s, sched[0]), sched[1..])
  }

  lemma {:induction false} RunInv(s: State, sched: seq<nat>)
    requires Inv(s) && Runs(s, sched)
    ensures Inv(Exec(s, sched)) && |Exec(s, sched).animals| == |s.animals|
    ensures |sched| + Total(Exec(s, sched).animals, |s.animals|) <= Total(s.animals, |s.animals|)
    decreases |sched|
  {
    if sched != [] {
      StepInv(s, sched[0]);
      StepTotal(s, sched[0]);
      RunInv(Step(s, sched[0]), sched[1..]);
    }
  }

  /** Some animal can move unless all are done. */
  lemma Mover(s: State) returns (i: nat)
    requires Inv(s) && exists j :: 0 <= j < |s.animals| && !s.animals[j].pc.Done?
    ensures Enabled(s, i)
  {
    if s.holder.Some? {
      i := s.holder.value;
      assert AnimalOk(s, i);
    } else if j: nat :| j < |s.animals| && !s.animals[j].pc.Done? && !s.animals[j].pc.Asleep? {
      i := j;
      assert AnimalOk(s, i);
    } else {
      var j :| 0 <= j < |s.animals| && !s.animals[j].pc.Done?;
      var k := s.animals[j].kind;
      assert SpotOk(s, k) && SleepsAt(s.animals, j, k) && j in s.spot[k];
      assert WakeupOk(s, k);
      assert forall x: Kind :: s.busy[x] == Count(s.animals, Eats(x));
      i := CountWitness(s.animals, Eats(if s.busy[k] == NFOODBOWLS then k else Other(k)));
    }
  }

  // Main results

  /** Every run is finite, with a bound known from the number of animals, and a
      run that cannot be continued has fed every animal exactly four times. */
  lemma EveryoneEats(s: State, sched: seq<nat>)
    requires Init(s) && Runs(s, sched)
    ensures |sched| <= Total(s.animals, |s.animals|)
    ensures var t := Exec(s, sched);
      (forall i: nat :: !Enabled(t, i)) ==>
        forall i :: 0 <= i < |t.animals| ==> t.animals[i].pc.Done? && t.animals[i].iteration == ROUNDS
  {
    InitInv(s);
    RunInv(s, sched);
    var t := Exec(s, sched);
    if forall i: nat :: !Enabled(t, i) {
      if exists j :: 0 <= j < |t.animals| && !t.animals[j].pc.Done? {
        var i := Mover(t);
        assert false;
      }
      forall i | 0 <= i < |t.animals| ensures t.animals[i].pc.Done? && t.animals[i].iteration == ROUNDS {
        assert AnimalOk(t, i);
      }
    }
  }

  /** No lost wake-up: with the lock free, whoever sleeps has a reason to. */
  lemma NoLostWakeup(s: State, sched: seq<nat>, k: Kind)
    requires Init(s) && Runs(s, sched) && Exec(s, sched).holder.None?
    ensures var t := Exec(s, sched);
      && Shape(t)
      && (t.spot[k] != [] ==> t.busy[Other(k)] > 0 || t.busy[k] == NFOODBOWLS)
      && (forall i: nat :: i < |t.animals| && t.animals[i].kind == k && t.animals[i].pc.Asleep? ==> t.spot[k] != [])
  {
    InitInv(s);
    RunInv(s, sched);
    var t := Exec(s, sched);
    assert WakeupOk(t, k) && SpotOk(t, k);
    forall i: nat | i < |t.animals| && t.animals[i].kind == k && t.animals[i].pc.Asleep?
      ensures t.spot[k] != []
    {
      assert SleepsAt(t.animals, i, k);
    }
  }

  /** Cats and mice never eat together, every taken bowl has one eater, and the
      bowl search never fails. */
  lemma Safety(s: State, sched: seq<nat>)
    requires Init(s) && Runs(s, sched)
    ensures var t := Exec(s, sched);
      && Shape(t)
      && (forall i, j :: 0 <= i < |t.animals| && 0 <= j < |t.animals| && AtTable(t.animals[i]) && AtTable(t.animals[j])
            ==> t.animals[i].kind == t.animals[j].kind && (i != j ==> t.animals[i].bowl != t.animals[j].bowl))
      && (forall i :: 0 <= i < |t.animals| && AtTable(t.animals[i]) ==> t.animals[i].bowl < NFOODBOWLS && t.bowls[t.animals[i].bowl])
      && One(t.bowls[0]) + One(t.bowls[1]) == t.busy[CAT] + t.busy[MOUSE]
      && (forall i :: 0 <= i < |t.animals| && t.animals[i].pc.Pick? ==> FreeBowl(t.bowls) < NFOODBOWLS)
  {
    InitInv(s);
    RunInv(s, sched);
    var t := Exec(s, sched);
    forall i, j | 0 <= i < |t.animals| && 0 <= j < |t.animals| && AtTable(t.animals[i]) && AtTable(t.animals[j])
      ensures t.animals[i].kind == t.animals[j].kind && (i != j ==> t.animals[i].bowl != t.animals[j].bowl)
      ensures t.animals[i].bowl < NFOODBOWLS && t.bowls[t.animals[i].bowl]
    {
      TableMates(t, i, j);
    }
    forall i | 0 <= i < |t.animals| && t.animals[i].pc.Pick? ensures FreeBowl(t.bowls) < NFOODBOWLS {
      BowlFree(t, i);
    }
    TableSum(t);
  }

  lemma TableSum(t: State)
    requires Inv(t)
    ensures One(t.bowls[0]) + One(t.bowls[1]) == t.busy[CAT] + t.busy[MOUSE]
  {
    forall i | 0 <= i < |t.animals| && AtTable(t.animals[i]) ensures t.animals[i].bowl < NFOODBOWLS {
      assert AnimalOk(t, i);
    }
    CountTables(t.animals);
    assert t.busy[CAT] == Count(t.animals, Eats(CAT)) && t.busy[MOUSE] == Count(t.animals, Eats(MOUSE));
    assert One(t.bowls[0]) == Count(t.animals, EatsFrom(0)) && One(t.bowls[1]) == Count(t.animals, EatsFrom(1));
  }

  lemma CountSome(animals: seq<Animal>, i: nat, role: Role)
    requires i < |animals| && Has(animals[i], role)
    ensures Count(animals, role) > 0
  {
    CountUpdate(animals, i, animals[i].(pc := Done), role);
  }

  lemma TableMates(t: State, i: nat, j: nat)
    requires Inv(t) && i < |t.animals| && j < |t.animals| && AtTable(t.animals[i]) && AtTable(t.animals[j])
    ensures t.animals[i].kind == t.animals[j].kind
    ensures i != j ==> t.animals[i].bowl != t.animals[j].bowl
    ensures t.animals[i].bowl < NFOODBOWLS && t.bowls[t.animals[i].bowl]
  {
    var a, b := t.animals[i], t.animals[j];
    assert AnimalOk(t, i);
    assert forall x: Kind :: t.busy[x] == Count(t.animals, Eats(x));
    CountSome(t.animals, i, Eats(a.kind));
    CountSome(t.animals, j, Eats(b.kind));
    CountSome(t.animals, i, EatsFrom(a.bowl));
    assert One(t.bowls[a.bowl]) == Count(t.animals, EatsFrom(a.bowl));
    if i < j && a.bowl == b.bowl { CountTwo(t.animals, i, j, EatsFrom(a.bowl)); }
    if j < i && a.bowl == b.bowl { CountTwo(t.animals, j, i, EatsFrom(a.bowl)); }
  }

  // Who may eat

  /** An animal that tests goes on exactly if none of the other kind is at a bowl and
      fewer than two of its own are. */
  lemma Admission(s: State, sched: seq<nat>, i: nat)
    requires Init(s) && Runs(s, sched) && i < |Exec(s, sched).animals| && Exec(s, sched).animals[i].pc.Check?
    ensures var t := Exec(s, sched);
      && Shape(t) && Enabled(t, i)
      && (Step(t, i).animals[i].pc == Pick <==>
            Count(t.animals, Eats(Other(t.animals[i].kind))) == 0 && Count(t.animals, Eats(t.animals[i].kind)) < 2)
      && (Step(t, i).animals[i].pc == Pick || Step(t, i).animals[i].pc == Asleep)
  {
    InitInv(s);
    RunInv(s, sched);
    var t := Exec(s, sched);
    var k := t.animals[i].kind;
    assert forall x: Kind :: t.busy[x] == Count(t.animals, Eats(x));
    BusyBound(t, k);
  }

  lemma BusyBound(s: State, k: Kind)
    requires Inv(s)
    ensures s.busy[k] <= NFOODBOWLS
  {
    TableSum(s);
    assert forall x: Kind :: s.busy[x] == Count(s.animals, Eats(x));
  }

  lemma {:induction false} RunConcat(s: State, a: seq<nat>, b: seq<nat>)
    requires Runs(s, a) && Runs(Exec(s, a), b)
    ensures Runs(s, a + b) && Exec(s, a + b) == Exec(Exec(s, a), b)
    decreases |a|
  {
    if a == [] {
      assert a + b == b;
    } else {
      RunConcat(Step(s, a[0]), a[1..], b);
      assert (a + b)[1..] == a[1..] + b;
    }
  }

  lemma TwoSteps(s: State, i: nat) returns (t: State)
    requires CanStep(s, i) && Enabled(Step(s, i), i)
    ensures Runs(s, [i] + [i]) && Exec(s, [i] + [i]) == t == Step(Step(s, i), i) && Inv(t)
  {
    StepInv(s, i);
    StepInv(Step(s, i), i);
    t := Step(Step(s, i), i);
    assert [i][1..] == [] && Runs(t, []) && Runs(Step(s, i), []);
    assert Runs(s, [i]) && Runs(Step(s, i), [i]);
    RunConcat(s, [i], [i]);
  }

  /** Nobody has the lock, n animals eat, and those from n on have yet to begin. */
  ghost predicate Seats(s: State, k: Kind, n: nat) {
    && Inv(s) && |s.animals| == 2 && s.holder.None? && s.busy[k] == n && s.busy[Other(k)] == 0
    && (forall i :: 0 <= i < 2 ==> s.animals[i].kind == k && (if i < n then s.animals[i].pc.Eating? else s.animals[i].pc.Want?))
  }

  lemma SeatMore(s: State, k: Kind, n: nat) returns (sched: seq<nat>, t: State)
    requires Seats(s, k, n) && n < 2
    ensures Runs(s, sched) && Exec(s, sched) == t && Seats(t, k, n + 1)
  {
    var a := TwoSteps(s, n);
    BowlFree(a, n);
    t := TwoSteps(a, n);
    RunConcat(s, [n] + [n], [n] + [n]);
    sched := [n] + [n] + ([n] + [n]);
  }

  /** Two of a kind eat at once on some run. */
  lemma TwoEat(s: State, k: Kind) returns (sched: seq<nat>)
    requires Init(s) && |s.animals| == 2 && forall i :: 0 <= i < 2 ==> s.animals[i].kind == k
    ensures Runs(s, sched) && |Exec(s, sched).animals| == 2
    ensures forall i :: 0 <= i < 2 ==> Exec(s, sched).animals[i].pc.Eating?
  {
    InitInv(s);
    var p, a := SeatMore(s, k, 0);
    var q, b := SeatMore(a, k, 1);
    RunConcat(s, p, q);
    sched := p + q;
  }
}
