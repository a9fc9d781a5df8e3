/** The four-quadrant intersection as a step system. */
module Stoplight {

  // Every car runs the code of its turn; one step of a car is one atomic action
  // of that code: a P, a V, or one update made while the status semaphore is
  // held.  A schedule is any interleaving of the steps of any number of cars.

  /** Directions and quadrants share an encoding: a car coming from direction d
      enters through quadrant d (0 north-west, 1 north-east, 2 south-east,
      3 south-west). */
  type Quadrant = q: int | 0 <= q < 4

  /** The five binary semaphores: the quadrants and the status semaphore. */
  type Sem = x: int | 0 <= x < 5
  const STATUS: Sem := 4

  /** At most this many cars are ever admitted. */
  const MAX_INSIDE := 3

  datatype Turn = Right | Straight | Left

  /** What a car is about to do. */
  datatype Pc =
    | Arrive              // P(status)
    | Announce            // q_addtail
    | Announced           // V(status)
    | TryQuadrant         // P(first quadrant)
    | TryStatus           // P(status)
    | Test                // carnumber > 2 || !is_in_order
    | RefuseStatus        // V(status)
    | RefuseQuadrant      // V(first quadrant)
    | Admit               // q_remhead, carnumber++
    | Admitted            // V(status)
    | Cross(region: nat)  // holds quadrant `region` of its path; P(the next one)
    | Release(region: nat) // holds quadrants `region` and `region + 1`; V(the former)
    | ExitStatus          // P(status)
    | CountOut            // carnumber--, carleaving++
    | CountedOut          // V(status)
    | LeaveQuadrant       // V(last quadrant)
    | Done

  datatype Car = Car(dir: Quadrant, turn: Turn, pc: Pc)

  datatype Action = DoP(sem: Sem) | DoV(sem: Sem) | Enqueue | Look | Dequeue | Depart | Halt

  /** The shared intersection.  `announced` and `entered` are the history of
      q_addtail and q_remhead calls per direction. */
  datatype State = State(
    cars: seq<Car>,
    sems: seq<nat>,
    waitlist: seq<seq<nat>>,
    carnumber: int,
    carleaving: nat,
    announced: seq<seq<nat>>,
    entered: seq<seq<nat>>)

  // The program of a car

  /** Index of the last quadrant on the path of a turn. */
  function Last(t: Turn): nat {
    match t case Right => 0 case Straight => 1 case Left => 2
  }

  /** The quadrant after q on every path. */
  function After(q: Quadrant): Quadrant {
    if q == 0 then 3 else q - 1
  }

  /** The quadrants a car drives through, in order. */
  function Path(c: Car, region: nat): Quadrant {
    if region == 0 then c.dir
    else if region == 1 then After(c.dir)
    else After(After(c.dir))
  }

  predicate CarOk(c: Car) {
    c.pc.Cross? || c.pc.Release? ==> c.pc.region < Last(c.turn)
  }

  function ActionOf(c: Car): Action {
    match c.pc
    case Arrive | TryStatus | ExitStatus => DoP(STATUS)
    case Announced | RefuseStatus | Admitted | CountedOut => DoV(STATUS)
    case Announce => Enqueue
    case TryQuadrant => DoP(c.dir)
    case Test => Look
    case RefuseQuadrant => DoV(c.dir)
    case Admit => Dequeue
    case Cross(r) => DoP(Path(c, r + 1))
    case Release(r) => DoV(Path(c, r))
    case CountOut => Depart
    case LeaveQuadrant => DoV(Path(c, Last(c.turn)))
    case Done => Halt
  }

  /** Where a car is once it has quadrant `region` of its path and nothing behind it. */
  function Inside(c: Car, region: nat): Pc {
    if region < Last(c.turn) then Cross(region) else ExitStatus
  }

  function NextPc(c: Car, refused: bool): Pc {
    match c.pc
    case Arrive => Announce
    case Announce => Announced
    case Announced => TryQuadrant
    case TryQuadrant => TryStatus
    case TryStatus => Test
    case Test => if refused then RefuseStatus else Admit
    case RefuseStatus => RefuseQuadrant
    case RefuseQuadrant => TryQuadrant
    case Admit => Admitted
    case Admitted => Inside(c, 0)
    case Cross(r) => Release(r)
    case Release(r) => Inside(c, r + 1)
    case ExitStatus => CountOut
    case CountOut => CountedOut
    case CountedOut => LeaveQuadrant
    case LeaveQuadrant => Done
    case Done => Done
  }

  // Steps

  ghost predicate Shape(s: State) {
    && |s.sems| == 5
    && |s.waitlist| == |s.announced| == |s.entered| == 4
    && (forall i :: 0 <= i < |s.cars| ==> CarOk(s.cars[i]))
  }

  predicate InOrder(waitlist: seq<nat>, i: nat) {
    waitlist == [] || waitlist[0] == i
  }

  predicate Refused(s: State, i: nat)
    requires Shape(s) && i < |s.cars|
  {
    s.carnumber > 2 || !InOrder(s.waitlist[s.cars[i].dir], i)
  }

  /** P blocks at count 0; nothing else waits. */
  predicate Enabled(s: State, i: nat)
    requires Shape(s)
  {
    i < |s.cars| && match ActionOf(s.cars[i])
    case DoP(x) => s.sems[x] > 0
    case Halt => false
    case _ => true
  }

  /** The car after its step. */
  function Moved(s: State, i: nat): Car
    requires Shape(s) && i < |s.cars|
  {
    s.cars[i].(pc := NextPc(s.cars[i], Refused(s, i)))
  }

  /** One atomic action of car i.  q_remhead asserts a non-empty queue. */
  function Step(s: State, i: nat): (t: State)
    requires Shape(s) && Enabled(s, i)
    requires s.cars[i].pc.Admit? ==> s.waitlist[s.cars[i].dir] != []
  {
    var d := s.cars[i].dir;
    var t := s.(cars := s.cars[i := Moved(s, i)]);
    match ActionOf(s.cars[i])
    case DoP(x) => t.(sems := s.sems[x := s.sems[x] - 1])
    case DoV(x) => t.(sems := s.sems[x := s.sems[x] + 1])
    case Enqueue =>
      t.(waitlist := s.waitlist[d := s.waitlist[d] + [i]],
         announced := s.announced[d := s.announced[d] + [i]])
    case Look => t
    case Dequeue =>
      t.(waitlist := s.waitlist[d := s.waitlist[d][1..]],
         entered := s.entered[d := s.entered[d] + [i]],
         carnumber := s.carnumber + 1)
    case Depart => t.(carnumber := s.carnumber - 1, carleaving := s.carleaving + 1)
  }

  /** createcars: every semaphore 1, empty waitlists, any number of cars that
      have picked any direction and any turn. */
  ghost predicate Init(s: State) {
    && (forall i :: 0 <= i < |s.cars| ==> s.cars[i].pc == Arrive)
    && s.sems == [1, 1, 1, 1, 1]
    && s.waitlist == s.announced == s.entered == [[], [], [], []]
    && s.carnumber == 0 && s.carleaving == 0
  }

  // Who holds what

  datatype Role = Holds(sem: Sem) | IsInside | HasLeft

  predicate Has(c: Car, role: Role) {
    match role
    case Holds(x) => if x == STATUS then HasStatus(c) else HasQuadrant(c, x)
    case IsInside => c.pc.Admitted? || c.pc.Cross? || c.pc.Release? || c.pc.ExitStatus? || c.pc.CountOut?
    case HasLeft => c.pc.CountedOut? || c.pc.LeaveQuadrant? || c.pc.Done?
  }

  predicate HasStatus(c: Car) {
    || c.pc.Announce? || c.pc.Announced? || c.pc.Test? || c.pc.RefuseStatus?
    || c.pc.Admit? || c.pc.Admitted? || c.pc.CountOut? || c.pc.CountedOut?
  }

  predicate HasQuadrant(c: Car, q: Quadrant) {
    match c.pc
    case TryStatus | Test | RefuseStatus | RefuseQuadrant | Admit | Admitted => q == c.dir
    case Cross(r) => q == Path(c, r)
    case Release(r) => q == Path(c, r) || q == Path(c, r + 1)
    case ExitStatus | CountOut | CountedOut | LeaveQuadrant => q == Path(c, Last(c.turn))
    case _ => false
  }

  /** The car is between q_addtail and q_remhead. */
  predicate Waiting(c: Car) {
    || c.pc.Announced? || c.pc.TryQuadrant? || c.pc.TryStatus? || c.pc.Test?
    || c.pc.RefuseStatus? || c.pc.RefuseQuadrant? || c.pc.Admit?
  }

  function One(b: bool): nat { if b then 1 else 0 }

  function Count(cars: seq<Car>, role: Role): nat {
    if cars == [] then 0
    else Count(cars[..|cars| - 1], role) + One(Has(cars[|cars| - 1], role))
  }

  lemma {:induction false} CountUpdate(cars: seq<Car>, i: nat, c: Car, role: Role)
    requires i < |cars|
    ensures Count(cars[i := c], role) + One(Has(cars[i], role)) == Count(cars, role) + One(Has(c, role))
  {
    var n := |cars| - 1;
    if i == n {
      assert cars[i := c][..n] == cars[..n];
    } else {
      assert cars[i := c][..n] == cars[..n][i := c];
      CountUpdate(cars[..n], i, c, role);
    }
  }

  /** Distinct cars in one role are counted once each. */
  lemma {:induction false} CountDistinct(cars: seq<Car>, who: set<nat>, role: Role)
    requires forall i :: i in who ==> i < |cars| && Has(cars[i], role)
    ensures |who| <= Count(cars, role)
    decreases |cars|
  {
    if cars == [] {
      assert forall i :: i !in who;
      assert who == {};
    } else {
      var n := |cars| - 1;
      forall i | i in who - {n} ensures i < n && Has(cars[..n][i], role) {}
      CountDistinct(cars[..n], who - {n}, role);
    }
  }

  lemma {:induction false} CountNone(cars: seq<Car>, role: Role)
    requires forall i :: 0 <= i < |cars| ==> !Has(cars[i], role)
    ensures Count(cars, role) == 0
  {
    if cars != [] { CountNone(cars[..|cars| - 1], role); }
  }

  lemma {:induction false} CountAll(cars: seq<Car>, role: Role)
    requires forall i :: 0 <= i < |cars| ==> Has(cars[i], role)
    ensures Count(cars, role) == |cars|
  {
    if cars != [] { CountAll(cars[..|cars| - 1], role); }
  }

  lemma {:induction false} CountWitness(cars: seq<Car>, role: Role) returns (i: nat)
    requires Count(cars, role) > 0
    ensures i < |cars| && Has(cars[i], role)
  {
    i := |cars| - 1;
    if !Has(cars[i], role) { i := CountWitness(cars[..i], role); }
  }

  /** A car gains a semaphore exactly by a P on it, and loses it exactly by a V. */
  lemma MovedHolds(c: Car, refused: bool, x: Sem)
    requires CarOk(c)
    ensures var c' := c.(pc := NextPc(c, refused));
      match ActionOf(c)
      case DoP(y) => Has(c', Holds(x)) == (Has(c, Holds(x)) || x == y) && (x == y ==> !Has(c, Holds(x)))
      case DoV(y) => Has(c', Holds(x)) == (Has(c, Holds(x)) && x != y) && (x == y ==> Has(c, Holds(x)))
      case _ => Has(c', Holds(x)) == Has(c, Holds(x))
  {
    if x == STATUS {
    } else if c.pc.Cross? || c.pc.Release? {
      assert c.pc.region == 0 || c.pc.region == 1;
    }
  }

  /** A car enters and leaves the other roles by its counter updates and queue calls. */
  lemma MovedCounts(c: Car, refused: bool)
    requires CarOk(c)
    ensures var c' := c.(pc := NextPc(c, refused));
      && One(Has(c', IsInside)) == One(Has(c, IsInside)) + (if ActionOf(c).Dequeue? then 1 else if ActionOf(c).Depart? then -1 else 0)
      && One(Has(c', HasLeft)) == One(Has(c, HasLeft)) + (if ActionOf(c).Depart? then 1 else 0)
  {
  }

  lemma MovedWaits(c: Car, refused: bool)
    ensures var c' := c.(pc := NextPc(c, refused));
      match ActionOf(c)
      case Enqueue => !Waiting(c) && Waiting(c')
      case Dequeue => Waiting(c) && !Waiting(c')
      case _ => Waiting(c) == Waiting(c')
  {
  }

  // The invariant

  /** A waitlist holds exactly the waiting cars of its direction, once each, and
      is what is left of the announcements after the entries. */
  ghost predicate WaitlistOk(s: State, q: Quadrant)
    requires Shape(s)
  {
    Lists(s.waitlist[q], s.cars, q) && s.announced[q] == s.entered[q] + s.waitlist[q]
  }

  predicate WaitsAt(cars: seq<Car>, i: nat, q: Quadrant) {
    i < |cars| && cars[i].dir == q && Waiting(cars[i])
  }

  ghost predicate Lists(w: seq<nat>, cars: seq<Car>, q: Quadrant) {
    && (forall j, k :: 0 <= j < k < |w| ==> w[j] != w[k])
    && (forall i: nat :: i in w <==> WaitsAt(cars, i, q))
  }

  lemma ListsSame(w: seq<nat>, cars: seq<Car>, q: Quadrant, i: nat, c: Car)
    requires Lists(w, cars, q) && i < |cars|
    requires WaitsAt(cars, i, q) == WaitsAt(cars[i := c], i, q)
    ensures Lists(w, cars[i := c], q)
  {
    forall k: nat ensures k in w <==> WaitsAt(cars[i := c], k, q) {
      assert k != i ==> WaitsAt(cars[i := c], k, q) == WaitsAt(cars, k, q);
    }
  }

  lemma ListsAppend(w: seq<nat>, cars: seq<Car>, q: Quadrant, i: nat, c: Car)
    requires Lists(w, cars, q) && i < |cars|
    requires !WaitsAt(cars, i, q) && WaitsAt(cars[i := c], i, q)
    ensures Lists(w + [i], cars[i := c], q)
  {
    forall k: nat ensures k in w + [i] <==> WaitsAt(cars[i := c], k, q) {
      assert k != i ==> WaitsAt(cars[i := c], k, q) == WaitsAt(cars, k, q);
    }
  }

  lemma ListsRemove(w: seq<nat>, cars: seq<Car>, q: Quadrant, i: nat, c: Car)
    requires Lists(w, cars, q) && i < |cars|
    requires WaitsAt(cars, i, q) && !WaitsAt(cars[i := c], i, q)
    requires InOrder(w, i)
    ensures w != [] && w[0] == i && Lists(w[1..], cars[i := c], q)
  {
    assert i in w;
    forall k: nat ensures k in w[1..] <==> WaitsAt(cars[i := c], k, q) {
      assert w == [i] + w[1..];
      assert k != i ==> WaitsAt(cars[i := c], k, q) == WaitsAt(cars, k, q);
    }
  }

  ghost predicate AdmitOk(s: State, i: nat)
    requires Shape(s) && i < |s.cars|
  {
    s.cars[i].pc.Admit? ==> !Refused(s, i)
  }

  ghost predicate Inv(s: State) {
    && Shape(s)
    && (forall x: Sem :: s.sems[x] + Count(s.cars, Holds(x)) == 1)
    && s.carnumber == Count(s.cars, IsInside) <= MAX_INSIDE
    && s.carleaving == Count(s.cars, HasLeft)
    && (forall q: Quadrant :: WaitlistOk(s, q))
    && (forall i :: 0 <= i < |s.cars| ==> AdmitOk(s, i))
  }

  lemma InitInv(s: State)
    requires Init(s)
    ensures Inv(s)
  {
    forall role: Role ensures Count(s.cars, role) == 0 {
      CountNone(s.cars, role);
    }
  }

  /** A semaphore is never held twice. */
  lemma Exclusive(s: State, i: nat, j: nat, x: Sem)
    requires Inv(s)
    requires i < |s.cars| && j < |s.cars| && Has(s.cars[i], Holds(x)) && Has(s.cars[j], Holds(x))
    ensures i == j
  {
    assert s.sems[x] + Count(s.cars, Holds(x)) == 1;
    if i != j {
      CountDistinct(s.cars, {i, j}, Holds(x));
    }
  }

  ghost predicate CanStep(s: State, i: nat) {
    Inv(s) && Enabled(s, i)
  }

  /** The car about to leave the waitlist is at its head: q_remhead never finds it empty. */
  lemma AdmitAtHead(s: State, i: nat)
    requires Inv(s) && i < |s.cars| && s.cars[i].pc.Admit?
    ensures s.waitlist[s.cars[i].dir] != [] && s.waitlist[s.cars[i].dir][0] == i
  {
    assert WaitlistOk(s, s.cars[i].dir) && WaitsAt(s.cars, i, s.cars[i].dir);
    assert AdmitOk(s, i);
  }

  /** The premises every part of the step lemma shares. */
  ghost predicate Steps(s: State, i: nat, t: State) {
    && Shape(s) && Enabled(s, i)
    && (s.cars[i].pc.Admit? ==> s.waitlist[s.cars[i].dir] != [])
    && t == Step(s, i)
  }

  lemma StepShape(s: State, i: nat, t: State)
    requires Steps(s, i, t)
    ensures Shape(t)
    ensures t.cars == s.cars[i := Moved(s, i)]
  {
    assert CarOk(s.cars[i]);
    assert CarOk(Moved(s, i));
  }

  lemma StepSem(s: State, i: nat, t: State, x: Sem)
    requires Steps(s, i, t)
    requires s.sems[x] + Count(s.cars, Holds(x)) == 1
    ensures t.sems[x] + Count(t.cars, Holds(x)) == 1
  {
    CountUpdate(s.cars, i, Moved(s, i), Holds(x));
    assert CarOk(s.cars[i]);
    MovedHolds(s.cars[i], Refused(s, i), x);
  }

  lemma StepCounters(s: State, i: nat, t: State)
    requires Steps(s, i, t)
    requires s.carnumber == Count(s.cars, IsInside) && s.carleaving == Count(s.cars, HasLeft)
    ensures t.carnumber == Count(t.cars, IsInside) && t.carleaving == Count(t.cars, HasLeft)
  {
    CountUpdate(s.cars, i, Moved(s, i), IsInside);
    CountUpdate(s.cars, i, Moved(s, i), HasLeft);
    assert CarOk(s.cars[i]);
    MovedCounts(s.cars[i], Refused(s, i));
  }

  lemma StepWaitlist(s: State, i: nat, t: State, q: Quadrant)
    requires Steps(s, i, t) && Shape(t)
    requires WaitlistOk(s, q)
    requires AdmitOk(s, i)
    ensures WaitlistOk(t, q)
  {
    var c, c', w := s.cars[i], Moved(s, i), s.waitlist[q];
    MovedWaits(c, Refused(s, i));
    if c.dir == q && c.pc.Announce? {
      ListsAppend(w, s.cars, q, i, c');
    } else if c.dir == q && c.pc.Admit? {
      ListsRemove(w, s.cars, q, i, c');
      assert w == [i] + w[1..];
    } else {
      ListsSame(w, s.cars, q, i, c');
    }
  }

  lemma StepAdmit(s: State, i: nat, t: State, j: nat)
    requires Steps(s, i, t) && Shape(t) && j < |s.cars|
    requires AdmitOk(s, j)
    requires i != j && HasStatus(s.cars[i]) ==> !HasStatus(s.cars[j])
    ensures AdmitOk(t, j)
  {
  }

  lemma StepInv(s: State, i: nat)
    requires CanStep(s, i)
    ensures s.cars[i].pc.Admit? ==> s.waitlist[s.cars[i].dir] != []
    ensures Inv(Step(s, i))
  {
    if s.cars[i].pc.Admit? { AdmitAtHead(s, i); }
    var t := Step(s, i);
    StepShape(s, i, t);
    forall x: Sem ensures t.sems[x] + Count(t.cars, Holds(x)) == 1 { StepSem(s, i, t, x); }
    StepCounters(s, i, t);
    assert AdmitOk(s, i);
    forall q: Quadrant ensures WaitlistOk(t, q) { StepWaitlist(s, i, t, q); }
    forall j | 0 <= j < |s.cars| ensures AdmitOk(t, j) {
      if HasStatus(s.cars[i]) && HasStatus(s.cars[j]) { Exclusive(s, i, j, STATUS); }
      StepAdmit(s, i, t, j);
    }
    assert t.carnumber <= MAX_INSIDE;
  }

  // Runs

  /** Car i can take a step and that step breaks no assertion of the queue. */
  ghost predicate Ready(s: State, i: nat) {
    Shape(s) && Enabled(s, i) && (s.cars[i].pc.Admit? ==> s.waitlist[s.cars[i].dir] != [])
  }

  /** `sched` names, step by step, which car moves. */
  ghost predicate Runs(s: State, sched: seq<nat>)
    decreases |sched|
  {
    sched != [] ==> Ready(s, sched[0]) && Runs(Step(s, sched[0]), sched[1..])
  }

  ghost function Exec(s: State, sched: seq<nat>): State
    requires Runs(s, sched)
    decreases |sched|
  {
    if sched == [] then s else Exec(Step(s, sched[0]), sched[1..])
  }

  ghost predicate AllDone(s: State) {
    forall i :: 0 <= i < |s.cars| ==> s.cars[i].pc.Done?
  }

  lemma {:induction false} RunInv(s: State, sched: seq<nat>)
    requires Inv(s) && Runs(s, sched)
    ensures Inv(Exec(s, sched)) && |Exec(s, sched).cars| == |s.cars|
    decreases |sched|
  {
    if sched != [] {
      StepInv(s, sched[0]);
      StepShape(s, sched[0], Step(s, sched[0]));
      RunInv(Step(s, sched[0]), sched[1..]);
    }
  }

  lemma {:induction false} RunConcat(s: State, a: seq<nat>, b: seq<nat>)
    requires Runs(s, a) && Runs(Exec(s, a), b)
    ensures Runs(s, a + b) && Exec(s, a + b) == Exec(Exec(s, a), b)
    decreases |a|
  {
    if a == [] {
      assert a + b == b;
    } else {
      RunConcat(Step(s, a[0]), a[1..], b);
      assert (a + b)[1..] == a[1..] + b;
    }
  }

  // Progress

  /** Bounds the steps a car still has to take when it never tries in vain. */
  function Weight(c: Car): nat {
    match c.pc
    case Arrive => 19
    case Announce => 18
    case Announced => 17
    case TryStatus => 16
    case Test => 15
    case RefuseStatus => 14
    case RefuseQuadrant => 13
    case TryQuadrant => 12
    case Admit => 11
    case Admitted => 10
    case Cross(r) => if r + 1 < Last(c.turn) then 8 else 6
    case Release(r) => if r + 1 < Last(c.turn) then 7 else 5
    case ExitStatus => 4
    case CountOut => 3
    case CountedOut => 2
    case LeaveQuadrant => 1
    case Done => 0
  }

  function Work(cars: seq<Car>): nat {
    if cars == [] then 0 else Work(cars[..|cars| - 1]) + Weight(cars[|cars| - 1])
  }

  lemma {:induction false} WorkUpdate(cars: seq<Car>, i: nat, c: Car)
    requires i < |cars|
    ensures Work(cars[i := c]) == Work(cars) - Weight(cars[i]) + Weight(c)
  {
    var n := |cars| - 1;
    if i == n {
      assert cars[i := c][..n] == cars[..n];
    } else {
      assert cars[i := c][..n] == cars[..n][i := c];
      WorkUpdate(cars[..n], i, c);
    }
  }

  lemma MovedWeight(c: Car, refused: bool)
    requires CarOk(c) && !c.pc.TryQuadrant? && !c.pc.Done?
    ensures Weight(c.(pc := NextPc(c, refused))) < Weight(c)
  {
  }

  lemma StepWork(s: State, i: nat)
    requires CanStep(s, i) && !s.cars[i].pc.TryQuadrant?
    ensures Ready(s, i) && Inv(Step(s, i)) && Work(Step(s, i).cars) < Work(s.cars)
  {
    StepInv(s, i);
    StepShape(s, i, Step(s, i));
    WorkUpdate(s.cars, i, Moved(s, i));
    MovedWeight(s.cars[i], Refused(s, i));
  }

  /** The car is parked at a quadrant semaphore, or gone. */
  predicate Parked(c: Car) {
    c.pc.TryQuadrant? || c.pc.Cross? || c.pc.Done?
  }

  /** Whenever some car is neither parked nor gone, some such car can step. */
  lemma UnparkedMoves(s: State, i: nat) returns (j: nat)
    requires Inv(s) && i < |s.cars| && !Parked(s.cars[i])
    ensures j < |s.cars| && Enabled(s, j) && !s.cars[j].pc.TryQuadrant?
  {
    j := i;
    if ActionOf(s.cars[i]) == DoP(STATUS) && s.sems[STATUS] == 0 {
      assert s.sems[STATUS] + Count(s.cars, Holds(STATUS)) == 1;
      j := CountWitness(s.cars, Holds(STATUS));
    }
  }

  /** A crossing car can go on, or a crossing car stands in the quadrant ahead of it. */
  lemma CarAhead(s: State, i: nat) returns (j: nat)
    requires Inv(s) && (forall k :: 0 <= k < |s.cars| ==> Parked(s.cars[k]))
    requires i < |s.cars| && s.cars[i].pc.Cross? && !Enabled(s, i)
    ensures j < |s.cars| && s.cars[j].pc.Cross?
    ensures Path(s.cars[j], s.cars[j].pc.region) == After(Path(s.cars[i], s.cars[i].pc.region))
  {
    var c := s.cars[i];
    assert CarOk(c);
    var q := Path(c, c.pc.region + 1);
    assert s.sems[q] + Count(s.cars, Holds(q)) == 1;
    j := CountWitness(s.cars, Holds(q));
    assert Parked(s.cars[j]);
  }

  /** With at most three cars inside, the four quadrants cannot block one another. */
  lemma CrossingMoves(s: State, i: nat) returns (j: nat)
    requires Inv(s) && (forall k :: 0 <= k < |s.cars| ==> Parked(s.cars[k]))
    requires i < |s.cars| && s.cars[i].pc.Cross?
    ensures j < |s.cars| && Enabled(s, j) && s.cars[j].pc.Cross?
  {
    j := i;
    if !Enabled(s, i) {
      var a := CarAhead(s, i);
      j := a;
      if !Enabled(s, a) {
        var b := CarAhead(s, a);
        j := b;
        if !Enabled(s, b) {
          var c := CarAhead(s, b);
          j := c;
          CountDistinct(s.cars, {i, a, b, c}, IsInside);
        }
      }
    }
  }

  /** With nobody inside, the head of any waitlist can get itself admitted. */
  lemma HeadEnters(s: State, i: nat) returns (h: nat)
    requires Inv(s) && (forall k :: 0 <= k < |s.cars| ==> s.cars[k].pc.TryQuadrant? || s.cars[k].pc.Done?)
    requires i < |s.cars| && s.cars[i].pc.TryQuadrant?
    ensures h < |s.cars| && s.cars[h].pc.TryQuadrant? && !Refused(s, h)
    ensures s.sems[s.cars[h].dir] == 1 && s.sems[STATUS] == 1
  {
    var q := s.cars[i].dir;
    assert WaitlistOk(s, q) && WaitsAt(s.cars, i, q);
    h := s.waitlist[q][0];
    assert h in s.waitlist[q] && WaitsAt(s.cars, h, q);
    CountNone(s.cars, IsInside);
    CountNone(s.cars, Holds(q));
    CountNone(s.cars, Holds(STATUS));
    assert s.sems[q] + Count(s.cars, Holds(q)) == 1;
  }

  lemma OneStepRun(s: State, i: nat)
    requires Ready(s, i)
    ensures Runs(s, [i]) && Exec(s, [i]) == Step(s, i)
  {
    assert [i][1..] == [] && Runs(Step(s, i), []);
  }

  /** Car h steps to pc and nothing but the given semaphores changes. */
  ghost predicate Advances(s: State, h: nat, t: State, pc: Pc) {
    && Ready(s, h) && t == Step(s, h) && Inv(t)
    && t.cars == s.cars[h := s.cars[h].(pc := pc)]
    && t.waitlist == s.waitlist && t.carnumber == s.carnumber
  }

  lemma AdvanceRun(s: State, h: nat, pc: Pc) returns (t: State)
    requires CanStep(s, h) && NextPc(s.cars[h], Refused(s, h)) == pc
    requires ActionOf(s.cars[h]).DoP? || ActionOf(s.cars[h]).Look?
    ensures Advances(s, h, t, pc)
    ensures Runs(s, [h]) && Exec(s, [h]) == t
    ensures ActionOf(s.cars[h]) != DoP(STATUS) ==> t.sems[STATUS] == s.sems[STATUS]
  {
    StepInv(s, h);
    t := Step(s, h);
    OneStepRun(s, h);
  }

  lemma AdmitStates(s: State, h: nat) returns (t: State, u: State, v: State)
    requires Inv(s) && h < |s.cars| && s.cars[h].pc.TryQuadrant? && !Refused(s, h)
    requires s.sems[s.cars[h].dir] == 1 && s.sems[STATUS] == 1
    ensures Runs(s, [h]) && Exec(s, [h]) == t
    ensures Runs(t, [h]) && Exec(t, [h]) == u
    ensures Runs(u, [h]) && Exec(u, [h]) == v
    ensures Inv(v) && v.cars == s.cars[h := s.cars[h].(pc := Admit)]
  {
    t := AdvanceRun(s, h, TryStatus);
    u := AdvanceRun(t, h, Test);
    v := AdvanceRun(u, h, Admit);
  }

  lemma AdmitRun(s: State, h: nat) returns (sched: seq<nat>)
    requires Inv(s) && h < |s.cars| && s.cars[h].pc.TryQuadrant? && !Refused(s, h)
    requires s.sems[s.cars[h].dir] == 1 && s.sems[STATUS] == 1
    ensures sched != [] && Runs(s, sched) && Inv(Exec(s, sched))
    ensures Work(Exec(s, sched).cars) < Work(s.cars)
  {
    var t, u, v := AdmitStates(s, h);
    RunConcat(t, [h], [h]);
    RunConcat(s, [h], [h] + [h]);
    sched := [h] + ([h] + [h]);
    WorkUpdate(s.cars, h, s.cars[h].(pc := Admit));
  }

  /** From every state of the invariant with a car still around, a non-empty run
      makes real progress. */
  lemma Progress(s: State) returns (sched: seq<nat>)
    requires Inv(s) && !AllDone(s)
    ensures sched != [] && Runs(s, sched)
    ensures Inv(Exec(s, sched)) && Work(Exec(s, sched).cars) < Work(s.cars)
  {
    if i: nat :| i < |s.cars| && !Parked(s.cars[i]) {
      var j := UnparkedMoves(s, i);
      StepWork(s, j);
      OneStepRun(s, j);
      sched := [j];
    } else if i: nat :| i < |s.cars| && s.cars[i].pc.Cross? {
      var j := CrossingMoves(s, i);
      StepWork(s, j);
      OneStepRun(s, j);
      sched := [j];
    } else {
      var i :| 0 <= i < |s.cars| && !s.cars[i].pc.Done?;
      assert Parked(s.cars[i]);
      var h := HeadEnters(s, i);
      sched := AdmitRun(s, h);
    }
  }

  lemma {:induction false} Finish(s: State) returns (sched: seq<nat>)
    requires Inv(s)
    ensures Runs(s, sched) && AllDone(Exec(s, sched))
    decreases Work(s.cars)
  {
    if AllDone(s) {
      sched := [];
    } else {
      var first := Progress(s);
      var rest := Finish(Exec(s, first));
      RunConcat(s, first, rest);
      sched := first + rest;
    }
  }

  // Main results: every state reached by any schedule of any set of cars

  /** No reachable state has every unfinished car blocked, and no enabled car
      breaks an assertion. */
  lemma DeadlockFree(s: State, sched: seq<nat>)
    requires Init(s) && Runs(s, sched)
    ensures var t := Exec(s, sched);
      && Shape(t)
      && (AllDone(t) || exists i :: 0 <= i < |t.cars| && Enabled(t, i))
      && (forall i: nat :: Enabled(t, i) ==> Ready(t, i))
  {
    InitInv(s);
    RunInv(s, sched);
    var t := Exec(s, sched);
    if !AllDone(t) {
      var more := Progress(t);
      assert Enabled(t, more[0]);
    }
    forall i: nat | Enabled(t, i) ensures Ready(t, i) { StepInv(t, i); }
  }

  /** From every reachable state some schedule brings every car out. */
  lemma AllCanLeave(s: State, sched: seq<nat>)
    requires Init(s) && Runs(s, sched)
    ensures exists more :: Runs(Exec(s, sched), more) && AllDone(Exec(Exec(s, sched), more))
  {
    InitInv(s);
    RunInv(s, sched);
    var more := Finish(Exec(s, sched));
  }

  /** Mutual exclusion and admission control. */
  lemma Safety(s: State, sched: seq<nat>)
    requires Init(s) && Runs(s, sched)
    ensures var t := Exec(s, sched);
      && |t.sems| == 5
      && (forall x: Sem :: t.sems[x] + Count(t.cars, Holds(x)) == 1)
      && (forall i, j, q: Quadrant :: 0 <= i < j < |t.cars| && HasQuadrant(t.cars[i], q) ==> !HasQuadrant(t.cars[j], q))
      && t.carnumber == Count(t.cars, IsInside) <= MAX_INSIDE
  {
    InitInv(s);
    RunInv(s, sched);
    var t := Exec(s, sched);
    forall i, j, q: Quadrant | 0 <= i < j < |t.cars| && HasQuadrant(t.cars[i], q)
      ensures !HasQuadrant(t.cars[j], q)
    {
      if HasQuadrant(t.cars[j], q) { Exclusive(t, i, j, q); }
    }
  }

  /** Cars of one direction enter in the order in which they announced themselves. */
  lemma Fairness(s: State, sched: seq<nat>, q: Quadrant)
    requires Init(s) && Runs(s, sched)
    ensures var t := Exec(s, sched);
      && |t.entered| == |t.announced| == |t.waitlist| == 4
      && t.entered[q] <= t.announced[q]
      && (forall j, k :: 0 <= j < k < |t.waitlist[q]| ==> t.waitlist[q][j] != t.waitlist[q][k])
  {
    InitInv(s);
    RunInv(s, sched);
    assert WaitlistOk(Exec(s, sched), q);
  }

  /** Once every car is gone the intersection is as createcars made it. */
  lemma Restored(s: State, sched: seq<nat>)
    requires Init(s) && Runs(s, sched) && AllDone(Exec(s, sched))
    ensures var t := Exec(s, sched);
      && t.sems == s.sems && t.waitlist == s.waitlist && t.carnumber == 0
      && t.carleaving == |s.cars|
      && t.entered == t.announced
  {
    InitInv(s);
    RunInv(s, sched);
    var t := Exec(s, sched);
    forall x: Sem ensures t.sems[x] == 1 {
      CountNone(t.cars, Holds(x));
      assert t.sems[x] + Count(t.cars, Holds(x)) == 1;
    }
    CountNone(t.cars, IsInside);
    CountAll(t.cars, HasLeft);
    forall q: Quadrant ensures t.waitlist[q] == [] && t.entered[q] == t.announced[q] {
      assert WaitlistOk(t, q);
      assert |t.waitlist[q]| > 0 ==> WaitsAt(t.cars, t.waitlist[q][0], q);
    }
  }

  // Who is let in

  /** A car that tests is let in exactly if fewer than three are inside and it is the
      first of its direction that announced itself and has not entered. */
  lemma Admission(s: State, sched: seq<nat>, i: nat)
    requires Init(s) && Runs(s, sched) && i < |Exec(s, sched).cars| && Exec(s, sched).cars[i].pc.Test?
    ensures var t := Exec(s, sched);
      && Ready(t, i)
      && var d := t.cars[i].dir;
      && |t.entered[d]| < |t.announced[d]|
      && (Step(t, i).cars[i].pc == Admit <==> Count(t.cars, IsInside) < 3 && t.announced[d][|t.entered[d]|] == i)
  {
    InitInv(s);
    RunInv(s, sched);
    var t := Exec(s, sched);
    var d := t.cars[i].dir;
    assert WaitlistOk(t, d) && WaitsAt(t.cars, i, d);
    assert i in t.waitlist[d];
  }

  /** Car h, with nobody before it, drives up and is let in. */
  ghost predicate LetIn(s: State, h: nat, t: State) {
    && Inv(s) && Inv(t) && h < |s.cars| && t.cars == s.cars[h := s.cars[h].(pc := Inside(s.cars[h], 0))]
    && t.carnumber == s.carnumber + 1 && t.waitlist == s.waitlist
    && t.sems == s.sems[s.cars[h].dir := 0]
  }

  ghost predicate ComesTo(s: State, h: nat) {
    && Inv(s) && h < |s.cars| && s.cars[h].pc.Arrive? && s.carnumber < 3
    && s.sems[STATUS] == 1 && s.sems[s.cars[h].dir] == 1 && s.waitlist[s.cars[h].dir] == []
  }

  lemma Announces(s: State, h: nat) returns (t: State)
    requires ComesTo(s, h)
    ensures Runs(s, [h] + [h] + [h]) && Exec(s, [h] + [h] + [h]) == t && Inv(t)
    ensures t.cars == s.cars[h := s.cars[h].(pc := TryQuadrant)] && t.carnumber == s.carnumber && t.sems == s.sems
    ensures t.waitlist == s.waitlist[s.cars[h].dir := [h]]
  {
    assert [] + [h] == [h];
    StepInv(s, h);
    var a := Step(s, h);
    StepInv(a, h);
    var b := Step(a, h);
    StepInv(b, h);
    t := Step(b, h);
    OneStepRun(s, h);
    OneStepRun(a, h);
    OneStepRun(b, h);
    RunConcat(s, [h], [h]);
    RunConcat(s, [h] + [h], [h]);
  }

  lemma EntersAlone(s: State, h: nat) returns (t: State)
    requires Inv(s) && h < |s.cars| && s.cars[h].pc.TryQuadrant? && s.carnumber < 3
    requires s.sems[STATUS] == 1 && s.sems[s.cars[h].dir] == 1 && s.waitlist[s.cars[h].dir] == [h]
    ensures Runs(s, [h] + [h] + [h]) && Exec(s, [h] + [h] + [h]) == t && Inv(t)
    ensures t.cars == s.cars[h := s.cars[h].(pc := Admit)] && t.carnumber == s.carnumber && t.waitlist == s.waitlist
    ensures t.sems == s.sems[s.cars[h].dir := 0][STATUS := 0]
  {
    StepInv(s, h);
    var a := Step(s, h);
    StepInv(a, h);
    var b := Step(a, h);
    StepInv(b, h);
    t := Step(b, h);
    OneStepRun(s, h);
    OneStepRun(a, h);
    OneStepRun(b, h);
    RunConcat(s, [h], [h]);
    RunConcat(s, [h] + [h], [h]);
  }

  lemma DrivesIn(s: State, h: nat) returns (t: State)
    requires Inv(s) && h < |s.cars| && s.cars[h].pc.Admit? && s.sems[STATUS] == 0 && s.waitlist[s.cars[h].dir] == [h]
    ensures Runs(s, [h] + [h]) && Exec(s, [h] + [h]) == t && Inv(t)
    ensures t.cars == s.cars[h := s.cars[h].(pc := Inside(s.cars[h], 0))] && t.carnumber == s.carnumber + 1
    ensures t.sems == s.sems[STATUS := 1] && t.waitlist == s.waitlist[s.cars[h].dir := []]
  {
    StepInv(s, h);
    var a := Step(s, h);
    StepInv(a, h);
    t := Step(a, h);
    OneStepRun(s, h);
    OneStepRun(a, h);
    RunConcat(s, [h], [h]);
  }

  lemma ComesIn(s: State, h: nat) returns (sched: seq<nat>, t: State)
    requires ComesTo(s, h)
    ensures Runs(s, sched) && Exec(s, sched) == t && LetIn(s, h, t)
  {
    var a := Announces(s, h);
    var b := EntersAlone(a, h);
    t := DrivesIn(b, h);
    RunConcat(s, [h] + [h] + [h], [h] + [h] + [h]);
    sched := [h] + [h] + [h] + ([h] + [h] + [h]);
    RunConcat(s, sched, [h] + [h]);
    sched := sched + ([h] + [h]);
    var d := s.cars[h].dir;
    assert t.sems == s.sems[d := 0];
    assert t.waitlist == s.waitlist;
  }

  /** Cars 0, 1 and 2 come from those directions, and the first n of them are in. */
  ghost predicate Filled(s: State, n: nat) {
    && Inv(s) && |s.cars| == 3 && s.carnumber == n && s.sems[STATUS] == 1
    && (forall i :: 0 <= i < 3 ==> s.cars[i].dir == i && s.waitlist[i] == [])
    && (forall i :: n <= i < 3 ==> s.cars[i].pc.Arrive? && s.sems[i] == 1)
  }

  lemma FillMore(s: State, n: nat) returns (sched: seq<nat>, t: State)
    requires Filled(s, n) && n < 3
    ensures Runs(s, sched) && Exec(s, sched) == t && Filled(t, n + 1)
  {
    sched, t := ComesIn(s, n);
  }

  /** Three cars of different directions are inside at once on some run, whatever
      turns they take. */
  lemma ThreeInside(s: State) returns (sched: seq<nat>)
    requires Init(s) && |s.cars| == 3 && forall i :: 0 <= i < 3 ==> s.cars[i].dir == i
    ensures Runs(s, sched) && Count(Exec(s, sched).cars, IsInside) == 3
  {
    InitInv(s);
    var p, a := FillMore(s, 0);
    var q, b := FillMore(a, 1);
    var r, c := FillMore(b, 2);
    RunConcat(s, p, q);
    RunConcat(s, p + q, r);
    sched := p + q + r;
  }

  // The way a car takes

  /** The quadrants of each turn from each direction: north-west 0, north-east 1,
      south-east 2, south-west 3. */
  function Route(dir: Quadrant, turn: Turn): seq<Quadrant> {
    var straight: seq<Quadrant> := if dir == 0 then [0, 3] else if dir == 1 then [1, 0] else if dir == 2 then [2, 1] else [3, 2];
    match turn
    case Right => [dir]
    case Straight => straight
    case Left => straight + [if dir == 0 then 2 else if dir == 1 then 3 else if dir == 2 then 0 else 1]
  }

  /** How many quadrants of its way a car has taken. */
  function Reached(c: Car): nat {
    match c.pc
    case Admitted => 1
    case Cross(r) => r + 1
    case Release(r) => r + 2
    case ExitStatus | CountOut | CountedOut | LeaveQuadrant | Done => |Route(c.dir, c.turn)|
    case _ => 0
  }

  /** The quadrant taken by a step: the first with the admission, the others by P. */
  function Taken(c: Car): seq<Quadrant> {
    match ActionOf(c)
    case Dequeue => [c.dir]
    case DoP(x) => if c.pc.Cross? && x < 4 then [x] else []
    case _ => []
  }

  /** What car i takes on a run. */
  ghost function Drive(s: State, sched: seq<nat>, i: nat): seq<Quadrant>
    requires Runs(s, sched)
    decreases |sched|
  {
    if sched == [] then []
    else (if sched[0] == i then Taken(s.cars[i]) else []) + Drive(Step(s, sched[0]), sched[1..], i)
  }

  lemma RouteIs(c: Car)
    ensures |Route(c.dir, c.turn)| == Last(c.turn) + 1
    ensures forall r: nat :: r <= Last(c.turn) ==> Route(c.dir, c.turn)[r] == Path(c, r)
  {
  }

  ghost function Way(c: Car): seq<Quadrant>
    requires CarOk(c)
  {
    RouteIs(c);
    Route(c.dir, c.turn)[..Reached(c)]
  }

  lemma TakenNext(c: Car, refused: bool)
    requires CarOk(c) && CarOk(c.(pc := NextPc(c, refused)))
    ensures Way(c) + Taken(c) == Way(c.(pc := NextPc(c, refused)))
  {
    RouteIs(c);
  }

  lemma {:induction false} DriveIs(s: State, sched: seq<nat>, i: nat)
    requires Shape(s) && Runs(s, sched) && i < |s.cars|
    ensures Shape(Exec(s, sched)) && |Exec(s, sched).cars| == |s.cars|
    ensures Drove(s.cars[i], Drive(s, sched, i), Exec(s, sched).cars[i])
    decreases |sched|
  {
    if sched != [] {
      var j := sched[0];
      StepShape(s, j, Step(s, j));
      DriveIs(Step(s, j), sched[1..], i);
      if j == i { TakenNext(s.cars[i], Refused(s, i)); }
      DroveMore(s.cars[i], if j == i then Taken(s.cars[i]) else [], Step(s, j).cars[i],
                Drive(Step(s, j), sched[1..], i), Exec(s, sched).cars[i]);
    }
  }

  /** Between c and c' the car took the quadrants in way. */
  ghost predicate Drove(c: Car, way: seq<Quadrant>, c': Car) {
    && CarOk(c) && CarOk(c') && c'.dir == c.dir && c'.turn == c.turn
    && Way(c) + way == Way(c')
  }

  lemma DroveMore(c: Car, a: seq<Quadrant>, c1: Car, b: seq<Quadrant>, c2: Car)
    requires CarOk(c) && CarOk(c1) && c1.dir == c.dir && c1.turn == c.turn && Way(c) + a == Way(c1) && Drove(c1, b, c2)
    ensures Drove(c, a + b, c2)
  {
    assert Way(c) + (a + b) == (Way(c) + a) + b;
  }

  /** Every car takes the quadrants of its turn one after another, and in every
      moment it has been inside it holds the one it took last. */
  lemma Routes(s: State, sched: seq<nat>, i: nat)
    requires Init(s) && Runs(s, sched) && i < |s.cars|
    ensures var t := Exec(s, sched);
      && |t.cars| == |s.cars| && Drive(s, sched, i) <= Route(s.cars[i].dir, s.cars[i].turn)
      && (t.cars[i].pc.Done? ==> Drive(s, sched, i) == Route(s.cars[i].dir, s.cars[i].turn))
      && (Has(t.cars[i], IsInside) ==>
            Drive(s, sched, i) != [] && HasQuadrant(t.cars[i], Drive(s, sched, i)[|Drive(s, sched, i)| - 1]))
  {
    InitInv(s);
    DriveIs(s, sched, i);
    RouteIs(Exec(s, sched).cars[i]);
    assert Way(s.cars[i]) == [];
    assert [] + Drive(s, sched, i) == Drive(s, sched, i);
  }
}
