// Dining philosophers: any number of them from 2 on, one program counter each, every shared
// access a step of its own, on counting semaphores.
module Philosophers {

  datatype Mood = THINKING | HUNGRY | EATING

  /** Where a philosopher is: about to perform the step named. The first nine are in
      `tryToEat`, the others in `stopEating`. */
  datatype PC =
    | SetHungry | TestHungry | WaitMutex | ReadSelf | ReadLeft | ReadRight | SetEating | PostSelf | PostMutex | WaitSelf
    | WaitStop | SetThinking | SeeLeft | PostLeft | SeeRight | PostRight | PostStop

  /** `mood` is the shared array, `sem` the private semaphores. */
  datatype Table = Table(mood: seq<Mood>, pc: seq<PC>, mutex: int, sem: seq<int>)

  predicate Seated(t: Table) {
    |t.mood| >= 2 && |t.pc| == |t.mood| && |t.sem| == |t.mood|
  }

  function Left(i: int, n: int): (r: int)
    requires 0 <= i < n && n >= 2
    ensures r == (if i == 0 then n - 1 else i - 1)
  {
    (i + n - 1) % n
  }

  function Right(i: int, n: int): (r: int)
    requires 0 <= i < n && n >= 2
    ensures r == (if i == n - 1 then 0 else i + 1)
  {
    (i + 1) % n
  }

  /** Only a wait on a semaphore at 0 holds a philosopher up. */
  predicate CanStep(t: Table, i: int)
    requires Seated(t) && 0 <= i < |t.mood|
  {
    match t.pc[i]
    case WaitMutex => t.mutex > 0
    case WaitStop => t.mutex > 0
    case WaitSelf => t.sem[i] > 0
    case _ => true
  }

  function Goto(t: Table, i: int, pc: PC): Table
    requires 0 <= i < |t.pc|
  {
    t.(pc := t.pc[i := pc])
  }

  function Feel(t: Table, i: int, mood: Mood): Table
    requires 0 <= i < |t.mood|
  {
    t.(mood := t.mood[i := mood])
  }

  function Add(t: Table, i: int, d: int): Table
    requires 0 <= i < |t.sem|
  {
    t.(sem := t.sem[i := t.sem[i] + d])
  }

  function Step(t: Table, i: int): (r: Table)
    requires Seated(t) && 0 <= i < |t.mood| && CanStep(t, i)
    ensures Seated(r) && |r.mood| == |t.mood|
  {
    var l, r := Left(i, |t.mood|), Right(i, |t.mood|);
    match t.pc[i]
    case SetHungry => Goto(Feel(t, i, HUNGRY), i, TestHungry)
    case TestHungry => Goto(t, i, if t.mood[i] == HUNGRY then WaitMutex else WaitStop)
    case WaitMutex => Goto(t.(mutex := t.mutex - 1), i, ReadSelf)
    case ReadSelf => Goto(t, i, if t.mood[i] == HUNGRY then ReadLeft else PostMutex)
    case ReadLeft => Goto(t, i, if t.mood[l] != EATING then ReadRight else PostMutex)
    case ReadRight => Goto(t, i, if t.mood[r] != EATING then SetEating else PostMutex)
    case SetEating => Goto(Feel(t, i, EATING), i, PostSelf)
    case PostSelf => Goto(Add(t, i, 1), i, PostMutex)
    case PostMutex => Goto(t.(mutex := t.mutex + 1), i, WaitSelf)
    case WaitSelf => Goto(Add(t, i, -1), i, TestHungry)
    case WaitStop => Goto(t.(mutex := t.mutex - 1), i, SetThinking)
    case SetThinking => Goto(Feel(t, i, THINKING), i, SeeLeft)
    case SeeLeft => Goto(t, i, if t.mood[l] == HUNGRY then PostLeft else SeeRight)
    case PostLeft => Goto(Add(t, l, 1), i, SeeRight)
    case SeeRight => Goto(t, i, if t.mood[r] == HUNGRY then PostRight else PostStop)
    case PostRight => Goto(Add(t, r, 1), i, PostStop)
    case PostStop => Goto(t.(mutex := t.mutex + 1), i, SetHungry)
  }

  // ------------------------------------------------------------------ the invariant

  /** Between taking the mutex and giving it back. */
  predicate Inside(pc: PC) {
    pc.ReadSelf? || pc.ReadLeft? || pc.ReadRight? || pc.SetEating? || pc.PostSelf? || pc.PostMutex?
    || pc.SetThinking? || pc.SeeLeft? || pc.PostLeft? || pc.SeeRight? || pc.PostRight? || pc.PostStop?
  }

  predicate MoodAt(pc: PC, mood: Mood) {
    match pc
    case SetHungry => mood == THINKING
    case TestHungry => mood != THINKING
    case WaitMutex => mood == HUNGRY
    case ReadSelf => mood == HUNGRY
    case ReadLeft => mood == HUNGRY
    case ReadRight => mood == HUNGRY
    case SetEating => mood == HUNGRY
    case PostSelf => mood == EATING
    case PostMutex => mood != THINKING
    case WaitSelf => mood != THINKING
    case WaitStop => mood == EATING
    case SetThinking => mood == EATING
    case _ => mood == THINKING
  }

  predicate OneInside(t: Table) {
    && (forall i, j | 0 <= i < |t.pc| && 0 <= j < |t.pc| && Inside(t.pc[i]) && Inside(t.pc[j]) :: i == j)
    && (t.mutex == 1 || t.mutex == 0)
    && (t.mutex == 0 <==> exists i | 0 <= i < |t.pc| :: Inside(t.pc[i]))
  }

  predicate NoNeighbourEats(t: Table, i: int)
    requires Seated(t) && 0 <= i < |t.mood|
  {
    t.mood[Left(i, |t.mood|)] != EATING && t.mood[Right(i, |t.mood|)] != EATING
  }

  predicate LooksRight(t: Table, i: int)
    requires Seated(t) && 0 <= i < |t.mood|
  {
    && MoodAt(t.pc[i], t.mood[i])
    && (t.pc[i].ReadRight? ==> t.mood[Left(i, |t.mood|)] != EATING)
    && (t.pc[i].SetEating? ==> NoNeighbourEats(t, i))
    && (t.mood[i] == EATING ==> NoNeighbourEats(t, i))
  }

  predicate Waiting(pc: PC) {
    pc.PostMutex? || pc.WaitSelf?
  }

  /** Philosopher `j` eats, or has stopped and is still to see that its neighbour `i` is hungry. */
  predicate WillPost(t: Table, j: int, i: int)
    requires Seated(t) && 0 <= j < |t.mood|
  {
    || t.mood[j] == EATING
    || ((t.pc[j].SeeLeft? || t.pc[j].PostLeft?) && Left(j, |t.mood|) == i)
    || ((t.pc[j].SeeLeft? || t.pc[j].PostLeft? || t.pc[j].SeeRight? || t.pc[j].PostRight?) && Right(j, |t.mood|) == i)
  }

  /** Who goes to wait for its own semaphore finds a token there if it eats; if it is hungry
      and there is none, a neighbour will bring one. */
  predicate NotForgotten(t: Table, i: int)
    requires Seated(t) && 0 <= i < |t.mood|
  {
    && t.sem[i] >= 0
    && (Waiting(t.pc[i]) && t.sem[i] == 0 ==>
          t.mood[i] == HUNGRY && (WillPost(t, Left(i, |t.mood|), i) || WillPost(t, Right(i, |t.mood|), i)))
  }

  ghost predicate Inv(t: Table) {
    && Seated(t) && OneInside(t)
    && (forall i {:trigger LooksRight(t, i)} | 0 <= i < |t.mood| :: LooksRight(t, i))
    && (forall i {:trigger NotForgotten(t, i)} | 0 <= i < |t.mood| :: NotForgotten(t, i))
  }

  /** The mutex goes from hand to hand. */
  lemma StepOneInside(t: Table, i: int)
    requires Inv(t) && 0 <= i < |t.mood| && CanStep(t, i)
    ensures OneInside(Step(t, i))
  {
    var r := Step(t, i);
    assert LooksRight(t, i);
    assert forall j | 0 <= j < |t.pc| && j != i :: r.pc[j] == t.pc[j];
    assert r.mutex == 0 ==> Inside(r.pc[i]) || exists j | 0 <= j < |t.pc| && j != i :: Inside(t.pc[j]);
  }

  lemma OwnStepLooksRight(t: Table, i: int)
    requires Inv(t) && 0 <= i < |t.mood| && CanStep(t, i)
    ensures LooksRight(Step(t, i), i)
  {
    assert LooksRight(t, i);
    assert LooksRight(t, Left(i, |t.mood|)) && LooksRight(t, Right(i, |t.mood|));
  }

  lemma StepLooksRight(t: Table, i: int, j: int)
    requires Inv(t) && 0 <= i < |t.mood| && CanStep(t, i) && 0 <= j < |t.mood|
    ensures LooksRight(Step(t, i), j)
  {
    if i == j {
      OwnStepLooksRight(t, i);
    } else {
      assert LooksRight(t, i) && LooksRight(t, j);
    }
  }

  lemma OwnStepNotForgotten(t: Table, i: int)
    requires Inv(t) && 0 <= i < |t.mood| && CanStep(t, i)
    ensures NotForgotten(Step(t, i), i)
  {
    assert LooksRight(t, i) && NotForgotten(t, i);
  }

  /** A neighbour who will post a token for `j` goes on towards it, or has posted it. */
  lemma StepWillPost(t: Table, i: int, j: int)
    requires Inv(t) && 0 <= i < |t.mood| && CanStep(t, i) && 0 <= j < |t.mood| && i != j
    requires t.mood[j] == HUNGRY && WillPost(t, i, j) && (i == Left(j, |t.mood|) || i == Right(j, |t.mood|))
    ensures WillPost(Step(t, i), i, j) || Step(t, i).sem[j] > 0
  {
    assert LooksRight(t, i) && NotForgotten(t, j);
  }

  lemma OtherStep(t: Table, i: int, j: int)
    requires Seated(t) && 0 <= i < |t.mood| && CanStep(t, i) && 0 <= j < |t.mood| && i != j
    ensures Step(t, i).mood[j] == t.mood[j] && Step(t, i).pc[j] == t.pc[j] && Step(t, i).sem[j] >= t.sem[j]
    ensures forall k | 0 <= k < |t.mood| && k != i :: WillPost(t, k, j) ==> WillPost(Step(t, i), k, j)
  {
  }

  lemma StepNotForgotten(t: Table, i: int, j: int)
    requires Inv(t) && 0 <= i < |t.mood| && CanStep(t, i) && 0 <= j < |t.mood|
    ensures NotForgotten(Step(t, i), j)
  {
    if i == j {
      OwnStepNotForgotten(t, i);
    } else {
      hide Step, CanStep, OneInside, LooksRight, WillPost;
      assert NotForgotten(t, j);
      OtherStep(t, i, j);
      if t.mood[j] == HUNGRY && WillPost(t, i, j) && (i == Left(j, |t.mood|) || i == Right(j, |t.mood|)) {
        StepWillPost(t, i, j);
      }
    }
  }

  lemma StepKeeps(t: Table, i: int)
    requires Inv(t) && 0 <= i < |t.mood| && CanStep(t, i)
    ensures Inv(Step(t, i))
  {
    hide LooksRight, NotForgotten, OneInside, Step, CanStep;
    StepOneInside(t, i);
    forall j | 0 <= j < |t.mood| ensures LooksRight(Step(t, i), j) && NotForgotten(Step(t, i), j) {
      StepLooksRight(t, i, j);
      StepNotForgotten(t, i, j);
    }
  }

  // ------------------------------------------------------------------ whole runs

  /** Everybody thinks, the mutex is free and there are no tokens. */
  function Start(n: nat): Table {
    Table(seq(n, _ => THINKING), seq(n, _ => SetHungry), 1, seq(n, _ => 0))
  }

  /** Table `end` is reached from `t` when the philosophers named step one after the other. */
  ghost predicate Reaches(t: Table, steps: seq<int>, end: Table)
    decreases |steps|
  {
    if steps == [] then end == t
    else Seated(t) && 0 <= steps[0] < |t.mood| && CanStep(t, steps[0]) && Reaches(Step(t, steps[0]), steps[1..], end)
  }

  lemma {:induction false} ReachesKeeps(t: Table, steps: seq<int>, end: Table)
    requires Inv(t) && Reaches(t, steps, end)
    ensures Inv(end) && |end.mood| == |t.mood|
    decreases |steps|
  {
    if steps != [] {
      StepKeeps(t, steps[0]);
      ReachesKeeps(Step(t, steps[0]), steps[1..], end);
    }
  }

  lemma StartIsSound(n: nat)
    requires n >= 2
    ensures Inv(Start(n))
  {
  }

  /** Two neighbours never eat at the same time. */
  lemma NeighboursNeverEatTogether(n: nat, steps: seq<int>, end: Table, i: int)
    requires n >= 2 && Reaches(Start(n), steps, end) && 0 <= i < n
    ensures |end.mood| == n
    ensures end.mood[i] == EATING ==> end.mood[Left(i, n)] != EATING && end.mood[Right(i, n)] != EATING
  {
    StartIsSound(n);
    ReachesKeeps(Start(n), steps, end);
    assert LooksRight(end, i);
  }

  /** No lost wakeup: a hungry philosopher that waits for its own semaphore at 0 has a
      neighbour that eats, or that has stopped and not yet passed by it. */
  lemma NoLostWakeup(n: nat, steps: seq<int>, end: Table, i: int)
    requires n >= 2 && Reaches(Start(n), steps, end) && 0 <= i < n
    ensures Seated(end) && |end.mood| == n
    ensures end.pc[i] == WaitSelf && end.sem[i] == 0 ==>
              end.mood[i] == HUNGRY && (WillPost(end, Left(i, n), i) || WillPost(end, Right(i, n), i))
  {
    StartIsSound(n);
    ReachesKeeps(Start(n), steps, end);
    assert NotForgotten(end, i);
  }

  /** Who is about to post a token has seen that neighbour hungry, and it still is: only whoever
      holds the mutex can make it eat. */
  predicate PostsToHungry(t: Table, i: int)
    requires Seated(t) && 0 <= i < |t.mood|
  {
    && (t.pc[i].PostLeft? ==> t.mood[Left(i, |t.mood|)] == HUNGRY)
    && (t.pc[i].PostRight? ==> t.mood[Right(i, |t.mood|)] == HUNGRY)
  }

  lemma StepPostsToHungry(t: Table, i: int, j: int)
    requires Inv(t) && 0 <= i < |t.mood| && CanStep(t, i) && 0 <= j < |t.mood| && PostsToHungry(t, j)
    ensures PostsToHungry(Step(t, i), j)
  {
    assert LooksRight(t, i) && LooksRight(t, j);
  }

  lemma {:induction false} RunPostsToHungry(t: Table, steps: seq<int>, end: Table, i: int)
    requires Inv(t) && Reaches(t, steps, end) && 0 <= i < |t.mood| && PostsToHungry(t, i)
    ensures Inv(end) && |end.mood| == |t.mood| && PostsToHungry(end, i)
    decreases |steps|
  {
    hide Inv, Step, CanStep, PostsToHungry;
    if steps != [] {
      InvSeated(t);
      StepKeeps(t, steps[0]);
      StepPostsToHungry(t, steps[0], i);
      RunPostsToHungry(Step(t, steps[0]), steps[1..], end, i);
    }
  }

  lemma InvSeated(t: Table)
    requires Inv(t)
    ensures Seated(t)
  {
  }

  /** Tokens go to the hungry only. */
  lemma OnlyHungryGetTokens(n: nat, steps: seq<int>, end: Table, i: int)
    requires n >= 2 && Reaches(Start(n), steps, end) && 0 <= i < n
    ensures Seated(end) && |end.mood| == n && PostsToHungry(end, i)
  {
    StartIsSound(n);
    RunPostsToHungry(Start(n), steps, end, i);
  }

  /** No deadlock: some philosopher can always step. */
  lemma SomebodyCanStep(n: nat, steps: seq<int>, end: Table)
    requires n >= 2 && Reaches(Start(n), steps, end)
    ensures Seated(end) && exists i | 0 <= i < |end.mood| :: CanStep(end, i)
  {
    StartIsSound(n);
    ReachesKeeps(Start(n), steps, end);
    if end.mutex == 0 {
      var i :| 0 <= i < |end.pc| && Inside(end.pc[i]);
      assert CanStep(end, i);
    } else if !CanStep(end, 0) {
      assert NotForgotten(end, 0);
      var i := if WillPost(end, Left(0, n), 0) then Left(0, n) else Right(0, n);
      assert !Inside(end.pc[i]);
      assert NotForgotten(end, i) && LooksRight(end, i);
      assert CanStep(end, i);
    }
  }

  // ------------------------------------------------------------------ everybody can still eat

  lemma {:induction false} ReachesOn(t: Table, a: seq<int>, m: Table, b: seq<int>, end: Table)
    requires Reaches(t, a, m) && Reaches(m, b, end)
    ensures Reaches(t, a + b, end)
    decreases |a|
  {
    if a == [] {
      assert a + b == b;
    } else {
      assert (a + b)[1..] == a[1..] + b;
      ReachesOn(Step(t, a[0]), a[1..], m, b, end);
    }
  }

  /** One philosopher after the other: nobody else moves, and no token of theirs is taken. */
  predicate OnlyMoves(t: Table, i: int, end: Table) {
    && Seated(t) && Seated(end) && |end.mood| == |t.mood|
    && forall j | 0 <= j < |t.mood| && j != i ::
         end.mood[j] == t.mood[j] && end.pc[j] == t.pc[j] && end.sem[j] >= t.sem[j]
  }

  /** Steps from an inner step to the one after the mutex was given back. */
  function Inner(pc: PC): nat {
    match pc
    case ReadSelf => 6
    case ReadLeft => 5
    case ReadRight => 4
    case SetEating => 3
    case PostSelf => 2
    case PostMutex => 1
    case SetThinking => 6
    case SeeLeft => 5
    case PostLeft => 4
    case SeeRight => 3
    case PostRight => 2
    case PostStop => 1
    case _ => 0
  }

  /** Whoever is inside can go on until the mutex is free. */
  lemma {:induction false} LeavesInside(t: Table, i: int) returns (steps: seq<int>, end: Table)
    requires Inv(t) && 0 <= i < |t.mood| && Inside(t.pc[i])
    ensures Reaches(t, steps, end) && Inv(end) && OnlyMoves(t, i, end) && end.mutex == 1
    decreases Inner(t.pc[i])
  {
    var m := Step(t, i);
    StepKeeps(t, i);
    var rest;
    if Inside(m.pc[i]) {
      rest, end := LeavesInside(m, i);
    } else {
      rest, end := [], m;
    }
    steps := [i] + rest;
  }

  /** Steps until one that eats, or is about to stop, thinks again. */
  function Meal(pc: PC): nat {
    match pc
    case WaitSelf => 9
    case TestHungry => 8
    case WaitStop => 7
    case _ => Inner(pc)
  }

  /** It eats outside, or is on its way through stopping. */
  predicate MayStop(t: Table, i: int)
    requires Seated(t) && 0 <= i < |t.mood|
  {
    && (t.mutex == 1 || Inside(t.pc[i]))
    && (t.mood[i] == EATING || (Inside(t.pc[i]) && t.mood[i] == THINKING))
    && !t.pc[i].PostSelf? && !t.pc[i].PostMutex?
  }

  lemma StopStep(t: Table, i: int)
    requires Inv(t) && 0 <= i < |t.mood| && MayStop(t, i)
    ensures CanStep(t, i) && OnlyMoves(t, i, Step(t, i)) && Meal(Step(t, i).pc[i]) < Meal(t.pc[i])
    ensures var m := Step(t, i); if m.pc[i] == SetHungry then m.mutex == 1 && m.mood[i] == THINKING else MayStop(m, i)
  {
    assert LooksRight(t, i) && NotForgotten(t, i);
  }

  /** One that eats can stop, when the mutex is free. */
  lemma {:induction false} StopsEating(t: Table, i: int) returns (steps: seq<int>, end: Table)
    requires Inv(t) && 0 <= i < |t.mood| && MayStop(t, i)
    ensures Reaches(t, steps, end) && Inv(end) && OnlyMoves(t, i, end) && end.mutex == 1 && end.mood[i] == THINKING
    decreases Meal(t.pc[i])
  {
    hide Step, CanStep, MayStop, Meal, LooksRight, NotForgotten, OneInside;
    StopStep(t, i);
    var m := Step(t, i);
    StepKeeps(t, i);
    var rest;
    if m.pc[i] == SetHungry {
      rest, end := [], m;
    } else {
      rest, end := StopsEating(m, i);
    }
    steps := [i] + rest;
  }

  /** Steps to the table. */
  function Way(pc: PC): nat {
    match pc
    case SetHungry => 8
    case WaitSelf => 8
    case TestHungry => 7
    case WaitMutex => 6
    case ReadSelf => 5
    case ReadLeft => 4
    case ReadRight => 3
    case SetEating => 2
    case _ => 0
  }

  /** One whose neighbours do not eat can eat, when the mutex is free. */
  lemma {:induction false} StartsEating(t: Table, i: int) returns (steps: seq<int>, end: Table)
    requires Inv(t) && 0 <= i < |t.mood| && t.mood[i] != EATING && NoNeighbourEats(t, i)
    requires t.mutex == 1 || t.pc[i].ReadSelf? || t.pc[i].ReadLeft? || t.pc[i].ReadRight? || t.pc[i].SetEating?
    ensures Reaches(t, steps, end) && |end.mood| == |t.mood| && end.mood[i] == EATING
    decreases Way(t.pc[i])
  {
    assert LooksRight(t, i) && NotForgotten(t, i);
    var m := Step(t, i);
    StepKeeps(t, i);
    var rest;
    if m.mood[i] == EATING {
      rest, end := [], m;
    } else {
      rest, end := StartsEating(m, i);
    }
    steps := [i] + rest;
  }

  /** With the mutex free, a neighbour that eats can be made to stop. */
  lemma StopsIfEating(t: Table, j: int) returns (steps: seq<int>, end: Table)
    requires Inv(t) && 0 <= j < |t.mood| && t.mutex == 1
    ensures Reaches(t, steps, end) && Inv(end) && OnlyMoves(t, j, end) && end.mutex == 1 && end.mood[j] != EATING
  {
    assert LooksRight(t, j);
    if t.mood[j] == EATING {
      steps, end := StopsEating(t, j);
    } else {
      steps, end := [], t;
    }
  }

  lemma MutexComesFree(t: Table) returns (steps: seq<int>, end: Table)
    requires Inv(t)
    ensures Reaches(t, steps, end) && Inv(end) && |end.mood| == |t.mood| && end.mutex == 1
  {
    if t.mutex == 1 {
      steps, end := [], t;
    } else {
      var j :| 0 <= j < |t.pc| && Inside(t.pc[j]);
      steps, end := LeavesInside(t, j);
    }
  }

  /** Nobody is shut out for good: from every reachable state, every philosopher can still come
      to eat. */
  lemma EverybodyCanStillEat(n: nat, steps: seq<int>, t: Table, i: int) returns (more: seq<int>, end: Table)
    requires n >= 2 && Reaches(Start(n), steps, t) && 0 <= i < n
    ensures Reaches(t, more, end) && |end.mood| == n && end.mood[i] == EATING
  {
    StartIsSound(n);
    ReachesKeeps(Start(n), steps, t);
    var a, t1 := MutexComesFree(t);
    var l, r := Left(i, n), Right(i, n);
    var b, t2 := StopsIfEating(t1, l);
    var c, t3 := StopsIfEating(t2, r);
    ReachesOn(t, a, t1, b, t2);
    ReachesOn(t, a + b, t2, c, t3);
    if t3.mood[i] == EATING {
      more, end := a + b + c, t3;
    } else {
      var d;
      d, end := StartsEating(t3, i);
      ReachesOn(t, a + b + c, t3, d, end);
      more := a + b + c + d;
    }
  }

  // ------------------------------------------------------------------ one of two can starve

  function Two(mood0: Mood, pc0: PC, mood1: Mood, pc1: PC, mutex: int, sem0: int, sem1: int): Table {
    Table([mood0, mood1], [pc0, pc1], mutex, [sem0, sem1])
  }

  /** `end` is reached from `t`, and philosopher `i` eats in no table on the way. */
  ghost predicate Hungers(t: Table, steps: seq<int>, end: Table, i: int)
    decreases |steps|
  {
    && Seated(t) && 0 <= i < |t.mood| && t.mood[i] != EATING
    && if steps == [] then end == t
       else 0 <= steps[0] < |t.mood| && CanStep(t, steps[0]) && Hungers(Step(t, steps[0]), steps[1..], end, i)
  }

  lemma {:induction false} HungersReaches(t: Table, steps: seq<int>, end: Table, i: int)
    requires Hungers(t, steps, end, i)
    ensures Reaches(t, steps, end)
    decreases |steps|
  {
    if steps != [] {
      HungersReaches(Step(t, steps[0]), steps[1..], end, i);
    }
  }

  lemma {:induction false} HungersOn(t: Table, a: seq<int>, m: Table, b: seq<int>, end: Table, i: int)
    requires Hungers(t, a, m, i) && Hungers(m, b, end, i)
    ensures Hungers(t, a + b, end, i)
    decreases |a|
  {
    if a == [] {
      assert a + b == b;
    } else {
      assert (a + b)[1..] == a[1..] + b;
      HungersOn(Step(t, a[0]), a[1..], m, b, end, i);
    }
  }

  function Times(i: int, k: nat): seq<int> {
    seq(k, _ => i)
  }

  lemma HungersStep(t: Table, i: int, m: Table, k: nat, end: Table)
    requires Seated(t) && 0 <= i < |t.mood| && t.mood[0] != EATING && CanStep(t, i)
    requires Step(t, i) == m && Hungers(m, Times(i, k), end, 0)
    ensures Hungers(t, Times(i, k + 1), end, 0)
  {
    assert Times(i, k + 1)[1..] == Times(i, k);
  }

  lemma HungersTimes(t: Table, i: int, a: nat, m: Table, b: nat, end: Table)
    requires Hungers(t, Times(i, a), m, 0) && Hungers(m, Times(i, b), end, 0)
    ensures Hungers(t, Times(i, a + b), end, 0)
  {
    HungersOn(t, Times(i, a), m, Times(i, b), end, 0);
    assert Times(i, a) + Times(i, b) == Times(i, a + b);
  }

  lemma SecondGoesIn(mood: Mood, pc: PC, token: nat)
    requires mood != EATING
    ensures Hungers(Two(mood, pc, THINKING, SetHungry, 1, token, 0), Times(1, 3),
                    Two(mood, pc, HUNGRY, ReadSelf, 0, token, 0), 0)
  {
    var t0 := Two(mood, pc, THINKING, SetHungry, 1, token, 0);
    var t1 := Two(mood, pc, HUNGRY, TestHungry, 1, token, 0);
    var t2 := Two(mood, pc, HUNGRY, WaitMutex, 1, token, 0);
    var t3 := Two(mood, pc, HUNGRY, ReadSelf, 0, token, 0);
    assert Hungers(t3, Times(1, 0), t3, 0);
    hide Hungers, Times;
    HungersStep(t2, 1, t3, 0, t3);
    HungersStep(t1, 1, t2, 1, t3);
    HungersStep(t0, 1, t1, 2, t3);
  }

  lemma SecondLooks(mood: Mood, pc: PC, token: nat)
    requires mood != EATING
    ensures Hungers(Two(mood, pc, HUNGRY, ReadSelf, 0, token, 0), Times(1, 3),
                    Two(mood, pc, HUNGRY, SetEating, 0, token, 0), 0)
  {
    var t0 := Two(mood, pc, HUNGRY, ReadSelf, 0, token, 0);
    var t1 := Two(mood, pc, HUNGRY, ReadLeft, 0, token, 0);
    var t2 := Two(mood, pc, HUNGRY, ReadRight, 0, token, 0);
    var t3 := Two(mood, pc, HUNGRY, SetEating, 0, token, 0);
    assert Hungers(t3, Times(1, 0), t3, 0);
    hide Hungers, Times;
    HungersStep(t2, 1, t3, 0, t3);
    HungersStep(t1, 1, t2, 1, t3);
    HungersStep(t0, 1, t1, 2, t3);
  }

  lemma SecondTakes(mood: Mood, pc: PC, token: nat)
    requires mood != EATING
    ensures Hungers(Two(mood, pc, HUNGRY, SetEating, 0, token, 0), Times(1, 5),
                    Two(mood, pc, EATING, WaitStop, 1, token, 0), 0)
  {
    var t0 := Two(mood, pc, HUNGRY, SetEating, 0, token, 0);
    var t1 := Two(mood, pc, EATING, PostSelf, 0, token, 0);
    var t2 := Two(mood, pc, EATING, PostMutex, 0, token, 1);
    var t3 := Two(mood, pc, EATING, WaitSelf, 1, token, 1);
    var t4 := Two(mood, pc, EATING, TestHungry, 1, token, 0);
    var t5 := Two(mood, pc, EATING, WaitStop, 1, token, 0);
    assert Hungers(t5, Times(1, 0), t5, 0);
    hide Hungers, Times;
    HungersStep(t4, 1, t5, 0, t5);
    HungersStep(t3, 1, t4, 1, t5);
    HungersStep(t2, 1, t3, 2, t5);
    HungersStep(t1, 1, t2, 3, t5);
    HungersStep(t0, 1, t1, 4, t5);
  }

  /** Philosopher 1 comes to eat while 0 does not. */
  lemma SecondEats(mood: Mood, pc: PC, token: nat)
    requires mood != EATING
    ensures Hungers(Two(mood, pc, THINKING, SetHungry, 1, token, 0), Times(1, 11),
                    Two(mood, pc, EATING, WaitStop, 1, token, 0), 0)
  {
    hide Hungers, Times;
    var t, inside := Two(mood, pc, THINKING, SetHungry, 1, token, 0), Two(mood, pc, HUNGRY, ReadSelf, 0, token, 0);
    var looked, end := Two(mood, pc, HUNGRY, SetEating, 0, token, 0), Two(mood, pc, EATING, WaitStop, 1, token, 0);
    SecondGoesIn(mood, pc, token);
    SecondLooks(mood, pc, token);
    SecondTakes(mood, pc, token);
    HungersTimes(t, 1, 3, inside, 3, looked);
    HungersTimes(t, 1, 6, looked, 5, end);
  }

  /** Philosopher 0 tries while 1 eats, and goes to wait for its own semaphore. */
  lemma FirstTriesInVain(token: nat)
    ensures Hungers(Two(HUNGRY, TestHungry, EATING, WaitStop, 1, token, 0), Times(0, 5),
                    Two(HUNGRY, WaitSelf, EATING, WaitStop, 1, token, 0), 0)
  {
    var t0 := Two(HUNGRY, TestHungry, EATING, WaitStop, 1, token, 0);
    var t1 := Two(HUNGRY, WaitMutex, EATING, WaitStop, 1, token, 0);
    var t2 := Two(HUNGRY, ReadSelf, EATING, WaitStop, 0, token, 0);
    var t3 := Two(HUNGRY, ReadLeft, EATING, WaitStop, 0, token, 0);
    var t4 := Two(HUNGRY, PostMutex, EATING, WaitStop, 0, token, 0);
    var t5 := Two(HUNGRY, WaitSelf, EATING, WaitStop, 1, token, 0);
    assert Hungers(t5, Times(0, 0), t5, 0);
    hide Hungers, Times;
    HungersStep(t4, 0, t5, 0, t5);
    HungersStep(t3, 0, t4, 1, t5);
    HungersStep(t2, 0, t3, 2, t5);
    HungersStep(t1, 0, t2, 3, t5);
    HungersStep(t0, 0, t1, 4, t5);
  }

  lemma SecondSeesLeft(token: nat)
    ensures Hungers(Two(HUNGRY, WaitSelf, EATING, WaitStop, 1, token, 0), Times(1, 4),
                    Two(HUNGRY, WaitSelf, THINKING, SeeRight, 0, token + 1, 0), 0)
  {
    var t0 := Two(HUNGRY, WaitSelf, EATING, WaitStop, 1, token, 0);
    var t1 := Two(HUNGRY, WaitSelf, EATING, SetThinking, 0, token, 0);
    var t2 := Two(HUNGRY, WaitSelf, THINKING, SeeLeft, 0, token, 0);
    var t3 := Two(HUNGRY, WaitSelf, THINKING, PostLeft, 0, token, 0);
    var t4 := Two(HUNGRY, WaitSelf, THINKING, SeeRight, 0, token + 1, 0);
    assert Hungers(t4, Times(1, 0), t4, 0);
    hide Hungers, Times;
    HungersStep(t3, 1, t4, 0, t4);
    HungersStep(t2, 1, t3, 1, t4);
    HungersStep(t1, 1, t2, 2, t4);
    HungersStep(t0, 1, t1, 3, t4);
  }

  lemma SecondSeesRight(token: nat)
    ensures Hungers(Two(HUNGRY, WaitSelf, THINKING, SeeRight, 0, token + 1, 0), Times(1, 3),
                    Two(HUNGRY, WaitSelf, THINKING, SetHungry, 1, token + 2, 0), 0)
  {
    var t0 := Two(HUNGRY, WaitSelf, THINKING, SeeRight, 0, token + 1, 0);
    var t1 := Two(HUNGRY, WaitSelf, THINKING, PostRight, 0, token + 1, 0);
    var t2 := Two(HUNGRY, WaitSelf, THINKING, PostStop, 0, token + 2, 0);
    var t3 := Two(HUNGRY, WaitSelf, THINKING, SetHungry, 1, token + 2, 0);
    assert Hungers(t3, Times(1, 0), t3, 0);
    hide Hungers, Times;
    HungersStep(t2, 1, t3, 0, t3);
    HungersStep(t1, 1, t2, 1, t3);
    HungersStep(t0, 1, t1, 2, t3);
  }

  /** Philosopher 1 stops, and brings two tokens: 0 is its neighbour on either side. */
  lemma SecondStops(token: nat)
    ensures Hungers(Two(HUNGRY, WaitSelf, EATING, WaitStop, 1, token, 0), Times(1, 7),
                    Two(HUNGRY, WaitSelf, THINKING, SetHungry, 1, token + 2, 0), 0)
  {
    hide Hungers, Times;
    var t := Two(HUNGRY, WaitSelf, EATING, WaitStop, 1, token, 0);
    var m := Two(HUNGRY, WaitSelf, THINKING, SeeRight, 0, token + 1, 0);
    SecondSeesLeft(token);
    SecondSeesRight(token);
    HungersTimes(t, 1, 4, m, 3, Two(HUNGRY, WaitSelf, THINKING, SetHungry, 1, token + 2, 0));
  }

  /** Philosopher 0 takes a token, tries again, and is back. */
  lemma FirstWakesInVain(token: nat)
    requires token > 0
    ensures Hungers(Two(HUNGRY, WaitSelf, EATING, WaitStop, 1, token, 0), Times(0, 1) + Times(0, 5),
                    Two(HUNGRY, WaitSelf, EATING, WaitStop, 1, token - 1, 0), 0)
  {
    var t := Two(HUNGRY, WaitSelf, EATING, WaitStop, 1, token, 0);
    var m := Two(HUNGRY, TestHungry, EATING, WaitStop, 1, token - 1, 0);
    assert Hungers(m, Times(0, 0), m, 0);
    HungersStep(t, 0, m, 0, m);
    FirstTriesInVain(token - 1);
    HungersOn(t, Times(0, 1), m, Times(0, 5), Two(HUNGRY, WaitSelf, EATING, WaitStop, 1, token - 1, 0), 0);
  }

  /** Philosopher 1 eats, and 0 waits without a token. */
  const STARVING := Two(HUNGRY, WaitSelf, EATING, WaitStop, 1, 0, 0)

  const TO_STARVING := Times(1, 11) + Times(0, 1) + Times(0, 5)

  const STARVING_ROUND := Times(1, 7) + Times(1, 11) + (Times(0, 1) + Times(0, 5)) + (Times(0, 1) + Times(0, 5))

  lemma StarvingIsReached()
    ensures Hungers(Start(2), TO_STARVING, STARVING, 0)
  {
    hide Hungers, Step;
    var a, b := Two(THINKING, SetHungry, EATING, WaitStop, 1, 0, 0), Two(HUNGRY, TestHungry, EATING, WaitStop, 1, 0, 0);
    assert Start(2) == Two(THINKING, SetHungry, THINKING, SetHungry, 1, 0, 0);
    SecondEats(THINKING, SetHungry, 0);
    FirstGetsHungry();
    FirstTriesInVain(0);
    HungersOn(Start(2), Times(1, 11), a, Times(0, 1), b, 0);
    HungersOn(Start(2), Times(1, 11) + Times(0, 1), b, Times(0, 5), STARVING, 0);
  }

  lemma FirstGetsHungry()
    ensures Hungers(Two(THINKING, SetHungry, EATING, WaitStop, 1, 0, 0), Times(0, 1),
                    Two(HUNGRY, TestHungry, EATING, WaitStop, 1, 0, 0), 0)
  {
    var t, m := Two(THINKING, SetHungry, EATING, WaitStop, 1, 0, 0), Two(HUNGRY, TestHungry, EATING, WaitStop, 1, 0, 0);
    assert Hungers(m, Times(0, 0), m, 0);
    HungersStep(t, 0, m, 0, m);
  }

  lemma StarvingAgain()
    ensures Hungers(STARVING, STARVING_ROUND, STARVING, 0)
  {
    hide Hungers;
    var a, b := Two(HUNGRY, WaitSelf, THINKING, SetHungry, 1, 2, 0), Two(HUNGRY, WaitSelf, EATING, WaitStop, 1, 2, 0);
    var c := Two(HUNGRY, WaitSelf, EATING, WaitStop, 1, 1, 0);
    var again := Times(0, 1) + Times(0, 5);
    SecondStops(0);
    SecondEats(HUNGRY, WaitSelf, 2);
    FirstWakesInVain(2);
    FirstWakesInVain(1);
    HungersOn(STARVING, Times(1, 7), a, Times(1, 11), b, 0);
    HungersOn(STARVING, Times(1, 7) + Times(1, 11), b, again, c, 0);
    HungersOn(STARVING, Times(1, 7) + Times(1, 11) + again, c, again, STARVING, 0);
  }

  function Rounds(k: nat): seq<int> {
    if k == 0 then [] else Rounds(k - 1) + STARVING_ROUND
  }

  lemma {:induction false} StarvesRounds(k: nat)
    ensures Hungers(STARVING, Rounds(k), STARVING, 0)
  {
    if k > 0 {
      hide Hungers;
      StarvesRounds(k - 1);
      StarvingAgain();
      HungersOn(STARVING, Rounds(k - 1), STARVING, STARVING_ROUND, STARVING, 0);
    } else {
      assert Hungers(STARVING, [], STARVING, 0);
    }
  }

  /** A philosopher can starve though both go on stepping: of two, one can eat round after round,
      both taking steps in each, and the other, which tries twice a round, never. */
  lemma OneOfTwoCanStarve(k: nat)
    ensures Hungers(Start(2), TO_STARVING + Rounds(k), STARVING, 0)
    ensures Reaches(Start(2), TO_STARVING + Rounds(k), STARVING)
    ensures 0 in STARVING_ROUND && 1 in STARVING_ROUND && STARVING.mood == [HUNGRY, EATING]
  {
    StarvingIsReached();
    StarvesRounds(k);
    HungersOn(Start(2), TO_STARVING, STARVING, Rounds(k), STARVING, 0);
    HungersReaches(Start(2), TO_STARVING + Rounds(k), STARVING, 0);
    assert STARVING_ROUND[0] == 1 && STARVING_ROUND[18] == 0;
  }
}
