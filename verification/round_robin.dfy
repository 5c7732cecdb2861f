// Weighted round robin: how long a turn lasts, and when every ready process runs again, while
// the ready set and the priorities do not change.
module RoundRobin {
  import opened SchedulerSpec
  import opened SchedulerRuns

  /** A process runs, and every process in the ring is ready. */
  ghost predicate Calm(s: Sched) {
    && s.ready != [] && s.haltRsp != 0 && !s.halt && !s.firstTime && Credits(s)
    && forall i | 0 <= i < |s.ready| :: s.ready[i].state == Ready
  }

  /** The ring without the saved stack pointers. */
  function Ring(l: seq<Proc>): (r: seq<Proc>)
    ensures |r| == |l|
  {
    seq(|l|, i requires 0 <= i < |l| => l[i].(rsp := 0))
  }

  /** What one tick does to the ring. */
  function Next(l: seq<Proc>): (r: seq<Proc>)
    requires l != []
    ensures |r| == |l|
  {
    var r := if l[0].credit == 0 then l[1..] + [Refilled(l[0])] else l;
    r[0 := r[0].(credit := r[0].credit - 1)]
  }

  function After(l: seq<Proc>, ticks: nat): (r: seq<Proc>)
    requires l != []
    ensures |r| == |l|
    decreases ticks
  {
    if ticks == 0 then l else After(Next(l), ticks - 1)
  }

  lemma {:induction false} AfterSum(l: seq<Proc>, a: nat, b: nat)
    requires l != []
    ensures After(l, a + b) == After(After(l, a), b)
    decreases a
  {
    if a > 0 {
      AfterSum(Next(l), a - 1, b);
    }
  }

  /** A tick of a calm scheduler turns the ring and leaves the scheduler calm. */
  lemma TickTurnsRing(s: Sched, rsp: int)
    requires Calm(s)
    ensures var r := Tick(s, rsp).0;
            Calm(r) && r.blocked == s.blocked && Ring(r.ready) == Next(Ring(s.ready))
  {
    var s1 := Saved(s, rsp);
    var s2 := Turned(s1);
    assert Ring(s1.ready) == Ring(s.ready);
    if s.ready[0].credit == 0 {
      assert forall i | 0 <= i < |s.ready| - 1 :: s2.ready[i] == s1.ready[i + 1];
      assert Ring(s2.ready) == Ring(s1.ready)[1..] + [Refilled(Ring(s1.ready)[0])];
    }
    var r := Dispatched(s2).0;
    assert Ring(r.ready) == Ring(s2.ready)[0 := Ring(s2.ready)[0].(credit := s2.ready[0].credit - 1)];
  }

  /** The scheduler after a sequence of ticks, each with its interrupted stack pointer. */
  ghost function Ticks(s: Sched, rsps: seq<int>): (r: Sched)
    requires Calm(s)
    ensures Calm(r) && r.ready != []
    decreases |rsps|
  {
    if rsps == [] then s else (TickTurnsRing(s, rsps[0]); Ticks(Tick(s, rsps[0]).0, rsps[1..]))
  }

  lemma {:induction false} TicksTurnRing(s: Sched, rsps: seq<int>)
    requires Calm(s)
    ensures Ring(Ticks(s, rsps).ready) == After(Ring(s.ready), |rsps|)
    decreases |rsps|
  {
    if rsps != [] {
      TickTurnsRing(s, rsps[0]);
      TicksTurnRing(Tick(s, rsps[0]).0, rsps[1..]);
    }
  }

  // ------------------------------------------------------------- length of a turn

  /** As long as there is credit, the same process keeps running. */
  lemma {:induction false} TurnLasts(l: seq<Proc>, ticks: nat)
    requires l != [] && ticks <= l[0].credit
    ensures After(l, ticks) == l[0 := l[0].(credit := l[0].credit - ticks)]
    decreases ticks
  {
    if ticks > 0 {
      TurnLasts(Next(l), ticks - 1);
    }
  }

  /** The tick after the credit is used up ends the turn. */
  lemma TurnEnds(l: seq<Proc>)
    requires l != [] && l[0].credit >= 0
    ensures After(l, l[0].credit + 1) == Next(l[0 := l[0].(credit := 0)])
  {
    TurnLasts(l, l[0].credit);
    AfterSum(l, l[0].credit, 1);
    assert After(l[0 := l[0].(credit := 0)], 1) == Next(l[0 := l[0].(credit := 0)]);
  }

  // ------------------------------------------------------------ no starvation

  /** Ticks until the j-th process of the ring is dispatched; for j == |l|, until the running
      one is dispatched again. */
  function Wait(l: seq<Proc>, j: nat): int
    requires 0 < j <= |l|
  {
    if j == 1 then l[0].credit + 1 else Wait(l, j - 1) + l[j - 1].credit
  }

  /** Sum of the priorities. */
  function Weight(l: seq<Proc>): int {
    if l == [] then 0 else l[0].priority + Weight(l[1..])
  }

  function AllRefilled(l: seq<Proc>): (r: seq<Proc>)
    ensures |r| == |l|
  {
    seq(|l|, i requires 0 <= i < |l| => Refilled(l[i]))
  }

  /** The ring when the j-th process has just been dispatched: those before it have used up
      their turns and wait behind it, with full credit. */
  function Arrived(l: seq<Proc>, j: nat): (r: seq<Proc>)
    requires 0 < j <= |l|
    ensures |r| == |l|
  {
    var r := l[j..] + AllRefilled(l[..j]);
    r[0 := r[0].(credit := r[0].credit - 1)]
  }

  predicate Charged(l: seq<Proc>) {
    l != [] && l[0].credit >= 0 && forall i | 0 <= i < |l| :: l[i].priority >= 1 && (i > 0 ==> 1 <= l[i].credit <= l[i].priority)
  }

  lemma {:induction false} WaitPositive(l: seq<Proc>, j: nat)
    requires Charged(l) && 0 < j <= |l|
    ensures Wait(l, j) > 0
  {
    if j > 1 {
      WaitPositive(l, j - 1);
    }
  }

  /** After exactly `Wait(l, j)` ticks the j-th process is dispatched. */
  lemma {:induction false} Arrives(l: seq<Proc>, j: nat)
    requires Charged(l) && 0 < j <= |l|
    ensures Wait(l, j) > 0 && After(l, Wait(l, j)) == Arrived(l, j)
  {
    WaitPositive(l, j);
    if j == 1 {
      TurnEnds(l);
      assert AllRefilled(l[..1]) == [Refilled(l[0])];
    } else {
      Arrives(l, j - 1);
      ArrivedNext(l, j - 1);
      var a := Arrived(l, j - 1);
      TurnEnds(a);
      AfterSum(l, Wait(l, j - 1), l[j - 1].credit);
    }
  }

  /** From one arrival to the next. */
  lemma ArrivedNext(l: seq<Proc>, j: nat)
    requires Charged(l) && 0 < j < |l|
    ensures var a := Arrived(l, j);
            a[0].credit == l[j].credit - 1 && Next(a[0 := a[0].(credit := 0)]) == Arrived(l, j + 1)
  {
    var a := Arrived(l, j);
    var z := a[0 := a[0].(credit := 0)];
    assert AllRefilled(l[..j + 1]) == AllRefilled(l[..j]) + [Refilled(l[j])];
    assert z[1..] == l[j + 1..] + AllRefilled(l[..j]);
    assert z[1..] + [Refilled(z[0])] == l[j + 1..] + AllRefilled(l[..j + 1]);
  }

  /** The sum of the priorities bounds every wait; a head that has all its credit left, as when
      its priority was just lowered, takes one tick more. */
  function Bound(l: seq<Proc>): int
    requires l != []
  {
    Weight(l) + if l[0].credit < l[0].priority then 0 else 1
  }

  lemma {:induction false} WaitBound(l: seq<Proc>, j: nat)
    requires Charged(l) && 0 < j <= |l| && l[0].credit <= l[0].priority
    ensures Wait(l, j) <= Bound(l[..j]) <= Bound(l)
  {
    WeightSplit(l[..j], l[j..]);
    assert l == l[..j] + l[j..];
    WeightPositive(l[j..]);
    WeightSplit(l[..j - 1], [l[j - 1]]);
    assert l[..j] == l[..j - 1] + [l[j - 1]];
    if j > 1 {
      WaitBound(l, j - 1);
    }
  }

  lemma {:induction false} WeightSplit(a: seq<Proc>, b: seq<Proc>)
    ensures Weight(a + b) == Weight(a) + Weight(b)
  {
    if a == [] {
      assert a + b == b;
    } else {
      assert (a + b)[1..] == a[1..] + b;
      WeightSplit(a[1..], b);
    }
  }

  lemma {:induction false} WeightPositive(l: seq<Proc>)
    requires forall i | 0 <= i < |l| :: l[i].priority >= 1
    ensures Weight(l) >= |l|
  {
    if l != [] {
      WeightPositive(l[1..]);
    }
  }

  lemma {:induction false} WeightOfRing(l: seq<Proc>)
    ensures Weight(Ring(l)) == Weight(l)
  {
    if l != [] {
      WeightOfRing(l[1..]);
      assert Ring(l)[1..] == Ring(l[1..]);
    }
  }

  /** A process keeps the processor for as many more ticks as it has credit. */
  lemma TurnGoesOn(s: Sched, rsps: seq<int>)
    requires Calm(s) && s.ready != [] && |rsps| <= s.ready[0].credit
    ensures Ticks(s, rsps).ready[0].pid == s.ready[0].pid
  {
    TicksTurnRing(s, rsps);
    TurnLasts(Ring(s.ready), |rsps|);
    assert Ring(Ticks(s, rsps).ready)[0].pid == Ticks(s, rsps).ready[0].pid;
  }

  /** A process that was dispatched with full credit p keeps the processor for p - 1 more
      ticks, and the p-th tick passes it on. */
  lemma FullTurn(s: Sched, rsps: seq<int>)
    requires Calm(s) && s.ready != [] && s.ready[0].credit == s.ready[0].priority - 1
    ensures |rsps| < s.ready[0].priority ==> Ticks(s, rsps).ready[0].pid == s.ready[0].pid
    ensures |rsps| == s.ready[0].priority ==>
              Ticks(s, rsps).ready[0].pid == s.ready[if |s.ready| > 1 then 1 else 0].pid
  {
    hide Ticks;
    if |rsps| < s.ready[0].priority {
      TurnGoesOn(s, rsps);
    } else if |rsps| == s.ready[0].priority {
      TicksTurnRing(s, rsps);
      TurnEnds(Ring(s.ready));
      assert Ring(Ticks(s, rsps).ready)[0].pid == Ticks(s, rsps).ready[0].pid;
    }
  }

  /** While only the timer interrupts, the j-th process of the ring is dispatched after exactly
      `Wait` ticks, and the running one again for j = |ring|. */
  lemma DispatchedAfterWait(s: Sched, j: nat, rsps: seq<int>)
    requires Calm(s) && 0 < j <= |s.ready| && |rsps| == Wait(Ring(s.ready), j)
    ensures Ticks(s, rsps).ready[0].pid == s.ready[if j < |s.ready| then j else 0].pid
    ensures |rsps| <= Bound(s.ready)
  {
    var l := Ring(s.ready);
    TicksTurnRing(s, rsps);
    Arrives(l, j);
    WaitBound(l, j);
    WeightOfRing(s.ready);
    assert Ring(Ticks(s, rsps).ready)[0].pid == Ticks(s, rsps).ready[0].pid;
  }

  // ------------------------------------------------------------ ticks and yields

  /** What runs the scheduler and leaves the ready set and the priorities alone. */
  datatype Event = Timer(rsp: int) | GivesUp(rsp: int)

  function Handled(s: Sched, e: Event): Sched
    requires Calm(s)
  {
    match e
    case Timer(rsp) => Tick(s, rsp).0
    case GivesUp(rsp) => Yield(s, rsp).0
  }

  function Spent(l: seq<Proc>): (r: seq<Proc>)
    requires l != []
    ensures |r| == |l|
  {
    l[0 := l[0].(credit := 0)]
  }

  function Moved(l: seq<Proc>, e: Event): (r: seq<Proc>)
    requires l != []
    ensures |r| == |l|
  {
    Next(if e.GivesUp? then Spent(l) else l)
  }

  lemma EventTurnsRing(s: Sched, e: Event)
    requires Calm(s)
    ensures Calm(Handled(s, e)) && Ring(Handled(s, e).ready) == Moved(Ring(s.ready), e)
  {
    match e
    case Timer(rsp) => TickTurnsRing(s, rsp);
    case GivesUp(rsp) =>
      var s0 := s.(ready := Spent(s.ready));
      assert Ring(s0.ready) == Spent(Ring(s.ready));
      TickTurnsRing(s0, rsp);
  }

  /** The scheduler after a sequence of events. */
  ghost function Run(s: Sched, events: seq<Event>): (r: Sched)
    requires Calm(s)
    ensures Calm(r) && r.ready != []
    decreases |events|
  {
    if events == [] then s else (EventTurnsRing(s, events[0]); Run(Handled(s, events[0]), events[1..]))
  }

  /** The ring goes on if the head neither has used up its credit nor gives it up. */
  predicate Turns(l: seq<Proc>, e: Event)
    requires l != []
  {
    e.GivesUp? || l[0].credit == 0
  }

  /** The j-th process of the ring, counted from the head on. */
  function At(l: seq<Proc>, j: nat): Proc
    requires 0 < j <= |l|
  {
    if j < |l| then l[j] else l[0]
  }

  lemma MovedKeepsCharged(l: seq<Proc>, e: Event)
    requires Charged(l)
    ensures Charged(Moved(l, e))
  {
    var r := Moved(l, e);
    if Turns(l, e) {
      assert forall i | 0 < i < |l| - 1 :: r[i] == l[i + 1];
    }
  }

  /** An event that turns the ring dispatches the next process, and the others move up. */
  lemma TurnBringsCloser(l: seq<Proc>, e: Event, j: nat)
    requires Charged(l) && 0 < j <= |l| && Turns(l, e)
    ensures j == 1 ==> Moved(l, e)[0].pid == At(l, 1).pid
    ensures j > 1 ==> At(Moved(l, e), j - 1).pid == At(l, j).pid && Wait(Moved(l, e), j - 1) < Wait(l, j)
  {
    hide Wait;
    var r := Moved(l, e);
    assert forall i | 0 < i < |l| - 1 :: r[i] == l[i + 1];
    if j > 1 {
      WaitOfTurned(l, r, j);
    }
  }

  /** Otherwise the head has spent one more tick. */
  lemma TickBringsCloser(l: seq<Proc>, e: Event, j: nat)
    requires Charged(l) && 0 < j <= |l| && !Turns(l, e)
    ensures At(Moved(l, e), j).pid == At(l, j).pid && Wait(Moved(l, e), j) < Wait(l, j)
  {
    hide Wait;
    WaitOfCharged(l, Moved(l, e), j);
  }

  /** The wait depends on the credits of those in front; a turn takes the head's off. */
  lemma {:induction false} WaitOfTurned(l: seq<Proc>, r: seq<Proc>, j: nat)
    requires Charged(l) && 1 < j <= |l| && |r| == |l| && r[0].credit == l[1].credit - 1
    requires forall i | 0 < i < |l| - 1 :: r[i] == l[i + 1]
    ensures Wait(r, j - 1) == Wait(l, j) - l[0].credit - 1
  {
    if j > 2 {
      WaitOfTurned(l, r, j - 1);
    }
  }

  lemma {:induction false} WaitOfCharged(l: seq<Proc>, r: seq<Proc>, j: nat)
    requires Charged(l) && 0 < j <= |l| && |r| == |l| && r[0].credit == l[0].credit - 1
    requires forall i | 0 < i < |l| :: r[i] == l[i]
    ensures Wait(r, j) == Wait(l, j) - 1
  {
    if j > 1 {
      WaitOfCharged(l, r, j - 1);
    }
  }

  /** Whoever is j-th in the ring runs after at most `Wait` events, whatever they are. */
  lemma {:induction false} RunsWithinWait(s: Sched, j: nat, events: seq<Event>) returns (k: nat)
    requires Calm(s) && 0 < j <= |s.ready| && Wait(Ring(s.ready), j) <= |events|
    ensures 0 < k <= |events| && k <= Wait(Ring(s.ready), j)
    ensures Run(s, events[..k]).ready[0].pid == At(s.ready, j).pid
    decreases |events|
  {
    hide Wait, Calm, Handled, Run, Charged, Moved, Turns;
    var l := Ring(s.ready);
    ChargedRing(s);
    WaitPositive(l, j);
    var e := events[0];
    var s1 := Handled(s, e);
    EventTurnsRing(s, e);
    MovedKeepsCharged(l, e);
    if Turns(l, e) && j == 1 {
      TurnBringsCloser(l, e, 1);
      SamePid(s1.ready, 0);
      SamePid(s.ready, if |s.ready| > 1 then 1 else 0);
      k := 1;
      NoEvents(s1, events[1..]);
    } else {
      var j1 := if Turns(l, e) then j - 1 else j;
      if Turns(l, e) {
        TurnBringsCloser(l, e, j);
      } else {
        TickBringsCloser(l, e, j);
      }
      k := RunsWithinWait(s1, j1, events[1..]);
      k := k + 1;
      SamePid(s1.ready, if j1 < |l| then j1 else 0);
      SamePid(s.ready, if j < |l| then j else 0);
    }
    RunStep(s, events, k);
  }

  lemma NoEvents(s: Sched, events: seq<Event>)
    requires Calm(s)
    ensures Run(s, events[..0]) == s
  {
  }

  lemma SamePid(l: seq<Proc>, i: nat)
    requires i < |l|
    ensures Ring(l)[i].pid == l[i].pid
  {
  }

  lemma RunStep(s: Sched, events: seq<Event>, k: nat)
    requires Calm(s) && 0 < k <= |events|
    ensures Calm(Handled(s, events[0])) && Run(s, events[..k]) == Run(Handled(s, events[0]), events[1..][..k - 1])
  {
    EventTurnsRing(s, events[0]);
    assert events[..k][1..] == events[1..][..k - 1];
  }

  lemma ChargedRing(s: Sched)
    requires Calm(s)
    ensures s.ready != [] && Charged(Ring(s.ready)) && s.ready[0].credit <= s.ready[0].priority
  {
  }

  /** A process other than the head runs within the sum of the priorities in any case. */
  lemma WaitBehindHead(l: seq<Proc>, j: nat)
    requires Charged(l) && 0 < j < |l| && l[0].credit <= l[0].priority
    ensures Wait(l, j) <= Weight(l)
  {
    WaitBound(l, j);
    var rest := l[j..];
    WeightPositive(rest);
    WeightSplit(l[..j], rest);
    assert l == l[..j] + rest;
  }

  /** Within how many events a ready process runs: the sum of the ready priorities, and one more
      for the head until it runs again if it still has all its credit. */
  function Horizon(l: seq<Proc>, p: Proc): int
    requires l != []
  {
    if p == l[0] then Bound(l) else Weight(l)
  }

  /** No starvation: while the ready set and the priorities do not change, every ready process
      is dispatched within as many ticks and yields, in any order, as the sum of the ready
      priorities; the running one is dispatched again. */
  lemma NoStarvation(s: Sched, p: Proc, events: seq<Event>) returns (k: nat)
    requires Calm(s) && p in s.ready && Horizon(s.ready, p) <= |events|
    ensures 0 < k <= Horizon(s.ready, p) && Run(s, events[..k]).ready[0].pid == p.pid
  {
    var i :| 0 <= i < |s.ready| && s.ready[i] == p;
    var j := if p == s.ready[0] then |s.ready| else i;
    hide Wait, Weight, Run, Charged, Calm;
    ChargedRing(s);
    WeightOfRing(s.ready);
    if p == s.ready[0] {
      WaitBound(Ring(s.ready), j);
    } else {
      WaitBehindHead(Ring(s.ready), j);
    }
    k := RunsWithinWait(s, j, events);
  }

  /** Whenever a process runs, in any run from boot, the scheduler is calm ... */
  lemma RunningIsCalm(m: Machine)
    requires MachineInv(m) && m.running > 0
    ensures Calm(m.s)
  {
  }

  /** ... so that no process that is ready then starves. */
  lemma NobodyStarves(ops: seq<Op>, m: Machine, p: Proc, events: seq<Event>) returns (k: nat)
    requires RunsFromBoot(ops, m) && m.running > 0
    requires p in m.s.ready && Horizon(m.s.ready, p) <= |events|
    ensures Calm(m.s) && 0 < k <= Horizon(m.s.ready, p) && Run(m.s, events[..k]).ready[0].pid == p.pid
  {
    BootIsSound();
    RunKeeps(Boot(), ops, m);
    RunningIsCalm(m);
    k := NoStarvation(m.s, p, events);
  }
}
