// What each scheduler operation changes, and that it changes nothing else: which process goes
// where, and in which order the others stay.
module SchedulerEffects {
  import opened SchedulerSpec
  import opened SchedulerRuns

  /** A list without a process, the others in their order. */
  function Except(l: seq<Proc>, pid: int): seq<Proc> {
    if l == [] then [] else (if l[0].pid == pid then [] else [l[0]]) + Except(l[1..], pid)
  }

  lemma {:induction false} ExceptNone(l: seq<Proc>, pid: int)
    requires !Has(l, pid)
    ensures Except(l, pid) == l
  {
    if l != [] {
      ExceptNone(l[1..], pid);
    }
  }

  /** In a list that has a process once, it is taken out where it is found. */
  lemma DropIsExcept(l: seq<Proc>, pid: int)
    requires Has(l, pid) && Count(l)[pid] == 1
    ensures Drop(l, Find(l, pid)) == Except(l, pid) && !Has(Except(l, pid), pid)
  {
    hide Count, Except;
    var i := Find(l, pid);
    CountDrop(l, i);
    CountHas(Drop(l, i), pid);
    ExceptNone(Drop(l, i), pid);
    ExceptDrop(l, i);
  }

  lemma {:induction false} ExceptDrop(l: seq<Proc>, i: nat)
    requires i < |l|
    ensures Except(Drop(l, i), l[i].pid) == Except(l, l[i].pid)
  {
    if i == 0 {
      assert Drop(l, 0) == l[1..];
    } else {
      assert Drop(l, i)[1..] == Drop(l[1..], i - 1);
      ExceptDrop(l[1..], i - 1);
    }
  }

  /** Nobody is listed twice, or in both lists. */
  lemma ListedOnce(s: Sched, live: set<int>, pid: int)
    requires Partition(s, live)
    ensures Has(s.ready, pid) ==> Count(s.ready)[pid] == 1 && !Has(s.blocked, pid)
    ensures Has(s.blocked, pid) ==> Count(s.blocked)[pid] == 1 && !Has(s.ready, pid)
  {
    CountHas(s.ready, pid);
    CountHas(s.blocked, pid);
    assert (Count(s.ready) + Count(s.blocked))[pid] == multiset(live)[pid] <= 1;
  }

  /** The current process has paid for its next tick. */
  function Paid(l: seq<Proc>): seq<Proc> {
    if l == [] then [] else [l[0].(credit := l[0].credit - 1)] + l[1..]
  }

  // ------------------------------------------------------------------ blocking

  /** Blocking another ready process moves it to the front of the blocked list, with all its
      credit and where it was interrupted; the caller runs on. */
  lemma BlockMovesOther(m: Machine, pid: int, rsp: int)
    requires MachineInv(m) && m.running > 0 && rsp != 0 && pid != m.running && Has(m.s.ready, pid)
    ensures var r := Apply(m, BlockOp(pid, rsp)).0; var p := m.s.ready[Find(m.s.ready, pid)];
            && r.running == m.running && !Has(r.s.ready, pid)
            && r.s == m.s.(ready := Except(m.s.ready, pid),
                           blocked := [p.(state := Blocked, credit := p.priority)] + m.s.blocked)
  {
    hide Count;
    ListedOnce(m.s, m.live, pid);
    DropIsExcept(m.s.ready, pid);
    HeadOf(m);
  }

  /** A process that blocks itself does so where it was interrupted, and the next one in the ring
      runs, or nobody. */
  lemma BlockMovesCaller(m: Machine, rsp: int)
    requires MachineInv(m) && m.running > 0 && rsp != 0
    ensures var r := Apply(m, BlockOp(m.running, rsp)).0; var p := m.s.ready[0];
            r.s == m.s.(ready := Paid(m.s.ready[1..]), halt := |m.s.ready| == 1,
                        blocked := [p.(state := Blocked, credit := p.priority, rsp := rsp)] + m.s.blocked)
  {
    HeadOf(m);
    assert Find(m.s.ready, m.running) == 0;
    NextPays(m.s);
  }

  lemma NextPays(s: Sched)
    requires Credits(s) && s.ready != []
    ensures forall i | 0 < i < |s.ready| :: 1 <= s.ready[i].credit < WORD
  {
  }

  /** Blocking a process that is not in the ring does nothing. */
  lemma BlockElsewhere(m: Machine, pid: int, rsp: int)
    requires MachineInv(m) && m.running > 0 && rsp != 0 && !Has(m.s.ready, pid)
    ensures var r := Apply(m, BlockOp(pid, rsp)).0; r.s == m.s && r.running == m.running
  {
    HeadOf(m);
  }

  /** An unblocked process goes right behind the current one, or into an empty ring. */
  lemma UnblockMoves(s: Sched, live: set<int>, pid: int)
    requires Partition(s, live)
    ensures !Has(s.blocked, pid) ==> Unblock(s, pid) == s
    ensures Has(s.blocked, pid) ==>
              var p := s.blocked[Find(s.blocked, pid)].(state := Ready);
              Unblock(s, pid) == s.(ready := if s.ready == [] then [p] else [s.ready[0], p] + s.ready[1..],
                                    blocked := Except(s.blocked, pid))
  {
    if Has(s.blocked, pid) {
      ListedOnce(s, live, pid);
      DropIsExcept(s.blocked, pid);
      assert s.ready != [] ==> s.ready[..1] == [s.ready[0]];
    }
  }

  // ------------------------------------------------------------------ marks

  /** `k` is `l` with the entries of one process replaced. */
  ghost predicate Changed(l: seq<Proc>, k: seq<Proc>, pid: int, f: Proc -> Proc) {
    |k| == |l| && forall i | 0 <= i < |l| :: k[i] == if l[i].pid == pid then f(l[i]) else l[i]
  }

  lemma TwiceCounted(l: seq<Proc>, k: nat, i: nat)
    requires k < i < |l| && l[k].pid == l[i].pid
    ensures Count(l)[l[k].pid] >= 2
  {
    CountDrop(l, k);
    CountHas(Drop(l, k), l[k].pid);
    assert Drop(l, k)[i - 1] == l[i];
  }

  lemma FoundOnce(l: seq<Proc>, pid: int, i: nat)
    requires Count(l)[pid] <= 1 && i < |l| && l[i].pid == pid
    ensures i == Find(l, pid)
  {
    if Find(l, pid) != i {
      TwiceCounted(l, Find(l, pid), i);
    }
  }

  lemma AtMostOnce(s: Sched, live: set<int>, pid: int)
    requires Partition(s, live)
    ensures Count(s.ready)[pid] <= 1 && Count(s.blocked)[pid] <= 1
  {
    assert (Count(s.ready) + Count(s.blocked))[pid] == multiset(live)[pid] <= 1;
  }

  /** The priority of that process changes, which also bounds its credit, and nothing else. */
  lemma PriorityChanges(s: Sched, live: set<int>, pid: int, priority: int)
    requires Partition(s, live)
    ensures var r := ChangePriority(s, pid, priority);
            var f := (p: Proc) => p.(priority := priority, credit := if p.credit <= priority then p.credit else priority);
            && r == s.(ready := r.ready, blocked := r.blocked)
            && Changed(s.ready, r.ready, pid, f) && Changed(s.blocked, r.blocked, pid, f)
  {
    AtMostOnce(s, live, pid);
    ListedOnce(s, live, pid);
    forall i | 0 <= i < |s.ready| && s.ready[i].pid == pid ensures i == Find(s.ready, pid) {
      FoundOnce(s.ready, pid, i);
    }
    forall i | 0 <= i < |s.blocked| && s.blocked[i].pid == pid ensures i == Find(s.blocked, pid) {
      FoundOnce(s.blocked, pid, i);
    }
  }

  /** The process comes to the foreground or goes to the background, and nothing else changes. */
  lemma ForegroundChanges(s: Sched, live: set<int>, pid: int, foreground: bool)
    requires Partition(s, live)
    ensures var r := SetForeground(s, pid, foreground);
            var f := (p: Proc) => p.(foreground := foreground);
            && r == s.(ready := r.ready, blocked := r.blocked)
            && Changed(s.ready, r.ready, pid, f) && Changed(s.blocked, r.blocked, pid, f)
  {
    AtMostOnce(s, live, pid);
    ListedOnce(s, live, pid);
    forall i | 0 <= i < |s.ready| && s.ready[i].pid == pid ensures i == Find(s.ready, pid) {
      FoundOnce(s.ready, pid, i);
    }
    forall i | 0 <= i < |s.blocked| && s.blocked[i].pid == pid ensures i == Find(s.blocked, pid) {
      FoundOnce(s.blocked, pid, i);
    }
  }

  // ------------------------------------------------------------------ ends of processes

  /** When a foreground process ends, the shell gets the foreground, and leaves the blocked list
      for the place behind the current process; nobody else moves. */
  lemma HandBackMoves(s: Sched, live: set<int>)
    requires Partition(s, live) && s.ready != []
    ensures var r := HandBack(s, true);
            && r == s.(ready := r.ready, blocked := r.blocked)
            && r.blocked == Except(s.blocked, SHELL)
            && if Has(s.blocked, SHELL) then
                 var p := s.blocked[Find(s.blocked, SHELL)];
                 r.ready == [s.ready[0], p.(state := Ready, foreground := true)] + s.ready[1..]
               else Changed(s.ready, r.ready, SHELL, (p: Proc) => p.(foreground := true))
    ensures HandBack(s, false) == s
  {
    hide Count;
    var s1 := SetForeground(s, SHELL, true);
    ForegroundChanges(s, live, SHELL, true);
    ListedOnce(s, live, SHELL);
    SetForegroundCounts(s, live);
    UnblockMoves(s1, live, SHELL);
    if Has(s.blocked, SHELL) {
      ExceptMarked(s.blocked, s1.blocked, SHELL);
      SameFound(s.blocked, s1.blocked, SHELL);
      NoneMarked(s.ready, s1.ready);
    } else {
      ExceptNone(s.blocked, SHELL);
      NoneMarked(s.blocked, s1.blocked);
    }
  }

  lemma SetForegroundCounts(s: Sched, live: set<int>)
    requires Partition(s, live)
    ensures Partition(SetForeground(s, SHELL, true), live)
  {
    CountSame(s.ready, SetForeground(s, SHELL, true).ready);
    CountSame(s.blocked, SetForeground(s, SHELL, true).blocked);
  }

  lemma NoneMarked(l: seq<Proc>, k: seq<Proc>)
    requires !Has(l, SHELL) && Changed(l, k, SHELL, (p: Proc) => p.(foreground := true))
    ensures k == l
  {
    assert forall i | 0 <= i < |l| :: l[i].pid != SHELL;
  }

  lemma {:induction false} ExceptMarked(l: seq<Proc>, k: seq<Proc>, pid: int)
    requires |k| == |l| && forall i | 0 <= i < |l| :: k[i].pid == l[i].pid && (l[i].pid != pid ==> k[i] == l[i])
    ensures Except(k, pid) == Except(l, pid)
  {
    if l != [] {
      assert k[0].pid == l[0].pid;
      ExceptMarked(l[1..], k[1..], pid);
    }
  }

  lemma {:induction false} SameFound(l: seq<Proc>, k: seq<Proc>, pid: int)
    requires |k| == |l| && forall i | 0 <= i < |l| :: k[i].pid == l[i].pid
    ensures Find(k, pid) == Find(l, pid)
  {
    if l != [] && l[0].pid != pid {
      assert k[0].pid == l[0].pid;
      SameFound(l[1..], k[1..], pid);
    }
  }

  /** Ending another process takes it out of its list, behind what a foreground process does for
      the shell; the caller runs on. */
  lemma TerminateTakesOther(m: Machine, pid: int, rsp: int)
    requires MachineInv(m) && m.running > 0 && rsp != 0 && pid != m.running && pid != SHELL
    requires Has(m.s.ready, pid) || Has(m.s.blocked, pid)
    ensures var r := Apply(m, TerminateOp(pid, rsp)).0; var h := HandBack(m.s, EndsForeground(m.s, pid));
            && r.running == m.running && r.live == m.live - {pid}
            && r.s == h.(ready := Except(h.ready, pid), blocked := Except(h.blocked, pid))
  {
    hide Count, HandBack;
    HeadOf(m);
    var foreground := EndsForeground(m.s, pid);
    var h := HandBack(m.s, foreground);
    HandBackKeeps(m.s, m.live, foreground);
    HandBackCounts(m.s, foreground, pid);
    HeldFlags(m.s, foreground);
    ListedOnce(m.s, m.live, pid);
    ListedOnce(h, m.live, pid);
    if Has(m.s.ready, pid) {
      DropIsExcept(h.ready, pid);
      ExceptNone(h.blocked, pid);
      HeadNotFound(h.ready, m.s.ready, pid);
    } else {
      DropIsExcept(h.blocked, pid);
      ExceptNone(h.ready, pid);
    }
  }

  lemma HeldFlags(s: Sched, foreground: bool)
    ensures var h := HandBack(s, foreground); h.halt == s.halt && h.firstTime == s.firstTime && h.haltRsp == s.haltRsp
  {
  }

  lemma HeadNotFound(l: seq<Proc>, k: seq<Proc>, pid: int)
    requires l != [] && k != [] && l[0].pid == k[0].pid != pid
    ensures Find(l, pid) > 0 && Find(k, pid) > 0 && Except(l, pid) != [] && Except(l, pid)[0] == l[0]
  {
  }

  /** A process that ends itself is gone, and the next one in the ring runs, or nobody. */
  lemma TerminateTakesCaller(m: Machine, rsp: int)
    requires MachineInv(m) && m.running > 0 && rsp != 0 && m.running != SHELL
    ensures var r := Apply(m, TerminateOp(m.running, rsp)).0; var h := HandBack(m.s, m.s.ready[0].foreground);
            && r.live == m.live - {m.running}
            && h.ready != [] && h.ready[0] == m.s.ready[0]
            && r.s == h.(ready := Paid(h.ready[1..]), halt := |h.ready| == 1)
  {
    hide Count, HandBack, Tick, PreTick;
    HeadOf(m);
    assert Find(m.s.ready, m.running) == 0;
    var p := m.s.ready[0];
    var q := p.(state := Terminated);
    var h := HandBack(m.s, p.foreground);
    HeadAside(m.s, q, p.foreground);
    HandBackKeeps(m.s, m.live, p.foreground);
    HeldFlags(m.s, p.foreground);
    PreTickCredits(h, m.live);
    TickDropsHead(h.(ready := h.ready[0 := q]), rsp);
    assert h.ready[0 := q][1..] == h.ready[1..];
  }

  lemma PreTickCredits(s: Sched, live: set<int>)
    requires PreTick(s, live) && s.ready != []
    ensures forall i | 0 < i < |s.ready| :: s.ready[i].state == Ready && 1 <= s.ready[i].credit < WORD
  {
  }

  lemma TickDropsHead(s: Sched, rsp: int)
    requires s.ready != [] && s.ready[0].state == Terminated && !s.halt && !s.firstTime && s.haltRsp != 0
    requires forall i | 0 < i < |s.ready| :: 1 <= s.ready[i].credit < WORD
    ensures Tick(s, rsp).0 == s.(ready := Paid(s.ready[1..]), halt := |s.ready| == 1)
  {
  }

  /** Handing back does not look at the current process. */
  lemma HeadAside(s: Sched, q: Proc, foreground: bool)
    requires s.ready != [] && q.pid == s.ready[0].pid != SHELL
    ensures var h := HandBack(s, foreground); var g := HandBack(s.(ready := s.ready[0 := q]), foreground);
            && h.ready != [] && h.ready[0] == s.ready[0] && g == h.(ready := h.ready[0 := q])
  {
    var s0 := s.(ready := s.ready[0 := q]);
    SameFound(s.ready, s0.ready, SHELL);
    if foreground {
      UnblockAside(SetForeground(s, SHELL, true), q);
    }
  }

  lemma UnblockAside(s: Sched, q: Proc)
    requires s.ready != []
    ensures var h := Unblock(s, SHELL);
            Unblock(s.(ready := s.ready[0 := q]), SHELL) == h.(ready := h.ready[0 := q]) && h.ready[0] == s.ready[0]
  {
    var t := s.ready[0 := q];
    assert t[..1] == [q] && t[1..] == s.ready[1..];
    assert s.ready[..1] == [s.ready[0]];
  }

  /** The shell cannot be ended, nor who does not live. */
  lemma TerminateRefused(m: Machine, pid: int, rsp: int)
    requires MachineInv(m) && m.running > 0 && rsp != 0
    requires pid == SHELL || (!Has(m.s.ready, pid) && !Has(m.s.blocked, pid))
    ensures var r := Apply(m, TerminateOp(pid, rsp)).0; r.s == m.s && r.running == m.running
  {
    HeadOf(m);
  }

  // ------------------------------------------------------------------ creation and ticks

  /** A new process goes behind all others with all its credit; process 0 is the idle one. */
  lemma CreateAppends(m: Machine, rsp: int)
    requires MachineInv(m) && LegalOp(m, CreateOp(rsp))
    ensures var r := Apply(m, CreateOp(rsp)).0;
            && r.nextPid == m.nextPid + 1 && r.running == m.running
            && if m.nextPid == 0 then r.s == m.s.(haltRsp := rsp)
               else r.s == m.s.(ready := m.s.ready + [Proc(m.nextPid, Ready, rsp, MEDIUM, MEDIUM, false)])
  {
  }

  /** The timer interrupt while a process runs: it runs on with a credit less, or the ring turns
      past it and it waits with all its credit. */
  lemma TickMoves(m: Machine, rsp: int)
    requires MachineInv(m) && m.running > 0 && rsp != 0
    ensures var p := m.s.ready[0].(rsp := rsp); var rest := m.s.ready[1..];
            Apply(m, TickOp(rsp)).0.s ==
              m.s.(ready := Paid(if p.credit > 0 then [p] + rest else rest + [p.(credit := p.priority)]))
  {
    HeadOf(m);
    NextPays(m.s);
  }

  /** The timer interrupt while nobody runs: the first process that has become ready does, and
      the idle context is kept. */
  lemma TickLeavesIdle(m: Machine, rsp: int)
    requires MachineInv(m) && m.running == IDLE && rsp != 0
    ensures Apply(m, TickOp(rsp)).0.s == m.s.(haltRsp := rsp, halt := m.s.ready == [],
              ready := if m.s.ready != [] && m.s.ready[0].credit == 0
                       then Paid(m.s.ready[1..] + [m.s.ready[0].(credit := m.s.ready[0].priority)])
                       else Paid(m.s.ready))
  {
    hide Tick, MachineInv;
    IdleParts(m);
    IdleTick(m.s, rsp);
  }

  lemma IdleTick(s: Sched, rsp: int)
    requires s.halt && !s.firstTime && s.haltRsp != 0
    requires forall i | 0 <= i < |s.ready| :: 1 <= s.ready[i].priority < WORD && 0 <= s.ready[i].credit <= s.ready[i].priority
    requires forall i | 0 <= i < |s.ready| :: s.ready[i].state == Ready && (i > 0 ==> s.ready[i].credit > 0)
    ensures Tick(s, rsp).0 == s.(haltRsp := rsp, halt := s.ready == [],
              ready := if s.ready != [] && s.ready[0].credit == 0
                       then Paid(s.ready[1..] + [s.ready[0].(credit := s.ready[0].priority)])
                       else Paid(s.ready))
  {
  }

  lemma IdleParts(m: Machine)
    requires MachineInv(m) && m.running == IDLE
    ensures m.s.halt && !m.s.firstTime && m.s.haltRsp != 0
    ensures forall i | 0 <= i < |m.s.ready| ::
              1 <= m.s.ready[i].priority < WORD && 0 <= m.s.ready[i].credit <= m.s.ready[i].priority
    ensures forall i | 0 <= i < |m.s.ready| :: m.s.ready[i].state == Ready && (i > 0 ==> m.s.ready[i].credit > 0)
  {
  }
}
