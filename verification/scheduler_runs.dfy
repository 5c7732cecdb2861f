// What every run of the scheduler keeps: each live process is in exactly one list, contexts
// are never mixed up, and credits never underflow.
module SchedulerRuns {
  import opened SchedulerSpec

  // ------------------------------------------------------------ who is in a list

  function Pids(l: seq<Proc>): seq<int> {
    seq(|l|, i requires 0 <= i < |l| => l[i].pid)
  }

  /** How often each pid occurs in a list. */
  function Count(l: seq<Proc>): multiset<int> {
    multiset(Pids(l))
  }

  lemma CountConcat(a: seq<Proc>, b: seq<Proc>)
    ensures Count(a + b) == Count(a) + Count(b)
  {
    assert Pids(a + b) == Pids(a) + Pids(b);
  }

  lemma CountOne(p: Proc)
    ensures Count([p]) == multiset{p.pid}
  {
    assert Pids([p]) == [p.pid];
  }

  lemma CountDrop(l: seq<Proc>, i: nat)
    requires i < |l|
    ensures Count(l) == Count(Drop(l, i)) + multiset{l[i].pid}
  {
    CountConcat(l[..i], l[i + 1..]);
    CountConcat(l[..i], [l[i]] + l[i + 1..]);
    CountConcat([l[i]], l[i + 1..]);
    CountOne(l[i]);
    assert l == l[..i] + ([l[i]] + l[i + 1..]);
  }

  lemma CountSame(l: seq<Proc>, k: seq<Proc>)
    requires |l| == |k| && forall i | 0 <= i < |l| :: l[i].pid == k[i].pid
    ensures Count(l) == Count(k)
  {
    assert Pids(l) == Pids(k);
  }

  lemma CountHas(l: seq<Proc>, pid: int)
    ensures Has(l, pid) <==> pid in Count(l)
  {
    if Has(l, pid) {
      assert Pids(l)[Find(l, pid)] == pid;
    } else {
      assert forall i | 0 <= i < |l| :: Pids(l)[i] != pid;
    }
  }

  // ---------------------------------------------------------------- the invariant

  predicate CreditOk(p: Proc, least: int) {
    1 <= p.priority < WORD && least <= p.credit <= p.priority
  }

  /** Each live process is exactly once in exactly one of the two lists. */
  ghost predicate Partition(s: Sched, live: set<int>) {
    Count(s.ready) + Count(s.blocked) == multiset(live) && forall pid | pid in live :: pid > 0
  }

  /** Only the current process may have used up its credit. */
  ghost predicate Credits(s: Sched) {
    && (forall i | 0 <= i < |s.ready| :: CreditOk(s.ready[i], if i == 0 then 0 else 1))
    && (forall i | 0 <= i < |s.blocked| :: CreditOk(s.blocked[i], 1))
  }

  /** Unless the idle or the boot context runs, there is a current process. */
  predicate HasCurrent(s: Sched) {
    !s.halt && !s.firstTime ==> s.ready != []
  }

  ghost predicate States(s: Sched) {
    && (forall i | 0 < i < |s.ready| :: s.ready[i].state == Ready)
    && (forall i | 0 <= i < |s.blocked| :: s.blocked[i].state == Blocked)
  }

  /** What holds inside a kernel operation, when the current process may have been marked
      blocked or terminated. */
  ghost predicate PreTick(s: Sched, live: set<int>) {
    Partition(s, live) && Credits(s) && HasCurrent(s) && States(s)
  }

  /** Between kernel operations, the current process is ready, too. */
  ghost predicate Inv(s: Sched, live: set<int>) {
    PreTick(s, live) && (s.ready != [] ==> s.ready[0].state == Ready)
  }

  /** Who is left after the head stops. */
  function Survivors(s: Sched, live: set<int>): set<int> {
    if s.ready != [] && s.ready[0].state == Terminated then live - {s.ready[0].pid} else live
  }

  /** A tick keeps every live process in exactly one list, except a head that terminated. */
  lemma TickKeeps(s: Sched, rsp: int, live: set<int>)
    requires PreTick(s, live) && s.haltRsp != 0 && rsp != 0
    ensures Inv(Tick(s, rsp).0, Survivors(s, live))
  {
    var s1 := Saved(s, rsp);
    CountSame(s.ready, s1.ready);
    if s1.ready != [] {
      TurnedCounts(s1, live);
      TurnedCredits(s1);
      DispatchedKeeps(Turned(s1), Survivors(s, live));
    }
  }

  /** A turn leaves at the head a ready process with a tick to spend. */
  lemma TurnedCredits(s: Sched)
    requires Credits(s) && States(s) && s.ready != []
    ensures var r := Turned(s);
            && Credits(r) && States(r)
            && (r.ready != [] ==> r.ready[0].state == Ready && r.ready[0].credit >= 1)
  {
    var r := Turned(s);
    if r.blocked != s.blocked {
      assert forall i | 0 < i < |r.blocked| :: r.blocked[i] == s.blocked[i - 1];
    }
    if s.ready[0].state == Ready && s.ready[0].credit > 0 {
      assert r == s;
    } else {
      assert forall i | 0 <= i < |s.ready| - 1 :: r.ready[i] == s.ready[i + 1];
    }
  }

  lemma TurnedCounts(s: Sched, live: set<int>)
    requires s.ready != [] && Count(s.ready) + Count(s.blocked) == multiset(live)
    ensures Count(Turned(s).ready) + Count(Turned(s).blocked) == multiset(Survivors(s, live))
  {
    var p := s.ready[0];
    CountDrop(s.ready, 0);
    assert Drop(s.ready, 0) == s.ready[1..];
    if p.state == Terminated {
      Gone(Count(s.ready[1..]) + Count(s.blocked), live, p.pid);
    } else if p.state == Blocked {
      CountConcat([Refilled(p).(state := Blocked)], s.blocked);
      CountOne(Refilled(p).(state := Blocked));
    } else {
      CountConcat(s.ready[1..], [Refilled(p)]);
      CountOne(Refilled(p));
    }
  }

  lemma Gone(m: multiset<int>, live: set<int>, pid: int)
    requires m + multiset{pid} == multiset(live)
    ensures m == multiset(live - {pid})
  {
    forall x ensures m[x] == multiset(live - {pid})[x] {
      assert (m + multiset{pid})[x] == multiset(live)[x];
    }
  }

  lemma DispatchedKeeps(s: Sched, live: set<int>)
    requires Partition(s, live) && Credits(s) && States(s)
    requires s.ready != [] ==> s.ready[0].state == Ready && s.ready[0].credit >= 1
    ensures Inv(Dispatched(s).0, live)
    ensures s.ready != [] ==> Dispatched(s).0.ready[0].credit == s.ready[0].credit - 1
  {
    if s.ready != [] {
      CountSame(s.ready, Dispatched(s).0.ready);
    }
  }

  // ----------------------------------------------------- the other operations

  lemma InsertCounts(l: seq<Proc>, k: nat, p: Proc)
    requires k <= |l|
    ensures Count(l[..k] + [p] + l[k..]) == Count(l) + multiset{p.pid}
  {
    var r := l[..k] + [p] + l[k..];
    CountDrop(r, k);
    assert Drop(r, k) == l;
  }

  lemma CreateKeeps(s: Sched, live: set<int>, p: Proc)
    requires Inv(s, live) && p.pid > 0 && p.pid !in live && p.state == Ready && 1 <= p.priority < WORD
    ensures Inv(Create(s, p), live + {p.pid})
  {
    var r := Create(s, p);
    InsertCounts(s.ready, |s.ready|, Refilled(p));
    assert s.ready[..|s.ready|] + [Refilled(p)] + s.ready[|s.ready|..] == r.ready;
    assert multiset(live + {p.pid}) == multiset(live) + multiset{p.pid};
  }

  lemma UnblockKeeps(s: Sched, live: set<int>, pid: int)
    requires PreTick(s, live) && (s.ready == [] ==> s.halt || s.firstTime)
    ensures PreTick(Unblock(s, pid), live)
    ensures s.ready == [] && Unblock(s, pid).ready != [] ==> Unblock(s, pid).ready[0].state == Ready
  {
    hide Count;
    UnblockCounts(s, pid);
    var i := Find(s.blocked, pid);
    if i < |s.blocked| {
      var r := Unblock(s, pid);
      var k := if s.ready == [] then 0 else 1;
      assert forall j | 0 <= j < |r.blocked| :: r.blocked[j] == s.blocked[if j < i then j else j + 1];
      assert forall j | k < j < |r.ready| :: r.ready[j] == s.ready[j - 1];
    }
  }

  lemma RemoveBlockedKeeps(s: Sched, live: set<int>, i: nat)
    requires PreTick(s, live) && 0 < i < |s.ready|
    ensures PreTick(RemoveBlocked(s, i), live) && RemoveBlocked(s, i).ready[0] == s.ready[0]
  {
    var r := RemoveBlocked(s, i);
    CountDrop(s.ready, i);
    CountConcat([r.blocked[0]], s.blocked);
    CountOne(r.blocked[0]);
    assert forall j | 0 <= j < |r.ready| :: r.ready[j] == s.ready[if j < i then j else j + 1];
    assert forall j | 0 < j < |r.blocked| :: r.blocked[j] == s.blocked[j - 1];
  }

  /** Changing the head's state, credit or saved context keeps what a tick needs. */
  lemma HeadKeeps(s: Sched, live: set<int>, p: Proc)
    requires PreTick(s, live) && s.ready != [] && p.pid == s.ready[0].pid && CreditOk(p, 0)
    ensures PreTick(s.(ready := s.ready[0 := p]), live)
  {
    CountSame(s.ready, s.ready[0 := p]);
  }

  lemma BlockKeeps(s: Sched, live: set<int>, pid: int, rsp: int)
    requires Inv(s, live) && s.ready != [] && s.haltRsp != 0 && rsp != 0
    ensures Inv(Block(s, pid, rsp).0, live)
  {
    var i := Find(s.ready, pid);
    if i == 0 {
      HeadKeeps(s, live, s.ready[0].(state := Blocked));
      TickKeeps(s.(ready := s.ready[0 := s.ready[0].(state := Blocked)]), rsp, live);
    } else if i < |s.ready| {
      RemoveBlockedKeeps(s, live, i);
    }
  }

  lemma YieldKeeps(s: Sched, live: set<int>, rsp: int)
    requires Inv(s, live) && s.ready != [] && s.haltRsp != 0 && rsp != 0
    ensures Inv(Yield(s, rsp).0, live)
  {
    HeadKeeps(s, live, s.ready[0].(credit := 0));
    TickKeeps(s.(ready := s.ready[0 := s.ready[0].(credit := 0)]), rsp, live);
  }

  lemma ReprioritizedKeeps(l: seq<Proc>, pid: int, priority: int)
    ensures var r := Reprioritized(l, pid, priority);
            Count(r) == Count(l) && forall i | 0 <= i < |l| ::
              r[i].pid == l[i].pid && r[i].rsp == l[i].rsp && r[i].state == l[i].state
  {
    CountSame(l, Reprioritized(l, pid, priority));
  }

  lemma PriorityKeeps(s: Sched, live: set<int>, pid: int, priority: int)
    requires Inv(s, live) && 1 <= priority < WORD
    ensures Inv(ChangePriority(s, pid, priority), live)
  {
    var r := ChangePriority(s, pid, priority);
    CountSame(s.ready, r.ready);
    CountSame(s.blocked, r.blocked);
  }

  lemma MarkedKeeps(l: seq<Proc>, pid: int, foreground: bool)
    ensures var r := Marked(l, pid, foreground);
            Count(r) == Count(l) && forall i | 0 <= i < |l| :: r[i] == l[i].(foreground := r[i].foreground)
  {
    CountSame(l, Marked(l, pid, foreground));
  }

  lemma SetForegroundKeeps(s: Sched, live: set<int>, pid: int, foreground: bool)
    requires PreTick(s, live)
    ensures PreTick(SetForeground(s, pid, foreground), live)
    ensures var r := SetForeground(s, pid, foreground);
            && |r.ready| == |s.ready| && r.haltRsp == s.haltRsp
            && (s.ready != [] ==> r.ready[0].state == s.ready[0].state && r.ready[0].pid == s.ready[0].pid)
  {
    hide Count, Marked;
    MarkedKeeps(s.ready, pid, foreground);
    MarkedKeeps(s.blocked, pid, foreground);
  }

  lemma HandBackKeeps(s: Sched, live: set<int>, foreground: bool)
    requires PreTick(s, live) && s.ready != []
    ensures PreTick(HandBack(s, foreground), live)
    ensures HandBack(s, foreground).ready[0].state == s.ready[0].state
    ensures HandBack(s, foreground).ready[0].pid == s.ready[0].pid
    ensures HandBack(s, foreground).haltRsp == s.haltRsp
  {
    if foreground {
      var s1 := SetForeground(s, SHELL, true);
      SetForegroundKeeps(s, live, SHELL, true);
      UnblockKeeps(s1, live, SHELL);
    }
  }

  /** Nobody but the shell changes lists when a foreground process dies. */
  lemma HandBackCounts(s: Sched, foreground: bool, pid: int)
    requires foreground ==> pid != SHELL
    ensures Has(s.ready, pid) ==> Has(HandBack(s, foreground).ready, pid)
    ensures Has(s.blocked, pid) ==> Has(HandBack(s, foreground).blocked, pid)
  {
    if foreground {
      var s1 := SetForeground(s, SHELL, true);
      CountSame(s.ready, s1.ready);
      CountSame(s.blocked, s1.blocked);
      CountHas(s.ready, pid);
      CountHas(s.blocked, pid);
      UnblockCounts(s1, SHELL);
      CountHas(HandBack(s, foreground).ready, pid);
      CountHas(HandBack(s, foreground).blocked, pid);
    }
  }

  lemma UnblockCounts(s: Sched, pid: int)
    ensures var r := Unblock(s, pid);
            var moved := if Has(s.blocked, pid) then multiset{pid} else multiset{};
            && Count(r.ready) == Count(s.ready) + moved
            && Count(s.blocked) == Count(r.blocked) + moved
  {
    var i := Find(s.blocked, pid);
    if i < |s.blocked| {
      CountDrop(s.blocked, i);
      InsertCounts(s.ready, if s.ready == [] then 0 else 1, s.blocked[i].(state := Ready));
    }
  }

  lemma DropReadyKeeps(s: Sched, live: set<int>, k: nat)
    requires PreTick(s, live) && 0 < k < |s.ready|
    ensures PreTick(s.(ready := Drop(s.ready, k)), live - {s.ready[k].pid})
    ensures Drop(s.ready, k)[0] == s.ready[0]
  {
    var r := Drop(s.ready, k);
    CountDrop(s.ready, k);
    Gone(Count(r) + Count(s.blocked), live, s.ready[k].pid);
    assert forall j | 0 <= j < |r| :: r[j] == s.ready[if j < k then j else j + 1];
  }

  lemma DropBlockedKeeps(s: Sched, live: set<int>, k: nat)
    requires PreTick(s, live) && k < |s.blocked|
    ensures PreTick(s.(blocked := Drop(s.blocked, k)), live - {s.blocked[k].pid})
  {
    var r := Drop(s.blocked, k);
    CountDrop(s.blocked, k);
    Gone(Count(s.ready) + Count(r), live, s.blocked[k].pid);
    assert forall j | 0 <= j < |r| :: r[j] == s.blocked[if j < k then j else j + 1];
  }

  lemma TerminateKeeps(s: Sched, live: set<int>, pid: int, rsp: int)
    requires Inv(s, live) && s.ready != [] && s.haltRsp != 0 && rsp != 0
    ensures Inv(Terminate(s, pid, rsp).0, if pid == SHELL then live else live - {pid})
  {
    hide PreTick, Inv, HandBack, Count;
    if pid != SHELL {
      var i := Find(s.ready, pid);
      var j := Find(s.blocked, pid);
      if i == 0 {
        TerminateHead(s, live, rsp);
      } else if i < |s.ready| {
        TerminateReady(s, live, pid, rsp);
      } else if j < |s.blocked| {
        TerminateBlocked(s, live, pid, rsp);
      } else {
        NotLive(s, live, pid);
        assert live - {pid} == live;
      }
    }
  }

  lemma NotLive(s: Sched, live: set<int>, pid: int)
    requires Inv(s, live) && !Has(s.ready, pid) && !Has(s.blocked, pid)
    ensures pid !in live
  {
    CountHas(s.ready, pid);
    CountHas(s.blocked, pid);
    assert pid !in Count(s.ready) + Count(s.blocked);
  }

  lemma TerminateHead(s: Sched, live: set<int>, rsp: int)
    requires Inv(s, live) && s.ready != [] && s.haltRsp != 0 && rsp != 0 && s.ready[0].pid != SHELL
    ensures Inv(Terminate(s, s.ready[0].pid, rsp).0, live - {s.ready[0].pid})
  {
    var p := s.ready[0].(state := Terminated);
    var s0 := s.(ready := s.ready[0 := p]);
    HeadKeeps(s, live, p);
    HandBackKeeps(s0, live, s.ready[0].foreground);
    TickKeeps(HandBack(s0, s.ready[0].foreground), rsp, live);
  }

  lemma TerminateReady(s: Sched, live: set<int>, pid: int, rsp: int)
    requires Inv(s, live) && s.ready != [] && pid != SHELL && 0 < Find(s.ready, pid) < |s.ready|
    ensures Inv(Terminate(s, pid, rsp).0, live - {pid})
  {
    var foreground := s.ready[Find(s.ready, pid)].foreground;
    HandBackKeeps(s, live, foreground);
    HandBackCounts(s, foreground, pid);
    var s1 := HandBack(s, foreground);
    DropReadyKeeps(s1, live, Find(s1.ready, pid));
  }

  lemma TerminateBlocked(s: Sched, live: set<int>, pid: int, rsp: int)
    requires Inv(s, live) && s.ready != [] && pid != SHELL
    requires !Has(s.ready, pid) && Has(s.blocked, pid)
    ensures Inv(Terminate(s, pid, rsp).0, live - {pid})
  {
    var foreground := s.blocked[Find(s.blocked, pid)].foreground;
    HandBackKeeps(s, live, foreground);
    HandBackCounts(s, foreground, pid);
    var s1 := HandBack(s, foreground);
    DropBlockedKeeps(s1, live, Find(s1.blocked, pid));
  }

  // -------------------------------------------------------------------- contexts

  /** Who the processor runs: a pid, the idle context or the boot code. */
  const IDLE := 0
  const BOOT := -1

  /** `saved` is, by context, the stack pointer it was created with or last interrupted at. */
  datatype Machine = Machine(s: Sched, live: set<int>, running: int, saved: map<int, int>, nextPid: int)

  predicate Keeps(saved: map<int, int>, pid: int, rsp: int) {
    pid in saved && saved[pid] == rsp
  }

  /** Every context that is not running can be resumed where it was left. */
  predicate AllSaved(s: Sched, saved: map<int, int>) {
    && (forall i | 0 <= i < |s.ready| :: Keeps(saved, s.ready[i].pid, s.ready[i].rsp))
    && (forall i | 0 <= i < |s.blocked| :: Keeps(saved, s.blocked[i].pid, s.blocked[i].rsp))
    && Keeps(saved, IDLE, s.haltRsp)
  }

  /** Every context but the one running can be resumed where it was left. */
  predicate OthersSaved(s: Sched, running: int, saved: map<int, int>) {
    && (forall i | 0 <= i < |s.ready| && s.ready[i].pid != running :: Keeps(saved, s.ready[i].pid, s.ready[i].rsp))
    && (forall i | 0 <= i < |s.blocked| && s.blocked[i].pid != running ::
          Keeps(saved, s.blocked[i].pid, s.blocked[i].rsp))
    && (s.haltRsp != 0 && running != IDLE ==> Keeps(saved, IDLE, s.haltRsp))
  }

  /** The flags and the head of the ring say who is running. */
  predicate RunningIs(s: Sched, running: int) {
    && (s.firstTime <==> running == BOOT)
    && (s.halt <==> running == IDLE)
    && (running > 0 ==> s.ready != [] && s.ready[0].pid == running)
    && running >= BOOT
  }

  /** The stack pointers on record once `running` is interrupted at `rsp`. */
  function Record(saved: map<int, int>, running: int, rsp: int): map<int, int> {
    if running == BOOT then saved else saved[running := rsp]
  }

  lemma ListedAreLive(s: Sched, live: set<int>)
    requires Partition(s, live)
    ensures forall i | 0 <= i < |s.ready| :: s.ready[i].pid in live
    ensures forall i | 0 <= i < |s.blocked| :: s.blocked[i].pid in live
  {
    forall i | 0 <= i < |s.ready| ensures s.ready[i].pid in live {
      assert Pids(s.ready)[i] in Count(s.ready) + Count(s.blocked);
    }
    forall i | 0 <= i < |s.blocked| ensures s.blocked[i].pid in live {
      assert Pids(s.blocked)[i] in Count(s.ready) + Count(s.blocked);
    }
  }

  /** Only one list entry carries the head's pid. */
  lemma HeadIsAlone(s: Sched, live: set<int>)
    requires Partition(s, live) && s.ready != []
    ensures forall i | 0 < i < |s.ready| :: s.ready[i].pid != s.ready[0].pid
    ensures forall i | 0 <= i < |s.blocked| :: s.blocked[i].pid != s.ready[0].pid
  {
    var pid := s.ready[0].pid;
    var rest := s.ready[1..];
    CountDrop(s.ready, 0);
    assert Drop(s.ready, 0) == rest;
    Gone(Count(rest) + Count(s.blocked), live, pid);
    Absent(rest, Count(rest) + Count(s.blocked), pid);
    Absent(s.blocked, Count(rest) + Count(s.blocked), pid);
    forall i | 0 < i < |s.ready| ensures s.ready[i].pid != pid {
      assert rest[i - 1] == s.ready[i];
    }
  }

  lemma Absent(l: seq<Proc>, all: multiset<int>, pid: int)
    requires Count(l) <= all && pid !in all
    ensures forall i | 0 <= i < |l| :: l[i].pid != pid
  {
    forall i | 0 <= i < |l| ensures l[i].pid != pid {
      assert Pids(l)[i] in Count(l);
    }
  }

  /** Saving the interrupted context completes the record. */
  lemma SavedRecords(s: Sched, live: set<int>, running: int, saved: map<int, int>, rsp: int)
    requires Partition(s, live) && HasCurrent(s) && RunningIs(s, running) && OthersSaved(s, running, saved)
    requires s.haltRsp != 0
    ensures AllSaved(Saved(s, rsp), Record(saved, running, rsp))
  {
    ListedAreLive(s, live);
    if s.ready != [] {
      HeadIsAlone(s, live);
    }
  }

  lemma TurnedSaved(s: Sched, saved: map<int, int>)
    requires AllSaved(s, saved) && s.ready != []
    ensures AllSaved(Turned(s), saved)
  {
    var r := Turned(s);
    forall i | 0 <= i < |r.ready| ensures Keeps(saved, r.ready[i].pid, r.ready[i].rsp) {
      var j := if r.ready == s.ready then i else if i < |s.ready| - 1 then i + 1 else 0;
      assert Keeps(saved, s.ready[j].pid, s.ready[j].rsp);
    }
    forall i | 0 <= i < |r.blocked| ensures Keeps(saved, r.blocked[i].pid, r.blocked[i].rsp) {
      if r.blocked != s.blocked {
        assert i > 0 ==> r.blocked[i] == s.blocked[i - 1];
      }
    }
  }

  /** A tick hands the processor the stack pointer on record for the context it dispatches. */
  lemma TickContexts(s: Sched, live: set<int>, running: int, saved: map<int, int>, rsp: int)
    requires PreTick(s, live) && RunningIs(s, running) && OthersSaved(s, running, saved)
    requires s.haltRsp != 0 && rsp != 0
    ensures var (r, sp) := Tick(s, rsp);
            var next := if r.halt then IDLE else r.ready[0].pid;
            var record := Record(saved, running, rsp);
            && (!r.halt ==> r.ready != [] && next > 0)
            && Keeps(record, next, sp) && OthersSaved(r, next, record) && RunningIs(r, next)
  {
    hide Count;
    var record := Record(saved, running, rsp);
    var s1 := Saved(s, rsp);
    SavedRecords(s, live, running, saved, rsp);
    var s2 := if s1.ready == [] then s1 else Turned(s1);
    if s1.ready != [] {
      TurnedSaved(s1, record);
    }
    assert AllSaved(s2, record);
    TickKeeps(s, rsp, live);
    ListedAreLive(Tick(s, rsp).0, Survivors(s, live));
  }

  // ------------------------------------------------------------------------ runs

  datatype Op =
    | TickOp(rsp: int)
    | YieldOp(rsp: int)
    | BlockOp(pid: int, rsp: int)
    | TerminateOp(pid: int, rsp: int)
    | UnblockOp(pid: int)
    | CreateOp(rsp: int)
    | PriorityOp(pid: int, priority: int)
    | ForegroundOp(pid: int, foreground: bool)

  /** Kernel calls come from a running process (creation also from the boot code); timer ticks
      and wakeups by the keyboard come at any time. */
  predicate LegalOp(m: Machine, op: Op) {
    match op
    case TickOp(rsp) => rsp != 0
    case YieldOp(rsp) => rsp != 0 && m.running > 0
    case BlockOp(_, rsp) => rsp != 0 && m.running > 0
    case TerminateOp(_, rsp) => rsp != 0 && m.running > 0
    case UnblockOp(_) => true
    case CreateOp(rsp) => rsp != 0 && m.running != IDLE
    case PriorityOp(_, priority) => 1 <= priority < WORD
    case ForegroundOp(_, _) => true
  }

  const MEDIUM := 2

  function NewProc(pid: int, rsp: int): Proc {
    Proc(pid, Ready, rsp, MEDIUM, MEDIUM, false)
  }

  /** Who runs when the kernel returns. */
  function RunningOf(s: Sched): int {
    if s.firstTime then BOOT else if s.halt || s.ready == [] then IDLE else s.ready[0].pid
  }

  /** One operation, and the stack pointer the processor continues with if it has one. */
  function Apply(m: Machine, op: Op): (Machine, int)
    requires MachineInv(m) && LegalOp(m, op)
  {
    match op
    case TickOp(rsp) => Resumed(m, Tick(m.s, rsp), rsp, m.live)
    case YieldOp(rsp) => Resumed(m, Yield(m.s, rsp), rsp, m.live)
    case BlockOp(pid, rsp) => Resumed(m, Block(m.s, pid, rsp), rsp, m.live)
    case TerminateOp(pid, rsp) =>
      Resumed(m, Terminate(m.s, pid, rsp), rsp, if pid == SHELL then m.live else m.live - {pid})
    case UnblockOp(pid) => (m.(s := Unblock(m.s, pid)), 0)
    case CreateOp(rsp) =>
      (Machine(Create(m.s, NewProc(m.nextPid, rsp)), if m.nextPid == 0 then m.live else m.live + {m.nextPid},
               m.running, m.saved[m.nextPid := rsp], m.nextPid + 1), 0)
    case PriorityOp(pid, priority) => (m.(s := ChangePriority(m.s, pid, priority)), 0)
    case ForegroundOp(pid, foreground) => (m.(s := SetForeground(m.s, pid, foreground)), 0)
  }

  function Resumed(m: Machine, t: (Sched, int), rsp: int, live: set<int>): (Machine, int) {
    (Machine(t.0, live, RunningOf(t.0), Record(m.saved, m.running, rsp), m.nextPid), t.1)
  }

  ghost predicate MachineInv(m: Machine) {
    && Inv(m.s, m.live) && RunningIs(m.s, m.running) && OthersSaved(m.s, m.running, m.saved)
    && 0 <= m.nextPid && (forall pid | pid in m.live :: pid < m.nextPid)
    && (m.s.haltRsp != 0 <==> m.nextPid > 0)
    && (m.s.haltRsp == 0 ==> m.s.firstTime)
  }

  /** A tick before the idle process exists changes nothing; afterwards it resumes whatever it
      dispatches exactly where that context was last interrupted. */
  lemma TickStep(m: Machine, rsp: int)
    requires MachineInv(m) && rsp != 0
    ensures var (r, sp) := Apply(m, TickOp(rsp));
            && MachineInv(r)
            && (m.s.haltRsp != 0 ==> Keeps(r.saved, r.running, sp))
            && (m.s.haltRsp == 0 ==> r.running == m.running && sp == rsp)
  {
    if m.s.haltRsp != 0 {
      TickContexts(m.s, m.live, m.running, m.saved, rsp);
      TickKeeps(m.s, rsp, m.live);
    }
  }

  /** Marking the head blocked or out of credit, then ticking: whoever runs next continues where
      it was interrupted. */
  lemma StopHead(m: Machine, p: Proc, rsp: int)
    requires MachineInv(m) && rsp != 0 && m.running > 0
    requires p.pid == m.s.ready[0].pid && CreditOk(p, 0)
    ensures var (r, sp) := Resumed(m, Tick(m.s.(ready := m.s.ready[0 := p]), rsp), rsp, m.live);
            && RunningIs(r.s, r.running) && OthersSaved(r.s, r.running, r.saved)
            && Keeps(r.saved, r.running, sp) && r.s.haltRsp != 0
  {
    HeadKeeps(m.s, m.live, p);
    TickContexts(m.s.(ready := m.s.ready[0 := p]), m.live, m.running, m.saved, rsp);
  }

  lemma BlockStep(m: Machine, pid: int, rsp: int)
    requires MachineInv(m) && LegalOp(m, BlockOp(pid, rsp))
    ensures var (r, sp) := Apply(m, BlockOp(pid, rsp)); MachineInv(r) && Keeps(r.saved, r.running, sp)
  {
    hide Tick, Inv, PreTick, Count, OthersSaved;
    HeadOf(m);
    BlockKeeps(m.s, m.live, pid, rsp);
    var i := Find(m.s.ready, pid);
    if i == 0 {
      StopHead(m, m.s.ready[0].(state := Blocked), rsp);
    } else if i < |m.s.ready| {
      RemoveBlockedContexts(m.s, m.running, m.saved, i, rsp);
    } else {
      RecordsItself(m.s, m.running, m.saved, rsp);
    }
  }

  /** The current process of a kernel call. */
  lemma HeadOf(m: Machine)
    requires MachineInv(m) && m.running > 0
    ensures m.s.ready != [] && m.s.ready[0].pid == m.running && CreditOk(m.s.ready[0], 0)
    ensures m.s.haltRsp != 0 && !m.s.halt && !m.s.firstTime
  {
  }

  lemma RecordsItself(s: Sched, running: int, saved: map<int, int>, rsp: int)
    requires OthersSaved(s, running, saved)
    ensures OthersSaved(s, running, Record(saved, running, rsp))
  {
  }

  lemma RemoveBlockedContexts(s: Sched, running: int, saved: map<int, int>, i: nat, rsp: int)
    requires OthersSaved(s, running, saved) && RunningIs(s, running) && running > 0 && 0 < i < |s.ready|
    ensures var r := RemoveBlocked(s, i);
            OthersSaved(r, running, Record(saved, running, rsp)) && RunningIs(r, running)
  {
    var r := RemoveBlocked(s, i);
    assert forall j | 0 <= j < |r.ready| :: r.ready[j] == s.ready[if j < i then j else j + 1];
    assert forall j | 0 < j < |r.blocked| :: r.blocked[j] == s.blocked[j - 1];
  }

  lemma UnblockContexts(s: Sched, running: int, saved: map<int, int>, pid: int)
    requires OthersSaved(s, running, saved) && RunningIs(s, running)
    requires running > 0 || s.ready == [] || s.ready[0].pid != running
    ensures OthersSaved(Unblock(s, pid), running, saved) && RunningIs(Unblock(s, pid), running)
  {
    var i := Find(s.blocked, pid);
    if i < |s.blocked| {
      var r := Unblock(s, pid);
      var k := if s.ready == [] then 0 else 1;
      assert forall j | 0 <= j < |r.blocked| :: r.blocked[j] == s.blocked[if j < i then j else j + 1];
      assert forall j | k < j < |r.ready| :: r.ready[j] == s.ready[j - 1];
    }
  }

  lemma UnblockStep(m: Machine, pid: int)
    requires MachineInv(m)
    ensures MachineInv(Apply(m, UnblockOp(pid)).0)
  {
    ListedAreLive(m.s, m.live);
    UnblockKeeps(m.s, m.live, pid);
    UnblockContexts(m.s, m.running, m.saved, pid);
  }

  lemma CreateStep(m: Machine, rsp: int)
    requires MachineInv(m) && LegalOp(m, CreateOp(rsp))
    ensures MachineInv(Apply(m, CreateOp(rsp)).0)
  {
    hide Count;
    ListedAreLive(m.s, m.live);
    if m.nextPid > 0 {
      CreateKeeps(m.s, m.live, NewProc(m.nextPid, rsp));
    }
  }

  lemma HandBackContexts(s: Sched, live: set<int>, running: int, saved: map<int, int>, foreground: bool)
    requires PreTick(s, live) && OthersSaved(s, running, saved) && RunningIs(s, running) && running > 0
    ensures OthersSaved(HandBack(s, foreground), running, saved) && RunningIs(HandBack(s, foreground), running)
  {
    if foreground {
      UnblockContexts(SetForeground(s, SHELL, true), running, saved, SHELL);
    }
  }

  lemma TerminateStep(m: Machine, pid: int, rsp: int)
    requires MachineInv(m) && LegalOp(m, TerminateOp(pid, rsp))
    ensures var (r, sp) := Apply(m, TerminateOp(pid, rsp)); MachineInv(r) && Keeps(r.saved, r.running, sp)
  {
    TerminateKeeps(m.s, m.live, pid, rsp);
    var i := Find(m.s.ready, pid);
    if pid != SHELL && i == 0 {
      TerminateHeadContexts(m, rsp);
    } else if pid != SHELL && i < |m.s.ready| {
      TerminateReadyContexts(m, pid, rsp);
    } else if pid != SHELL && Has(m.s.blocked, pid) {
      TerminateBlockedContexts(m, pid, rsp);
    }
  }

  lemma TerminateHeadContexts(m: Machine, rsp: int)
    requires MachineInv(m) && m.running > 0 && rsp != 0 && m.running != SHELL
    ensures var (r, sp) := Resumed(m, Terminate(m.s, m.running, rsp), rsp, m.live - {m.running});
            && RunningIs(r.s, r.running) && OthersSaved(r.s, r.running, r.saved)
            && Keeps(r.saved, r.running, sp) && r.s.haltRsp != 0
  {
    var p := m.s.ready[0].(state := Terminated);
    var s0 := m.s.(ready := m.s.ready[0 := p]);
    HeadKeeps(m.s, m.live, p);
    HandBackKeeps(s0, m.live, p.foreground);
    HandBackContexts(s0, m.live, m.running, m.saved, p.foreground);
    TickContexts(HandBack(s0, p.foreground), m.live, m.running, m.saved, rsp);
  }

  lemma TerminateReadyContexts(m: Machine, pid: int, rsp: int)
    requires MachineInv(m) && m.running > 0 && rsp != 0 && pid != SHELL && 0 < Find(m.s.ready, pid) < |m.s.ready|
    ensures var (r, sp) := Resumed(m, Terminate(m.s, pid, rsp), rsp, m.live - {pid});
            && RunningIs(r.s, r.running) && OthersSaved(r.s, r.running, r.saved)
            && Keeps(r.saved, r.running, sp) && r.s.haltRsp != 0
  {
    hide PreTick, HandBack, Count, OthersSaved;
    var foreground := m.s.ready[Find(m.s.ready, pid)].foreground;
    HandBackKeeps(m.s, m.live, foreground);
    HandBackCounts(m.s, foreground, pid);
    HandBackContexts(m.s, m.live, m.running, m.saved, foreground);
    var s1 := HandBack(m.s, foreground);
    DropReadyContexts(s1, m.running, m.saved, Find(s1.ready, pid), rsp);
  }

  lemma TerminateBlockedContexts(m: Machine, pid: int, rsp: int)
    requires MachineInv(m) && m.running > 0 && rsp != 0 && pid != SHELL
    requires !Has(m.s.ready, pid) && Has(m.s.blocked, pid)
    ensures var (r, sp) := Resumed(m, Terminate(m.s, pid, rsp), rsp, m.live - {pid});
            && RunningIs(r.s, r.running) && OthersSaved(r.s, r.running, r.saved)
            && Keeps(r.saved, r.running, sp) && r.s.haltRsp != 0
  {
    hide PreTick, HandBack, Count, OthersSaved;
    var foreground := m.s.blocked[Find(m.s.blocked, pid)].foreground;
    HandBackKeeps(m.s, m.live, foreground);
    HandBackCounts(m.s, foreground, pid);
    HandBackContexts(m.s, m.live, m.running, m.saved, foreground);
    var s1 := HandBack(m.s, foreground);
    DropBlockedContexts(s1, m.running, m.saved, Find(s1.blocked, pid), rsp);
  }

  lemma DropBlockedContexts(s: Sched, running: int, saved: map<int, int>, k: nat, rsp: int)
    requires OthersSaved(s, running, saved) && RunningIs(s, running) && running > 0 && k < |s.blocked|
    ensures var r := s.(blocked := Drop(s.blocked, k));
            OthersSaved(r, running, Record(saved, running, rsp)) && RunningIs(r, running)
  {
    var r := Drop(s.blocked, k);
    assert forall j | 0 <= j < |r| :: r[j] == s.blocked[if j < k then j else j + 1];
  }

  lemma DropReadyContexts(s: Sched, running: int, saved: map<int, int>, k: nat, rsp: int)
    requires OthersSaved(s, running, saved) && RunningIs(s, running) && running > 0 && 0 < k < |s.ready|
    ensures var r := s.(ready := Drop(s.ready, k));
            OthersSaved(r, running, Record(saved, running, rsp)) && RunningIs(r, running)
  {
    var r := Drop(s.ready, k);
    assert forall j | 0 <= j < |r| :: r[j] == s.ready[if j < k then j else j + 1];
  }

  lemma PriorityStep(m: Machine, pid: int, priority: int)
    requires MachineInv(m) && 1 <= priority < WORD
    ensures MachineInv(Apply(m, PriorityOp(pid, priority)).0)
  {
    hide Count, Reprioritized;
    PriorityKeeps(m.s, m.live, pid, priority);
    ReprioritizedKeeps(m.s.ready, pid, priority);
    ReprioritizedKeeps(m.s.blocked, pid, priority);
  }

  lemma ForegroundStep(m: Machine, pid: int, foreground: bool)
    requires MachineInv(m)
    ensures MachineInv(Apply(m, ForegroundOp(pid, foreground)).0)
  {
    hide Count, Marked;
    SetForegroundKeeps(m.s, m.live, pid, foreground);
    MarkedKeeps(m.s.ready, pid, foreground);
    MarkedKeeps(m.s.blocked, pid, foreground);
  }

  /** Every operation keeps the invariant; and every operation that goes through the scheduler
      continues at the stack pointer on record for whoever then runs. */
  lemma StepKeeps(m: Machine, op: Op)
    requires MachineInv(m) && LegalOp(m, op)
    ensures MachineInv(Apply(m, op).0)
    ensures (op.YieldOp? || op.BlockOp? || op.TerminateOp? || (op.TickOp? && m.s.haltRsp != 0)) ==>
              Keeps(Apply(m, op).0.saved, Apply(m, op).0.running, Apply(m, op).1)
  {
    hide MachineInv, Apply, Keeps;
    match op
    case TickOp(rsp) => TickStep(m, rsp);
    case YieldOp(rsp) => YieldStep(m, rsp);
    case BlockOp(pid, rsp) => BlockStep(m, pid, rsp);
    case TerminateOp(pid, rsp) => TerminateStep(m, pid, rsp);
    case UnblockOp(pid) => UnblockStep(m, pid);
    case CreateOp(rsp) => CreateStep(m, rsp);
    case PriorityOp(pid, priority) => PriorityStep(m, pid, priority);
    case ForegroundOp(pid, foreground) => ForegroundStep(m, pid, foreground);
  }

  lemma YieldStep(m: Machine, rsp: int)
    requires MachineInv(m) && LegalOp(m, YieldOp(rsp))
    ensures var (r, sp) := Apply(m, YieldOp(rsp)); MachineInv(r) && Keeps(r.saved, r.running, sp)
  {
    hide Tick, Inv, PreTick, Count, OthersSaved;
    HeadOf(m);
    YieldKeeps(m.s, m.live, rsp);
    StopHead(m, m.s.ready[0].(credit := 0), rsp);
  }

  function Boot(): Machine {
    Machine(Sched([], [], 0, false, true), {}, BOOT, map[], 0)
  }

  lemma BootIsSound()
    ensures MachineInv(Boot())
  {
  }

  /** `end` is reachable from boot by the legal operations `ops`. */
  ghost predicate RunsFromBoot(ops: seq<Op>, end: Machine) {
    BootIsSound(); Runs(Boot(), ops, end)
  }

  ghost predicate Runs(m: Machine, ops: seq<Op>, end: Machine)
    requires MachineInv(m)
    decreases |ops|
  {
    if ops == [] then end == m
    else LegalOp(m, ops[0]) && (StepKeeps(m, ops[0]); Runs(Apply(m, ops[0]).0, ops[1..], end))
  }

  /** In every run from boot: each live process is in exactly one of the two lists exactly
      once, the idle context is marked exactly when it runs, and every context that does not
      run can be resumed where it was last interrupted or created. */
  lemma EveryRunIsSound(ops: seq<Op>, end: Machine)
    requires RunsFromBoot(ops, end)
    ensures forall pid :: pid in end.live <==> Has(end.s.ready, pid) || Has(end.s.blocked, pid)
    ensures Count(end.s.ready) + Count(end.s.blocked) == multiset(end.live)
    ensures end.s.halt <==> end.running == IDLE
    ensures end.running > 0 ==> end.s.ready != [] && end.s.ready[0].pid == end.running
    ensures OthersSaved(end.s, end.running, end.saved) && Credits(end.s)
  {
    BootIsSound();
    RunKeeps(Boot(), ops, end);
    forall pid ensures pid in end.live <==> Has(end.s.ready, pid) || Has(end.s.blocked, pid) {
      SearchFindsLive(end.s, end.live, pid);
    }
  }

  /** Searching the ready ring and then the blocked list finds exactly the live processes. */
  lemma SearchFindsLive(s: Sched, live: set<int>, pid: int)
    requires Partition(s, live)
    ensures pid in live <==> Has(s.ready, pid) || Has(s.blocked, pid)
  {
    CountHas(s.ready, pid);
    CountHas(s.blocked, pid);
    assert pid in live <==> pid in Count(s.ready) + Count(s.blocked);
  }

  lemma {:induction false} RunKeeps(m: Machine, ops: seq<Op>, end: Machine)
    requires MachineInv(m) && Runs(m, ops, end)
    ensures MachineInv(end)
    decreases |ops|
  {
    if ops != [] {
      StepKeeps(m, ops[0]);
      RunKeeps(Apply(m, ops[0]).0, ops[1..], end);
    }
  }
}
