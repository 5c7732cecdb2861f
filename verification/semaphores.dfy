// Counting semaphores on top of the scheduler. A kernel call runs with interrupts off, so that
// it is one step up to the point where it gives up the processor; whoever is dispatched then
// finishes its own kernel call, if it was sleeping in one, in the same step.
module Semaphores {
  import opened Lists
  import opened SchedulerSpec
  import opened SchedulerRuns

  /** `queue` holds the sleepers, first come first; `active` who opened the semaphore. */
  datatype Sem = Sem(value: int, queue: seq<int>, active: seq<int>)

  /** What happened to a semaphore since it was created. */
  datatype History = History(initial: int, posts: nat, waits: nat)

  /** `asleep` maps a process that sleeps inside a wait to the semaphore it waits for. */
  datatype Kernel = Kernel(m: Machine, sems: map<int, Sem>, asleep: map<int, int>, history: map<int, History>)

  datatype Call =
    | Other(op: Op)
    | Open(id: int, value: int)
    | Wait(id: int, rsp: int)
    | Post(id: int, rsp: int)
    | Close(id: int)

  // ------------------------------------------------------------------ the calls

  function Opened(sems: map<int, Sem>, id: int, value: int, pid: int): map<int, Sem> {
    if id !in sems then sems[id := Sem(value, [], [pid])]
    else if pid in sems[id].active then sems
    else sems[id := sems[id].(active := sems[id].active + [pid])]
  }

  function Closed(sems: map<int, Sem>, id: int, pid: int): map<int, Sem> {
    if id !in sems || pid !in sems[id].active then sems
    else
      var active := WithoutFirst(sems[id].active, pid);
      if active == [] then sems - {id} else sems[id := sems[id].(active := active)]
  }

  function Taken(sem: Sem): Sem {
    sem.(value := (sem.value - 1) % WORD)
  }

  function Posted(sem: Sem): Sem {
    sem.(value := (sem.value + 1) % WORD, queue := if sem.queue == [] then [] else sem.queue[1..])
  }

  function CountWait(h: map<int, History>, id: int): map<int, History> {
    if id in h then h[id := h[id].(waits := h[id].waits + 1)] else h
  }

  function CountPost(h: map<int, History>, id: int): map<int, History> {
    if id in h then h[id := h[id].(posts := h[id].posts + 1)] else h
  }

  /** The process just dispatched finishes the wait it was sleeping in, without looking at the
      value again. */
  function Resume(k: Kernel): Kernel {
    var pid := k.m.running;
    if pid in k.asleep && k.asleep[pid] in k.sems then
      var id := k.asleep[pid];
      k.(sems := k.sems[id := Taken(k.sems[id])], asleep := k.asleep - {pid}, history := CountWait(k.history, id))
    else k
  }

  // ------------------------------------------------------------------ the invariant

  predicate Sleeps(k: Kernel, id: int, pid: int) {
    pid in k.asleep && k.asleep[pid] == id
  }

  /** A queue holds each sleeper of its semaphore once, and while it holds any the value is 0. */
  ghost predicate QueueOk(k: Kernel, id: int)
    requires id in k.sems
  {
    var sem := k.sems[id];
    && (forall pid | pid in sem.queue :: Sleeps(k, id, pid))
    && (forall pid | Sleeps(k, id, pid) :: pid in sem.queue)
    && NoRepeats(sem.queue)
    && (sem.queue != [] ==> sem.value == 0)
  }

  /** Value = initial + posts - completed waits, and it is never negative. */
  predicate ValueOk(k: Kernel, id: int)
    requires id in k.sems
  {
    id in k.history && 0 <= k.sems[id].value < WORD
    && k.sems[id].value == k.history[id].initial + k.history[id].posts - k.history[id].waits
  }

  /** Whoever sleeps does so on a semaphore, in the blocked list. */
  predicate SleepersBlocked(k: Kernel) {
    forall pid | pid in k.asleep :: k.asleep[pid] in k.sems && Has(k.m.s.blocked, pid)
  }

  ghost predicate SemInv(k: Kernel) {
    && MachineInv(k.m) && SleepersBlocked(k)
    && (forall id | id in k.sems :: QueueOk(k, id))
    && (forall id | id in k.sems :: ValueOk(k, id))
  }

  /** Calls come from a running process; nobody else unblocks or kills a sleeper (the end of a
      foreground process unblocks the shell), a semaphore goes with its last user only when
      nobody sleeps on it, and no value reaches 2^64. */
  predicate Legal(k: Kernel, c: Call) {
    match c
    case Other(op) => LegalOp(k.m, op) && Harmless(k, op)
    case Open(_, value) => k.m.running > 0 && 0 <= value < WORD
    case Wait(_, rsp) => k.m.running > 0 && rsp != 0
    case Post(id, rsp) => k.m.running > 0 && rsp != 0 && (id in k.sems ==> k.sems[id].value + 1 < WORD)
    case Close(id) => k.m.running > 0 && (id in k.sems && k.sems[id].active == [k.m.running] ==> k.sems[id].queue == [])
  }

  predicate Harmless(k: Kernel, op: Op) {
    match op
    case UnblockOp(pid) => pid !in k.asleep
    case TerminateOp(pid, _) => pid !in k.asleep && (SHELL in k.asleep ==> !EndsForeground(k.m.s, pid))
    case _ => true
  }

  ghost function Do(k: Kernel, c: Call): Kernel
    requires SemInv(k) && Legal(k, c)
  {
    var pid := k.m.running;
    match c
    case Other(op) => Resume(k.(m := Apply(k.m, op).0))
    case Open(id, value) =>
      k.(sems := Opened(k.sems, id, value, pid),
         history := if id in k.sems then k.history else k.history[id := History(value, 0, 0)])
    case Close(id) => k.(sems := Closed(k.sems, id, pid))
    case Wait(id, rsp) =>
      if id !in k.sems then k
      else if k.sems[id].value > 0 then
        k.(sems := k.sems[id := Taken(k.sems[id])], history := CountWait(k.history, id))
      else
        Resume(k.(m := Apply(k.m, BlockOp(pid, rsp)).0, asleep := k.asleep[pid := id],
                  sems := k.sems[id := k.sems[id].(queue := k.sems[id].queue + [pid])]))
    case Post(id, rsp) =>
      if id !in k.sems then k
      else
        var m := Woken(k.m, k.sems[id].queue);
        Resume(k.(m := Apply(m, YieldOp(rsp)).0, sems := k.sems[id := Posted(k.sems[id])],
                  history := CountPost(k.history, id)))
  }

  /** The first sleeper, if any, joins the ready ring. */
  ghost function Woken(m: Machine, queue: seq<int>): (r: Machine)
    requires MachineInv(m) && m.running > 0
    ensures MachineInv(r) && r.running == m.running
  {
    if queue == [] then m else (StepKeeps(m, UnblockOp(queue[0])); Apply(m, UnblockOp(queue[0])).0)
  }

  // ------------------------------------------------------- who stays blocked

  lemma BehindAnother(p: Proc, l: seq<Proc>, pid: int)
    requires Has(l, pid)
    ensures Has([p] + l, pid)
  {
    CountConcat([p], l);
    CountHas(l, pid);
    CountHas([p] + l, pid);
  }

  lemma SameCount(l: seq<Proc>, r: seq<Proc>, pid: int)
    requires Count(l) == Count(r) && Has(l, pid)
    ensures Has(r, pid)
  {
    CountHas(l, pid);
    CountHas(r, pid);
  }

  lemma TickLeavesBlocked(s: Sched, rsp: int, pid: int)
    requires HasCurrent(s) && s.haltRsp != 0 && Has(s.blocked, pid)
    ensures Has(Tick(s, rsp).0.blocked, pid)
  {
    var s1 := Saved(s, rsp);
    if s1.ready != [] {
      var p := s1.ready[0];
      BehindAnother(Refilled(p).(state := Blocked), s.blocked, pid);
    }
  }

  lemma UnblockLeavesBlocked(s: Sched, other: int, pid: int)
    requires other != pid && Has(s.blocked, pid)
    ensures Has(Unblock(s, other).blocked, pid)
  {
    UnblockCounts(s, other);
    CountHas(s.blocked, pid);
    CountHas(Unblock(s, other).blocked, pid);
  }

  lemma DropLeaves(l: seq<Proc>, i: nat, pid: int)
    requires i < |l| && l[i].pid != pid && Has(l, pid)
    ensures Has(Drop(l, i), pid)
  {
    CountDrop(l, i);
    CountHas(l, pid);
    CountHas(Drop(l, i), pid);
  }

  lemma BlockLeavesBlocked(s: Sched, other: int, rsp: int, pid: int)
    requires s.ready != [] && s.haltRsp != 0 && Has(s.blocked, pid)
    ensures Has(Block(s, other, rsp).0.blocked, pid)
  {
    var i := Find(s.ready, other);
    if i == 0 {
      TickLeavesBlocked(s.(ready := s.ready[0 := s.ready[0].(state := Blocked)]), rsp, pid);
    } else if i < |s.ready| {
      BehindAnother(Refilled(s.ready[i]).(state := Blocked), s.blocked, pid);
    }
  }

  lemma TerminateLeavesBlocked(s: Sched, live: set<int>, other: int, rsp: int, pid: int)
    requires PreTick(s, live) && s.ready != [] && s.haltRsp != 0 && Has(s.blocked, pid) && other != pid
    requires pid == SHELL ==> !EndsForeground(s, other)
    ensures Has(Terminate(s, other, rsp).0.blocked, pid)
  {
    hide PreTick, HandBack, Count, Tick;
    var i := Find(s.ready, other);
    var j := Find(s.blocked, other);
    if other != SHELL && i == 0 {
      var p := s.ready[0].(state := Terminated);
      var s0 := s.(ready := s.ready[0 := p]);
      assert CreditOk(p, 0) by { HeadCredit(s, live); }
      HeadKeeps(s, live, p);
      HandBackCounts(s0, p.foreground, pid);
      HandBackKeeps(s0, live, p.foreground);
      TickLeavesBlocked(HandBack(s0, p.foreground), rsp, pid);
    } else if other != SHELL && i < |s.ready| {
      HandBackCounts(s, s.ready[i].foreground, pid);
    } else if other != SHELL && j < |s.blocked| {
      var s1 := HandBack(s, s.blocked[j].foreground);
      HandBackCounts(s, s.blocked[j].foreground, pid);
      var k := Find(s1.blocked, other);
      if k < |s1.blocked| {
        DropLeaves(s1.blocked, k, pid);
      }
    }
  }

  lemma HeadCredit(s: Sched, live: set<int>)
    requires PreTick(s, live) && s.ready != []
    ensures CreditOk(s.ready[0], 0)
  {
  }

  /** No operation but its own wakeup or end takes a process out of the blocked list; for the
      shell, the end of a foreground process does. */
  lemma OpLeavesBlocked(m: Machine, op: Op, pid: int)
    requires MachineInv(m) && LegalOp(m, op) && Has(m.s.blocked, pid)
    requires op.UnblockOp? ==> op.pid != pid
    requires op.TerminateOp? ==> op.pid != pid && (pid == SHELL ==> !EndsForeground(m.s, op.pid))
    ensures Has(Apply(m, op).0.s.blocked, pid)
  {
    hide Count, PreTick, Tick, Unblock, Block, Terminate, HandBack;
    match op
    case TickOp(rsp) =>
      if m.s.haltRsp != 0 {
        CurrentThere(m);
        TickLeavesBlocked(m.s, rsp, pid);
      } else {
        TickEarly(m.s, rsp);
      }
    case YieldOp(rsp) =>
      TickLeavesBlocked(m.s.(ready := m.s.ready[0 := m.s.ready[0].(credit := 0)]), rsp, pid);
    case BlockOp(other, rsp) => BlockLeavesBlocked(m.s, other, rsp, pid);
    case TerminateOp(other, rsp) => TerminateLeavesBlocked(m.s, m.live, other, rsp, pid);
    case UnblockOp(other) => UnblockLeavesBlocked(m.s, other, pid);
    case CreateOp(_) =>
    case PriorityOp(other, priority) =>
      ReprioritizedKeeps(m.s.blocked, other, priority);
      SameCount(m.s.blocked, Reprioritized(m.s.blocked, other, priority), pid);
    case ForegroundOp(other, foreground) =>
      MarkedKeeps(m.s.blocked, other, foreground);
      SameCount(m.s.blocked, Marked(m.s.blocked, other, foreground), pid);
  }

  lemma CurrentThere(m: Machine)
    requires MachineInv(m)
    ensures HasCurrent(m.s)
  {
  }

  lemma TickEarly(s: Sched, rsp: int)
    requires s.haltRsp == 0 && HasCurrent(s)
    ensures Tick(s, rsp).0 == s
  {
  }

  lemma BlockedDoesNotRun(m: Machine, pid: int)
    requires MachineInv(m) && Has(m.s.blocked, pid)
    ensures m.running != pid
  {
    ListedAreLive(m.s, m.live);
    if m.running > 0 {
      HeadIsAlone(m.s, m.live);
    }
  }

  // ------------------------------------------------- who runs after a wait or a post

  lemma BlocksItself(m: Machine, rsp: int)
    requires MachineInv(m) && m.running > 0 && rsp != 0
    ensures Has(Apply(m, BlockOp(m.running, rsp)).0.s.blocked, m.running)
  {
    assert Find(m.s.ready, m.running) == 0;
    var s0 := m.s.(ready := m.s.ready[0 := m.s.ready[0].(state := Blocked)]);
    var s1 := Saved(s0, rsp);
    assert Turned(s1).blocked[0].pid == m.running;
  }

  /** A woken process stands right behind the one that wakes it, so that it runs as soon as
      that one yields. */
  lemma WokenRunsNext(m: Machine, pid: int, rsp: int)
    requires MachineInv(m) && m.running > 0 && rsp != 0 && Has(m.s.blocked, pid)
    ensures var m1 := Apply(m, UnblockOp(pid)).0; MachineInv(m1) && m1.running > 0
    ensures Apply(Apply(m, UnblockOp(pid)).0, YieldOp(rsp)).0.running == pid
  {
    StepKeeps(m, UnblockOp(pid));
    var s1 := Unblock(m.s, pid);
    assert s1.ready[1].pid == pid && s1.ready[0] == m.s.ready[0];
    var s2 := s1.(ready := s1.ready[0 := s1.ready[0].(credit := 0)]);
    var s3 := Saved(s2, rsp);
    assert Turned(s3).ready[0].pid == pid;
  }

  // ------------------------------------------------------------------ each step

  /** When nobody asleep runs, there is nothing to resume. */
  lemma NothingToResume(k: Kernel)
    requires MachineInv(k.m) && SleepersBlocked(k)
    ensures Resume(k) == k
  {
    if k.m.running in k.asleep {
      BlockedDoesNotRun(k.m, k.m.running);
    }
  }

  /** Sleepers stay blocked when the scheduler does something harmless. */
  lemma SleepersStay(k: Kernel, op: Op)
    requires MachineInv(k.m) && SleepersBlocked(k) && LegalOp(k.m, op) && Harmless(k, op)
    ensures SleepersBlocked(k.(m := Apply(k.m, op).0))
  {
    hide MachineInv, LegalOp, Apply;
    forall pid | pid in k.asleep ensures Has(Apply(k.m, op).0.s.blocked, pid) {
      OpLeavesBlocked(k.m, op, pid);
    }
  }

  lemma OtherKeeps(k: Kernel, op: Op)
    requires SemInv(k) && Legal(k, Other(op))
    ensures SemInv(Do(k, Other(op)))
  {
    hide MachineInv, Apply, LegalOp, Harmless;
    var k1 := k.(m := Apply(k.m, op).0);
    StepKeeps(k.m, op);
    SleepersStay(k, op);
    NothingToResume(k1);
    assert forall id | id in k.sems :: QueueOk(k, id) && ValueOk(k, id);
    assert forall id | id in k1.sems :: QueueOk(k1, id) && ValueOk(k1, id);
  }

  lemma OpenKeeps(k: Kernel, id: int, value: int)
    requires SemInv(k) && Legal(k, Open(id, value))
    ensures SemInv(Do(k, Open(id, value)))
  {
    hide MachineInv;
    var r := Do(k, Open(id, value));
    forall i | i in r.sems ensures QueueOk(r, i) && ValueOk(r, i) {
      if i in k.sems {
        assert QueueOk(k, i) && ValueOk(k, i);
      }
    }
  }

  lemma CloseKeeps(k: Kernel, id: int)
    requires SemInv(k) && Legal(k, Close(id))
    ensures SemInv(Do(k, Close(id)))
  {
    hide MachineInv;
    var r := Do(k, Close(id));
    forall i | i in r.sems ensures QueueOk(r, i) && ValueOk(r, i) {
      assert QueueOk(k, i) && ValueOk(k, i);
    }
    if id in k.sems && id !in r.sems {
      LastUser(k.sems[id].active, k.m.running);
      assert QueueOk(k, id);
      assert forall pid | pid in k.asleep :: !Sleeps(k, id, pid);
    }
  }

  lemma LastUser(l: seq<int>, pid: int)
    requires pid in l && WithoutFirst(l, pid) == []
    ensures l == [pid]
  {
  }

  /** A wait at a positive value just takes one. */
  lemma TakeKeeps(k: Kernel, id: int, rsp: int)
    requires SemInv(k) && Legal(k, Wait(id, rsp)) && id in k.sems && k.sems[id].value > 0
    ensures SemInv(Do(k, Wait(id, rsp)))
  {
    hide MachineInv;
    var r := Do(k, Wait(id, rsp));
    forall i | i in r.sems ensures QueueOk(r, i) && ValueOk(r, i) {
      assert QueueOk(k, i) && ValueOk(k, i);
    }
  }

  /** A wait at value 0 leaves the process asleep at the end of the queue. */
  lemma SleepKeeps(k: Kernel, id: int, rsp: int)
    requires SemInv(k) && Legal(k, Wait(id, rsp)) && id in k.sems && k.sems[id].value == 0
    ensures SemInv(Do(k, Wait(id, rsp)))
    ensures Sleeps(Do(k, Wait(id, rsp)), id, k.m.running)
  {
    hide MachineInv, Apply;
    var pid := k.m.running;
    var op := BlockOp(pid, rsp);
    var k1 := k.(m := Apply(k.m, op).0, asleep := k.asleep[pid := id],
                 sems := k.sems[id := k.sems[id].(queue := k.sems[id].queue + [pid])]);
    StepKeeps(k.m, op);
    SleepersStay(k, op);
    BlocksItself(k.m, rsp);
    assert pid !in k.asleep by { NothingSleeping(k); }
    NothingToResume(k1);
    assert QueueOk(k, id);
    forall i | i in k1.sems ensures QueueOk(k1, i) && ValueOk(k1, i) {
      assert QueueOk(k, i) && ValueOk(k, i);
      QueueGrows(k, k1, id, pid, i);
    }
  }

  /** One more sleeper, at the end of its queue. */
  lemma QueueGrows(k: Kernel, r: Kernel, id: int, pid: int, i: int)
    requires i in k.sems && id in k.sems && QueueOk(k, i) && pid !in k.asleep && k.sems[id].value == 0
    requires r.asleep == k.asleep[pid := id] && r.sems == k.sems[id := k.sems[id].(queue := k.sems[id].queue + [pid])]
    ensures QueueOk(r, i)
  {
    assert forall p | p in k.sems[i].queue :: Sleeps(k, i, p);
    assert pid !in k.sems[i].queue;
    forall p ensures p in r.sems[i].queue <==> Sleeps(r, i, p) {
      assert p in k.sems[i].queue <==> Sleeps(k, i, p);
    }
  }

  /** One sleeper less, from the front of its queue. */
  lemma QueueShrinks(k: Kernel, r: Kernel, id: int, i: int)
    requires i in k.sems && id in k.sems && QueueOk(k, i) && QueueOk(k, id) && k.sems[id].queue != []
    requires r.asleep == k.asleep - {k.sems[id].queue[0]}
    requires r.sems == k.sems[id := k.sems[id].(queue := k.sems[id].queue[1..])]
    ensures QueueOk(r, i)
  {
    var q := k.sems[id].queue;
    assert Sleeps(k, id, q[0]);
    forall p ensures p in r.sems[i].queue <==> Sleeps(r, i, p) {
      assert p in k.sems[i].queue <==> Sleeps(k, i, p);
      assert p in q <==> p == q[0] || p in q[1..];
    }
  }

  lemma NothingSleeping(k: Kernel)
    requires MachineInv(k.m) && SleepersBlocked(k)
    ensures k.m.running !in k.asleep
  {
    if k.m.running in k.asleep {
      BlockedDoesNotRun(k.m, k.m.running);
    }
  }

  /** A post that finds nobody waiting just adds one. */
  lemma AddKeeps(k: Kernel, id: int, rsp: int)
    requires SemInv(k) && Legal(k, Post(id, rsp)) && id in k.sems && k.sems[id].queue == []
    ensures SemInv(Do(k, Post(id, rsp)))
  {
    hide MachineInv, Apply;
    var op := YieldOp(rsp);
    var k1 := k.(m := Apply(k.m, op).0, sems := k.sems[id := Posted(k.sems[id])], history := CountPost(k.history, id));
    StepKeeps(k.m, op);
    SleepersStay(k, op);
    NothingToResume(k1);
    forall i | i in k1.sems ensures QueueOk(k1, i) && ValueOk(k1, i) {
      assert QueueOk(k, i) && ValueOk(k, i);
    }
  }

  /** A post that finds sleepers hands the processor to the first one, which completes its wait
      before anybody else runs: the value is back at 0. */
  lemma HandOver(k: Kernel, id: int, rsp: int)
    requires SemInv(k) && Legal(k, Post(id, rsp)) && id in k.sems && k.sems[id].queue != []
    ensures var r := Do(k, Post(id, rsp)); var first := k.sems[id].queue[0];
            && r.m.running == first && first !in r.asleep
            && r.asleep == k.asleep - {first}
            && r.sems == k.sems[id := k.sems[id].(queue := k.sems[id].queue[1..])]
            && k.sems[id].value == 0
            && r.history == CountWait(CountPost(k.history, id), id)
  {
    hide MachineInv, Apply;
    var first := k.sems[id].queue[0];
    assert QueueOk(k, id) && ValueOk(k, id);
    assert Sleeps(k, id, first);
    WokenRunsNext(k.m, first, rsp);
  }

  lemma HandOverKeeps(k: Kernel, id: int, rsp: int)
    requires SemInv(k) && Legal(k, Post(id, rsp)) && id in k.sems && k.sems[id].queue != []
    ensures SemInv(Do(k, Post(id, rsp)))
  {
    hide MachineInv, Apply, Do;
    var first := k.sems[id].queue[0];
    var r := Do(k, Post(id, rsp));
    HandOver(k, id, rsp);
    HandOverMachine(k, id, rsp);
    forall i | i in r.sems ensures QueueOk(r, i) && ValueOk(r, i) {
      assert QueueOk(k, i) && ValueOk(k, i) && QueueOk(k, id);
      QueueShrinks(k, r, id, i);
    }
  }

  lemma HandOverMachine(k: Kernel, id: int, rsp: int)
    requires SemInv(k) && Legal(k, Post(id, rsp)) && id in k.sems && k.sems[id].queue != []
    ensures var r := Do(k, Post(id, rsp));
            MachineInv(r.m) && forall pid | pid in k.asleep && pid != k.sems[id].queue[0] :: Has(r.m.s.blocked, pid)
  {
    hide MachineInv, Apply;
    var first := k.sems[id].queue[0];
    var m1 := Apply(k.m, UnblockOp(first)).0;
    assert QueueOk(k, id) && Sleeps(k, id, first);
    StepKeeps(k.m, UnblockOp(first));
    WokenRunsNext(k.m, first, rsp);
    StepKeeps(m1, YieldOp(rsp));
    forall pid | pid in k.asleep && pid != first ensures Has(Apply(m1, YieldOp(rsp)).0.s.blocked, pid) {
      OpLeavesBlocked(k.m, UnblockOp(first), pid);
      OpLeavesBlocked(m1, YieldOp(rsp), pid);
    }
  }

  // ------------------------------------------------------------------ whole runs

  lemma CallKeeps(k: Kernel, c: Call)
    requires SemInv(k) && Legal(k, c)
    ensures SemInv(Do(k, c))
  {
    hide SemInv, Do;
    match c
    case Other(op) => OtherKeeps(k, op);
    case Open(id, value) => OpenKeeps(k, id, value);
    case Close(id) => CloseKeeps(k, id);
    case Wait(id, rsp) => WaitKeeps(k, id, rsp);
    case Post(id, rsp) => PostKeeps(k, id, rsp);
  }

  lemma WaitKeeps(k: Kernel, id: int, rsp: int)
    requires SemInv(k) && Legal(k, Wait(id, rsp))
    ensures SemInv(Do(k, Wait(id, rsp)))
  {
    hide MachineInv, Apply;
    if id in k.sems {
      assert ValueOk(k, id);
      if k.sems[id].value > 0 {
        TakeKeeps(k, id, rsp);
      } else {
        SleepKeeps(k, id, rsp);
      }
    }
  }

  lemma PostKeeps(k: Kernel, id: int, rsp: int)
    requires SemInv(k) && Legal(k, Post(id, rsp))
    ensures SemInv(Do(k, Post(id, rsp)))
  {
    hide MachineInv, Apply;
    if id in k.sems {
      if k.sems[id].queue == [] {
        AddKeeps(k, id, rsp);
      } else {
        HandOverKeeps(k, id, rsp);
      }
    }
  }

  // ------------------------------------------------------------------ calls in segments

  /** A wait is its first segment alone, up to where the caller sleeps: whoever is dispatched
      then has nothing of its own to finish. */
  lemma WaitSegment(k: Kernel, id: int, rsp: int)
    requires SemInv(k) && Legal(k, Wait(id, rsp)) && id in k.sems
    ensures var r := Do(k, Wait(id, rsp)); var sem := k.sems[id]; var pid := k.m.running;
            if sem.value > 0 then r.m == k.m && r.sems == k.sems[id := Taken(sem)]
            else r.m.s == Block(k.m.s, pid, rsp).0 && r.sems == k.sems[id := sem.(queue := sem.queue + [pid])]
  {
    hide MachineInv;
    var sem := k.sems[id];
    assert ValueOk(k, id);
    if sem.value == 0 {
      var pid := k.m.running;
      var k1 := k.(m := Apply(k.m, BlockOp(pid, rsp)).0, asleep := k.asleep[pid := id],
                   sems := k.sems[id := sem.(queue := sem.queue + [pid])]);
      StepKeeps(k.m, BlockOp(pid, rsp));
      SleepersStay(k, BlockOp(pid, rsp));
      BlocksItself(k.m, rsp);
      NothingToResume(k1);
    }
  }

  /** A post is its own segment, up to the yield, and then, if somebody was waiting, the rest of
      the wait of the first in the queue, who is the next to run. */
  lemma PostSegments(k: Kernel, id: int, rsp: int)
    requires SemInv(k) && Legal(k, Post(id, rsp)) && id in k.sems
    ensures var r := Do(k, Post(id, rsp)); var sem := k.sems[id]; var posted := k.sems[id := Posted(sem)];
            if sem.queue == [] then r.m.s == Yield(k.m.s, rsp).0 && r.sems == posted
            else && r.m.s == Yield(Unblock(k.m.s, sem.queue[0]), rsp).0 && r.m.running == sem.queue[0]
                 && r.sems == posted[id := Taken(posted[id])]
  {
    hide MachineInv, Apply;
    var sem := k.sems[id];
    if sem.queue == [] {
      var k1 := k.(m := Apply(k.m, YieldOp(rsp)).0, sems := k.sems[id := Posted(sem)], history := CountPost(k.history, id));
      StepKeeps(k.m, YieldOp(rsp));
      SleepersStay(k, YieldOp(rsp));
      NothingToResume(k1);
      Schedules(k.m, YieldOp(rsp));
    } else {
      var first := sem.queue[0];
      assert QueueOk(k, id) && Sleeps(k, id, first);
      WokenRunsNext(k.m, first, rsp);
      Schedules(k.m, UnblockOp(first));
      Schedules(Apply(k.m, UnblockOp(first)).0, YieldOp(rsp));
    }
  }

  lemma Schedules(m: Machine, op: Op)
    requires MachineInv(m) && LegalOp(m, op)
    ensures op.YieldOp? ==> Apply(m, op).0.s == Yield(m.s, op.rsp).0
    ensures op.UnblockOp? ==> Apply(m, op).0.s == Unblock(m.s, op.pid)
  {
  }

  function BootKernel(): Kernel {
    Kernel(Boot(), map[], map[], map[])
  }

  lemma BootKernelIsSound()
    ensures SemInv(BootKernel())
  {
    BootIsSound();
  }

  /** `end` is reachable from boot by the legal calls `calls`. */
  ghost predicate ReachedFromBoot(calls: seq<Call>, end: Kernel) {
    BootKernelIsSound(); Reaches(BootKernel(), calls, end)
  }

  ghost predicate Reaches(k: Kernel, calls: seq<Call>, end: Kernel)
    requires SemInv(k)
    decreases |calls|
  {
    if calls == [] then end == k
    else Legal(k, calls[0]) && (CallKeeps(k, calls[0]); Reaches(Do(k, calls[0]), calls[1..], end))
  }

  lemma {:induction false} ReachesKeeps(k: Kernel, calls: seq<Call>, end: Kernel)
    requires SemInv(k) && Reaches(k, calls, end)
    ensures SemInv(end)
    decreases |calls|
  {
    if calls != [] {
      CallKeeps(k, calls[0]);
      ReachesKeeps(Do(k, calls[0]), calls[1..], end);
    }
  }

  /** In every run from boot, whatever the scheduler does in between: a semaphore's value is
      initial + posts - completed waits and never negative, a queue is non-empty only at value
      0, and the processes queued are exactly those asleep on it, all of them blocked. */
  lemma EveryRunCounts(calls: seq<Call>, end: Kernel, id: int)
    requires ReachedFromBoot(calls, end) && id in end.sems
    ensures id in end.history
    ensures 0 <= end.sems[id].value
    ensures end.sems[id].value == end.history[id].initial + end.history[id].posts - end.history[id].waits
    ensures end.sems[id].queue != [] ==> end.sems[id].value == 0
    ensures forall pid :: pid in end.sems[id].queue <==> Sleeps(end, id, pid)
    ensures forall pid | pid in end.sems[id].queue :: Has(end.m.s.blocked, pid) && !Has(end.m.s.ready, pid)
    ensures end.m.running !in end.asleep
  {
    BootKernelIsSound();
    ReachesKeeps(BootKernel(), calls, end);
    assert QueueOk(end, id) && ValueOk(end, id);
    NothingSleeping(end);
    forall pid | pid in end.sems[id].queue ensures Has(end.m.s.blocked, pid) && !Has(end.m.s.ready, pid) {
      assert Sleeps(end, id, pid);
      InOneList(end.m.s, end.m.live, pid);
    }
  }

  // ------------------------------------------------------------------ mutual exclusion

  /** Who has completed a wait on semaphore `id` and not posted it since. */
  function Entered(k: Kernel, c: Call, id: int, inside: set<int>): set<int> {
    match c
    case Open(i, _) => if i == id && id !in k.sems then {} else inside
    case Wait(i, _) => if i == id && id in k.sems && k.sems[id].value > 0 then inside + {k.m.running} else inside
    case Post(i, _) =>
      if i == id && id in k.sems then
        inside - {k.m.running} + (if k.sems[id].queue == [] then {} else {k.sems[id].queue[0]})
      else inside
    case _ => inside
  }

  /** The semaphore starts at 1; one waits outside, and posts inside. */
  predicate Disciplined(k: Kernel, c: Call, id: int, inside: set<int>) {
    match c
    case Open(i, value) => i == id && id !in k.sems ==> value == 1
    case Wait(i, _) => i == id ==> k.m.running !in inside
    case Post(i, _) => i == id ==> k.m.running in inside
    case _ => true
  }

  /** One is inside, or the value is 1. */
  predicate Admits(sem: Sem, inside: set<int>) {
    0 <= sem.value && |inside| + sem.value == 1 && forall pid | pid in sem.queue :: pid !in inside
  }

  predicate OneInside(k: Kernel, id: int, inside: set<int>) {
    id in k.sems ==> Admits(k.sems[id], inside)
  }

  lemma WaitEntered(k: Kernel, i: int, rsp: int, id: int, inside: set<int>)
    requires SemInv(k) && Legal(k, Wait(i, rsp)) && i in k.sems
    requires Disciplined(k, Wait(i, rsp), id, inside) && OneInside(k, id, inside)
    ensures OneInside(Do(k, Wait(i, rsp)), id, Entered(k, Wait(i, rsp), id, inside))
  {
    hide SemInv, Do, Legal;
    WaitSegment(k, i, rsp);
    QueueFacts(k, i);
  }

  lemma PostAdmits(sem: Sem, pid: int, inside: set<int>)
    requires Admits(sem, inside) && pid in inside && NoRepeats(sem.queue)
    ensures sem.queue == [] ==> Admits(Posted(sem), inside - {pid})
    ensures sem.queue != [] ==> Admits(sem.(queue := sem.queue[1..]), inside - {pid} + {sem.queue[0]})
  {
    OnlyOne(inside, pid);
    assert inside - {pid} == {};
    if sem.queue != [] {
      assert inside - {pid} + {sem.queue[0]} == {sem.queue[0]};
    }
  }

  lemma PostEntered(k: Kernel, i: int, rsp: int, id: int, inside: set<int>)
    requires SemInv(k) && Legal(k, Post(i, rsp)) && i in k.sems
    requires Disciplined(k, Post(i, rsp), id, inside) && OneInside(k, id, inside)
    ensures OneInside(Do(k, Post(i, rsp)), id, Entered(k, Post(i, rsp), id, inside))
  {
    hide SemInv, Do, Legal, Admits;
    var sem := k.sems[i];
    PostSegments(k, i, rsp);
    QueueFacts(k, i);
    if sem.queue != [] {
      HandOver(k, i, rsp);
    }
    if i == id {
      PostAdmits(sem, k.m.running, inside);
      assert inside - {k.m.running} + {} == inside - {k.m.running};
    }
  }

  lemma EnteredKeeps(k: Kernel, c: Call, id: int, inside: set<int>)
    requires SemInv(k) && Legal(k, c) && Disciplined(k, c, id, inside) && OneInside(k, id, inside)
    ensures OneInside(Do(k, c), id, Entered(k, c, id, inside))
  {
    hide MachineInv, Apply, QueueOk, ValueOk;
    match c
    case Other(op) =>
      StepKeeps(k.m, op);
      SleepersStay(k, op);
      NothingToResume(k.(m := Apply(k.m, op).0));
    case Open(i, value) =>
    case Close(i) =>
    case Wait(i, rsp) =>
      if i in k.sems {
        WaitEntered(k, i, rsp, id, inside);
      }
    case Post(i, rsp) =>
      if i in k.sems {
        PostEntered(k, i, rsp, id, inside);
      }
  }

  lemma QueueFacts(k: Kernel, id: int)
    requires SemInv(k) && id in k.sems
    ensures NoRepeats(k.sems[id].queue) && (k.sems[id].queue != [] ==> k.sems[id].value == 0)
  {
    assert QueueOk(k, id);
  }

  lemma OnlyOne(inside: set<int>, pid: int)
    requires pid in inside && |inside| <= 1
    ensures inside == {pid}
  {
    assert |inside - {pid}| == 0;
  }

  /** `end` is reached by legal calls, disciplined as to `id`, and `left` is who is inside then. */
  ghost predicate Excludes(k: Kernel, calls: seq<Call>, end: Kernel, id: int, inside: set<int>, left: set<int>)
    requires SemInv(k)
    decreases |calls|
  {
    if calls == [] then end == k && left == inside
    else && Legal(k, calls[0]) && Disciplined(k, calls[0], id, inside)
         && (CallKeeps(k, calls[0]); Excludes(Do(k, calls[0]), calls[1..], end, id, Entered(k, calls[0], id, inside), left))
  }

  lemma {:induction false} ExcludesKeeps(k: Kernel, calls: seq<Call>, end: Kernel, id: int, inside: set<int>, left: set<int>)
    requires SemInv(k) && Excludes(k, calls, end, id, inside, left) && OneInside(k, id, inside)
    ensures OneInside(end, id, left)
    decreases |calls|
  {
    hide OneInside, SemInv, Do;
    if calls != [] {
      CallKeeps(k, calls[0]);
      EnteredKeeps(k, calls[0], id, inside);
      ExcludesKeeps(Do(k, calls[0]), calls[1..], end, id, Entered(k, calls[0], id, inside), left);
    }
  }

  /** A semaphore that starts at 1, and is posted only by who is inside, lets one in at a time;
      its value is 0 exactly while somebody is. */
  lemma MutexAdmitsOne(calls: seq<Call>, end: Kernel, id: int, inside: set<int>, p: int, q: int)
    requires (BootKernelIsSound(); Excludes(BootKernel(), calls, end, id, {}, inside)) && id in end.sems
    ensures p in inside && q in inside ==> p == q
    ensures end.sems[id].value == 0 <==> inside != {}
  {
    BootKernelIsSound();
    ExcludesKeeps(BootKernel(), calls, end, id, {}, inside);
    if p in inside {
      OnlyOne(inside, p);
    }
  }

  // ------------------------------------------------------------------ opening and closing

  /** Who has opened semaphore `id` and not closed it since. */
  function UsersAfter(k: Kernel, c: Call, id: int, users: set<int>): set<int> {
    match c
    case Open(i, _) => if i == id then users + {k.m.running} else users
    case Close(i) => if i == id then users - {k.m.running} else users
    case _ => users
  }

  /** The list holds each of the users once. */
  ghost predicate ListsUsers(active: seq<int>, users: set<int>) {
    && NoRepeats(active) && (forall i | 0 <= i < |active| :: active[i] in users)
    && forall pid | pid in users :: pid in active
  }

  /** The semaphore exists while it has users, and lists them. */
  ghost predicate Used(k: Kernel, id: int, users: set<int>) {
    (id in k.sems <==> users != {}) && (id in k.sems ==> ListsUsers(k.sems[id].active, users))
  }

  lemma OpenUsed(k: Kernel, i: int, value: int, id: int, users: set<int>)
    requires SemInv(k) && Legal(k, Open(i, value)) && Used(k, id, users)
    ensures Used(Do(k, Open(i, value)), id, UsersAfter(k, Open(i, value), id, users))
  {
    hide SemInv, MachineInv;
    if i == id {
      var pid := k.m.running;
      assert pid in users + {pid};
      if id in k.sems && pid in k.sems[id].active {
        assert users + {pid} == users by { ListedUser(k.sems[id].active, users, pid); }
      } else if id in k.sems {
        OneMoreUser(k.sems[id].active, users, pid);
      }
    }
  }

  lemma ListedUser(active: seq<int>, users: set<int>, pid: int)
    requires ListsUsers(active, users) && pid in active
    ensures pid in users
  {
    var i :| 0 <= i < |active| && active[i] == pid;
  }

  lemma OneMoreUser(active: seq<int>, users: set<int>, pid: int)
    requires ListsUsers(active, users) && pid !in active
    ensures ListsUsers(active + [pid], users + {pid})
  {
    var l := active + [pid];
    assert l[|active|] == pid;
    forall p | p in users + {pid} ensures p in l {
      assert p != pid ==> p in active;
    }
  }

  lemma OneUserLess(active: seq<int>, users: set<int>, pid: int)
    requires ListsUsers(active, users) && pid in active
    ensures ListsUsers(WithoutFirst(active, pid), users - {pid})
  {
    var l := WithoutFirst(active, pid);
    WithoutFirstIs(active, pid);
    forall i | 0 <= i < |l| ensures l[i] in users - {pid} {
      RestAt(active, pid, i);
      ListedUser(active, users, l[i]);
    }
    forall p | p in users - {pid} ensures p in l {
      assert p in active;
    }
  }

  lemma CloseUsed(k: Kernel, i: int, id: int, users: set<int>)
    requires SemInv(k) && Legal(k, Close(i)) && Used(k, id, users)
    ensures Used(Do(k, Close(i)), id, UsersAfter(k, Close(i), id, users))
  {
    hide SemInv, MachineInv, ListsUsers, NoRepeats;
    if i == id && id in k.sems {
      var pid := k.m.running;
      var active := k.sems[id].active;
      if pid in active {
        OneUserLess(active, users, pid);
        NobodyLeft(WithoutFirst(active, pid), users - {pid});
      } else {
        assert users - {pid} == users by { NoUser(active, users, pid); }
      }
    }
  }

  lemma NoUser(active: seq<int>, users: set<int>, pid: int)
    requires ListsUsers(active, users) && pid !in active
    ensures pid !in users
  {
  }

  lemma NobodyLeft(l: seq<int>, users: set<int>)
    requires ListsUsers(l, users)
    ensures l == [] <==> users == {}
  {
    if l == [] {
      forall p ensures p !in users {
      }
    } else {
      assert l[0] in users;
    }
  }

  /** Waiting and posting leaves the users alone. */
  lemma SameUsers(k: Kernel, r: Kernel, id: int, users: set<int>)
    requires Used(k, id, users) && (id in r.sems <==> id in k.sems)
    requires id in k.sems ==> r.sems[id].active == k.sems[id].active
    ensures Used(r, id, users)
  {
  }

  lemma WaitSameUsers(k: Kernel, i: int, rsp: int, id: int)
    requires SemInv(k) && Legal(k, Wait(i, rsp))
    ensures var r := Do(k, Wait(i, rsp));
            (id in r.sems <==> id in k.sems) && (id in k.sems ==> r.sems[id].active == k.sems[id].active)
  {
    hide SemInv, Legal;
    if i in k.sems {
      WaitSegment(k, i, rsp);
    }
  }

  lemma PostSameUsers(k: Kernel, i: int, rsp: int, id: int)
    requires SemInv(k) && Legal(k, Post(i, rsp))
    ensures var r := Do(k, Post(i, rsp));
            (id in r.sems <==> id in k.sems) && (id in k.sems ==> r.sems[id].active == k.sems[id].active)
  {
    hide SemInv, Legal;
    if i in k.sems {
      PostSegments(k, i, rsp);
    }
  }

  lemma CallUsed(k: Kernel, c: Call, id: int, users: set<int>)
    requires SemInv(k) && Legal(k, c) && Used(k, id, users)
    ensures Used(Do(k, c), id, UsersAfter(k, c, id, users))
  {
    hide SemInv, Legal, Do, Used;
    match c
    case Open(i, value) => OpenUsed(k, i, value, id, users);
    case Close(i) => CloseUsed(k, i, id, users);
    case Other(op) =>
      OtherLeavesSems(k, op);
      SameUsers(k, Do(k, c), id, users);
    case Wait(i, rsp) =>
      WaitSameUsers(k, i, rsp, id);
      SameUsers(k, Do(k, c), id, users);
    case Post(i, rsp) =>
      PostSameUsers(k, i, rsp, id);
      SameUsers(k, Do(k, c), id, users);
  }

  lemma OtherLeavesSems(k: Kernel, op: Op)
    requires SemInv(k) && Legal(k, Other(op))
    ensures Do(k, Other(op)).sems == k.sems
  {
    hide MachineInv, Apply;
    StepKeeps(k.m, op);
    SleepersStay(k, op);
    NothingToResume(k.(m := Apply(k.m, op).0));
  }

  /** `end` is reached by legal calls, and `left` has semaphore `id` open then. */
  ghost predicate Opens(k: Kernel, calls: seq<Call>, end: Kernel, id: int, users: set<int>, left: set<int>)
    requires SemInv(k)
    decreases |calls|
  {
    if calls == [] then end == k && left == users
    else Legal(k, calls[0])
         && (CallKeeps(k, calls[0]); Opens(Do(k, calls[0]), calls[1..], end, id, UsersAfter(k, calls[0], id, users), left))
  }

  lemma {:induction false} OpensUsed(k: Kernel, calls: seq<Call>, end: Kernel, id: int, users: set<int>, left: set<int>)
    requires SemInv(k) && Opens(k, calls, end, id, users, left) && Used(k, id, users)
    ensures SemInv(end) && Used(end, id, left)
    decreases |calls|
  {
    hide Used, SemInv, Do;
    if calls != [] {
      CallKeeps(k, calls[0]);
      CallUsed(k, calls[0], id, users);
      OpensUsed(Do(k, calls[0]), calls[1..], end, id, UsersAfter(k, calls[0], id, users), left);
    }
  }

  /** In every run from boot, a semaphore exists exactly while some process has it open, and its
      list of users holds exactly these, each once. */
  lemma ExistsWhileOpen(calls: seq<Call>, end: Kernel, id: int, users: set<int>)
    requires (BootKernelIsSound(); Opens(BootKernel(), calls, end, id, {}, users))
    ensures id in end.sems <==> users != {}
    ensures id in end.sems ==> NoRepeats(end.sems[id].active) && forall pid :: pid in end.sems[id].active <==> pid in users
  {
    BootKernelIsSound();
    OpensUsed(BootKernel(), calls, end, id, {}, users);
    if id in end.sems {
      forall pid ensures pid in end.sems[id].active <==> pid in users {
        if pid in end.sems[id].active {
          ListedUser(end.sems[id].active, users, pid);
        }
      }
    }
  }

  /** So an open starts a semaphore with the value asked for, and nobody waiting, exactly if
      nobody has it open; otherwise value and queue stay. */
  lemma OpenStartsAnew(calls: seq<Call>, end: Kernel, id: int, users: set<int>, value: int)
    requires (BootKernelIsSound(); Opens(BootKernel(), calls, end, id, {}, users))
    requires Legal(end, Open(id, value))
    ensures SemInv(end)
    ensures var r := Do(end, Open(id, value));
            && id in r.sems && (id in end.sems <==> users != {})
            && if users == {} then r.sems[id] == Sem(value, [], [end.m.running])
               else r.sems[id] == end.sems[id].(active := r.sems[id].active)
  {
    BootKernelIsSound();
    OpensUsed(BootKernel(), calls, end, id, {}, users);
  }

  lemma InOneList(s: Sched, live: set<int>, pid: int)
    requires Partition(s, live) && Has(s.blocked, pid)
    ensures !Has(s.ready, pid)
  {
    CountHas(s.ready, pid);
    CountHas(s.blocked, pid);
    assert (Count(s.ready) + Count(s.blocked))[pid] <= multiset(live)[pid];
  }
}
