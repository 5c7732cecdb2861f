// The process scheduler on values: what each kernel operation does to the ready ring (whose
// head is the current process), to the blocked list and to the idle context.
module SchedulerSpec {

  const WORD := 0x1_0000_0000_0000_0000

  /** The shell: it cannot be terminated, and gets the foreground back. */
  const SHELL := 1

  datatype ProcState = Ready | Blocked | Terminated

  datatype Proc = Proc(pid: int, state: ProcState, rsp: int, priority: int, credit: int, foreground: bool)

  /** `ready[0]` is the current process; ring order is sequence order. `haltRsp` is the saved
      context of the idle process and `halt` says that it was dispatched last. */
  datatype Sched = Sched(ready: seq<Proc>, blocked: seq<Proc>, haltRsp: int, halt: bool, firstTime: bool)

  // ------------------------------------------------------------------ operations

  function Find(l: seq<Proc>, pid: int): (i: nat)
    ensures i <= |l|
    ensures forall j | 0 <= j < i :: l[j].pid != pid
    ensures i < |l| ==> l[i].pid == pid
  {
    if l == [] || l[0].pid == pid then 0 else 1 + Find(l[1..], pid)
  }

  predicate Has(l: seq<Proc>, pid: int) {
    Find(l, pid) < |l|
  }

  function Drop(l: seq<Proc>, i: nat): seq<Proc>
    requires i < |l|
  {
    l[..i] + l[i + 1..]
  }

  function Refilled(p: Proc): Proc {
    p.(credit := p.priority)
  }

  function Create(s: Sched, p: Proc): Sched {
    if p.pid == 0 then s.(haltRsp := p.rsp) else s.(ready := s.ready + [Refilled(p)])
  }

  /** The i-th ready process goes to the front of the blocked list, with a full credit. */
  function RemoveBlocked(s: Sched, i: nat): Sched
    requires i < |s.ready|
  {
    s.(ready := Drop(s.ready, i), blocked := [Refilled(s.ready[i]).(state := Blocked)] + s.blocked)
  }

  /** The timer interrupt: save the context that ran, and choose the next one. */
  function Saved(s: Sched, rsp: int): Sched
    requires s.halt || s.firstTime || s.ready != []
  {
    var s1 := if s.halt then s.(haltRsp := rsp)
              else if !s.firstTime then s.(ready := s.ready[0 := s.ready[0].(rsp := rsp)])
              else s;
    s1.(halt := false, firstTime := false)
  }

  /** The head leaves the ring if it terminated or blocked, and the ring turns if the head has
      used up its credit. */
  function Turned(s: Sched): Sched
    requires s.ready != []
  {
    var p := s.ready[0];
    if p.state == Terminated then s.(ready := s.ready[1..])
    else if p.state == Blocked then RemoveBlocked(s, 0)
    else if p.credit == 0 then s.(ready := s.ready[1..] + [Refilled(p)])
    else s
  }

  /** Dispatch the head, which pays for its tick, or the idle context. */
  function Dispatched(s: Sched): (Sched, int) {
    if s.ready == [] then (s.(halt := true), s.haltRsp)
    else
      var p := s.ready[0];
      (s.(ready := s.ready[0 := p.(credit := (p.credit - 1) % WORD)]), p.rsp)
  }

  function Tick(s: Sched, rsp: int): (Sched, int)
    requires s.halt || s.firstTime || s.ready != []
  {
    if s.haltRsp == 0 then (s, rsp)
    else
      var s1 := Saved(s, rsp);
      Dispatched(if s1.ready == [] then s1 else Turned(s1))
  }

  function Yield(s: Sched, rsp: int): (Sched, int)
    requires s.ready != []
  {
    Tick(s.(ready := s.ready[0 := s.ready[0].(credit := 0)]), rsp)
  }

  function Block(s: Sched, pid: int, rsp: int): (Sched, int)
    requires s.ready != []
  {
    var i := Find(s.ready, pid);
    if i == 0 then Tick(s.(ready := s.ready[0 := s.ready[0].(state := Blocked)]), rsp)
    else if i < |s.ready| then (RemoveBlocked(s, i), rsp)
    else (s, rsp)
  }

  /** An unblocked process goes right behind the current one. */
  function Unblock(s: Sched, pid: int): (r: Sched)
    ensures |r.ready| >= |s.ready|
    ensures s.ready != [] ==> r.ready[0] == s.ready[0]
  {
    var i := Find(s.blocked, pid);
    if i == |s.blocked| then s
    else
      var p := s.blocked[i].(state := Ready);
      s.(ready := s.ready[..if s.ready == [] then 0 else 1] + [p] + s.ready[if s.ready == [] then 0 else 1..],
         blocked := Drop(s.blocked, i))
  }

  function Marked(l: seq<Proc>, pid: int, foreground: bool): (r: seq<Proc>)
    ensures |r| == |l|
  {
    var i := Find(l, pid);
    if i < |l| then l[i := l[i].(foreground := foreground)] else l
  }

  function SetForeground(s: Sched, pid: int, foreground: bool): Sched {
    if Has(s.ready, pid) then s.(ready := Marked(s.ready, pid, foreground))
    else s.(blocked := Marked(s.blocked, pid, foreground))
  }

  /** A foreground process that dies hands the terminal back to the shell and wakes it. */
  function HandBack(s: Sched, foreground: bool): (r: Sched)
    ensures |r.ready| >= |s.ready|
  {
    if foreground then Unblock(SetForeground(s, SHELL, true), SHELL) else s
  }

  /** Whether ending a process hands the terminal back, which wakes the shell. */
  predicate EndsForeground(s: Sched, pid: int) {
    && pid != SHELL
    && if Has(s.ready, pid) then s.ready[Find(s.ready, pid)].foreground
       else Has(s.blocked, pid) && s.blocked[Find(s.blocked, pid)].foreground
  }

  function Terminate(s: Sched, pid: int, rsp: int): (Sched, int)
    requires s.ready != []
  {
    var i := Find(s.ready, pid);
    var j := Find(s.blocked, pid);
    if pid == SHELL then (s, rsp)
    else if i == 0 then
      var s1 := HandBack(s.(ready := s.ready[0 := s.ready[0].(state := Terminated)]), s.ready[0].foreground);
      Tick(s1, rsp)
    else if i < |s.ready| then
      var s1 := HandBack(s, s.ready[i].foreground);
      var k := Find(s1.ready, pid);
      (if k < |s1.ready| then s1.(ready := Drop(s1.ready, k)) else s1, rsp)
    else if j < |s.blocked| then
      var s1 := HandBack(s, s.blocked[j].foreground);
      var k := Find(s1.blocked, pid);
      (if k < |s1.blocked| then s1.(blocked := Drop(s1.blocked, k)) else s1, rsp)
    else (s, rsp)
  }

  function Reprioritized(l: seq<Proc>, pid: int, priority: int): (r: seq<Proc>)
    ensures |r| == |l|
  {
    var i := Find(l, pid);
    if i < |l| then
      l[i := l[i].(priority := priority, credit := if l[i].credit > priority then priority else l[i].credit)]
    else l
  }

  function ChangePriority(s: Sched, pid: int, priority: int): Sched {
    if Has(s.ready, pid) then s.(ready := Reprioritized(s.ready, pid, priority))
    else s.(blocked := Reprioritized(s.blocked, pid, priority))
  }
}
