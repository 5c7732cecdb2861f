// The semaphore table as the kernel keeps it, changed in place, on top of the scheduler.
module SemaphoreTable {
  import S = SchedulerSpec
  import opened Lists
  import opened Scheduler
  import opened Semaphores

  class Semaphore {
    const id: int
    var value: int
    var active: seq<int>
    var queue: seq<int>

    constructor (id: int, value: int)
      ensures this.id == id && this.value == value && active == [] && queue == []
    {
      this.id, this.value := id, value;
      active, queue := [], [];
    }

    ghost function Value(): Sem
      reads this
    {
      Sem(value, queue, active)
    }

    /** Nobody is twice among those who opened the semaphore. */
    method AddActive(pid: int)
      modifies this
      ensures Value() == old(Value()).(active := if pid in old(active) then old(active) else old(active) + [pid])
    {
      var i := 0;
      while i < |active|
        invariant 0 <= i <= |active| && pid !in active[..i] && Value() == old(Value())
      {
        if active[i] == pid {
          return;
        }
        i := i + 1;
      }
      active := active + [pid];
    }

    method IsActive(pid: int) returns (b: bool)
      ensures b <==> pid in active
    {
      var i := 0;
      while i < |active|
        invariant 0 <= i <= |active| && pid !in active[..i]
      {
        if active[i] == pid {
          return true;
        }
        i := i + 1;
      }
      return false;
    }

    method RemoveActive(pid: int)
      modifies this
      ensures Value() == old(Value()).(active := WithoutFirst(old(active), pid))
    {
      var i := 0;
      while i < |active|
        invariant 0 <= i <= |active| && pid !in active[..i] && Value() == old(Value())
      {
        if active[i] == pid {
          FirstGone(active, pid, i);
          active := active[..i] + active[i + 1..];
          return;
        }
        i := i + 1;
      }
      NoneGone(active, pid);
    }
  }

  // ------------------------------------------------------------------ the table

  function IndexOf(l: seq<Semaphore>, id: int): (i: nat)
    ensures i <= |l|
    ensures forall j | 0 <= j < i :: l[j].id != id
    ensures i < |l| ==> l[i].id == id
  {
    if l == [] || l[0].id == id then 0 else 1 + IndexOf(l[1..], id)
  }

  ghost predicate Unique(l: seq<Semaphore>) {
    forall i, j | 0 <= i < j < |l| :: l[i].id != l[j].id
  }

  /** What a list of semaphores means: the semaphores by name. */
  ghost function Table(l: seq<Semaphore>): map<int, Sem>
    reads l
  {
    map id | id in (set s | s in l :: s.id) && IndexOf(l, id) < |l| :: l[IndexOf(l, id)].Value()
  }

  lemma InTable(l: seq<Semaphore>, id: int)
    ensures id in Table(l) <==> IndexOf(l, id) < |l|
    ensures IndexOf(l, id) < |l| ==> Table(l)[id] == l[IndexOf(l, id)].Value()
  {
    if IndexOf(l, id) < |l| {
      assert l[IndexOf(l, id)] in l;
    }
  }

  lemma TableIs(l: seq<Semaphore>)
    ensures forall id :: id in Table(l) <==> IndexOf(l, id) < |l|
    ensures forall id | id in Table(l) :: Table(l)[id] == l[IndexOf(l, id)].Value()
  {
    forall id ensures id in Table(l) <==> IndexOf(l, id) < |l| {
      InTable(l, id);
    }
    forall id | id in Table(l) ensures Table(l)[id] == l[IndexOf(l, id)].Value() {
      InTable(l, id);
    }
  }

  lemma IndexIs(l: seq<Semaphore>, id: int, i: nat)
    requires Unique(l) && i < |l| && l[i].id == id
    ensures IndexOf(l, id) == i
  {
  }

  /** One semaphore of the list has changed from what it was in table `t`. */
  lemma TableUpdated(l: seq<Semaphore>, t: map<int, Sem>, i: nat)
    requires i < |l| && Unique(l)
    requires forall id :: id in t <==> IndexOf(l, id) < |l|
    requires forall id | id in t && id != l[i].id :: l[IndexOf(l, id)].Value() == t[id]
    ensures Table(l) == t[l[i].id := l[i].Value()]
  {
    IndexIs(l, l[i].id, i);
    forall id ensures id in Table(l) <==> id in t[l[i].id := l[i].Value()] {
      InTable(l, id);
    }
    forall id | id in Table(l) ensures Table(l)[id] == t[l[i].id := l[i].Value()][id] {
      InTable(l, id);
    }
  }

  lemma TableAppended(l: seq<Semaphore>, n: Semaphore)
    requires Unique(l) && n.id !in Table(l)
    ensures Unique(l + [n]) && Table(l + [n]) == Table(l)[n.id := n.Value()]
  {
    hide Table, IndexOf;
    InTable(l, n.id);
    var r := l + [n];
    forall id ensures IndexOf(r, id) == if IndexOf(l, id) < |l| || id == n.id then IndexOf(l, id) else |r| {
      IndexAppended(l, n, id);
    }
    forall id ensures id in Table(r) <==> id in Table(l)[n.id := n.Value()] {
      InTable(l, id);
      InTable(r, id);
    }
    forall id | id in Table(r) ensures Table(r)[id] == Table(l)[n.id := n.Value()][id] {
      InTable(l, id);
      InTable(r, id);
    }
  }

  lemma {:induction false} IndexAppended(l: seq<Semaphore>, n: Semaphore, id: int)
    ensures IndexOf(l + [n], id) == if IndexOf(l, id) < |l| || id == n.id then IndexOf(l, id) else |l| + 1
  {
    if l != [] && l[0].id != id {
      assert (l + [n])[1..] == l[1..] + [n];
      IndexAppended(l[1..], n, id);
    }
  }

  lemma SameAgain(t: map<int, Sem>, id: int)
    requires id in t
    ensures t[id := t[id]] == t
  {
  }

  ghost function Gone(l: seq<Semaphore>, i: nat): (r: seq<Semaphore>)
    requires i < |l|
    ensures |r| == |l| - 1 && forall k | 0 <= k < |r| :: r[k] == l[if k < i then k else k + 1]
  {
    l[..i] + l[i + 1..]
  }

  lemma IndexRemoved(l: seq<Semaphore>, i: nat, id: int)
    requires Unique(l) && i < |l|
    ensures var r := Gone(l, i); var k := IndexOf(l, id);
            Unique(r) && IndexOf(r, id) == if k == i || k == |l| then |r| else if k < i then k else k - 1
  {
    hide Gone;
    var r := Gone(l, i);
    var k := IndexOf(l, id);
    assert Unique(r);
    if k != i && k < |l| {
      IndexIs(r, id, if k < i then k else k - 1);
    } else {
      assert forall j | 0 <= j < |r| :: r[j].id != id;
    }
  }

  lemma TableRemoved(l: seq<Semaphore>, i: nat)
    requires Unique(l) && i < |l|
    ensures Unique(Gone(l, i)) && Table(Gone(l, i)) == Table(l) - {l[i].id}
  {
    hide Gone, Unique, Table;
    var r := Gone(l, i);
    IndexIs(l, l[i].id, i);
    forall id ensures id in Table(r) <==> id in Table(l) - {l[i].id} {
      InTable(l, id);
      InTable(r, id);
      IndexRemoved(l, i, id);
    }
    forall id | id in Table(r) ensures Table(r)[id] == Table(l)[id] {
      InTable(l, id);
      InTable(r, id);
      IndexRemoved(l, i, id);
    }
    IndexRemoved(l, i, l[i].id);
  }

  class SemaphoreTable {
    var semList: seq<Semaphore>
    const scheduler: Scheduler

    constructor (scheduler: Scheduler)
      ensures this.scheduler == scheduler && semList == []
    {
      this.scheduler := scheduler;
      semList := [];
    }

    ghost predicate Valid()
      reads this, scheduler, scheduler.ring`next, scheduler.ring`prev, scheduler.blocked`next, scheduler.blocked`prev
    {
      scheduler.Valid() && Unique(semList)
    }

    ghost function Sems(): map<int, Sem>
      reads this, semList
    {
      Table(semList)
    }

    /** Process that calls. */
    ghost function Caller(): int
      requires scheduler.ring != []
      reads scheduler, scheduler.ring
    {
      scheduler.ring[0].proc.pid
    }

    method GetPID() returns (pid: int)
      requires scheduler.Valid() && scheduler.ring != []
      ensures pid == Caller()
    {
      scheduler.Ends();
      pid := scheduler.current.proc.pid;
    }

    method Search(id: int) returns (s: Semaphore?)
      ensures s == null <==> id !in Sems()
      ensures s != null ==> s in semList && s.id == id && s == semList[IndexOf(semList, id)] && Sems()[id] == s.Value()
    {
      InTable(semList, id);
      var i := 0;
      while i < |semList|
        invariant 0 <= i <= |semList| && forall j | 0 <= j < i :: semList[j].id != id
      {
        if semList[i].id == id {
          assert IndexOf(semList, id) == i;
          return semList[i];
        }
        i := i + 1;
      }
      return null;
    }

    /** Process `pid` joins or leaves the users of semaphore `s`. */
    method Enter(s: Semaphore, pid: int)
      requires Valid() && s in semList && s == semList[IndexOf(semList, s.id)] && s.id in Sems()
      modifies s
      ensures Valid()
      ensures Sems() == Opened(old(Sems()), s.id, 0, pid)
    {
      hide Table, Unique, Scheduler.Valid;
      TableIs(semList);
      s.AddActive(pid);
      TableUpdated(semList, old(Sems()), IndexOf(semList, s.id));
      SameAgain(old(Sems()), s.id);
    }

    method Leave(s: Semaphore, pid: int)
      requires Valid() && s in semList && s == semList[IndexOf(semList, s.id)] && s.id in Sems()
      modifies s
      ensures Valid() && s.active == WithoutFirst(old(s.active), pid)
      ensures Sems() == old(Sems())[s.id := old(Sems())[s.id].(active := s.active)]
    {
      hide Table, Unique, Scheduler.Valid;
      TableIs(semList);
      s.RemoveActive(pid);
      TableUpdated(semList, old(Sems()), IndexOf(semList, s.id));
    }

    /** Code 1 for a new semaphore, 0 for an open one, -1 when memory runs out. */
    method Open(id: int, value: int, memory: bool) returns (code: int)
      requires Valid() && scheduler.ring != []
      modifies this, semList
      ensures Valid()
      ensures code == if id in old(Sems()) then 0 else if memory then 1 else -1
      ensures Sems() == if code == -1 then old(Sems()) else Opened(old(Sems()), id, value, old(Caller()))
    {
      hide Table, Unique, Scheduler.Valid;
      var pid := GetPID();
      var s := Search(id);
      if s != null {
        Enter(s, pid);
        code := 0;
      } else if memory {
        s := new Semaphore(id, value);
        s.AddActive(pid);
        assert s.Value() == Sem(value, [], [pid]);
        TableAppended(semList, s);
        semList := semList + [s];
        code := 1;
      } else {
        code := -1;
      }
    }

    method Remove(id: int)
      requires Valid() && id in Sems()
      modifies this`semList
      ensures Valid() && Sems() == old(Sems()) - {id}
    {
      hide Table;
      InTable(semList, id);
      var i := 0;
      while semList[i].id != id
        invariant 0 <= i < |semList| && forall j | 0 <= j < i :: semList[j].id != id
        invariant semList == old(semList)
        decreases |semList| - i
      {
        assert IndexOf(semList, id) != i;
        i := i + 1;
      }
      TableRemoved(semList, i);
      ghost var rest := Gone(semList, i);
      semList := semList[..i] + semList[i + 1..];
      assert semList == rest;
    }

    /** The caller leaves; the last one takes the semaphore along. */
    method Close(id: int) returns (code: int)
      requires Valid() && scheduler.ring != []
      modifies this`semList, semList
      ensures Valid() && Sems() == Closed(old(Sems()), id, Caller())
      ensures code == if id !in old(Sems()) then -1 else if Caller() !in old(Sems())[id].active then -2 else 1
    {
      hide Table, Unique, IndexOf, Scheduler.Valid;
      var pid := GetPID();
      var s := Search(id);
      if s == null {
        return -1;
      }
      var active := s.IsActive(pid);
      if !active {
        return -2;
      }
      code := 1;
      Leave(s, pid);
      if |s.active| == 0 {
        ghost var t := Sems();
        Remove(id);
        assert t - {id} == old(Sems()) - {id};
      }
    }

    // ------------------------------------------------------------ waiting and posting

    /** Takes one from semaphore `s`. */
    method Take(s: Semaphore)
      requires Valid() && s in semList && s == semList[IndexOf(semList, s.id)] && s.id in Sems()
      modifies s
      ensures Valid() && Sems() == old(Sems())[s.id := Taken(old(Sems())[s.id])]
    {
      hide Table;
      TableIs(semList);
      s.value := (s.value - 1) % S.WORD;
      TableUpdated(semList, old(Sems()), IndexOf(semList, s.id));
    }

    /** The caller's wait up to the point where it sleeps, if it does; `sp` is then where the
        processor continues, and `Take` what the caller does when it runs again. */
    method Wait(id: int, rsp: int) returns (code: int, sp: int)
      requires Valid() && scheduler.ring != []
      modifies semList, scheduler, scheduler.ring, scheduler.blocked
      ensures Valid() && code == if id in old(Sems()) then 0 else -1
      ensures id !in old(Sems()) ==> Sems() == old(Sems()) && scheduler.State() == old(scheduler.State()) && sp == rsp
      ensures id in old(Sems()) && old(Sems())[id].value > 0 ==>
                Sems() == old(Sems())[id := Taken(old(Sems())[id])]
                && scheduler.State() == old(scheduler.State()) && sp == rsp
      ensures id in old(Sems()) && old(Sems())[id].value <= 0 ==>
                var sem := old(Sems())[id];
                Sems() == old(Sems())[id := sem.(queue := sem.queue + [old(Caller())])]
                && (scheduler.State(), sp) == S.Block(old(scheduler.State()), old(Caller()), rsp)
    {
      hide Table;
      code, sp := -1, rsp;
      var s := Search(id);
      if s != null {
        code := 0;
        if s.value > 0 {
          Take(s);
        } else {
          sp := Sleep(s, rsp);
        }
      }
    }

    method Sleep(s: Semaphore, rsp: int) returns (sp: int)
      requires Valid() && scheduler.ring != []
      requires s in semList && s == semList[IndexOf(semList, s.id)] && s.id in Sems()
      modifies s, scheduler, scheduler.ring, scheduler.blocked
      ensures Valid()
      ensures var sem := old(Sems())[s.id];
              Sems() == old(Sems())[s.id := sem.(queue := sem.queue + [old(Caller())])]
      ensures (scheduler.State(), sp) == S.Block(old(scheduler.State()), old(Caller()), rsp)
    {
      hide Table, S.Block, IndexOf, Unique, Scheduler.Valid;
      TableIs(semList);
      var pid := GetPID();
      s.queue := s.queue + [pid];
      TableUpdated(semList, old(Sems()), IndexOf(semList, s.id));
      var code;
      code, sp := scheduler.BlockProcess(pid, rsp);
    }

    /** Adds one and takes the first sleeper, if any, out of the queue. */
    method AddAndPop(s: Semaphore) returns (found: bool, pid: int)
      requires Valid() && s in semList && s == semList[IndexOf(semList, s.id)] && s.id in Sems()
      modifies s
      ensures Valid() && Sems() == old(Sems())[s.id := Posted(old(Sems())[s.id])]
      ensures found <==> old(Sems())[s.id].queue != []
      ensures found ==> pid == old(Sems())[s.id].queue[0]
    {
      hide Table;
      TableIs(semList);
      s.value := (s.value + 1) % S.WORD;
      found, pid := |s.queue| > 0, -1;
      if found {
        pid := s.queue[0];
        s.queue := s.queue[1..];
      }
      TableUpdated(semList, old(Sems()), IndexOf(semList, s.id));
    }

    /** Adds one, wakes the first sleeper and yields. */
    method Post(id: int, rsp: int) returns (code: int, sp: int)
      requires Valid() && scheduler.ring != []
      modifies semList, scheduler, scheduler.ring, scheduler.blocked
      ensures Valid() && code == if id in old(Sems()) then 0 else -1
      ensures id !in old(Sems()) ==> Sems() == old(Sems()) && scheduler.State() == old(scheduler.State()) && sp == rsp
      ensures id in old(Sems()) ==>
                var sem := old(Sems())[id]; var s0 := old(scheduler.State());
                Sems() == old(Sems())[id := Posted(sem)]
                && (scheduler.State(), sp) == S.Yield(if sem.queue == [] then s0 else S.Unblock(s0, sem.queue[0]), rsp)
    {
      hide Table;
      code, sp := -1, rsp;
      var s := Search(id);
      if s != null {
        code := 0;
        var found, pid := AddAndPop(s);
        sp := WakeAndYield(found, pid, rsp);
      }
    }

    method WakeAndYield(found: bool, pid: int, rsp: int) returns (sp: int)
      requires Valid() && scheduler.ring != []
      modifies scheduler, scheduler.ring, scheduler.blocked
      ensures Valid()
      ensures var s0 := old(scheduler.State());
              (scheduler.State(), sp) == S.Yield(if found then S.Unblock(s0, pid) else s0, rsp)
    {
      hide S.Yield, S.Unblock;
      if found {
        var code := scheduler.UnblockProcess(pid);
      }
      sp := scheduler.Yield(rsp);
    }
  }
}
