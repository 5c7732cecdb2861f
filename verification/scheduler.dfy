// The scheduler as the kernel keeps it: a circular doubly linked ready ring and a doubly linked
// blocked list, changed in place. Each operation is proved against its description on values.
module Scheduler {
  import opened SchedulerSpec

  class ProcessNode {
    var prev: ProcessNode?
    var next: ProcessNode?
    var proc: Proc

    constructor (proc: Proc)
      ensures this.proc == proc
    {
      this.proc := proc;
      prev, next := null, null;
    }
  }

  // ------------------------------------------------------------------ linked lists

  /** In a ring, the links of the last node lead to the first and back. */
  ghost predicate RingAt(l: seq<ProcessNode>, i: int)
    requires 0 <= i < |l|
    reads l`next, l`prev
  {
    && l[i].next == l[if i == |l| - 1 then 0 else i + 1]
    && l[i].prev == l[if i == 0 then |l| - 1 else i - 1]
  }

  ghost predicate ListAt(l: seq<ProcessNode>, i: int)
    requires 0 <= i < |l|
    reads l`next, l`prev
  {
    && l[i].next == (if i == |l| - 1 then null else l[i + 1])
    && l[i].prev == (if i == 0 then null else l[i - 1])
  }

  ghost predicate IsRing(l: seq<ProcessNode>)
    reads l`next, l`prev
  {
    forall i {:trigger RingAt(l, i)} | 0 <= i < |l| :: RingAt(l, i)
  }

  ghost predicate IsList(l: seq<ProcessNode>)
    reads l`next, l`prev
  {
    forall i {:trigger ListAt(l, i)} | 0 <= i < |l| :: ListAt(l, i)
  }

  ghost predicate Distinct(l: seq<ProcessNode>) {
    forall i, j | 0 <= i < j < |l| :: l[i] != l[j]
  }

  ghost predicate Apart(l: seq<ProcessNode>, k: seq<ProcessNode>) {
    forall i, j | 0 <= i < |l| && 0 <= j < |k| :: l[i] != k[j]
  }

  ghost predicate Within(l: seq<ProcessNode>, a: seq<ProcessNode>, b: seq<ProcessNode>) {
    forall i | 0 <= i < |l| :: l[i] in a || l[i] in b
  }

  ghost function Values(l: seq<ProcessNode>): (r: seq<Proc>)
    reads l
    ensures |r| == |l|
  {
    seq(|l|, i requires 0 <= i < |l| reads l => l[i].proc)
  }

  ghost function Without(l: seq<ProcessNode>, i: nat): (r: seq<ProcessNode>)
    requires i < |l|
    ensures |r| == |l| - 1
    ensures forall k | 0 <= k < |r| :: r[k] == l[if k < i then k else k + 1]
  {
    l[..i] + l[i + 1..]
  }

  lemma WithoutApart(l: seq<ProcessNode>, i: nat, k: seq<ProcessNode>)
    requires i < |l| && Distinct(l) && Apart(l, k)
    ensures Distinct(Without(l, i)) && Apart(Without(l, i), k) && Apart(k, Without(l, i))
    ensures l[i] !in Without(l, i) && l[i] !in k && forall j | 0 <= j < |k| :: k[j] !in l
  {
  }

  lemma WithoutHead(l: seq<ProcessNode>, i: nat)
    requires i < |l|
    ensures |l| > 1 ==> Without(l, i)[0] == l[if i == 0 then 1 else 0]
    ensures |l| == 1 ==> Without(l, i) == []
  {
  }

  lemma ValuesWithout(l: seq<ProcessNode>, i: nat)
    requires i < |l|
    ensures Values(Without(l, i)) == Drop(Values(l), i)
  {
  }

  lemma ValuesWith(l: seq<ProcessNode>, k: nat, n: ProcessNode)
    requires k <= |l|
    ensures Values(l[..k] + [n] + l[k..]) == Values(l)[..k] + [n.proc] + Values(l)[k..]
  {
  }

  /** Only the head of a ring has the pid of the head if it is the first with its pid. */
  lemma HeadByPid(l: seq<ProcessNode>, i: nat)
    requires i < |l| && i == Find(Values(l), l[i].proc.pid)
    ensures l[i].proc.pid == l[0].proc.pid <==> i == 0
  {
  }

  lemma WithApart(l: seq<ProcessNode>, i: nat, n: ProcessNode, k: seq<ProcessNode>)
    requires i <= |l| && Distinct(l) && Apart(l, k) && n !in l && n !in k
    ensures var r := l[..i] + [n] + l[i..]; Distinct(r) && Apart(r, k) && Without(r, i) == l
  {
  }

  lemma RingOfOne(n: ProcessNode)
    requires n.next == n && n.prev == n
    ensures IsRing([n])
  {
    assert forall i | 0 <= i < 1 :: RingAt([n], i);
  }

  /** Links node `n`, the k-th of the new ring, behind node `a`. */
  method LinkBehind(a: ProcessNode, n: ProcessNode, ghost r: seq<ProcessNode>, ghost k: nat)
    requires 0 < k < |r| && Distinct(r) && IsRing(Without(r, k)) && r[k] == n && r[k - 1] == a
    modifies r
    ensures IsRing(r) && Values(r) == old(Values(r))
  {
    ghost var l := Without(r, k);
    assert RingAt(l, k - 1);
    n.next, n.prev := a.next, a;
    a.next.prev := n;
    a.next := n;
    forall m | 0 <= m < |r| ensures RingAt(r, m) {
      if m != k {
        assert old(RingAt(l, if m < k then m else m - 1));
      }
    }
  }

  /** Takes the i-th node out of a ring of at least two. */
  method UnlinkFromRing(n: ProcessNode, ghost l: seq<ProcessNode>, ghost i: nat)
    requires i < |l| && |l| > 1 && Distinct(l) && IsRing(l) && l[i] == n
    modifies l
    ensures IsRing(Without(l, i)) && Values(l) == old(Values(l))
    ensures n.next == l[if i == |l| - 1 then 0 else i + 1] && n.proc == old(n.proc)
  {
    ghost var r := Without(l, i);
    assert RingAt(l, i);
    n.prev.next := n.next;
    n.next.prev := n.prev;
    forall k | 0 <= k < |r| ensures RingAt(r, k) {
      var m := if k < i then k else k + 1;
      assert old(RingAt(l, m));
    }
  }

  method UnlinkFromList(n: ProcessNode, isFirst: bool, ghost l: seq<ProcessNode>, ghost i: nat)
    requires i < |l| && Distinct(l) && IsList(l) && l[i] == n && (isFirst <==> i == 0)
    modifies l
    ensures IsList(Without(l, i)) && Values(l) == old(Values(l)) && n.next == old(n.next) && n.proc == old(n.proc)
  {
    ghost var r := Without(l, i);
    assert ListAt(l, i);
    if isFirst {
      if n.next != null {
        n.next.prev := null;
      }
    } else {
      n.prev.next := n.next;
      if n.next != null {
        n.next.prev := n.prev;
      }
    }
    forall k | 0 <= k < |r| ensures ListAt(r, k) {
      var m := if k < i then k else k + 1;
      assert old(ListAt(l, m));
    }
  }

  method PushOnList(n: ProcessNode, first: ProcessNode?, ghost r: seq<ProcessNode>)
    requires r != [] && Distinct(r) && IsList(r[1..]) && r[0] == n && first == if |r| == 1 then null else r[1]
    modifies r
    ensures IsList(r) && Values(r) == old(Values(r))
  {
    n.next, n.prev := first, null;
    if first != null {
      first.prev := n;
    }
    forall k | 0 <= k < |r| ensures ListAt(r, k) {
      if k > 0 {
        assert old(ListAt(r[1..], k - 1));
      }
    }
  }

  // ------------------------------------------------------------------ the scheduler

  class Scheduler {
    var current: ProcessNode?
    var counter: nat
    var first: ProcessNode?
    var haltRsp: int
    var halt: bool
    var firstTime: bool

    ghost var ring: seq<ProcessNode>
    ghost var blocked: seq<ProcessNode>

    ghost predicate Valid()
      reads this, ring`next, ring`prev, blocked`next, blocked`prev
    {
      && IsRing(ring) && IsList(blocked)
      && Distinct(ring) && Distinct(blocked) && Apart(ring, blocked)
      && counter == |ring|
      && current == (if ring == [] then null else ring[0])
      && first == (if blocked == [] then null else blocked[0])
    }

    ghost function State(): Sched
      reads this, ring, blocked
    {
      Sched(Values(ring), Values(blocked), haltRsp, halt, firstTime)
    }

    constructor ()
      ensures Valid() && State() == Sched([], [], 0, false, true) && ring == [] && blocked == []
    {
      current, counter, first := null, 0, null;
      haltRsp, halt, firstTime := 0, false, true;
      ring, blocked := [], [];
    }

    /** Node `n` joins the ring as its k-th node, behind node `a` if there is any. */
    method Join(n: ProcessNode, a: ProcessNode?, ghost k: nat)
      requires Valid() && n !in ring && n !in blocked
      requires if ring == [] then k == 0 else 0 < k <= |ring| && a == ring[k - 1]
      modifies this, ring, blocked, n
      ensures Valid() && ring == old(ring[..k] + [n] + ring[k..]) && blocked == old(blocked)
      ensures Values(ring) == old(Values(ring)[..k] + [n.proc] + Values(ring)[k..])
      ensures Values(blocked) == old(Values(blocked))
      ensures unchanged(`haltRsp) && unchanged(`halt) && unchanged(`firstTime)
    {
      hide IsRing, IsList, Distinct, Values;
      ghost var r := ring[..k] + [n] + ring[k..];
      WithApart(ring, k, n, blocked);
      ValuesWith(ring, k, n);
      if counter == 0 {
        n.next, n.prev := n, n;
        current := n;
        RingOfOne(n);
        assert r == [n];
        ValuesWith(ring, k, n);
      } else {
        LinkBehind(a, n, r, k);
      }
      counter := counter + 1;
      ring := r;
    }

    /** next and prev are mutual inverses around the ring, which has `counter` nodes. */
    lemma RingIsClosed()
      requires Valid()
      ensures forall i | 0 <= i < |ring| ::
                ring[i].next in ring && ring[i].prev in ring && ring[i].next.prev == ring[i] && ring[i].prev.next == ring[i]
      ensures counter == |ring| && (current == null <==> counter == 0)
    {
      forall i | 0 <= i < |ring|
        ensures ring[i].next in ring && ring[i].prev in ring && ring[i].next.prev == ring[i] && ring[i].prev.next == ring[i]
      {
        assert RingAt(ring, i) && RingAt(ring, if i == |ring| - 1 then 0 else i + 1);
        assert RingAt(ring, if i == 0 then |ring| - 1 else i - 1);
      }
    }

    lemma Ends()
      requires Valid()
      ensures counter == |ring|
      ensures current == (if ring == [] then null else ring[0])
      ensures first == (if blocked == [] then null else blocked[0])
      ensures Distinct(ring) && Distinct(blocked) && Apart(ring, blocked)
    {
    }

    /** A new process goes to the end of the ring, just before the current one. */
    method AddProcess(p: Proc, memory: bool) returns (code: int)
      requires Valid()
      modifies this, ring, blocked
      ensures Valid()
      ensures blocked == old(blocked) && forall n | n in ring :: n in old(ring) || fresh(n)
      ensures code == if p.pid == 0 || memory then 0 else -1
      ensures State() == if code == 0 then Create(old(State()), p) else old(State())
    {
      code := 0;
      if p.pid == 0 {
        haltRsp := p.rsp;
      } else if !memory {
        code := -1;
      } else {
        var n := new ProcessNode(p);
        n.proc := n.proc.(credit := p.priority);
        assert ring != [] ==> RingAt(ring, 0);
        Join(n, if counter == 0 then null else current.prev, counter);
      }
    }

    method SearchReady(pid: int) returns (n: ProcessNode?)
      requires Valid()
      ensures var i := Find(State().ready, pid); n == if i < |ring| then ring[i] else null
    {
      var node := current;
      var i := 0;
      while i < counter
        invariant 0 <= i <= |ring|
        invariant ring != [] ==> node == ring[if i == |ring| then 0 else i]
        invariant forall j | 0 <= j < i :: ring[j].proc.pid != pid
      {
        if node.proc.pid == pid {
          FindIs(Values(ring), pid, i);
          return node;
        }
        assert RingAt(ring, i);
        node := node.next;
        i := i + 1;
      }
      FindIs(Values(ring), pid, |ring|);
      return null;
    }

    method SearchBlocked(pid: int) returns (n: ProcessNode?)
      requires Valid()
      ensures var i := Find(State().blocked, pid); n == if i < |blocked| then blocked[i] else null
    {
      n := first;
      ghost var i := 0;
      while n != null
        invariant 0 <= i <= |blocked|
        invariant n == if i == |blocked| then null else blocked[i]
        invariant forall j | 0 <= j < i :: blocked[j].proc.pid != pid
        decreases |blocked| - i
      {
        if n.proc.pid == pid {
          FindIs(Values(blocked), pid, i);
          return;
        }
        assert ListAt(blocked, i);
        n := n.next;
        i := i + 1;
      }
      FindIs(Values(blocked), pid, |blocked|);
    }

    /** Node `n`, the i-th of the ring, leaves it; the current node is passed on to its next. */
    method LeaveRing(n: ProcessNode, ghost i: nat)
      requires Valid() && i < |ring| && n == ring[i] && i == Find(State().ready, n.proc.pid)
      modifies this, ring, blocked
      ensures Valid() && ring == old(Without(ring, i)) && blocked == old(blocked)
      ensures Values(ring) == Drop(old(Values(ring)), i) && Values(blocked) == old(Values(blocked))
      ensures n.proc == old(n.proc) && n !in ring && n !in blocked
      ensures unchanged(`haltRsp) && unchanged(`halt) && unchanged(`firstTime)
    {
      hide IsRing, IsList, Distinct, Apart, RingAt, ListAt, Without, Find, Values, Drop;
      WithoutApart(ring, i, blocked);
      HeadByPid(ring, i);
      WithoutHead(ring, i);
      if n.proc.pid == current.proc.pid {
        if counter > 1 {
          UnlinkFromRing(n, ring, i);
          current := current.next;
        } else {
          EmptyRing();
          current := null;
        }
      } else {
        UnlinkFromRing(n, ring, i);
      }
      counter := counter - 1;
      ValuesWithout(ring, i);
      ring := Without(ring, i);
    }

    /** Node `n` goes to the front of the blocked list. */
    method Push(n: ProcessNode)
      requires Valid() && n !in ring && n !in blocked
      modifies this, ring, blocked, n
      ensures Valid() && ring == old(ring) && blocked == [n] + old(blocked)
      ensures Values(ring) == old(Values(ring)) && Values(blocked) == [n.proc] + old(Values(blocked))
      ensures n.proc == old(n.proc)
      ensures unchanged(`haltRsp) && unchanged(`halt) && unchanged(`firstTime)
    {
      hide IsRing, IsList;
      ghost var r := [n] + blocked;
      assert r[1..] == blocked;
      PushOnList(n, first, r);
      assert Values(r)[0] == old(Values(r))[0];
      first := n;
      blocked := r;
    }

    method RemoveBlocked(n: ProcessNode, ghost i: nat)
      requires Valid() && i < |ring| && n == ring[i] && i == Find(State().ready, n.proc.pid)
      requires n.proc.state == Blocked
      modifies this, ring, blocked
      ensures Valid() && ring == old(Without(ring, i)) && blocked == [n] + old(blocked)
      ensures State() == SchedulerSpec.RemoveBlocked(old(State()), i)
    {
      hide IsRing, IsList, RingAt;
      LeaveRing(n, i);
      n.proc := Refilled(n.proc);
      Push(n);
    }

    /** Node `n`, the i-th of the blocked list, leaves it. */
    method LeaveBlocked(n: ProcessNode, ghost i: nat)
      requires Valid() && i < |blocked| && n == blocked[i] && i == Find(State().blocked, n.proc.pid)
      modifies this, ring, blocked
      ensures Valid() && ring == old(ring) && blocked == old(Without(blocked, i))
      ensures Values(blocked) == Drop(old(Values(blocked)), i) && Values(ring) == old(Values(ring))
      ensures n.proc == old(n.proc) && n !in ring && n !in blocked
      ensures unchanged(`haltRsp) && unchanged(`halt) && unchanged(`firstTime)
    {
      hide IsRing, IsList, Distinct, Find, Values, Drop;
      WithoutApart(blocked, i, ring);
      HeadByPid(blocked, i);
      assert ListAt(blocked, i) by { ListLinks(blocked, i); }
      var isFirst := n.proc.pid == first.proc.pid;
      UnlinkFromList(n, isFirst, blocked, i);
      if isFirst {
        first := n.next;
      }
      ValuesWithout(blocked, i);
      blocked := Without(blocked, i);
    }

    method UnblockProcess(pid: int) returns (code: int)
      requires Valid()
      modifies this, ring, blocked
      ensures Valid()
      ensures State() == Unblock(old(State()), pid)
      ensures code == if Has(old(State().blocked), pid) then 0 else -1
      ensures var i := Find(old(State().blocked), pid); var k := if old(ring) == [] then 0 else 1;
        if i == |old(blocked)| then ring == old(ring) && blocked == old(blocked)
        else ring == old(ring[..k] + [blocked[i]] + ring[k..]) && blocked == Without(old(blocked), i)
    {
      hide Valid, IsRing, IsList, Drop, Unblock, Without;
      code := -1;
      var n := SearchBlocked(pid);
      UnblockIs(State(), pid);
      if n != null {
        ghost var i := Find(State().blocked, pid);
        DropIgnores(State().blocked, i, n.proc.(state := Ready));
        Ends();
        n.proc := n.proc.(state := Ready);
        assert Values(blocked) == old(Values(blocked))[i := n.proc];
        FindIs(Values(blocked), pid, i);
        LeaveBlocked(n, i);
        Ends();
        Join(n, current, if ring == [] then 0 else 1);
        code := 0;
      }
    }

    /** Ready process or blocked process `pid` gets the keyboard, or loses it. */
    method SetBackground(pid: int, foreground: bool) returns (code: int)
      requires Valid()
      modifies ring, blocked
      ensures Valid() && State() == SetForeground(old(State()), pid, foreground)
      ensures code == if Has(old(State().ready), pid) || Has(old(State().blocked), pid) then 0 else -1
    {
      code := -1;
      var n := SearchNode(pid);
      if n != null {
        n.proc := n.proc.(foreground := foreground);
        code := 0;
      }
    }

    method SearchNode(pid: int) returns (n: ProcessNode?)
      requires Valid()
      ensures var i := Find(State().ready, pid); var j := Find(State().blocked, pid);
              n == if i < |ring| then ring[i] else if j < |blocked| then blocked[j] else null
    {
      n := SearchReady(pid);
      if n == null {
        n := SearchBlocked(pid);
      }
    }

    method ChangePriority(pid: int, priority: int) returns (code: int)
      requires Valid()
      modifies ring, blocked
      ensures Valid() && State() == SchedulerSpec.ChangePriority(old(State()), pid, priority)
      ensures code == if Has(old(State().ready), pid) || Has(old(State().blocked), pid) then priority else -1
    {
      hide IsRing, IsList, Find;
      code := -1;
      ghost var i, j := Find(State().ready, pid), Find(State().blocked, pid);
      var n := SearchNode(pid);
      if n != null {
        n.proc := n.proc.(priority := priority);
        if n.proc.credit > priority {
          n.proc := n.proc.(credit := priority);
        }
        code := priority;
        assert i < |ring| ==> Values(ring) == old(Values(ring))[i := n.proc] && Values(blocked) == old(Values(blocked));
        assert i == |ring| ==> Values(ring) == old(Values(ring)) && Values(blocked) == old(Values(blocked))[j := n.proc];
      }
    }

    /** A terminated process leaves the list it is in; its node is given back. */
    method RemoveTerminated(n: ProcessNode, ghost isReady: bool, ghost i: nat)
      requires Valid() && ring != []
      requires isReady ==> i < |ring| && n == ring[i] && i == Find(State().ready, n.proc.pid)
      requires isReady && i > 0 ==> n.proc.state != Blocked
      requires !isReady ==> i < |blocked| && n == blocked[i] && i == Find(State().blocked, n.proc.pid)
      requires !isReady ==> n.proc.state == Blocked && n.proc.pid != ring[0].proc.pid
      modifies this, ring, blocked
      ensures Valid()
      ensures isReady ==> State() == old(State().(ready := Drop(State().ready, i)))
      ensures !isReady ==> State() == old(State().(blocked := Drop(State().blocked, i)))
      ensures ring == if isReady then old(Without(ring, i)) else old(ring)
      ensures blocked == if isReady then old(blocked) else old(Without(blocked, i))
    {
      hide Valid, Drop, Without;
      Ends();
      if isReady {
        HeadByPid(ring, i);
      }
      if n.proc.pid == current.proc.pid {
        LeaveRing(n, i);
      } else if n.proc.state == Blocked {
        LeaveBlocked(n, i);
      } else {
        LeaveRing(n, i);
      }
    }

    // ---------------------------------------------------------------- the timer interrupt

    method Save(rsp: int)
      requires Valid() && (halt || firstTime || ring != [])
      modifies this, ring
      ensures Valid() && State() == Saved(old(State()), rsp)
      ensures ring == old(ring) && blocked == old(blocked)
    {
      Ends();
      if halt {
        haltRsp := rsp;
      } else if !firstTime {
        current.proc := current.proc.(rsp := rsp);
      }
      halt, firstTime := false, false;
    }

    /** The current node stays, leaves, or goes behind all others with a full credit. */
    method Turn()
      requires Valid() && ring != []
      modifies this, ring, blocked
      ensures Valid() && State() == Turned(old(State()))
      ensures Within(ring, old(ring), old(blocked)) && Within(blocked, old(ring), old(blocked))
    {
      hide Valid, IsRing, IsList, Without;
      Ends();
      assert Find(State().ready, current.proc.pid) == 0;
      if current.proc.state == Terminated {
        RemoveTerminated(current, true, 0);
      } else if current.proc.state == Blocked {
        RemoveBlocked(current, 0);
      } else if current.proc.credit == 0 {
        Rotate();
      }
    }

    method Rotate()
      requires Valid() && ring != []
      modifies this, ring
      ensures Valid() && State() == old(State()).(ready := old(State()).ready[1..] + [Refilled(old(State()).ready[0])])
      ensures ring == old(ring[1..] + [ring[0]]) && blocked == old(blocked)
    {
      hide IsList;
      assert RingAt(ring, 0);
      current.proc := current.proc.(credit := current.proc.priority);
      current := current.next;
      RingTurns(ring);
      ring := ring[1..] + [ring[0]];
    }

    method Dispatch() returns (sp: int)
      requires Valid()
      modifies this, ring
      ensures Valid() && (State(), sp) == Dispatched(old(State()))
      ensures ring == old(ring) && blocked == old(blocked)
    {
      Ends();
      if counter == 0 {
        halt := true;
        sp := haltRsp;
      } else {
        current.proc := current.proc.(credit := (current.proc.credit - 1) % WORD);
        assert Values(ring) == old(Values(ring))[0 := current.proc];
        sp := current.proc.rsp;
      }
    }

    /** The timer interrupt: given the interrupted stack pointer, the one to continue at. */
    method Schedule(rsp: int) returns (sp: int)
      requires Valid() && (halt || firstTime || ring != [])
      modifies this, ring, blocked
      ensures Valid() && (State(), sp) == Tick(old(State()), rsp)
      ensures Within(ring, old(ring), old(blocked)) && Within(blocked, old(ring), old(blocked))
    {
      hide Valid, Saved, Turned, Dispatched;
      Ends();
      sp := rsp;
      if haltRsp != 0 {
        Save(rsp);
        Ends();
        if counter != 0 {
          Turn();
        }
        sp := Dispatch();
      }
    }

    method Yield(rsp: int) returns (sp: int)
      requires Valid() && ring != []
      modifies this, ring, blocked
      ensures Valid() && (State(), sp) == SchedulerSpec.Yield(old(State()), rsp)
    {
      Ends();
      current.proc := current.proc.(credit := 0);
      assert Values(ring) == old(Values(ring))[0 := current.proc];
      sp := Schedule(rsp);
    }

    method BlockProcess(pid: int, rsp: int) returns (code: int, sp: int)
      requires Valid() && ring != []
      modifies this, ring, blocked
      ensures Valid() && (State(), sp) == Block(old(State()), pid, rsp)
      ensures code == if Has(old(State().ready), pid) then 0 else -1
    {
      code, sp := -1, rsp;
      if current.proc.pid == pid {
        current.proc := current.proc.(state := Blocked);
        assert Values(ring) == old(Values(ring))[0 := current.proc];
        sp := Schedule(rsp);
        code := 0;
      } else {
        var n := SearchReady(pid);
        if n != null {
          ghost var i := Find(State().ready, pid);
          n.proc := n.proc.(state := Blocked);
          assert Values(ring) == old(Values(ring))[i := n.proc];
          FindIs(Values(ring), pid, i);
          RemoveBlocked(n, i);
          code := 0;
        }
      }
    }

    /** A dying foreground process hands the keyboard back to the shell and wakes it. */
    method GiveBack(foreground: bool)
      requires Valid()
      modifies this, ring, blocked
      ensures Valid() && State() == HandBack(old(State()), foreground)
      ensures Within(ring, old(ring), old(blocked)) && Within(blocked, old(ring), old(blocked))
      ensures var w := Woken(old(State()), foreground); var k := if old(ring) == [] then 0 else 1;
        if w == |old(blocked)| then ring == old(ring) && blocked == old(blocked)
        else ring == old(ring[..k] + [blocked[w]] + ring[k..]) && blocked == Without(old(blocked), w)
    {
      hide Valid;
      if foreground {
        var code := SetBackground(SHELL, true);
        code := UnblockProcess(SHELL);
      }
    }

    method TerminateProcess(pid: int, rsp: int) returns (code: int, sp: int)
      requires Valid() && ring != []
      requires forall i | 0 <= i < |blocked| :: State().blocked[i].state == Blocked
      modifies this, ring, blocked
      ensures Valid() && (State(), sp) == Terminate(old(State()), pid, rsp)
      ensures code == if pid != SHELL && (Has(old(State().ready), pid) || Has(old(State().blocked), pid)) then 0 else -1
    {
      hide Valid, Tick, HandBack, Without, Woken;
      code, sp := -1, rsp;
      Ends();
      if pid != SHELL {
        if current.proc.pid == pid {
          sp := TerminateCurrent(rsp);
          code := 0;
        } else {
          var n := SearchReady(pid);
          if n != null {
            TerminateReady(n, Find(State().ready, pid));
            code := 0;
          } else {
            n := SearchBlocked(pid);
            if n != null {
              TerminateBlocked(n, Find(State().blocked, pid));
              code := 0;
            }
          }
        }
      }
    }

    method TerminateCurrent(rsp: int) returns (sp: int)
      requires Valid() && ring != [] && ring[0].proc.pid != SHELL
      modifies this, ring, blocked
      ensures Valid() && (State(), sp) == Terminate(old(State()), old(ring[0].proc.pid), rsp)
    {
      hide Valid, Tick, HandBack, Without, Woken;
      Ends();
      var foreground := current.proc.foreground;
      current.proc := current.proc.(state := Terminated);
      assert Values(ring) == old(Values(ring))[0 := current.proc];
      GiveBack(foreground);
      sp := Schedule(rsp);
    }

    /** A ready process other than the current one is taken out of the ring. */
    method TerminateReady(n: ProcessNode, ghost i: nat)
      requires Valid() && 0 < i < |ring| && n == ring[i] && i == Find(State().ready, n.proc.pid) && n.proc.pid != SHELL
      modifies this, ring, blocked
      ensures Valid() && forall rsp :: Terminate(old(State()), old(n.proc.pid), rsp) == (State(), rsp)
    {
      hide Valid, HandBack, Without, Woken, Drop, Find, Unblock, SetForeground, Terminate;
      ghost var pid := n.proc.pid;
      HandBackFindsReady(State(), n.proc.foreground, pid);
      TerminateReadyIs(State(), pid);
      GiveBack(n.proc.foreground);
      ghost var k := Find(State().ready, pid);
      assert ring[k] == n && State().ready[k] == n.proc;
      Retire(n, k);
    }

    /** A ready process, marked terminated, leaves the ring. */
    method Retire(n: ProcessNode, ghost k: nat)
      requires Valid() && k < |ring| && n == ring[k] && k == Find(State().ready, n.proc.pid)
      modifies this, ring, blocked
      ensures Valid() && State() == old(State().(ready := Drop(State().ready, k)))
    {
      hide Valid, Drop, Find;
      ghost var l := Values(ring);
      Ends();
      n.proc := n.proc.(state := Terminated);
      assert Values(ring) == l[k := n.proc];
      FindIs(Values(ring), n.proc.pid, k);
      DropIgnores(l, k, n.proc);
      RemoveTerminated(n, true, k);
    }

    method TerminateBlocked(n: ProcessNode, ghost j: nat)
      requires Valid() && ring != [] && j < |blocked| && n == blocked[j] && j == Find(State().blocked, n.proc.pid)
      requires n.proc.pid != SHELL && !Has(State().ready, n.proc.pid) && n.proc.state == Blocked
      modifies this, ring, blocked
      ensures Valid() && forall rsp :: Terminate(old(State()), old(n.proc.pid), rsp) == (State(), rsp)
    {
      hide Valid, HandBack, Without, Woken, Drop, Find, Unblock, SetForeground;
      ghost var pid := n.proc.pid;
      HandBackFindsBlocked(State(), n.proc.foreground, pid);
      GiveBack(n.proc.foreground);
      ghost var k := Find(State().blocked, pid);
      assert blocked[k] == n && State().blocked[k] == n.proc;
      assert State().ready[0] == ring[0].proc;
      RemoveTerminated(n, false, k);
    }
  }

  /** Where in the blocked list the shell is that a dying process wakes; its length if nobody
      is woken. */
  ghost function Woken(s: Sched, foreground: bool): (w: nat)
    ensures w <= |s.blocked|
  {
    if foreground then Find(SetForeground(s, SHELL, true).blocked, SHELL) else |s.blocked|
  }

  lemma UnblockIs(s: Sched, pid: int)
    ensures var i := Find(s.blocked, pid); var k := if s.ready == [] then 0 else 1;
            Unblock(s, pid) == if i == |s.blocked| then s
                               else s.(ready := s.ready[..k] + [s.blocked[i].(state := Ready)] + s.ready[k..],
                                       blocked := Drop(s.blocked, i))
  {
  }

  lemma TerminateReadyIs(s: Sched, pid: int)
    requires pid != SHELL && 0 < Find(s.ready, pid) < |s.ready|
    ensures var s1 := HandBack(s, s.ready[Find(s.ready, pid)].foreground); var k := Find(s1.ready, pid);
            k < |s1.ready| ==> forall rsp :: Terminate(s, pid, rsp) == (s1.(ready := Drop(s1.ready, k)), rsp)
  {
  }

  lemma DropIgnores(l: seq<Proc>, k: nat, p: Proc)
    requires k < |l|
    ensures Drop(l[k := p], k) == Drop(l, k)
  {
  }

  lemma MarkedFinds(l: seq<Proc>, marked: int, foreground: bool, pid: int)
    ensures var i := Find(l, pid); var r := Marked(l, marked, foreground);
            Find(r, pid) == i && (i < |l| ==> r[i].state == l[i].state)
  {
    FindIs(Marked(l, marked, foreground), pid, Find(l, pid));
  }

  lemma UnblockFindsReady(s: Sched, pid: int)
    requires pid != SHELL && s.ready != [] && s.ready[0].pid != pid && Has(s.ready, pid)
    ensures Find(Unblock(s, SHELL).ready, pid) == Find(s.ready, pid) + (if Has(s.blocked, SHELL) then 1 else 0)
  {
    var r := Unblock(s, SHELL).ready;
    var i := Find(s.ready, pid);
    if Has(s.blocked, SHELL) {
      assert forall k | 1 < k < |r| :: r[k] == s.ready[k - 1];
      FindIs(r, pid, i + 1);
    }
  }

  lemma UnblockFindsBlocked(s: Sched, pid: int)
    requires pid != SHELL && Has(s.blocked, pid)
    ensures var r := Unblock(s, SHELL).blocked; var j := Find(s.blocked, pid);
            var k: int := if Find(s.blocked, SHELL) < j then j - 1 else j;
            Find(s.blocked, SHELL) != j && Find(r, pid) == k && r[k] == s.blocked[j]
  {
    var r := Unblock(s, SHELL).blocked;
    var j := Find(s.blocked, pid);
    var w := Find(s.blocked, SHELL);
    assert w < |s.blocked| ==> forall k | 0 <= k < |r| :: r[k] == s.blocked[if k < w then k else k + 1];
    FindIs(r, pid, if w < j then j - 1 else j);
  }

  /** Waking the shell moves the others in their lists by at most one place. */
  lemma HandBackFindsReady(s: Sched, foreground: bool, pid: int)
    requires pid != SHELL && s.ready != [] && s.ready[0].pid != pid && Has(s.ready, pid)
    ensures var r := HandBack(s, foreground);
            Find(r.ready, pid) == Find(s.ready, pid) + (if Woken(s, foreground) < |s.blocked| then 1 else 0)
  {
    hide Find, Marked, Unblock;
    if foreground {
      MarkedFinds(s.ready, SHELL, true, pid);
      MarkedFinds(s.ready, SHELL, true, s.ready[0].pid);
      UnblockFindsReady(SetForeground(s, SHELL, true), pid);
    }
  }

  lemma HandBackFindsBlocked(s: Sched, foreground: bool, pid: int)
    requires pid != SHELL && s.ready != [] && Has(s.blocked, pid) && !Has(s.ready, pid)
    ensures var r := HandBack(s, foreground); var j := Find(s.blocked, pid);
            var k: int := if Woken(s, foreground) < j then j - 1 else j;
            Woken(s, foreground) != j && Find(r.blocked, pid) == k && r.blocked[k].state == s.blocked[j].state
            && r.ready != [] && r.ready[0].pid == s.ready[0].pid
  {
    hide Find, Marked, Unblock;
    if foreground {
      MarkedFinds(s.blocked, SHELL, true, pid);
      MarkedFinds(s.ready, SHELL, true, s.ready[0].pid);
      UnblockFindsBlocked(SetForeground(s, SHELL, true), pid);
    }
  }

  lemma RingTurns(l: seq<ProcessNode>)
    requires l != [] && IsRing(l)
    ensures IsRing(l[1..] + [l[0]])
  {
    var r := l[1..] + [l[0]];
    forall k | 0 <= k < |r| ensures RingAt(r, k) {
      assert RingAt(l, if k == |l| - 1 then 0 else k + 1);
    }
  }

  lemma ListLinks(l: seq<ProcessNode>, i: nat)
    requires IsList(l) && i < |l|
    ensures ListAt(l, i)
  {
  }

  lemma EmptyRing()
    ensures IsRing([])
  {
  }

  lemma FindIs(l: seq<Proc>, pid: int, i: nat)
    requires i <= |l| && (i < |l| ==> l[i].pid == pid)
    requires forall j | 0 <= j < i :: l[j].pid != pid
    ensures Find(l, pid) == i
  {
  }
}
