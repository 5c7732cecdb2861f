// The global descriptor table, pipe ends and named FIFOs: every reference is counted, and a pipe
// is freed once, when both its ends are gone.
module Descriptors {

  const MAX_FD := 255
  const MAX_FIFO := 64

  /** Standard input, output and error come first and are not in the table. */
  const FIRST_FD := 3

  datatype Kind = READ | WRITE

  datatype Entry = Entry(ref: int, kind: Kind, pipe: int)

  /** The identifier 0 marks a free FIFO. */
  datatype Fifo = Fifo(id: int, readfd: int, writefd: int)

  /** A pipe ever allocated, and how often it was freed. */
  datatype Ends = Ends(readOpen: bool, writeOpen: bool, readfd: int, writefd: int, frees: nat)

  /** A NULL pipe is 0; pipes are numbered from 1 as they are allocated. `lost` are the entries
      that an `openPipe` took and then failed to hand out. */
  datatype Tables = Tables(entries: seq<Entry>, fifos: seq<Fifo>, pipes: map<int, Ends>, nextPipe: int, lost: set<int>)

  predicate Shaped(t: Tables) {
    |t.entries| == MAX_FD && |t.fifos| == MAX_FIFO
  }

  // ------------------------------------------------------------------ fd.c

  function FirstFree(entries: seq<Entry>, from: nat): (i: nat)
    requires from <= |entries|
    ensures from <= i <= |entries|
    ensures forall j | from <= j < i :: entries[j].ref != 0
    ensures i < |entries| ==> entries[i].ref == 0
    decreases |entries| - from
  {
    if from == |entries| || entries[from].ref == 0 then from else FirstFree(entries, from + 1)
  }

  function InitFd(t: Tables, kind: Kind, pipe: int): (r: (Tables, int))
    requires Shaped(t)
    ensures Shaped(r.0)
  {
    var i: int := FirstFree(t.entries, FIRST_FD);
    if i < MAX_FD then (t.(entries := t.entries[i := Entry(1, kind, pipe)]), i) else (t, -1)
  }

  function ClosePipe(t: Tables, pipe: int, kind: Kind): (r: Tables)
    ensures Shaped(t) ==> Shaped(r)
    ensures r.entries == t.entries && r.fifos == t.fifos && r.nextPipe == t.nextPipe && r.lost == t.lost
  {
    if pipe !in t.pipes then t
    else
      var p := if kind == READ then t.pipes[pipe].(readOpen := false) else t.pipes[pipe].(writeOpen := false);
      t.(pipes := t.pipes[pipe := if p.readOpen || p.writeOpen then p else p.(frees := p.frees + 1)])
  }

  function CloseFd(t: Tables, id: int): (r: (Tables, int))
    requires Shaped(t)
    ensures Shaped(r.0)
  {
    if id < 0 || id >= MAX_FD || t.entries[id].ref == 0 then (t, -1)
    else
      var e := t.entries[id].(ref := t.entries[id].ref - 1);
      if e.ref != 0 then (t.(entries := t.entries[id := e]), 0)
      else (ClosePipe(t.(entries := t.entries[id := e.(pipe := 0)]), e.pipe, e.kind), 0)
  }

  function FdDup(t: Tables, id: int): (r: Tables)
    requires Shaped(t)
    ensures Shaped(r)
  {
    if id < 0 || id >= MAX_FD || t.entries[id].ref == 0 then t
    else t.(entries := t.entries[id := t.entries[id].(ref := t.entries[id].ref + 1)])
  }

  // ------------------------------------------------------------------ pipe.c

  /** Two entries for a new pipe. When the second cannot be had the pipe is freed, but the first
      stays. */
  function OpenPipe(t: Tables, memory: bool): (r: (Tables, int, int))
    requires Shaped(t)
    ensures Shaped(r.0)
  {
    if !memory then (t, -1, -1)
    else
      var pipe := t.nextPipe;
      var t0 := t.(nextPipe := t.nextPipe + 1);
      var (t1, r) := InitFd(t0, READ, pipe);
      if r < 0 then (t1.(pipes := t1.pipes[pipe := Ends(false, false, -1, -1, 1)]), -1, -1)
      else
        var (t2, w) := InitFd(t1, WRITE, pipe);
        if w < 0 then (t2.(pipes := t2.pipes[pipe := Ends(false, false, r, -1, 1)], lost := t2.lost + {r}), -1, -1)
        else (t2.(pipes := t2.pipes[pipe := Ends(true, true, r, w, 0)]), r, w)
  }

  function FindFifo(fifos: seq<Fifo>, id: int): (i: nat)
    ensures i <= |fifos|
    ensures forall j | 0 <= j < i :: fifos[j].id != id
    ensures i < |fifos| ==> fifos[i].id == id
  {
    if fifos == [] || fifos[0].id == id then 0 else 1 + FindFifo(fifos[1..], id)
  }

  function MkFifo(t: Tables, id: int, memory: bool): (r: (Tables, int))
    requires Shaped(t)
    ensures Shaped(r.0)
  {
    var k := FindFifo(t.fifos, 0);
    if id == 0 || FindFifo(t.fifos, id) < MAX_FIFO || k == MAX_FIFO then (t, -1)
    else
      var (t1, r, w) := OpenPipe(t, memory);
      if r < 0 then (t1, -1) else (t1.(fifos := t1.fifos[k := Fifo(id, r, w)]), 0)
  }

  function EndOf(f: Fifo, kind: Kind): int {
    if kind == READ then f.readfd else f.writefd
  }

  function OpenFifo(t: Tables, id: int, kind: Kind): (r: (Tables, int))
    requires Shaped(t)
    ensures Shaped(r.0)
  {
    var i := FindFifo(t.fifos, id);
    if id == 0 || i == MAX_FIFO then (t, -1)
    else (FdDup(t, EndOf(t.fifos[i], kind)), EndOf(t.fifos[i], kind))
  }

  function RmFifo(t: Tables, id: int): (r: (Tables, int))
    requires Shaped(t)
    ensures Shaped(r.0)
  {
    var i := FindFifo(t.fifos, id);
    if id == 0 || i == MAX_FIFO then (t, -1)
    else
      var f := t.fifos[i];
      var t1 := t.(fifos := t.fifos[i := Fifo(0, 0, 0)]);
      (CloseFd(CloseFd(t1, f.readfd).0, f.writefd).0, 0)
  }

  // ------------------------------------------------------------------ processes

  /** Duplicates every descriptor of a parent for its child, from slot `i` on. */
  function DupSlots(t: Tables, slots: seq<int>, i: nat): (r: Tables)
    requires Shaped(t) && i <= |slots|
    ensures Shaped(r)
    decreases |slots| - i
  {
    if i == |slots| then t else DupSlots(FdDup(t, slots[i]), slots, i + 1)
  }

  /** Closes the descriptors of a process that ends, from slot `i` on. */
  function CloseSlots(t: Tables, slots: seq<int>, i: nat): (r: Tables)
    requires Shaped(t) && i <= |slots|
    ensures Shaped(r)
    decreases |slots| - i
  {
    if i == |slots| then t else CloseSlots(CloseFd(t, slots[i]).0, slots, i + 1)
  }

  /** The tables and the descriptor slots of the live processes. `strays` are references that
      were taken and that no close of a process or removal of a FIFO will give back. */
  datatype World = World(t: Tables, procs: map<int, seq<int>>, strays: multiset<int>)

  function InitialSlots(): seq<int> {
    seq(MAX_FD, i => if i < FIRST_FD then i else -1)
  }

  function AddFd(w: World, pid: int, fd: int): World
    requires pid in w.procs && |w.procs[pid]| == MAX_FD
  {
    if 0 <= fd < MAX_FD then w.(procs := w.procs[pid := w.procs[pid][fd := fd]]) else w
  }

  function RemoveFd(w: World, pid: int, fd: int): World
    requires pid in w.procs && |w.procs[pid]| == MAX_FD
  {
    if 0 <= fd < MAX_FD then w.(procs := w.procs[pid := w.procs[pid][fd := -1]]) else w
  }

  function SysOpenPipe(w: World, pid: int, memory: bool): World
    requires Shaped(w.t) && pid in w.procs && |w.procs[pid]| == MAX_FD
  {
    var (t, rd, wr) := OpenPipe(w.t, memory);
    if rd < 0 then w.(t := t) else AddFd(AddFd(w.(t := t), pid, rd), pid, wr)
  }

  function SysClose(w: World, pid: int, fd: nat): World
    requires Shaped(w.t) && pid in w.procs && |w.procs[pid]| == MAX_FD && fd < MAX_FD
  {
    var id := w.procs[pid][fd];
    var (t, code) := CloseFd(w.t, id);
    if code >= 0 then RemoveFd(w.(t := t), pid, id) else w.(t := t)
  }

  /** Opening an end a second time takes a second reference for the same slot. */
  function SysOpenFifo(w: World, pid: int, id: int, kind: Kind): World
    requires Shaped(w.t) && pid in w.procs && |w.procs[pid]| == MAX_FD
  {
    var (t, fd) := OpenFifo(w.t, id, kind);
    if fd < 0 then w.(t := t)
    else
      var again := fd < MAX_FD && w.procs[pid][fd] == fd;
      AddFd(w.(t := t, strays := if again then w.strays + multiset{fd} else w.strays), pid, fd)
  }

  predicate Taken(t: Tables, g: int)
    requires Shaped(t)
  {
    0 <= g < MAX_FD && t.entries[g].ref != 0
  }

  /** The entries in use that the standard slots from `i` on have been redirected to. */
  function Redirected(t: Tables, slots: seq<int>, i: nat): multiset<int>
    requires Shaped(t) && |slots| == MAX_FD
    decreases FIRST_FD - i
  {
    if i >= FIRST_FD then multiset{}
    else (if Taken(t, slots[i]) then multiset{slots[i]} else multiset{}) + Redirected(t, slots, i + 1)
  }

  /** A child inherits all slots. The references for the standard ones are not closed with it. */
  function Fork(w: World, parent: int, child: int): World
    requires Shaped(w.t) && parent in w.procs && |w.procs[parent]| == MAX_FD
  {
    var slots := w.procs[parent];
    w.(t := DupSlots(w.t, slots, 0), procs := w.procs[child := slots], strays := w.strays + Redirected(w.t, slots, 0))
  }

  function Exit(w: World, pid: int): World
    requires Shaped(w.t) && pid in w.procs && |w.procs[pid]| == MAX_FD
  {
    w.(t := CloseSlots(w.t, w.procs[pid], FIRST_FD), procs := w.procs - {pid})
  }

  /** Standard input and output of a process become two of its descriptors; no reference is
      taken for them. */
  function MapStd(w: World, pid: int, stdin: nat, stdout: nat): World
    requires pid in w.procs && |w.procs[pid]| == MAX_FD && stdin < MAX_FD && stdout < MAX_FD
  {
    var slots := w.procs[pid];
    if slots[stdin] == -1 || slots[stdout] == -1 then w
    else w.(procs := w.procs[pid := slots[0 := stdin][1 := stdout]])
  }
}
