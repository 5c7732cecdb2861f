// Named FIFOs over whole runs: each name stands for one pipe, and an end opened by name is an end
// of the kind asked for.
module FifoRuns {
  import opened Descriptors
  import opened DescriptorRuns

  predicate Named(fifos: seq<Fifo>, id: int) {
    exists i :: 0 <= i < |fifos| && fifos[i].id == id
  }

  /** A FIFO names a read end and a write end in use, of the same pipe. */
  predicate EndsOk(t: Tables, f: Fifo)
    requires Shaped(t)
  {
    f.id != 0 ==>
      && InTable(f.readfd) && t.entries[f.readfd].ref > 0 && t.entries[f.readfd].kind == READ
      && InTable(f.writefd) && t.entries[f.writefd].ref > 0 && t.entries[f.writefd].kind == WRITE
      && t.entries[f.readfd].pipe == t.entries[f.writefd].pipe
  }

  predicate FifosOk(t: Tables) {
    && Shaped(t) && (forall i | 0 <= i < MAX_FIFO :: EndsOk(t, t.fifos[i]))
    && forall i, j | 0 <= i < j < MAX_FIFO && t.fifos[i].id != 0 :: t.fifos[i].id != t.fifos[j].id
  }

  // ------------------------------------------------------------------ entries in use stay

  /** Entries in use in both tables are the same ends. */
  ghost predicate SameEnds(t: Tables, r: Tables) {
    && Shaped(t) && Shaped(r)
    && forall g | InTable(g) && t.entries[g].ref > 0 && r.entries[g].ref > 0 ::
         r.entries[g].kind == t.entries[g].kind && r.entries[g].pipe == t.entries[g].pipe
  }

  /** No entry comes into use. */
  ghost predicate NoneTaken(t: Tables, r: Tables) {
    SameEnds(t, r) && forall g | InTable(g) && r.entries[g].ref > 0 :: t.entries[g].ref > 0
  }

  predicate Counts(t: Tables) {
    Shaped(t) && forall g | 0 <= g < MAX_FD :: t.entries[g].ref >= 0
  }

  lemma CloseTakesNone(t: Tables, id: int)
    requires Counts(t)
    ensures NoneTaken(t, CloseFd(t, id).0) && Counts(CloseFd(t, id).0) && CloseFd(t, id).0.fifos == t.fifos
  {
  }

  lemma {:induction false} CloseSlotsTakesNone(t: Tables, slots: seq<int>, i: nat)
    requires Counts(t) && i <= |slots|
    ensures NoneTaken(t, CloseSlots(t, slots, i)) && CloseSlots(t, slots, i).fifos == t.fifos
    decreases |slots| - i
  {
    if i < |slots| {
      CloseTakesNone(t, slots[i]);
      CloseSlotsTakesNone(CloseFd(t, slots[i]).0, slots, i + 1);
    }
  }

  lemma {:induction false} DupSlotsTakesNone(t: Tables, slots: seq<int>, i: nat)
    requires Counts(t) && i <= |slots|
    ensures NoneTaken(t, DupSlots(t, slots, i)) && DupSlots(t, slots, i).fifos == t.fifos
    decreases |slots| - i
  {
    if i < |slots| {
      DupSlotsTakesNone(FdDup(t, slots[i]), slots, i + 1);
    }
  }

  lemma OpenKeepsEnds(t: Tables, memory: bool)
    requires Counts(t)
    ensures SameEnds(t, OpenPipe(t, memory).0) && OpenPipe(t, memory).0.fifos == t.fifos
  {
  }

  lemma InvCounts(w: World)
    requires Inv(w)
    ensures Counts(w.t) && forall pid | pid in w.procs :: |w.procs[pid]| == MAX_FD
  {
    forall g | 0 <= g < MAX_FD ensures w.t.entries[g].ref >= 0 {
      assert EntryOk(w.t, g);
    }
  }

  /** With the same FIFOs and the same ends, what FIFOs name is as it was. */
  lemma FifosFrame(w: World, r: World)
    requires FifosOk(w.t) && Inv(r) && SameEnds(w.t, r.t) && r.t.fifos == w.t.fifos
    ensures FifosOk(r.t)
  {
    hide Inv;
    forall i | 0 <= i < MAX_FIFO ensures EndsOk(r.t, r.t.fifos[i]) {
      var f := r.t.fifos[i];
      assert EndsOk(w.t, w.t.fifos[i]);
      if f.id != 0 {
        NamerCounts(r, i, f.readfd);
        NamerCounts(r, i, f.writefd);
      }
    }
  }

  // ------------------------------------------------------------------ each operation

  lemma MkFifoOk(w: World, id: int, memory: bool)
    requires Inv(w) && FifosOk(w.t)
    ensures FifosOk(MkFifo(w.t, id, memory).0)
  {
    hide Inv;
    InvCounts(w);
    MkFifoKeeps(w, id, memory);
    var (t, r, wr) := OpenPipe(w.t, memory);
    OpenKeepsEnds(w.t, memory);
    var k := FindFifo(w.t.fifos, 0);
    var m := MkFifo(w.t, id, memory).0;
    if !Refused(w.t, id) && r >= 0 {
      InvTables(w);
      OpenBoth(w.t);
      forall i | 0 <= i < MAX_FIFO ensures EndsOk(m, m.fifos[i]) {
        if i != k {
          StaysNamed(w, t, i);
        }
      }
    } else if !Refused(w.t, id) {
      forall i | 0 <= i < MAX_FIFO ensures EndsOk(t, t.fifos[i]) {
        StaysNamed(w, t, i);
      }
    }
  }

  lemma InvTables(w: World)
    requires Inv(w)
    ensures TablesOk(w.t)
  {
  }

  /** Opening a pipe leaves what a FIFO names alone. */
  lemma StaysNamed(w: World, t: Tables, i: nat)
    requires Inv(w) && FifosOk(w.t) && i < MAX_FIFO
    requires t == OpenPipe(w.t, true).0 || t == OpenPipe(w.t, false).0
    ensures Shaped(t) && EndsOk(t, w.t.fifos[i])
  {
    hide Inv;
    assert EndsOk(w.t, w.t.fifos[i]);
  }

  lemma RmFifoOk(w: World, id: int)
    requires Inv(w) && FifosOk(w.t)
    ensures FifosOk(RmFifo(w.t, id).0)
  {
    hide Inv;
    InvCounts(w);
    RmFifoKeeps(w, id);
    var i := FindFifo(w.t.fifos, id);
    if id != 0 && i < MAX_FIFO {
      var f := w.t.fifos[i];
      var t1 := w.t.(fifos := w.t.fifos[i := Fifo(0, 0, 0)]);
      assert FifosOk(t1) by {
        assert forall j | 0 <= j < MAX_FIFO :: EndsOk(w.t, w.t.fifos[j]);
      }
      CloseTakesNone(t1, f.readfd);
      CloseTakesNone(CloseFd(t1, f.readfd).0, f.writefd);
      FifosFrame(w.(t := t1), w.(t := RmFifo(w.t, id).0));
    }
  }

  lemma StepFifos(w: World, op: Op)
    requires Inv(w) && Legal(w, op) && FifosOk(w.t)
    ensures FifosOk(Step(w, op).t)
  {
    InvCounts(w);
    StepKeeps(w, op);
    hide Inv, FifosOk, OpenPipe, CloseFd, FdDup, DupSlots, CloseSlots;
    var r := Step(w, op);
    match op
    case OpenPipeOp(_, memory) =>
      OpenKeepsEnds(w.t, memory);
      FifosFrame(w, r);
    case CloseOp(pid, fd) =>
      CloseTakesNone(w.t, w.procs[pid][fd]);
      FifosFrame(w, r);
    case ForkOp(parent, _) =>
      DupSlotsTakesNone(w.t, w.procs[parent], 0);
      FifosFrame(w, r);
    case ExitOp(pid) =>
      CloseSlotsTakesNone(w.t, w.procs[pid], FIRST_FD);
      FifosFrame(w, r);
    case MkFifoOp(id, memory) => MkFifoOk(w, id, memory);
    case OpenFifoOp(_, id, kind) =>
      OpenFifoSameEnds(w.t, id, kind);
      FifosFrame(w, r);
    case RmFifoOp(id) => RmFifoOk(w, id);
    case MapStdOp(_, _, _) => FifosFrame(w, r);
  }

  lemma OpenFifoSameEnds(t: Tables, id: int, kind: Kind)
    requires Shaped(t)
    ensures SameEnds(t, OpenFifo(t, id, kind).0) && OpenFifo(t, id, kind).0.fifos == t.fifos
  {
  }

  lemma {:induction false} RunFifos(w: World, ops: seq<Op>, end: World)
    requires Inv(w) && Reaches(w, ops, end) && FifosOk(w.t)
    ensures FifosOk(end.t)
    decreases |ops|
  {
    hide Inv, Legal, Step, FifosOk;
    if ops != [] {
      StepKeeps(w, ops[0]);
      StepFifos(w, ops[0]);
      RunFifos(Step(w, ops[0]), ops[1..], end);
    }
  }

  // ------------------------------------------------------------------ main results

  /** In every run a name stands for one FIFO only, and opening an end of it gives an entry of
      that kind, counted once more, of the one pipe of the FIFO; what is not named cannot be
      opened. */
  lemma OpenedByName(ops: seq<Op>, end: World, id: int, kind: Kind)
    requires ReachedFromStart(ops, end)
    ensures FifosOk(end.t)
    ensures var (t, fd) := OpenFifo(end.t, id, kind);
            if id != 0 && Named(end.t.fifos, id) then
              && InTable(fd) && t.entries[fd].kind == kind && t.entries[fd].ref == end.t.entries[fd].ref + 1
              && t.entries[fd].pipe == end.t.entries[OpenFifo(end.t, id, READ).1].pipe
            else fd == -1 && t == end.t
  {
    StartIsSound();
    RunKeeps(Start(), ops, end);
    RunFifos(Start(), ops, end);
    hide Inv;
    var i := FindFifo(end.t.fifos, id);
    if i < MAX_FIFO {
      assert EndsOk(end.t, end.t.fifos[i]);
    } else {
      assert !Named(end.t.fifos, id);
    }
  }

  /** A FIFO is made exactly if its name is not 0 and not taken, a FIFO is free, and a pipe can
      be had. */
  lemma MadeExactly(w: World, id: int, memory: bool)
    requires Inv(w)
    ensures var (t, code) := MkFifo(w.t, id, memory);
            && (code == 0 <==> id != 0 && !Named(w.t.fifos, id) && Named(w.t.fifos, 0) && memory && |FreeEntries(w.t)| >= 2)
            && (code == 0 ==> Named(t.fifos, id)) && (code != 0 ==> code == -1 && t.fifos == w.t.fifos)
  {
    InvCounts(w);
    OpenKeepsEnds(w.t, memory);
    OpenCases(w.t);
    FoundIsNamed(w.t.fifos, id);
    FoundIsNamed(w.t.fifos, 0);
    var t := MkFifo(w.t, id, memory).0;
    if MkFifo(w.t, id, memory).1 == 0 {
      assert t.fifos[FindFifo(w.t.fifos, 0)].id == id;
    }
  }

  lemma FoundIsNamed(fifos: seq<Fifo>, id: int)
    ensures FindFifo(fifos, id) < |fifos| <==> Named(fifos, id)
  {
    if FindFifo(fifos, id) < |fifos| {
      assert fifos[FindFifo(fifos, id)].id == id;
    }
  }

  /** A FIFO is removed exactly if there is one of that name, and then there is none. */
  lemma RemovedExactly(ops: seq<Op>, end: World, id: int)
    requires ReachedFromStart(ops, end)
    ensures Shaped(end.t)
    ensures var (t, code) := RmFifo(end.t, id);
            if id != 0 && Named(end.t.fifos, id) then code == 0 && !Named(t.fifos, id)
            else code == -1 && t == end.t
  {
    StartIsSound();
    RunKeeps(Start(), ops, end);
    RunFifos(Start(), ops, end);
    FoundIsNamed(end.t.fifos, id);
    InvCounts(end);
    var i := FindFifo(end.t.fifos, id);
    if id != 0 && i < MAX_FIFO {
      var t1 := end.t.(fifos := end.t.fifos[i := Fifo(0, 0, 0)]);
      CloseTakesNone(t1, end.t.fifos[i].readfd);
      CloseTakesNone(CloseFd(t1, end.t.fifos[i].readfd).0, end.t.fifos[i].writefd);
      assert forall j | 0 <= j < MAX_FIFO && j != i :: end.t.fifos[j].id != id;
    }
  }

  /** A child has the slots of its parent, and no other process changes. */
  lemma ForkInherits(w: World, parent: int, child: int, pid: int)
    requires Inv(w) && Legal(w, ForkOp(parent, child))
    ensures var r := Step(w, ForkOp(parent, child));
            && r.procs.Keys == w.procs.Keys + {child} && r.procs[child] == w.procs[parent]
            && (pid in w.procs ==> r.procs[pid] == w.procs[pid])
  {
    ForkKeeps(w, parent, child);
  }

  /** Redirection changes slots 0 and 1 of one process only, and only if it has both descriptors. */
  lemma MapStdRedirects(w: World, pid: int, stdin: nat, stdout: nat, q: int, i: nat)
    requires Inv(w) && Legal(w, MapStdOp(pid, stdin, stdout)) && q in w.procs && i < MAX_FD
    ensures |w.procs[pid]| == MAX_FD && |w.procs[q]| == MAX_FD
    ensures var r := Step(w, MapStdOp(pid, stdin, stdout));
            var has := w.procs[pid][stdin] != -1 && w.procs[pid][stdout] != -1;
            && r.t == w.t && r.strays == w.strays && r.procs.Keys == w.procs.Keys && |r.procs[q]| == MAX_FD
            && r.procs[q][i] == (if has && q == pid && i == 0 then stdin
                                 else if has && q == pid && i == 1 then stdout
                                 else w.procs[q][i])
  {
    InvCounts(w);
  }
}
