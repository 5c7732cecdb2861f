// Every reference to a pipe end is accounted for, over whole runs of processes that open, share,
// inherit and close them.
module DescriptorRuns {
  import opened Descriptors

  // ------------------------------------------------------------------ who holds an entry

  predicate Holds(slots: seq<int>, g: int) {
    0 <= g < |slots| && slots[g] == g
  }

  predicate Names(f: Fifo, g: int) {
    f.id != 0 && (f.readfd == g || f.writefd == g)
  }

  ghost function Holders(procs: map<int, seq<int>>, g: int): set<int> {
    set pid | pid in procs && Holds(procs[pid], g)
  }

  ghost function Namers(fifos: seq<Fifo>, g: int): set<int> {
    set i | 0 <= i < |fifos| && Names(fifos[i], g)
  }

  predicate InTable(g: int) {
    FIRST_FD <= g < MAX_FD
  }

  /** References that nobody holds: strays, and the one of a lost entry. */
  function Unheld(w: World, g: int): nat {
    w.strays[g] + if g in w.t.lost then 1 else 0
  }

  /** References the kernel has in hand in the middle of an operation are `pending`. */
  ghost predicate RefOk(w: World, pending: set<int>, g: int)
    requires Shaped(w.t) && InTable(g)
  {
    && w.t.entries[g].ref ==
         |Holders(w.procs, g)| + |Namers(w.t.fifos, g)| + (if g in pending then 1 else 0) + Unheld(w, g)
    && (g in w.t.lost ==> Holders(w.procs, g) == {} && Namers(w.t.fifos, g) == {} && g !in pending)
  }

  ghost predicate Counted(w: World, pending: set<int>)
    requires Shaped(w.t)
  {
    forall g {:trigger RefOk(w, pending, g)} | InTable(g) :: RefOk(w, pending, g)
  }

  /** A slot is empty or holds the entry of its own number. */
  predicate SlotsOk(slots: seq<int>) {
    |slots| == MAX_FD && forall i | FIRST_FD <= i < MAX_FD :: slots[i] == -1 || slots[i] == i
  }

  predicate FifoOk(f: Fifo) {
    f.id != 0 ==> InTable(f.readfd) && InTable(f.writefd) && f.readfd != f.writefd
  }

  /** An entry in use names an open end of a pipe that is not freed, which names it back; but a
      lost one stays in use and names a freed pipe. */
  predicate EntryOk(t: Tables, g: int)
    requires Shaped(t) && 0 <= g < MAX_FD
  {
    var e := t.entries[g];
    && e.ref >= 0 && (!InTable(g) ==> e.ref == 0)
    && (g in t.lost ==> e.ref >= 1 && e.pipe in t.pipes && t.pipes[e.pipe].frees == 1)
    && (e.ref > 0 && g !in t.lost ==>
          && e.pipe in t.pipes && t.pipes[e.pipe].frees == 0
          && (e.kind == READ ==> t.pipes[e.pipe].readOpen && t.pipes[e.pipe].readfd == g)
          && (e.kind == WRITE ==> t.pipes[e.pipe].writeOpen && t.pipes[e.pipe].writefd == g))
  }

  predicate InUse(t: Tables, g: int, kind: Kind, pipe: int)
    requires Shaped(t)
  {
    InTable(g) && t.entries[g].ref > 0 && t.entries[g].kind == kind && t.entries[g].pipe == pipe
  }

  /** An open end has its entry; and a pipe is freed exactly once, exactly when both are closed. */
  predicate PipeOk(t: Tables, p: int)
    requires Shaped(t) && p in t.pipes
  {
    var e := t.pipes[p];
    && 0 < p < t.nextPipe
    && (e.readOpen ==> InUse(t, e.readfd, READ, p))
    && (e.writeOpen ==> InUse(t, e.writefd, WRITE, p))
    && e.frees == (if e.readOpen || e.writeOpen then 0 else 1)
  }

  ghost predicate TablesOk(t: Tables) {
    && Shaped(t) && t.nextPipe > 0 && (forall g | g in t.lost :: InTable(g))
    && (forall i | 0 <= i < MAX_FIFO :: FifoOk(t.fifos[i]))
    && (forall g {:trigger EntryOk(t, g)} | 0 <= g < MAX_FD :: EntryOk(t, g))
    && (forall p {:trigger PipeOk(t, p)} | p in t.pipes :: PipeOk(t, p))
  }

  ghost predicate Held(w: World, pending: set<int>) {
    && Shaped(w.t) && TablesOk(w.t) && Counted(w, pending)
    && (forall pid | pid in w.procs :: SlotsOk(w.procs[pid]))
    && (forall g | g in pending :: InTable(g))
  }

  ghost predicate Inv(w: World) {
    Held(w, {})
  }

  // ------------------------------------------------------------------ the tables

  lemma DupTables(t: Tables, id: int)
    requires TablesOk(t)
    ensures TablesOk(FdDup(t, id)) && FdDup(t, id).fifos == t.fifos
  {
    var r := FdDup(t, id);
    assert 0 <= id < MAX_FD ==> EntryOk(t, id);
    forall g | 0 <= g < MAX_FD ensures EntryOk(r, g) {
      assert EntryOk(t, g);
    }
    forall p | p in r.pipes ensures PipeOk(r, p) {
      assert PipeOk(t, p);
    }
  }

  lemma CloseEntry(t: Tables, id: int, g: int)
    requires TablesOk(t) && id !in t.lost && 0 <= id < MAX_FD && t.entries[id].ref != 0 && 0 <= g < MAX_FD
    ensures EntryOk(CloseFd(t, id).0, g)
  {
    assert EntryOk(t, id) && EntryOk(t, g);
    assert PipeOk(t, t.entries[id].pipe);
  }

  lemma CloseOnePipe(t: Tables, id: int, p: int)
    requires TablesOk(t) && id !in t.lost && 0 <= id < MAX_FD && t.entries[id].ref != 0 && p in t.pipes
    ensures p in CloseFd(t, id).0.pipes && PipeOk(CloseFd(t, id).0, p)
  {
    assert EntryOk(t, id) && PipeOk(t, p);
  }

  /** Closing a descriptor: a pipe whose last end goes is freed. */
  lemma CloseTables(t: Tables, id: int)
    requires TablesOk(t) && id !in t.lost
    ensures TablesOk(CloseFd(t, id).0) && CloseFd(t, id).0.fifos == t.fifos
  {
    var r := CloseFd(t, id).0;
    if 0 <= id < MAX_FD && t.entries[id].ref != 0 {
      hide EntryOk, PipeOk;
      forall g | 0 <= g < MAX_FD ensures EntryOk(r, g) {
        CloseEntry(t, id, g);
      }
      forall p | p in r.pipes ensures PipeOk(r, p) {
        assert p in t.pipes by { ClosedPipeKnown(t, id, p); }
        CloseOnePipe(t, id, p);
      }
    }
  }

  lemma ClosedPipeKnown(t: Tables, id: int, p: int)
    requires Shaped(t) && p in CloseFd(t, id).0.pipes
    ensures p in t.pipes
  {
  }

  ghost function FreeEntries(t: Tables): set<int>
    requires Shaped(t)
  {
    set g | FIRST_FD <= g < MAX_FD && t.entries[g].ref == 0
  }

  /** A pipe with both its entries. */
  lemma OpenBoth(t: Tables)
    requires TablesOk(t) && OpenPipe(t, true).1 >= 0
    ensures var (r, rd, wr) := OpenPipe(t, true);
            && TablesOk(r) && r.fifos == t.fifos && r.lost == t.lost && InTable(rd) && InTable(wr) && rd != wr
            && t.entries[rd].ref == 0 && t.entries[wr].ref == 0
            && r.entries == t.entries[rd := Entry(1, READ, t.nextPipe)][wr := Entry(1, WRITE, t.nextPipe)]
  {
    var (r, rd, wr) := OpenPipe(t, true);
    assert t.nextPipe !in t.pipes by {
      assert forall p | p in t.pipes :: PipeOk(t, p);
    }
    forall g | 0 <= g < MAX_FD ensures EntryOk(r, g) {
      assert EntryOk(t, g);
    }
    forall p | p in r.pipes ensures PipeOk(r, p) {
      if p in t.pipes {
        assert PipeOk(t, p);
      }
    }
  }

  /** No entry at all, or no memory: nothing is taken. */
  lemma OpenNone(t: Tables, memory: bool)
    requires TablesOk(t) && (!memory || FirstFree(t.entries, FIRST_FD) == MAX_FD)
    ensures var (r, rd, wr) := OpenPipe(t, memory); TablesOk(r) && r.fifos == t.fifos && r.entries == t.entries && r.lost == t.lost && rd == -1
  {
    var r := OpenPipe(t, memory).0;
    assert t.nextPipe !in t.pipes by {
      assert forall p | p in t.pipes :: PipeOk(t, p);
    }
    forall g | 0 <= g < MAX_FD ensures EntryOk(r, g) {
      assert EntryOk(t, g);
    }
    forall p | p in r.pipes ensures PipeOk(r, p) {
      if p in t.pipes {
        assert PipeOk(t, p);
      }
    }
  }

  lemma OpenCases(t: Tables)
    requires Shaped(t)
    ensures |FreeEntries(t)| == 0 <==> FirstFree(t.entries, FIRST_FD) == MAX_FD
    ensures |FreeEntries(t)| >= 2 <==> OpenPipe(t, true).1 >= 0
  {
    var free := FreeEntries(t);
    var i := FirstFree(t.entries, FIRST_FD);
    if i == MAX_FD {
      assert free == {};
    } else {
      var j := FirstFree(t.entries[i := Entry(1, READ, t.nextPipe)], FIRST_FD);
      if j == MAX_FD {
        assert free == {i} by {
          assert forall g | g in free && g != i :: t.entries[i := Entry(1, READ, t.nextPipe)][g].ref == 0;
        }
      } else {
        assert {i, j} <= free && i != j;
        SubsetSize({i, j}, free);
      }
    }
  }

  lemma SubsetSize(a: set<int>, b: set<int>)
    requires a <= b
    ensures |a| <= |b|
  {
    assert b == a + (b - a);
  }

  // ------------------------------------------------------------------ the counts

  /** A lost entry is not held, named or in hand. */
  lemma NotLost(w: World, pending: set<int>, g: int)
    requires Held(w, pending) && InTable(g) && (g in pending || Holders(w.procs, g) != {} || Namers(w.t.fifos, g) != {})
    ensures g !in w.t.lost && w.t.entries[g].ref > 0
  {
    assert RefOk(w, pending, g) && EntryOk(w.t, g);
  }

  lemma DupCounts(w: World, pending: set<int>, g: int)
    requires Held(w, pending) && InTable(g) && w.t.entries[g].ref > 0 && g !in pending && g !in w.t.lost
    ensures Held(w.(t := FdDup(w.t, g)), pending + {g})
  {
    hide TablesOk;
    var r := w.(t := FdDup(w.t, g));
    DupTables(w.t, g);
    forall h | InTable(h) ensures RefOk(r, pending + {g}, h) {
      assert RefOk(w, pending, h);
    }
  }

  lemma CloseCounts(w: World, pending: set<int>, g: int)
    requires Held(w, pending) && g in pending
    ensures Held(w.(t := CloseFd(w.t, g).0), pending - {g}) && CloseFd(w.t, g).1 == 0
  {
    hide TablesOk;
    var r := w.(t := CloseFd(w.t, g).0);
    assert RefOk(w, pending, g);
    NotLost(w, pending, g);
    CloseTables(w.t, g);
    forall h | InTable(h) ensures RefOk(r, pending - {g}, h) {
      assert RefOk(w, pending, h);
    }
  }

  lemma OpenCounts(w: World)
    requires Inv(w) && OpenPipe(w.t, true).1 >= 0
    ensures var (t, rd, wr) := OpenPipe(w.t, true); Held(w.(t := t), {rd, wr}) && rd != wr
  {
    hide TablesOk;
    var (t, rd, wr) := OpenPipe(w.t, true);
    OpenBoth(w.t);
    forall h | InTable(h) ensures RefOk(w.(t := t), {rd, wr}, h) {
      assert RefOk(w, {}, h);
    }
  }

  lemma HoldersChange(procs: map<int, seq<int>>, pid: int, slots: seq<int>, g: int)
    ensures var others := Holders(procs, g) - {pid};
            && Holders(procs[pid := slots], g) == (if Holds(slots, g) then others + {pid} else others)
            && Holders(procs - {pid}, g) == others
            && (pid in Holders(procs, g) <==> pid in procs && Holds(procs[pid], g))
  {
  }

  lemma NamersChange(fifos: seq<Fifo>, i: nat, f: Fifo, g: int)
    requires i < |fifos|
    ensures var others := Namers(fifos, g) - {i};
            && Namers(fifos[i := f], g) == (if Names(f, g) then others + {i} else others)
            && (i in Namers(fifos, g) <==> Names(fifos[i], g))
  {
  }

  /** A process takes over a pending reference. */
  lemma SlotTaken(w: World, pending: set<int>, pid: int, g: int)
    requires Held(w, pending) && g in pending && pid in w.procs && |w.procs[pid]| == MAX_FD && !Holds(w.procs[pid], g)
    ensures Held(AddFd(w, pid, g), pending - {g}) && |AddFd(w, pid, g).procs[pid]| == MAX_FD
    ensures forall h | h != g :: Holds(AddFd(w, pid, g).procs[pid], h) <==> Holds(w.procs[pid], h)
  {
    hide TablesOk, Holders, Namers;
    var r := AddFd(w, pid, g);
    forall h | InTable(h) ensures RefOk(r, pending - {g}, h) {
      assert RefOk(w, pending, h);
      HoldersChange(w.procs, pid, r.procs[pid], h);
    }
  }

  /** A process gives a reference up. */
  lemma SlotGiven(w: World, pending: set<int>, pid: int, g: int)
    requires Held(w, pending) && InTable(g) && g !in pending
    requires pid in w.procs && |w.procs[pid]| == MAX_FD && Holds(w.procs[pid], g)
    ensures Held(RemoveFd(w, pid, g), pending + {g})
  {
    hide TablesOk, Holders, Namers, RefOk;
    var r := RemoveFd(w, pid, g);
    forall h | InTable(h) ensures RefOk(r, pending + {g}, h) {
      assert RefOk(w, pending, h);
      SlotGivenRef(w, pending, pid, g, h);
    }
  }

  lemma SlotGivenRef(w: World, pending: set<int>, pid: int, g: int, h: int)
    requires Shaped(w.t) && InTable(g) && InTable(h) && g !in pending && RefOk(w, pending, h)
    requires pid in w.procs && |w.procs[pid]| == MAX_FD && Holds(w.procs[pid], g)
    ensures RefOk(RemoveFd(w, pid, g), pending + {g}, h)
  {
    hide Holders, Namers;
    HoldersChange(w.procs, pid, RemoveFd(w, pid, g).procs[pid], h);
  }

  lemma FifoTables(t: Tables, i: nat, f: Fifo)
    requires TablesOk(t) && i < MAX_FIFO && FifoOk(f)
    ensures TablesOk(t.(fifos := t.fifos[i := f]))
  {
    var r := t.(fifos := t.fifos[i := f]);
    forall g | 0 <= g < MAX_FD ensures EntryOk(r, g) {
      assert EntryOk(t, g);
    }
    forall p | p in r.pipes ensures PipeOk(r, p) {
      assert PipeOk(t, p);
    }
  }

  lemma FifoTaken(w: World, i: nat, f: Fifo)
    requires i < MAX_FIFO && Held(w, {f.readfd, f.writefd}) && w.t.fifos[i].id == 0
    requires f.id != 0 && f.readfd != f.writefd
    ensures Inv(w.(t := w.t.(fifos := w.t.fifos[i := f])))
  {
    hide TablesOk, Holders, Namers;
    var r := w.(t := w.t.(fifos := w.t.fifos[i := f]));
    assert InTable(f.readfd) && InTable(f.writefd) by {
      assert f.readfd in {f.readfd, f.writefd} && f.writefd in {f.readfd, f.writefd};
    }
    FifoTables(w.t, i, f);
    forall h | InTable(h) ensures RefOk(r, {}, h) {
      assert RefOk(w, {f.readfd, f.writefd}, h);
      NamersChange(w.t.fifos, i, f, h);
    }
  }

  lemma FifoGiven(w: World, i: nat)
    requires Inv(w) && i < MAX_FIFO && w.t.fifos[i].id != 0
    ensures var f := w.t.fifos[i];
            Held(w.(t := w.t.(fifos := w.t.fifos[i := Fifo(0, 0, 0)])), {f.readfd, f.writefd}) && f.readfd != f.writefd
  {
    hide Holders, Namers;
    var f := w.t.fifos[i];
    var r := w.(t := w.t.(fifos := w.t.fifos[i := Fifo(0, 0, 0)]));
    assert FifoOk(f);
    FifoTables(w.t, i, Fifo(0, 0, 0));
    forall h | InTable(h) ensures RefOk(r, {f.readfd, f.writefd}, h) {
      assert RefOk(w, {}, h);
      NamersChange(w.t.fifos, i, Fifo(0, 0, 0), h);
    }
  }

  // ------------------------------------------------------------------ fork and exit

  ghost function HeldFrom(slots: seq<int>, i: nat): set<int> {
    set g | FIRST_FD <= g < MAX_FD && i <= g && Holds(slots, g)
  }

  ghost function HeldBefore(slots: seq<int>, i: nat): set<int> {
    set g | FIRST_FD <= g < MAX_FD && g < i && Holds(slots, g)
  }

  /** A process ends: its references are in hand, to be closed. */
  lemma ProcGone(w: World, pid: int)
    requires Inv(w) && pid in w.procs
    ensures Held(w.(procs := w.procs - {pid}), HeldFrom(w.procs[pid], FIRST_FD))
  {
    hide TablesOk, Holders, Namers;
    var r := w.(procs := w.procs - {pid});
    var pending := HeldFrom(w.procs[pid], FIRST_FD);
    forall h | InTable(h) ensures RefOk(r, pending, h) {
      assert RefOk(w, {}, h);
      HoldersChange(w.procs, pid, [], h);
    }
  }

  /** A new process takes all it was given. */
  lemma ProcNew(w: World, pid: int, slots: seq<int>)
    requires SlotsOk(slots) && Held(w, HeldBefore(slots, MAX_FD)) && pid !in w.procs
    ensures Inv(w.(procs := w.procs[pid := slots]))
  {
    hide TablesOk, Holders, Namers;
    var r := w.(procs := w.procs[pid := slots]);
    forall h | InTable(h) ensures RefOk(r, {}, h) {
      assert RefOk(w, HeldBefore(slots, MAX_FD), h);
      HoldersChange(w.procs, pid, slots, h);
    }
  }

  lemma {:induction false} CloseAllCounts(w: World, slots: seq<int>, i: nat)
    requires SlotsOk(slots) && FIRST_FD <= i <= MAX_FD && Held(w, HeldFrom(slots, i))
    ensures Inv(w.(t := CloseSlots(w.t, slots, i)))
    decreases MAX_FD - i
  {
    hide Held;
    assert Shaped(w.t) by { HeldShaped(w, HeldFrom(slots, i)); }
    if i == MAX_FD {
      assert HeldFrom(slots, i) == {};
    } else if slots[i] == -1 {
      assert HeldFrom(slots, i) == HeldFrom(slots, i + 1);
      CloseAllCounts(w, slots, i + 1);
    } else {
      assert HeldFrom(slots, i) - {i} == HeldFrom(slots, i + 1);
      CloseCounts(w, HeldFrom(slots, i), i);
      CloseAllCounts(w.(t := CloseFd(w.t, slots[i]).0), slots, i + 1);
    }
  }

  lemma HeldShaped(w: World, pending: set<int>)
    requires Held(w, pending)
    ensures Shaped(w.t)
  {
  }

  lemma {:induction false} DupAllCounts(w: World, parent: int, i: nat)
    requires parent in w.procs && SlotsOk(w.procs[parent]) && FIRST_FD <= i <= MAX_FD
    requires Held(w, HeldBefore(w.procs[parent], i))
    ensures Held(w.(t := DupSlots(w.t, w.procs[parent], i)), HeldBefore(w.procs[parent], MAX_FD))
    decreases MAX_FD - i
  {
    hide Held;
    var slots := w.procs[parent];
    assert Shaped(w.t) by { HeldShaped(w, HeldBefore(slots, i)); }
    if i < MAX_FD {
      if slots[i] == -1 {
        assert HeldBefore(slots, i) == HeldBefore(slots, i + 1);
        DupAllCounts(w, parent, i + 1);
      } else {
        assert HeldBefore(slots, i) + {i} == HeldBefore(slots, i + 1);
        HolderCounts(w, HeldBefore(slots, i), parent, i);
        DupCounts(w, HeldBefore(slots, i), i);
        DupAllCounts(w.(t := FdDup(w.t, i)), parent, i + 1);
      }
    }
  }

  /** One more reference that nobody holds. */
  lemma StrayCounts(w: World, g: int)
    requires Inv(w) && Taken(w.t, g)
    ensures InTable(g) && w.t.entries[g].ref > 0 && Inv(w.(t := FdDup(w.t, g), strays := w.strays + multiset{g}))
  {
    hide TablesOk, Holders, Namers;
    TakenInTable(w.t, g);
    var r := w.(t := FdDup(w.t, g), strays := w.strays + multiset{g});
    DupTables(w.t, g);
    forall h | InTable(h) ensures RefOk(r, {}, h) {
      assert RefOk(w, {}, h);
    }
  }

  lemma TakenInTable(t: Tables, g: int)
    requires TablesOk(t) && Taken(t, g)
    ensures InTable(g) && t.entries[g].ref > 0
  {
    assert EntryOk(t, g);
  }

  lemma {:induction false} RedirectedSame(t: Tables, r: Tables, slots: seq<int>, i: nat)
    requires Shaped(t) && Shaped(r) && |slots| == MAX_FD && forall g :: Taken(t, g) <==> Taken(r, g)
    ensures Redirected(t, slots, i) == Redirected(r, slots, i)
    decreases FIRST_FD - i
  {
    if i < FIRST_FD {
      RedirectedSame(t, r, slots, i + 1);
    }
  }

  lemma DupUnfolds(t: Tables, slots: seq<int>, i: nat)
    requires Shaped(t) && |slots| == MAX_FD && i < FIRST_FD
    ensures DupSlots(t, slots, i) == DupSlots(FdDup(t, slots[i]), slots, i + 1)
    ensures var first := if Taken(t, slots[i]) then multiset{slots[i]} else multiset{};
            Redirected(t, slots, i) == first + Redirected(t, slots, i + 1)
    ensures !Taken(t, slots[i]) ==> FdDup(t, slots[i]) == t
  {
  }

  /** Duplicating the standard slots and then the others. */
  lemma {:induction false} DupLowCounts(w: World, parent: int, i: nat)
    requires Inv(w) && parent in w.procs && SlotsOk(w.procs[parent]) && i <= FIRST_FD
    ensures var slots := w.procs[parent];
            && Shaped(w.t)
            && Held(w.(t := DupSlots(w.t, slots, i), strays := w.strays + Redirected(w.t, slots, i)), HeldBefore(slots, MAX_FD))
    decreases FIRST_FD - i
  {
    hide Held, DupSlots, FdDup, Taken;
    HeldShaped(w, {});
    var slots := w.procs[parent];
    if i == FIRST_FD {
      assert HeldBefore(slots, i) == {};
      DupAllCounts(w, parent, i);
      assert w.strays + multiset{} == w.strays;
    } else {
      hide Redirected;
      DupUnfolds(w.t, slots, i);
      var rest := Redirected(w.t, slots, i + 1);
      if Taken(w.t, slots[i]) {
        StrayCounts(w, slots[i]);
        var w1 := w.(t := FdDup(w.t, slots[i]), strays := w.strays + multiset{slots[i]});
        DupTakesMore(w.t, slots[i]);
        RedirectedSame(w.t, w1.t, slots, i + 1);
        DupLowCounts(w1, parent, i + 1);
        assert w1.strays + rest == w.strays + Redirected(w.t, slots, i);
      } else {
        DupLowCounts(w, parent, i + 1);
        assert Redirected(w.t, slots, i) == rest;
      }
    }
  }

  lemma DupTakesMore(t: Tables, g: int)
    requires Shaped(t) && (Taken(t, g) ==> t.entries[g].ref > 0)
    ensures forall h :: Taken(t, h) <==> Taken(FdDup(t, g), h)
  {
  }

  lemma HolderCounts(w: World, pending: set<int>, pid: int, g: int)
    requires Held(w, pending) && InTable(g) && pid in w.procs && Holds(w.procs[pid], g)
    ensures w.t.entries[g].ref > 0 && g !in w.t.lost
  {
    assert pid in Holders(w.procs, g);
    NotLost(w, pending, g);
  }

  // ------------------------------------------------------------------ each operation

  /** Nobody holds an entry without references. */
  lemma NobodyHolds(w: World, pid: int, g: int)
    requires Inv(w) && InTable(g) && w.t.entries[g].ref == 0 && pid in w.procs
    ensures !Holds(w.procs[pid], g)
  {
    if Holds(w.procs[pid], g) {
      HolderCounts(w, {}, pid, g);
    }
  }

  /** A pipe can be opened without loss unless exactly one entry is free. */
  ghost predicate OpensCleanly(t: Tables, memory: bool)
    requires Shaped(t)
  {
    memory ==> |FreeEntries(t)| != 1
  }

  lemma OpenPipeKeeps(w: World, pid: int, memory: bool)
    requires Inv(w) && pid in w.procs
    ensures |w.procs[pid]| == MAX_FD && Inv(SysOpenPipe(w, pid, memory))
  {
    OpenCases(w.t);
    var (t, rd, wr) := OpenPipe(w.t, memory);
    if rd >= 0 {
      OpenBoth(w.t);
      OpenCounts(w);
      NobodyHolds(w, pid, rd);
      NobodyHolds(w, pid, wr);
      SlotTaken(w.(t := t), {rd, wr}, pid, rd);
      var w1 := AddFd(w.(t := t), pid, rd);
      assert {rd, wr} - {rd} == {wr};
      SlotTaken(w1, {wr}, pid, wr);
      assert {wr} - {wr} == {};
    } else if OpensCleanly(w.t, memory) {
      OpenNone(w.t, memory);
      SameCounts(w, t);
    } else {
      LossCounts(w);
    }
  }

  /** The counts depend on the references and the FIFOs only. */
  lemma SameCounts(w: World, t: Tables)
    requires Inv(w) && TablesOk(t) && t.entries == w.t.entries && t.fifos == w.t.fifos && t.lost == w.t.lost
    ensures Inv(w.(t := t))
  {
    forall g | InTable(g) ensures RefOk(w.(t := t), {}, g) {
      assert RefOk(w, {}, g);
    }
  }

  /** With exactly one entry free, that entry is lost: it stays in use, and names a pipe that
      has been freed. */
  lemma OneFreeEntryIsLost(t: Tables)
    requires TablesOk(t) && |FreeEntries(t)| == 1
    ensures var (r, rd, wr) := OpenPipe(t, true); var g := FirstFree(t.entries, FIRST_FD);
            && TablesOk(r) && rd == -1 && InTable(g) && t.entries[g].ref == 0 && g !in t.lost
            && r.entries == t.entries[g := Entry(1, READ, t.nextPipe)] && r.pipes[t.nextPipe].frees == 1
            && r.fifos == t.fifos && r.lost == t.lost + {g}
  {
    OpenCases(t);
    var r := OpenPipe(t, true).0;
    var g := FirstFree(t.entries, FIRST_FD);
    assert t.nextPipe !in t.pipes by {
      assert forall p | p in t.pipes :: PipeOk(t, p);
    }
    assert EntryOk(t, g);
    forall h | 0 <= h < MAX_FD ensures EntryOk(r, h) {
      assert EntryOk(t, h);
    }
    forall p | p in r.pipes ensures PipeOk(r, p) {
      if p in t.pipes {
        assert PipeOk(t, p);
      }
    }
  }

  lemma LossCounts(w: World)
    requires Inv(w) && |FreeEntries(w.t)| == 1
    ensures Inv(w.(t := OpenPipe(w.t, true).0))
  {
    hide TablesOk, OpenPipe;
    var r := w.(t := OpenPipe(w.t, true).0);
    OneFreeEntryIsLost(w.t);
    forall h | InTable(h) ensures RefOk(r, {}, h) {
      assert RefOk(w, {}, h);
    }
  }

  /** What is lost grows exactly when one entry is free. */
  lemma OpenPipeExact(t: Tables, memory: bool)
    requires TablesOk(t)
    ensures OpenPipe(t, memory).0.lost == t.lost <==> OpensCleanly(t, memory)
    ensures !OpensCleanly(t, memory) ==> exists g :: InTable(g) && g !in t.lost && OpenPipe(t, memory).0.lost == t.lost + {g}
  {
    OpenCases(t);
    if !OpensCleanly(t, memory) {
      OneFreeEntryIsLost(t);
      var g := FirstFree(t.entries, FIRST_FD);
      assert InTable(g) && g !in t.lost && g in OpenPipe(t, memory).0.lost;
    }
  }

  lemma CloseKeeps(w: World, pid: int, fd: nat)
    requires Inv(w) && pid in w.procs && InTable(fd)
    ensures |w.procs[pid]| == MAX_FD && Inv(SysClose(w, pid, fd))
  {
    var slots := w.procs[pid];
    if slots[fd] == fd {
      SlotGiven(w, {}, pid, fd);
      var w1 := RemoveFd(w, pid, fd);
      assert {} + {fd} == {fd} && {fd} - {fd} == {};
      CloseCounts(w1, {fd}, fd);
      assert SysClose(w, pid, fd) == w1.(t := CloseFd(w1.t, fd).0);
    }
  }

  lemma ForkKeeps(w: World, parent: int, child: int)
    requires Inv(w) && parent in w.procs && child !in w.procs
    ensures |w.procs[parent]| == MAX_FD && Inv(Fork(w, parent, child))
  {
    hide TablesOk, Counted;
    var slots := w.procs[parent];
    DupLowCounts(w, parent, 0);
    ProcNew(w.(t := DupSlots(w.t, slots, 0), strays := w.strays + Redirected(w.t, slots, 0)), child, slots);
  }

  lemma ExitKeeps(w: World, pid: int)
    requires Inv(w) && pid in w.procs
    ensures |w.procs[pid]| == MAX_FD && Inv(Exit(w, pid))
  {
    hide TablesOk, Counted;
    ProcGone(w, pid);
    CloseAllCounts(w.(procs := w.procs - {pid}), w.procs[pid], FIRST_FD);
  }

  /** Making a FIFO takes a pipe unless it is refused before. */
  predicate Refused(t: Tables, id: int)
    requires Shaped(t)
  {
    id == 0 || FindFifo(t.fifos, id) < MAX_FIFO || FindFifo(t.fifos, 0) == MAX_FIFO
  }

  lemma MkFifoKeeps(w: World, id: int, memory: bool)
    requires Inv(w)
    ensures Inv(w.(t := MkFifo(w.t, id, memory).0))
  {
    if !Refused(w.t, id) {
      OpenCases(w.t);
      var (t, rd, wr) := OpenPipe(w.t, memory);
      var k := FindFifo(w.t.fifos, 0);
      if rd >= 0 {
        OpenBoth(w.t);
        OpenCounts(w);
        FifoTaken(w.(t := t), k, Fifo(id, rd, wr));
      } else if OpensCleanly(w.t, memory) {
        OpenNone(w.t, memory);
        SameCounts(w, t);
      } else {
        LossCounts(w);
      }
    }
  }

  /** A FIFO keeps its entries in use. */
  lemma NamerCounts(w: World, i: nat, g: int)
    requires Inv(w) && i < MAX_FIFO && Names(w.t.fifos[i], g)
    ensures InTable(g) && w.t.entries[g].ref > 0 && g !in w.t.lost
  {
    assert FifoOk(w.t.fifos[i]);
    assert i in Namers(w.t.fifos, g);
    NotLost(w, {}, g);
  }

  lemma OpenFifoKeeps(w: World, pid: int, id: int, kind: Kind)
    requires Inv(w) && pid in w.procs
    ensures |w.procs[pid]| == MAX_FD && Inv(SysOpenFifo(w, pid, id, kind))
  {
    var i := FindFifo(w.t.fifos, id);
    if id != 0 && i < MAX_FIFO {
      var g := EndOf(w.t.fifos[i], kind);
      NamerCounts(w, i, g);
      if Holds(w.procs[pid], g) {
        StrayCounts(w, g);
        assert w.procs[pid][g := g] == w.procs[pid];
        assert w.procs[pid := w.procs[pid]] == w.procs;
      } else {
        DupCounts(w, {}, g);
        assert {} + {g} == {g} && {g} - {g} == {};
        SlotTaken(w.(t := FdDup(w.t, g)), {g}, pid, g);
      }
    }
  }

  lemma RmFifoKeeps(w: World, id: int)
    requires Inv(w)
    ensures Inv(w.(t := RmFifo(w.t, id).0))
  {
    var i := FindFifo(w.t.fifos, id);
    if id != 0 && i < MAX_FIFO {
      var f := w.t.fifos[i];
      FifoGiven(w, i);
      var w1 := w.(t := w.t.(fifos := w.t.fifos[i := Fifo(0, 0, 0)]));
      CloseCounts(w1, {f.readfd, f.writefd}, f.readfd);
      assert {f.readfd, f.writefd} - {f.readfd} == {f.writefd} && {f.writefd} - {f.writefd} == {};
      CloseCounts(w1.(t := CloseFd(w1.t, f.readfd).0), {f.writefd}, f.writefd);
    }
  }

  lemma MapStdKeeps(w: World, pid: int, stdin: nat, stdout: nat)
    requires Inv(w) && pid in w.procs && stdin < MAX_FD && stdout < MAX_FD
    ensures |w.procs[pid]| == MAX_FD && Inv(MapStd(w, pid, stdin, stdout))
  {
    hide TablesOk, Holders, Namers;
    var r := MapStd(w, pid, stdin, stdout);
    forall h | InTable(h) ensures RefOk(r, {}, h) {
      assert RefOk(w, {}, h);
      HoldersChange(w.procs, pid, r.procs[pid], h);
    }
  }

  // ------------------------------------------------------------------ whole runs

  datatype Op =
    | OpenPipeOp(pid: int, memory: bool)
    | CloseOp(pid: int, fd: nat)
    | ForkOp(parent: int, child: int)
    | ExitOp(pid: int)
    | MkFifoOp(id: int, memory: bool)
    | OpenFifoOp(pid: int, id: int, kind: Kind)
    | RmFifoOp(id: int)
    | MapStdOp(pid: int, stdin: nat, stdout: nat)

  /** Live processes call, and close slots from 3 on. */
  ghost predicate Legal(w: World, op: Op)
    requires Inv(w)
  {
    match op
    case OpenPipeOp(pid, _) => pid in w.procs
    case CloseOp(pid, fd) => pid in w.procs && InTable(fd)
    case ForkOp(parent, child) => parent in w.procs && child !in w.procs
    case ExitOp(pid) => pid in w.procs
    case MkFifoOp(_, _) => true
    case OpenFifoOp(pid, _, _) => pid in w.procs
    case RmFifoOp(_) => true
    case MapStdOp(pid, stdin, stdout) => pid in w.procs && stdin < MAX_FD && stdout < MAX_FD
  }

  ghost function Step(w: World, op: Op): World
    requires Inv(w) && Legal(w, op)
  {
    match op
    case OpenPipeOp(pid, memory) => SysOpenPipe(w, pid, memory)
    case CloseOp(pid, fd) => SysClose(w, pid, fd)
    case ForkOp(parent, child) => Fork(w, parent, child)
    case ExitOp(pid) => Exit(w, pid)
    case MkFifoOp(id, memory) => w.(t := MkFifo(w.t, id, memory).0)
    case OpenFifoOp(pid, id, kind) => SysOpenFifo(w, pid, id, kind)
    case RmFifoOp(id) => w.(t := RmFifo(w.t, id).0)
    case MapStdOp(pid, stdin, stdout) => MapStd(w, pid, stdin, stdout)
  }

  lemma StepKeeps(w: World, op: Op)
    requires Inv(w) && Legal(w, op)
    ensures Inv(Step(w, op))
  {
    hide Inv;
    match op
    case OpenPipeOp(pid, memory) => OpenPipeKeeps(w, pid, memory);
    case CloseOp(pid, fd) => CloseKeeps(w, pid, fd);
    case ForkOp(parent, child) => ForkKeeps(w, parent, child);
    case ExitOp(pid) => ExitKeeps(w, pid);
    case MkFifoOp(id, memory) => MkFifoKeeps(w, id, memory);
    case OpenFifoOp(pid, id, kind) => OpenFifoKeeps(w, pid, id, kind);
    case RmFifoOp(id) => RmFifoKeeps(w, id);
    case MapStdOp(pid, stdin, stdout) => MapStdKeeps(w, pid, stdin, stdout);
  }

  /** Only the shell runs, with its standard slots. */
  function Start(): World {
    World(Tables(seq(MAX_FD, _ => Entry(0, READ, 0)), seq(MAX_FIFO, _ => Fifo(0, 0, 0)), map[], 1, {}),
          map[1 := InitialSlots()], multiset{})
  }

  lemma StartIsSound()
    ensures Inv(Start())
  {
    forall g | InTable(g) ensures RefOk(Start(), {}, g) {
      assert Holders(Start().procs, g) == {} && Namers(Start().t.fifos, g) == {};
    }
  }

  ghost predicate Reaches(w: World, ops: seq<Op>, end: World)
    requires Inv(w)
    decreases |ops|
  {
    if ops == [] then end == w
    else Legal(w, ops[0]) && (StepKeeps(w, ops[0]); Reaches(Step(w, ops[0]), ops[1..], end))
  }

  lemma {:induction false} RunKeeps(w: World, ops: seq<Op>, end: World)
    requires Inv(w) && Reaches(w, ops, end)
    ensures Inv(end)
    decreases |ops|
  {
    if ops != [] {
      StepKeeps(w, ops[0]);
      RunKeeps(Step(w, ops[0]), ops[1..], end);
    }
  }

  /** `end` is reached from the start by the legal operations `ops`. */
  ghost predicate ReachedFromStart(ops: seq<Op>, end: World) {
    StartIsSound(); Reaches(Start(), ops, end)
  }

  /** In every run the references of an entry are the processes that hold it, the FIFOs that
      name it and those that nobody holds; an entry in use names a pipe that was not freed,
      unless it is lost: then nobody holds or names it. */
  lemma EveryReferenceCounts(ops: seq<Op>, end: World, g: int)
    requires ReachedFromStart(ops, end) && InTable(g)
    ensures Shaped(end.t)
    ensures var e := end.t.entries[g];
            && e.ref == |Holders(end.procs, g)| + |Namers(end.t.fifos, g)| + Unheld(end, g)
            && (e.ref > 0 ==> e.pipe in end.t.pipes && end.t.pipes[e.pipe].frees == if g in end.t.lost then 1 else 0)
            && (g in end.t.lost ==> Holders(end.procs, g) == {} && Namers(end.t.fifos, g) == {})
  {
    StartIsSound();
    RunKeeps(Start(), ops, end);
    assert RefOk(end, {}, g) && EntryOk(end.t, g);
  }

  // ------------------------------------------------------------------ leaks

  /** Whether an operation takes a reference that nobody will hold: it makes a pipe while exactly
      one entry is free, forks with a standard slot redirected to an entry in use, or opens an
      end of a FIFO that the process has open. */
  ghost predicate Leaks(w: World, op: Op)
    requires Inv(w) && Legal(w, op)
  {
    match op
    case OpenPipeOp(_, memory) => !OpensCleanly(w.t, memory)
    case MkFifoOp(id, memory) => !Refused(w.t, id) && !OpensCleanly(w.t, memory)
    case ForkOp(parent, _) => exists i | 0 <= i < FIRST_FD :: Taken(w.t, w.procs[parent][i])
    case OpenFifoOp(pid, id, kind) =>
      var i := FindFifo(w.t.fifos, id);
      id != 0 && i < MAX_FIFO && Holds(w.procs[pid], EndOf(w.t.fifos[i], kind))
    case _ => false
  }

  lemma {:induction false} RedirectedHas(t: Tables, slots: seq<int>, i: nat, k: nat)
    requires Shaped(t) && |slots| == MAX_FD && i <= k < FIRST_FD && Taken(t, slots[k])
    ensures Redirected(t, slots, i)[slots[k]] > 0
    decreases k - i
  {
    if i < k {
      RedirectedHas(t, slots, i + 1, k);
    }
  }

  lemma {:induction false} RedirectedNone(t: Tables, slots: seq<int>, i: nat)
    requires Shaped(t) && |slots| == MAX_FD && forall k | 0 <= k < FIRST_FD :: !Taken(t, slots[k])
    ensures Redirected(t, slots, i) == multiset{}
    decreases FIRST_FD - i
  {
    if i < FIRST_FD {
      RedirectedNone(t, slots, i + 1);
    }
  }

  lemma ForkLeaks(w: World, parent: int, child: int)
    requires Inv(w) && Legal(w, ForkOp(parent, child))
    ensures var r := Fork(w, parent, child); var leaks := Leaks(w, ForkOp(parent, child));
            && r.t.lost == w.t.lost && w.strays <= r.strays
            && (!leaks ==> r.strays == w.strays)
            && (leaks ==> exists g :: InTable(g) && Unheld(r, g) > Unheld(w, g))
  {
    var slots := w.procs[parent];
    DupSlotsLose(w.t, slots, 0);
    if k :| 0 <= k < FIRST_FD && Taken(w.t, slots[k]) {
      TakenInTable(w.t, slots[k]);
      RedirectedHas(w.t, slots, 0, k);
      assert Unheld(Fork(w, parent, child), slots[k]) > Unheld(w, slots[k]);
    } else {
      RedirectedNone(w.t, slots, 0);
    }
  }

  lemma FifoLeaks(w: World, pid: int, id: int, kind: Kind)
    requires Inv(w) && Legal(w, OpenFifoOp(pid, id, kind))
    ensures |w.procs[pid]| == MAX_FD
    ensures var r := SysOpenFifo(w, pid, id, kind); var leaks := Leaks(w, OpenFifoOp(pid, id, kind));
            && r.t.lost == w.t.lost && w.strays <= r.strays
            && (!leaks ==> r.strays == w.strays)
            && (leaks ==> exists g :: InTable(g) && Unheld(r, g) > Unheld(w, g))
  {
    var i := FindFifo(w.t.fifos, id);
    if id != 0 && i < MAX_FIFO {
      var g := EndOf(w.t.fifos[i], kind);
      NamerCounts(w, i, g);
      assert Holds(w.procs[pid], g) ==> Unheld(SysOpenFifo(w, pid, id, kind), g) > Unheld(w, g);
    }
  }

  lemma PipeLeaks(w: World, r: World, memory: bool)
    requires Inv(w) && r.t.lost == OpenPipe(w.t, memory).0.lost && r.strays == w.strays
    ensures w.t.lost <= r.t.lost && (OpensCleanly(w.t, memory) ==> r.t.lost == w.t.lost)
    ensures !OpensCleanly(w.t, memory) ==> exists g :: InTable(g) && Unheld(r, g) > Unheld(w, g)
  {
    OpenPipeExact(w.t, memory);
    if !OpensCleanly(w.t, memory) {
      var g :| InTable(g) && g !in w.t.lost && OpenPipe(w.t, memory).0.lost == w.t.lost + {g};
      assert Unheld(r, g) > Unheld(w, g);
    }
  }

  lemma StepLeaks(w: World, op: Op)
    requires Inv(w) && Legal(w, op)
    ensures var r := Step(w, op);
            && w.t.lost <= r.t.lost && w.strays <= r.strays
            && (!Leaks(w, op) ==> r.t.lost == w.t.lost && r.strays == w.strays)
            && (Leaks(w, op) ==> exists g :: InTable(g) && Unheld(r, g) > Unheld(w, g))
  {
    hide TablesOk, Counted;
    match op
    case OpenPipeOp(_, memory) => PipeLeaks(w, Step(w, op), memory);
    case MkFifoOp(id, memory) =>
      if !Refused(w.t, id) {
        PipeLeaks(w, Step(w, op), memory);
      }
    case ForkOp(parent, child) => ForkLeaks(w, parent, child);
    case OpenFifoOp(pid, id, kind) => FifoLeaks(w, pid, id, kind);
    case ExitOp(pid) => CloseSlotsLose(w.t, w.procs[pid], FIRST_FD);
    case _ =>
  }

  lemma {:induction false} DupSlotsLose(t: Tables, slots: seq<int>, i: nat)
    requires Shaped(t) && i <= |slots|
    ensures DupSlots(t, slots, i).lost == t.lost
    decreases |slots| - i
  {
    if i < |slots| {
      DupSlotsLose(FdDup(t, slots[i]), slots, i + 1);
    }
  }

  lemma {:induction false} CloseSlotsLose(t: Tables, slots: seq<int>, i: nat)
    requires Shaped(t) && i <= |slots|
    ensures CloseSlots(t, slots, i).lost == t.lost
    decreases |slots| - i
  {
    if i < |slots| {
      CloseSlotsLose(CloseFd(t, slots[i]).0, slots, i + 1);
    }
  }

  /** A run in which no operation leaks. */
  ghost predicate LeaksNothing(w: World, ops: seq<Op>, end: World)
    requires Inv(w) && Reaches(w, ops, end)
    decreases |ops|
  {
    ops == [] || (!Leaks(w, ops[0]) && (StepKeeps(w, ops[0]); LeaksNothing(Step(w, ops[0]), ops[1..], end)))
  }

  /** What is leaked stays so, whatever follows; and a run adds to it exactly if one of its
      operations leaks. */
  lemma {:induction false} LeakedForGood(w: World, ops: seq<Op>, end: World)
    requires Inv(w) && Reaches(w, ops, end)
    ensures w.t.lost <= end.t.lost && w.strays <= end.strays
    ensures LeaksNothing(w, ops, end) ==> end.t.lost == w.t.lost && end.strays == w.strays
    ensures !LeaksNothing(w, ops, end) ==> exists g :: InTable(g) && Unheld(end, g) > Unheld(w, g)
    decreases |ops|
  {
    hide Inv, Legal, Step, Leaks;
    if ops != [] {
      var m := Step(w, ops[0]);
      StepKeeps(w, ops[0]);
      StepLeaks(w, ops[0]);
      LeakedForGood(m, ops[1..], end);
      if Leaks(w, ops[0]) {
        var g :| InTable(g) && Unheld(m, g) > Unheld(w, g);
        assert Unheld(end, g) >= Unheld(m, g);
      } else if !LeaksNothing(m, ops[1..], end) {
        var g :| InTable(g) && Unheld(end, g) > Unheld(m, g);
        assert Unheld(m, g) == Unheld(w, g);
      }
    }
  }

  /** Every reference is held by a process or a FIFO exactly after the runs none of whose
      operations leaks. */
  lemma AccountedExactly(ops: seq<Op>, end: World)
    requires ReachedFromStart(ops, end)
    ensures Shaped(end.t)
    ensures (StartIsSound(); LeaksNothing(Start(), ops, end)) <==>
              forall g | InTable(g) :: end.t.entries[g].ref == |Holders(end.procs, g)| + |Namers(end.t.fifos, g)|
  {
    hide Inv, Reaches, LeaksNothing, Holders, Namers, Start, Unheld;
    StartIsSound();
    RunKeeps(Start(), ops, end);
    LeakedForGood(Start(), ops, end);
    InvIsHeld(end);
    HeldShaped(end, {});
    forall g | InTable(g)
      ensures Unheld(Start(), g) == 0
      ensures Unheld(end, g) == 0 <==> end.t.entries[g].ref == |Holders(end.procs, g)| + |Namers(end.t.fifos, g)|
      ensures end.t.lost == Start().t.lost && end.strays == Start().strays ==> Unheld(end, g) == Unheld(Start(), g)
    {
      RefTellsUnheld(end, g);
    }
  }

  lemma InvIsHeld(w: World)
    requires Inv(w)
    ensures Held(w, {})
  {
  }

  lemma RefTellsUnheld(w: World, g: int)
    requires Inv(w) && InTable(g)
    ensures Shaped(w.t) && w.t.entries[g].ref == |Holders(w.procs, g)| + |Namers(w.t.fifos, g)| + Unheld(w, g)
    ensures Unheld(Start(), g) == 0
    ensures w.t.lost == Start().t.lost && w.strays == Start().strays ==> Unheld(w, g) == Unheld(Start(), g)
  {
    assert RefOk(w, {}, g);
  }

  // ------------------------------------------------------------------ leaking runs

  /** One process opens and closes pipes, and there are no FIFOs. */
  ghost predicate Alone(w: World) {
    && Inv(w) && w.procs.Keys == {1} && w.t.lost == {} && w.strays == multiset{}
    && forall i | 0 <= i < MAX_FIFO :: w.t.fifos[i].id == 0
  }

  lemma OpenAlone(w: World)
    requires Alone(w) && |FreeEntries(w.t)| >= 2
    ensures var r := SysOpenPipe(w, 1, true); Alone(r) && |FreeEntries(r.t)| == |FreeEntries(w.t)| - 2
  {
    hide TablesOk, Counted;
    var (t, rd, wr) := OpenPipe(w.t, true);
    OpenCases(w.t);
    OpenBoth(w.t);
    OpenPipeKeeps(w, 1, true);
    assert FreeEntries(t) == FreeEntries(w.t) - {rd} - {wr};
  }

  lemma {:induction false} OpensAlone(w: World, n: nat) returns (end: World)
    requires Alone(w) && |FreeEntries(w.t)| >= 2 * n
    ensures Alone(end) && |FreeEntries(end.t)| == |FreeEntries(w.t)| - 2 * n
    ensures Reaches(w, seq(n, _ => OpenPipeOp(1, true)), end)
    decreases n
  {
    hide FreeEntries, SysOpenPipe, Inv;
    if n == 0 {
      end := w;
    } else {
      var op := OpenPipeOp(1, true);
      StepKeeps(w, op);
      OpenAlone(w);
      end := OpensAlone(Step(w, op), n - 1);
      assert seq(n, _ => op)[1..] == seq(n - 1, _ => op);
    }
  }

  lemma {:induction false} ReachesOneMore(w: World, ops: seq<Op>, mid: World, op: Op)
    requires Inv(w) && Reaches(w, ops, mid) && Inv(mid) && Legal(mid, op)
    ensures Reaches(w, ops + [op], Step(mid, op))
    decreases |ops|
  {
    hide Legal, Step;
    if ops == [] {
      StepKeeps(mid, op);
      assert (ops + [op])[1..] == [];
    } else {
      StepKeeps(w, ops[0]);
      ReachesOneMore(Step(w, ops[0]), ops[1..], mid, op);
      assert (ops + [op])[1..] == ops[1..] + [op];
    }
  }

  /** With the table full, closing one descriptor leaves one entry free. */
  lemma CloseAlone(w: World)
    requires Alone(w) && FreeEntries(w.t) == {}
    ensures |w.procs[1]| == MAX_FD && |FreeEntries(SysClose(w, 1, FIRST_FD).t)| == 1
    ensures 1 in SysClose(w, 1, FIRST_FD).procs && SysClose(w, 1, FIRST_FD).t.lost == {}
  {
    var r := SysClose(w, 1, FIRST_FD);
    assert FIRST_FD !in FreeEntries(w.t);
    assert RefOk(w, {}, FIRST_FD) && EntryOk(w.t, FIRST_FD);
    assert Namers(w.t.fifos, FIRST_FD) == {};
    SubsetSize(Holders(w.procs, FIRST_FD), {1});
    assert 1 in Holders(w.procs, FIRST_FD) by {
      assert Holders(w.procs, FIRST_FD) != {};
    }
    assert forall g | InTable(g) :: g !in FreeEntries(w.t);
    assert FreeEntries(r.t) == {FIRST_FD};
  }

  ghost function Span(a: int, b: int): (s: set<int>)
    requires a <= b
    ensures |s| == b - a && forall g :: g in s <==> a <= g < b
    decreases b - a
  {
    if a == b then {} else {a} + Span(a + 1, b)
  }

  lemma FullTable() returns (opens: seq<Op>, full: World)
    ensures ReachedFromStart(opens, full) && Alone(full) && FreeEntries(full.t) == {}
  {
    hide FreeEntries, Inv, Start, Alone;
    StartIsSound();
    StartIsAlone();
    full := OpensAlone(Start(), 126);
    opens := seq(126, _ => OpenPipeOp(1, true));
  }

  lemma StartIsAlone()
    ensures Alone(Start()) && |FreeEntries(Start().t)| == 252
  {
    StartIsSound();
    assert FreeEntries(Start().t) == Span(FIRST_FD, MAX_FD);
  }

  /** The shell opens 126 pipes, which fills the table, and closes one end: a run ends with one
      entry free, and the next pipe it opens loses that entry. */
  lemma OneFreeEntryIsReached() returns (ops: seq<Op>, end: World)
    ensures ReachedFromStart(ops, end) && Inv(end) && |FreeEntries(end.t)| == 1
    ensures Legal(end, OpenPipeOp(1, true)) && Step(end, OpenPipeOp(1, true)).t.lost != {}
  {
    hide Inv, Reaches, SysClose, SysOpenPipe, FreeEntries;
    var opens, full := FullTable();
    var op := CloseOp(1, FIRST_FD);
    StartIsSound();
    StepKeeps(full, op);
    CloseAlone(full);
    ReachesOneMore(Start(), opens, full, op);
    ops, end := opens + [op], Step(full, op);
    LosesWithOneFree(end);
  }

  lemma LosesWithOneFree(w: World)
    requires Inv(w) && 1 in w.procs && |FreeEntries(w.t)| == 1
    ensures Step(w, OpenPipeOp(1, true)).t.lost != {}
  {
    hide TablesOk, Counted, FreeEntries, OpenPipe;
    OneFreeEntryIsLost(w.t);
    assert FirstFree(w.t.entries, FIRST_FD) in Step(w, OpenPipeOp(1, true)).t.lost;
  }

  /** A shell whose standard input is a pipe forks: the child's reference for its own standard
      input is never given back. */
  lemma RedirectedForkLeaks() returns (end: World)
    ensures ReachedFromStart([OpenPipeOp(1, true), MapStdOp(1, 3, 1), ForkOp(1, 2)], end) && end.strays == multiset{3}
  {
    hide TablesOk, Counted, DupSlots;
    StartIsSound();
    var a, b, c := OpenPipeOp(1, true), MapStdOp(1, 3, 1), ForkOp(1, 2);
    var w1 := Step(Start(), a);
    StepKeeps(Start(), a);
    FirstPipe();
    var w2 := Step(w1, b);
    StepKeeps(w1, b);
    end := Step(w2, c);
    StepKeeps(w2, c);
    var slots := w2.procs[1];
    assert Taken(w2.t, slots[0]) && !Taken(w2.t, slots[1]) && !Taken(w2.t, slots[2]) by {
      assert slots[0] == 3 && slots[1] == 1 && slots[2] == 2;
    }
    assert Redirected(w2.t, slots, 2) == multiset{};
    assert Redirected(w2.t, slots, 1) == multiset{};
    assert Redirected(w2.t, slots, 0) == multiset{3};
    ThreeSteps(Start(), a, b, c);
  }

  /** The first pipe gets entries 3 and 4. */
  lemma FirstEntries()
    ensures var t := Start().t; var (r, rd, wr) := OpenPipe(t, true);
            && rd == 3 && wr == 4 && r.fifos == t.fifos
            && r.entries == t.entries[3 := Entry(1, READ, 1)][4 := Entry(1, WRITE, 1)]
  {
    var e := Start().t.entries[3 := Entry(1, READ, 1)];
    assert FirstFree(e, 4) == 4 && FirstFree(e, 3) == 4;
  }

  lemma FirstPipe()
    ensures var w := (StartIsSound(); Step(Start(), OpenPipeOp(1, true)));
            && w.procs == map[1 := InitialSlots()[3 := 3][4 := 4]] && w.strays == multiset{}
            && Shaped(w.t) && w.t.entries[3].ref == 1 && forall g | 0 <= g < FIRST_FD :: w.t.entries[g].ref == 0
  {
    hide OpenPipe;
    StartIsSound();
    FirstEntries();
  }

  lemma ThreeSteps(w: World, a: Op, b: Op, c: Op)
    requires Inv(w) && Legal(w, a)
    requires (StepKeeps(w, a); Legal(Step(w, a), b)) && (StepKeeps(Step(w, a), b); Legal(Step(Step(w, a), b), c))
    ensures Reaches(w, [a, b, c], Step(Step(Step(w, a), b), c))
  {
    hide Legal, Step, Inv;
    StepKeeps(w, a);
    StepKeeps(Step(w, a), b);
    StepKeeps(Step(Step(w, a), b), c);
    var end := Step(Step(Step(w, a), b), c);
    assert Reaches(end, [], end);
    assert [c][1..] == [] && [b, c][1..] == [c] && [a, b, c][1..] == [b, c];
    assert Reaches(Step(Step(w, a), b), [c], end);
    assert Reaches(Step(w, a), [b, c], end);
  }

  /** A process opens the same end of a FIFO twice. */
  lemma SecondOpenLeaks() returns (end: World)
    ensures ReachedFromStart([MkFifoOp(7, true), OpenFifoOp(1, 7, READ), OpenFifoOp(1, 7, READ)], end)
    ensures end.strays == multiset{3}
  {
    hide TablesOk, Counted;
    StartIsSound();
    var a, b := MkFifoOp(7, true), OpenFifoOp(1, 7, READ);
    var w1 := Step(Start(), a);
    StepKeeps(Start(), a);
    FirstFifo();
    var w2 := Step(w1, b);
    StepKeeps(w1, b);
    assert w2.procs[1][3] == 3 && w2.t.fifos == w1.t.fifos;
    end := Step(w2, b);
    StepKeeps(w2, b);
    ThreeSteps(Start(), a, b, b);
  }

  lemma FirstFifo()
    ensures var w := (StartIsSound(); Step(Start(), MkFifoOp(7, true)));
            && w.procs == Start().procs && Shaped(w.t) && w.strays == multiset{}
            && FindFifo(w.t.fifos, 7) == 0 && w.t.fifos[0] == Fifo(7, 3, 4)
  {
    hide OpenPipe;
    StartIsSound();
    FirstEntries();
    var fifos := Start().t.fifos;
    assert FindFifo(fifos, 0) == 0 && FindFifo(fifos, 7) == MAX_FIFO;
  }

  // ------------------------------------------------------------------ freed pipes

  /** In every run a pipe is freed at most once, and it has been freed exactly when neither of
      its ends has references any more that anybody holds. */
  lemma FreedExactlyOnce(ops: seq<Op>, end: World, p: int)
    requires ReachedFromStart(ops, end) && p in end.t.pipes
    ensures Shaped(end.t) && end.t.pipes[p].frees <= 1
    ensures end.t.pipes[p].frees == 1 <==>
              forall g | InTable(g) && g !in end.t.lost && end.t.entries[g].pipe == p :: end.t.entries[g].ref == 0
  {
    StartIsSound();
    RunKeeps(Start(), ops, end);
    assert PipeOk(end.t, p);
    forall g | InTable(g) && g !in end.t.lost && end.t.entries[g].pipe == p
      ensures end.t.entries[g].ref == 0 || end.t.pipes[p].frees == 0
    {
      assert EntryOk(end.t, g);
    }
    var e := end.t.pipes[p];
    var g := if e.readOpen then e.readfd else e.writefd;
    assert e.frees == 0 ==> InTable(g) && end.t.entries[g].pipe == p && end.t.entries[g].ref > 0;
    assert e.frees == 0 ==> EntryOk(end.t, g);
  }

  /** When the last process and the last FIFO are gone, a pipe has been freed, once, exactly if
      no stray reference holds one of its ends; so all have been after a run that leaks nothing. */
  lemma NothingLeaks(ops: seq<Op>, end: World, p: int)
    requires ReachedFromStart(ops, end) && end.procs == map[] && p in end.t.pipes
    requires forall i | 0 <= i < |end.t.fifos| :: end.t.fifos[i].id == 0
    ensures Shaped(end.t)
    ensures end.t.pipes[p].frees == 1 <==>
              forall g | InTable(g) && g !in end.t.lost && end.t.entries[g].pipe == p :: end.strays[g] == 0
    ensures (StartIsSound(); LeaksNothing(Start(), ops, end)) ==> end.t.pipes[p].frees == 1
  {
    FreedExactlyOnce(ops, end, p);
    StartIsSound();
    LeakedForGood(Start(), ops, end);
    forall g | InTable(g) && g !in end.t.lost && end.t.entries[g].pipe == p
      ensures end.t.entries[g].ref == end.strays[g]
    {
      EveryReferenceCounts(ops, end, g);
      assert Holders(end.procs, g) == {} && Namers(end.t.fifos, g) == {};
    }
  }
}
