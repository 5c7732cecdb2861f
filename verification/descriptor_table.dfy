// The descriptor and FIFO tables as the kernel keeps them, changed in place.
module DescriptorTable {
  import D = Descriptors

  class Table {
    const fdTable: array<D.Entry>
    const fifoTable: array<D.Fifo>
    var pipes: map<int, D.Ends>
    var nextPipe: int
    ghost var lost: set<int>

    ghost predicate Valid() {
      fdTable.Length == D.MAX_FD && fifoTable.Length == D.MAX_FIFO
    }

    ghost function State(): (t: D.Tables)
      requires Valid()
      reads this, fdTable, fifoTable
      ensures D.Shaped(t)
    {
      D.Tables(fdTable[..], fifoTable[..], pipes, nextPipe, lost)
    }

    constructor ()
      ensures Valid() && fresh(fdTable) && fresh(fifoTable)
      ensures State() == D.Tables(seq(D.MAX_FD, _ => D.Entry(0, D.READ, 0)), seq(D.MAX_FIFO, _ => D.Fifo(0, 0, 0)), map[], 1, {})
    {
      fdTable := new D.Entry[D.MAX_FD](_ => D.Entry(0, D.READ, 0));
      fifoTable := new D.Fifo[D.MAX_FIFO](_ => D.Fifo(0, 0, 0));
      pipes, nextPipe, lost := map[], 1, {};
    }

    method InitFd(kind: D.Kind, pipe: int) returns (id: int)
      requires Valid()
      modifies fdTable
      ensures (State(), id) == D.InitFd(old(State()), kind, pipe)
    {
      var i := D.FIRST_FD;
      while i < D.MAX_FD
        invariant D.FIRST_FD <= i <= D.MAX_FD && fdTable[..] == old(fdTable[..])
        invariant D.FirstFree(fdTable[..], D.FIRST_FD) == D.FirstFree(fdTable[..], i)
      {
        if fdTable[i].ref == 0 {
          fdTable[i] := D.Entry(1, kind, pipe);
          return i;
        }
        i := i + 1;
      }
      return -1;
    }

    method ClosePipe(pipe: int, kind: D.Kind)
      requires Valid()
      modifies this`pipes
      ensures State() == D.ClosePipe(old(State()), pipe, kind)
    {
      if pipe in pipes {
        var p := pipes[pipe];
        if kind == D.READ {
          p := p.(readOpen := false);
        } else {
          p := p.(writeOpen := false);
        }
        if !p.readOpen && !p.writeOpen {
          p := p.(frees := p.frees + 1);
        }
        pipes := pipes[pipe := p];
      }
    }

    method CloseFd(id: int) returns (code: int)
      requires Valid()
      modifies this`pipes, fdTable
      ensures (State(), code) == D.CloseFd(old(State()), id)
    {
      if id < 0 || id >= D.MAX_FD || fdTable[id].ref == 0 {
        return -1;
      }
      fdTable[id] := fdTable[id].(ref := fdTable[id].ref - 1);
      if fdTable[id].ref == 0 {
        ClosePipe(fdTable[id].pipe, fdTable[id].kind);
        fdTable[id] := fdTable[id].(pipe := 0);
      }
      assert fdTable[..] == old(fdTable[..])[id := fdTable[id]];
      return 0;
    }

    method FdDup(id: int)
      requires Valid()
      modifies fdTable
      ensures State() == D.FdDup(old(State()), id)
    {
      if 0 <= id < D.MAX_FD && fdTable[id].ref != 0 {
        fdTable[id] := fdTable[id].(ref := fdTable[id].ref + 1);
      }
    }

    method OpenPipe(memory: bool) returns (r: int, w: int)
      requires Valid()
      modifies this, fdTable
      ensures (State(), r, w) == D.OpenPipe(old(State()), memory)
    {
      r, w := -1, -1;
      if memory {
        var pipe := nextPipe;
        nextPipe := nextPipe + 1;
        r := InitFd(D.READ, pipe);
        if r < 0 {
          pipes := pipes[pipe := D.Ends(false, false, -1, -1, 1)];
        } else {
          w := InitFd(D.WRITE, pipe);
          if w < 0 {
            pipes := pipes[pipe := D.Ends(false, false, r, -1, 1)];
            lost := lost + {r};
            r := -1;
          } else {
            pipes := pipes[pipe := D.Ends(true, true, r, w, 0)];
          }
        }
      }
    }

    /** The first free FIFO, or a refusal if there is none or the identifier is taken. */
    method MkFifo(id: int, memory: bool) returns (code: int)
      requires Valid()
      modifies this, fdTable, fifoTable
      ensures (State(), code) == D.MkFifo(old(State()), id, memory)
    {
      code := -1;
      if id != 0 {
        var k, taken := FindFree(id);
        if !taken && k >= 0 {
          var r, w := OpenPipe(memory);
          if r >= 0 {
            fifoTable[k] := D.Fifo(id, r, w);
            code := 0;
          }
        }
      }
    }

    method FindFree(id: int) returns (k: int, taken: bool)
      requires Valid() && id != 0
      ensures taken <==> D.FindFifo(fifoTable[..], id) < D.MAX_FIFO
      ensures !taken ==> k == if D.FindFifo(fifoTable[..], 0) < D.MAX_FIFO then D.FindFifo(fifoTable[..], 0) else -1
    {
      k, taken := -1, false;
      var i := 0;
      while i < D.MAX_FIFO
        invariant 0 <= i <= D.MAX_FIFO
        invariant forall j | 0 <= j < i :: fifoTable[j].id != id
        invariant k == -1 ==> forall j | 0 <= j < i :: fifoTable[j].id != 0
        invariant k != -1 ==> 0 <= k < i && fifoTable[k].id == 0 && forall j | 0 <= j < k :: fifoTable[j].id != 0
      {
        if fifoTable[i].id == id {
          FoundAt(fifoTable[..], id, i);
          return k, true;
        }
        if fifoTable[i].id == 0 && k == -1 {
          k := i;
        }
        i := i + 1;
      }
      FoundAt(fifoTable[..], id, D.MAX_FIFO);
      FoundAt(fifoTable[..], 0, if k == -1 then D.MAX_FIFO else k);
    }

    method Find(id: int) returns (i: int)
      requires Valid()
      ensures i == D.FindFifo(fifoTable[..], id)
    {
      i := 0;
      while i < D.MAX_FIFO && fifoTable[i].id != id
        invariant 0 <= i <= D.MAX_FIFO
        invariant forall j | 0 <= j < i :: fifoTable[j].id != id
      {
        i := i + 1;
      }
      FoundAt(fifoTable[..], id, i);
    }

    method OpenFifo(id: int, kind: D.Kind) returns (fd: int)
      requires Valid()
      modifies fdTable
      ensures (State(), fd) == D.OpenFifo(old(State()), id, kind)
    {
      if id == 0 {
        return -1;
      }
      var i := Find(id);
      if i == D.MAX_FIFO {
        return -1;
      }
      fd := if kind == D.READ then fifoTable[i].readfd else fifoTable[i].writefd;
      FdDup(fd);
    }

    method RmFifo(id: int) returns (code: int)
      requires Valid()
      modifies this`pipes, fdTable, fifoTable
      ensures (State(), code) == D.RmFifo(old(State()), id)
    {
      if id == 0 {
        return -1;
      }
      var i := Find(id);
      if i == D.MAX_FIFO {
        return -1;
      }
      var f := fifoTable[i];
      fifoTable[i] := D.Fifo(0, 0, 0);
      var c := CloseFd(f.readfd);
      c := CloseFd(f.writefd);
      return 0;
    }

    /** The slots of a child: those of the parent, each counted once more. */
    method ForkFd(slots: seq<int>) returns (child: seq<int>)
      requires Valid()
      modifies fdTable
      ensures child == slots && State() == D.DupSlots(old(State()), slots, 0)
    {
      child := [];
      var i := 0;
      while i < |slots|
        invariant 0 <= i <= |slots| && child == slots[..i]
        invariant D.DupSlots(State(), slots, i) == D.DupSlots(old(State()), slots, 0)
      {
        child := child + [slots[i]];
        FdDup(slots[i]);
        i := i + 1;
      }
    }

    /** A process that ends closes its descriptors from slot 3 on. */
    method CloseSlots(slots: seq<int>)
      requires Valid() && |slots| == D.MAX_FD
      modifies this`pipes, fdTable
      ensures State() == D.CloseSlots(old(State()), slots, D.FIRST_FD)
    {
      var i := D.FIRST_FD;
      while i < |slots|
        invariant D.FIRST_FD <= i <= |slots|
        invariant D.CloseSlots(State(), slots, i) == D.CloseSlots(old(State()), slots, D.FIRST_FD)
      {
        var code := CloseFd(slots[i]);
        i := i + 1;
      }
    }
  }

  lemma FoundAt(fifos: seq<D.Fifo>, id: int, i: nat)
    requires i <= |fifos| && (i < |fifos| ==> fifos[i].id == id)
    requires forall j | 0 <= j < i :: fifos[j].id != id
    ensures D.FindFifo(fifos, id) == i
  {
  }
}
