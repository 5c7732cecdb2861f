// A pipe: a ring of 4096 bytes between free-running 32-bit counters. Reads and writes are given
// in the segments the kernel runs without interruption: a call runs to its end or until it has
// to sleep, and a woken sleeper runs the same segment again from where it stopped.
module Pipes {

  const PIPE_BUFFER := 4096
  const UINT32 := 0x1_0000_0000

  /** Written to the ring when the write end closes. */
  const MARKER := -1

  /** `data` is in flight, next byte first; a PID is 0 when nobody is in that call. */
  datatype PipeState = PipeState(data: seq<int>, readOpen: bool, writeOpen: bool, readPID: int, writePID: int)

  /** How a segment ended: `pid` sleeps or the call returned a result; `woken` is to be
      unblocked if it is not 0. */
  datatype End = Asleep(woken: int) | Done(result: int, woken: int)

  function Min(a: int, b: int): int {
    if a < b then a else b
  }

  /** What reading gives: the next bytes, at most `count`. */
  function Delivered(p: PipeState, count: nat): seq<int> {
    if p.readOpen then p.data[..Min(count, |p.data|)] else []
  }

  /** A reader sleeps when there is nothing to read and more may come. */
  function ReadSegment(p: PipeState, pid: int, count: nat): (PipeState, End) {
    if p.data == [] && p.writeOpen then (p.(readPID := pid), Asleep(0))
    else
      var n := Min(count, |p.data|);
      (p.(readPID := 0, data := p.data[n..]), Done(n, p.writePID))
  }

  /** How many of the bytes still to write fit into the ring. */
  function Fits(p: PipeState, bytes: seq<int>): (n: int)
    requires |p.data| <= PIPE_BUFFER
    ensures 0 <= n <= |bytes| && |p.data| + n <= PIPE_BUFFER
  {
    Min(|bytes|, PIPE_BUFFER - |p.data|)
  }

  /** Writing goes on until all is written or the ring is full; then the writer sleeps, or
      gives up if nobody can read any more. */
  function WriteSegment(p: PipeState, pid: int, bytes: seq<int>, count: nat): (PipeState, End)
    requires |p.data| <= PIPE_BUFFER
  {
    var n := Fits(p, bytes);
    var q := p.(data := p.data + bytes[..n], writePID := if bytes == [] then p.writePID else 0);
    if n == |bytes| then (q, Done(count, p.readPID))
    else if !p.readOpen then (q, Done(-1, 0))
    else (q.(writePID := pid), Asleep(p.readPID))
  }

  /** Before anything else, a call looks at the ends of the pipe. */
  function ReadCall(p: PipeState, pid: int, count: nat): (PipeState, End) {
    if !p.readOpen then (p, Done(-1, 0)) else ReadSegment(p, pid, count)
  }

  function WriteCall(p: PipeState, pid: int, bytes: seq<int>): (PipeState, End)
    requires |p.data| <= PIPE_BUFFER
  {
    if !p.writeOpen || !p.readOpen then (p, Done(-1, 0)) else WriteSegment(p, pid, bytes, |bytes|)
  }

  /** Closing the write end puts the marker behind the bytes; in a full ring it comes before
      them all, and they are lost. */
  function WriteEndClosed(p: PipeState): PipeState {
    p.(writeOpen := false, data := if |p.data| < PIPE_BUFFER then p.data else [])
  }

  // ------------------------------------------------------------------ the ring

  function Cell(i: int): (c: int)
    ensures 0 <= c < PIPE_BUFFER
  {
    i % PIPE_BUFFER
  }

  function Next(i: int): int {
    (i + 1) % UINT32
  }

  /** The counters run through 2^32, a multiple of the size of the ring. */
  lemma CellOfNext(i: int, k: int)
    ensures Cell(Next(i) + k) == Cell(i + k + 1)
  {
    assert i + 1 == UINT32 * ((i + 1) / UINT32) + Next(i);
    var m := (UINT32 / PIPE_BUFFER) * ((i + 1) / UINT32);
    assert i + k + 1 == PIPE_BUFFER * m + (Next(i) + k);
    SameCell(Next(i) + k, m);
  }

  lemma SameCell(i: int, m: int)
    ensures Cell(PIPE_BUFFER * m + i) == Cell(i)
  {
    var q := i / PIPE_BUFFER;
    assert i == PIPE_BUFFER * q + Cell(i);
    assert PIPE_BUFFER * m + i == PIPE_BUFFER * (m + q) + Cell(i);
  }

  lemma CellsDiffer(i: int, j: int, k: int)
    requires 0 <= j < k < PIPE_BUFFER
    ensures Cell(i + j) != Cell(i + k)
  {
  }

  function Used(readIdx: int, writeIdx: int): (n: int)
    ensures 0 <= n < UINT32
  {
    (writeIdx - readIdx) % UINT32
  }

  predicate Counter(i: int) {
    0 <= i < UINT32
  }

  lemma UsedAfterRead(r: int, w: int)
    requires Counter(r) && Counter(w) && r != w
    ensures Counter(Next(r)) && Used(Next(r), w) == Used(r, w) - 1
  {
  }

  lemma UsedAfterWrite(r: int, w: int)
    requires Counter(r) && Counter(w) && Used(r, w) <= PIPE_BUFFER
    ensures Counter(Next(w)) && Used(r, Next(w)) == Used(r, w) + 1
  {
  }

  /** The two tests of the code. */
  lemma EmptyAndFull(r: int, w: int)
    requires Counter(r) && Counter(w)
    ensures r == w <==> Used(r, w) == 0
    ensures w == (r + PIPE_BUFFER) % UINT32 <==> Used(r, w) == PIPE_BUFFER
  {
  }

  /** The byte after the last one goes to the cell of the write counter. */
  lemma CellOfWrite(r: int, w: int)
    requires Counter(r) && Counter(w)
    ensures Cell(w) == Cell(r + Used(r, w))
  {
    if w < r {
      SameCell(w, UINT32 / PIPE_BUFFER);
    }
  }

  // ------------------------------------------------------------------ the pipe in memory

  ghost function Cells(buf: array<int>, from: int, n: nat): (r: seq<int>)
    requires buf.Length == PIPE_BUFFER
    reads buf
    ensures |r| == n
  {
    seq(n, k requires 0 <= k reads buf => buf[Cell(from + k)])
  }

  lemma CellsShift(buf: array<int>, r: int, n: nat)
    requires buf.Length == PIPE_BUFFER && n > 0
    ensures Cells(buf, Next(r), n - 1) == Cells(buf, r, n)[1..]
  {
    forall k | 0 <= k < n - 1 ensures Cells(buf, Next(r), n - 1)[k] == Cells(buf, r, n)[1..][k] {
      CellOfNext(r, k);
    }
  }

  class Pipe {
    const buf: array<int>
    var readIdx: int
    var writeIdx: int
    var readOpen: bool
    var writeOpen: bool
    var readPID: int
    var writePID: int

    constructor ()
      ensures Valid() && State() == PipeState([], true, true, 0, 0) && fresh(buf)
    {
      buf := new int[PIPE_BUFFER];
      readIdx, writeIdx := 0, 0;
      readOpen, writeOpen := true, true;
      readPID, writePID := 0, 0;
    }

    /** The cells between the counters, read first to last. */
    ghost function Raw(): (r: seq<int>)
      requires buf.Length == PIPE_BUFFER
      reads this`readIdx, this`writeIdx, buf
      ensures |r| == Used(readIdx, writeIdx)
    {
      Cells(buf, readIdx, Used(readIdx, writeIdx))
    }

    /** Once the write end is closed, the last cell holds the marker; in a ring that was full,
        that is the first cell, too. */
    ghost function Data(): seq<int>
      requires buf.Length == PIPE_BUFFER
      reads this`readIdx, this`writeIdx, this`writeOpen, buf
    {
      if writeOpen || Raw() == [] then Raw() else if |Raw()| > PIPE_BUFFER then [] else Raw()[..|Raw()| - 1]
    }

    ghost predicate Valid()
      reads this`readIdx, this`writeIdx, this`writeOpen, buf
    {
      && buf.Length == PIPE_BUFFER && Counter(readIdx) && Counter(writeIdx)
      && Used(readIdx, writeIdx) <= (if writeOpen then PIPE_BUFFER else PIPE_BUFFER + 1)
      && MARKER !in Data()
      && (!writeOpen ==> Raw() != [] && Raw()[|Raw()| - 1] == MARKER)
    }

    ghost function State(): PipeState
      requires buf.Length == PIPE_BUFFER
      reads this, buf
    {
      PipeState(Data(), readOpen, writeOpen, readPID, writePID)
    }

    /** What the reader's loop tests. */
    lemma AtEnd()
      requires Valid()
      ensures buf.Length == PIPE_BUFFER
      ensures readIdx == writeIdx || buf[Cell(readIdx)] == MARKER <==> Data() == []
      ensures readIdx == writeIdx <==> Data() == [] && writeOpen
    {
      EmptyAndFull(readIdx, writeIdx);
      if Raw() != [] {
        assert Raw()[0] == buf[Cell(readIdx)];
      }
    }

    /** What the writer's loop tests. */
    lemma Full()
      requires Valid()
      ensures buf.Length == PIPE_BUFFER && |Data()| <= PIPE_BUFFER
      ensures writeOpen ==> (writeIdx == (readIdx + PIPE_BUFFER) % UINT32 <==> |Data()| == PIPE_BUFFER)
    {
      EmptyAndFull(readIdx, writeIdx);
    }

    /** Takes the next byte out of the ring. */
    method TakeByte() returns (b: int)
      requires Valid() && State().data != []
      modifies this`readIdx
      ensures Valid() && b == old(State()).data[0] && State() == old(State()).(data := old(State()).data[1..])
    {
      ghost var raw := Raw();
      b := buf[Cell(readIdx)];
      assert b == raw[0];
      UsedAfterRead(readIdx, writeIdx);
      CellsShift(buf, readIdx, |raw|);
      readIdx := Next(readIdx);
      assert Raw() == raw[1..];
    }

    /** Puts a byte into a ring that has room. */
    method PutByte(b: int)
      requires Valid() && |State().data| < PIPE_BUFFER && writeOpen && b != MARKER
      modifies this`writeIdx, buf
      ensures Valid() && State() == old(State()).(data := old(State()).data + [b])
    {
      ghost var raw := Raw();
      UsedAfterWrite(readIdx, writeIdx);
      CellOfWrite(readIdx, writeIdx);
      buf[Cell(writeIdx)] := b;
      forall k | 0 <= k < |raw| ensures buf[Cell(readIdx + k)] == raw[k] {
        CellsDiffer(readIdx, k, |raw|);
      }
      writeIdx := Next(writeIdx);
      assert Raw() == raw + [b];
    }

    /** The reader's segment; `dst` gets the bytes. */
    method Read(pid: int, dst: array<int>, count: nat) returns (e: End)
      requires Valid() && readOpen && count <= dst.Length && dst != buf
      modifies this`readIdx, this`readPID, dst
      ensures Valid() && (State(), e) == ReadSegment(old(State()), pid, count)
      ensures e.Done? ==> dst[..e.result] == Delivered(old(State()), count)
    {
      hide Valid, Data, Raw;
      AtEnd();
      readPID := pid;
      if readIdx == writeIdx {
        return Asleep(0);
      }
      readPID := 0;
      var i := 0;
      ghost var data := Data();
      while i < count
        invariant 0 <= i <= count && i <= |data|
        invariant Valid() && State() == old(State()).(readPID := 0, data := data[i..])
        invariant dst[..i] == data[..i]
      {
        AtEnd();
        if readIdx == writeIdx || buf[Cell(readIdx)] == MARKER {
          break;
        }
        var b := TakeByte();
        dst[i] := b;
        i := i + 1;
      }
      e := Done(i, writePID);
    }

    /** The whole call, up to where it first sleeps; the caller holds the read semaphore. */
    method ReadPipe(pid: int, dst: array<int>, count: nat) returns (e: End)
      requires Valid() && count <= dst.Length && dst != buf
      modifies this`readIdx, this`readPID, dst
      ensures Valid() && (State(), e) == ReadCall(old(State()), pid, count)
      ensures e.Done? && e.result >= 0 ==> dst[..e.result] == Delivered(old(State()), count)
    {
      if !readOpen {
        return Done(-1, 0);
      }
      e := Read(pid, dst, count);
    }

    /** The writer's segment, from byte `from` of the call on; `next` is where it goes on if it
        sleeps. */
    method Write(pid: int, src: seq<int>, from: nat) returns (next: nat, e: End)
      requires Valid() && |State().data| <= PIPE_BUFFER && writeOpen && from <= |src| && MARKER !in src
      modifies this, buf
      ensures Valid() && (State(), e) == WriteSegment(old(State()), pid, src[from..], |src|)
      ensures next == from + Fits(old(State()), src[from..])
    {
      hide Valid, Data, Raw;
      Full();
      next := from;
      ghost var bytes := src[from..];
      while next < |src|
        invariant from <= next <= |src| && next - from <= Fits(old(State()), bytes)
        invariant Valid()
        invariant State() == old(State()).(data := old(State()).data + bytes[..next - from],
                                           writePID := if next == from then old(writePID) else 0)
      {
        Full();
        writePID := pid;
        if writeIdx == (readIdx + PIPE_BUFFER) % UINT32 {
          if !readOpen {
            writePID := 0;
            return next, Done(-1, 0);
          }
          return next, Asleep(readPID);
        }
        writePID := 0;
        PutByte(src[next]);
        assert bytes[..next - from] + [src[next]] == bytes[..next + 1 - from];
        next := next + 1;
      }
      e := Done(|src|, readPID);
    }

    method WritePipe(pid: int, src: seq<int>) returns (next: nat, e: End)
      requires Valid() && MARKER !in src
      modifies this, buf
      ensures Valid() && (State(), e) == WriteCall(old(State()), pid, src)
      ensures next == if old(writeOpen && readOpen) then Fits(old(State()), src) else 0
    {
      if !writeOpen || !readOpen {
        return 0, Done(-1, 0);
      }
      assert src[0..] == src;
      next, e := Write(pid, src, 0);
    }

    method CloseRead()
      requires Valid()
      modifies this`readOpen
      ensures Valid() && State() == old(State()).(readOpen := false)
    {
      readOpen := false;
    }

    /** The marker takes the next cell in any case. */
    method CloseWrite()
      requires Valid() && writeOpen
      modifies this`writeOpen, this`writeIdx, buf
      ensures Valid() && State() == WriteEndClosed(old(State()))
    {
      ghost var raw := Raw();
      UsedAfterWrite(readIdx, writeIdx);
      CellOfWrite(readIdx, writeIdx);
      writeOpen := false;
      buf[Cell(writeIdx)] := MARKER;
      writeIdx := Next(writeIdx);
      if |raw| < PIPE_BUFFER {
        forall k | 0 <= k < |raw| ensures buf[Cell(readIdx + k)] == raw[k] {
          CellsDiffer(readIdx, k, |raw|);
        }
        assert Raw() == raw + [MARKER];
      } else {
        assert Raw()[PIPE_BUFFER] == MARKER;
      }
    }
  }
}
