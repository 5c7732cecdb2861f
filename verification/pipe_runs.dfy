// Readers and writers of one pipe over whole runs: what arrives, and who sleeps when. The read
// and the write semaphore let one reader and one writer in at a time.
module PipeRuns {
  import opened Pipes

  datatype Reading = NoReader | Reader(pid: int, count: nat)

  /** `next` is the first byte of the call that is not in the ring yet. */
  datatype Writing = NoWriter | Writer(pid: int, bytes: seq<int>, next: nat)

  /** What a call that returned gave back: the bytes it delivered or put, its result, whether its
      end, and for a write the other one, was open when it started, how many bytes were in the
      ring when it returned, and whether the other end was open then. */
  datatype Return =
    | Got(count: nat, data: seq<int>, result: int, wasOpen: bool, left: nat, otherOpen: bool)
    | Wrote(bytes: seq<int>, put: seq<int>, result: int, wasOpen: bool, left: nat, otherOpen: bool)

  /** `asleep` holds who is blocked in a call on this pipe; `sent` is everything ever put into
      the ring, `received` everything ever taken out, `lost` what the close of the write end
      made unreadable, and `writes` what the calls that returned had put there. */
  datatype World = World(p: PipeState, reader: Reading, writer: Writing, asleep: set<int>,
                         sent: seq<int>, received: seq<int>, lost: seq<int>, writes: seq<int>, log: seq<Return>)

  datatype Event =
    | StartRead(pid: int, count: nat)
    | GoOnReading
    | StartWrite(pid: int, bytes: seq<int>)
    | GoOnWriting
    | Wakeup(pid: int)
    | CloseReadEnd
    | CloseWriteEnd

  predicate Outside(w: World, pid: int) {
    pid > 0 && pid !in w.asleep && (w.reader.Reader? ==> w.reader.pid != pid) && (w.writer.Writer? ==> w.writer.pid != pid)
  }

  /** A sleeper goes on only when it has been woken, by whomever; an end is closed when nobody
      is in a call on it; the marker is no byte. */
  predicate Legal(w: World, e: Event) {
    match e
    case StartRead(pid, _) => w.reader.NoReader? && Outside(w, pid)
    case GoOnReading => w.reader.Reader? && w.reader.pid !in w.asleep
    case StartWrite(pid, bytes) => w.writer.NoWriter? && Outside(w, pid) && MARKER !in bytes
    case GoOnWriting => w.writer.Writer? && w.writer.pid !in w.asleep
    case Wakeup(_) => true
    case CloseReadEnd => w.p.readOpen && w.reader.NoReader?
    case CloseWriteEnd => w.p.writeOpen && w.writer.NoWriter?
  }

  /** What a segment of the reader `pid` ends in. */
  function AfterRead(w: World, pid: int, count: nat, t: (PipeState, End)): World {
    match t.1
    case Asleep(woken) => w.(p := t.0, reader := Reader(pid, count), asleep := w.asleep - {woken} + {pid})
    case Done(result, woken) =>
      var data := Delivered(w.p, count);
      w.(p := t.0, reader := NoReader, asleep := w.asleep - {woken}, received := w.received + data,
         log := w.log + [Got(count, data, result, true, |t.0.data|, t.0.writeOpen)])
  }

  function AfterWrite(w: World, pid: int, bytes: seq<int>, next: nat, t: (PipeState, End)): World
    requires next <= |bytes| && |w.p.data| <= PIPE_BUFFER
  {
    var n := Fits(w.p, bytes[next..]);
    var put := bytes[next..next + n];
    match t.1
    case Asleep(woken) =>
      w.(p := t.0, writer := Writer(pid, bytes, next + n), asleep := w.asleep - {woken} + {pid}, sent := w.sent + put)
    case Done(result, woken) =>
      var sent := w.sent + put;
      var all := if |w.writes| <= |sent| then sent[|w.writes|..] else [];
      w.(p := t.0, writer := NoWriter, asleep := w.asleep - {woken}, sent := sent, writes := sent,
         log := w.log + [Wrote(bytes, all, result, true, |t.0.data|, t.0.readOpen)])
  }

  function ResultOf(e: End): int {
    if e.Done? then e.result else 0
  }

  function Step(w: World, e: Event): World
    requires Inv(w) && Legal(w, e)
  {
    match e
    case StartRead(pid, count) =>
      var t := ReadCall(w.p, pid, count);
      if w.p.readOpen then AfterRead(w, pid, count, t)
      else w.(p := t.0, log := w.log + [Got(count, [], ResultOf(t.1), false, |t.0.data|, t.0.writeOpen)])
    case GoOnReading => AfterRead(w, w.reader.pid, w.reader.count, ReadSegment(w.p, w.reader.pid, w.reader.count))
    case StartWrite(pid, bytes) =>
      var t := WriteCall(w.p, pid, bytes);
      if w.p.writeOpen && w.p.readOpen then AfterWrite(w, pid, bytes, 0, t)
      else w.(p := t.0, log := w.log + [Wrote(bytes, [], ResultOf(t.1), false, |t.0.data|, t.0.readOpen)])
    case GoOnWriting =>
      var c := w.writer;
      AfterWrite(w, c.pid, c.bytes, c.next, WriteSegment(w.p, c.pid, c.bytes[c.next..], |c.bytes|))
    case Wakeup(pid) => w.(asleep := w.asleep - {pid})
    case CloseReadEnd => w.(p := w.p.(readOpen := false))
    case CloseWriteEnd =>
      var p := WriteEndClosed(w.p);
      w.(p := p, lost := if p.data == w.p.data then [] else w.p.data)
  }

  // ------------------------------------------------------------------ the invariant

  predicate ReaderOk(w: World) {
    match w.reader
    case NoReader => w.p.readPID == 0
    case Reader(pid, _) => pid > 0 && w.p.readPID == pid && w.p.readOpen && (pid in w.asleep ==> w.p.data == [])
  }

  predicate WriterOk(w: World) {
    match w.writer
    case NoWriter => w.p.writePID == 0
    case Writer(pid, bytes, next) =>
      && pid > 0 && w.p.writePID == pid && w.p.writeOpen && next < |bytes| && MARKER !in bytes
      && (pid in w.asleep ==> |w.p.data| == PIPE_BUFFER)
  }

  /** The calls that returned wrote their bytes one after the other, and whoever is in a call
      comes next. */
  predicate InOrder(w: World) {
    match w.writer
    case NoWriter => w.sent == w.writes
    case Writer(_, bytes, next) => next <= |bytes| && w.sent == w.writes + bytes[..next]
  }

  /** Each byte sent was received, or is in the ring, or is lost. */
  predicate Balanced(sent: seq<int>, received: seq<int>, data: seq<int>, lost: seq<int>) {
    sent == received + data + lost
  }

  predicate Inv(w: World) {
    && |w.p.data| <= PIPE_BUFFER && MARKER !in w.p.data
    && Balanced(w.sent, w.received, w.p.data, w.lost)
    && (w.lost != [] ==> !w.p.writeOpen && w.p.data == [] && |w.lost| == PIPE_BUFFER)
    && ReaderOk(w) && WriterOk(w) && InOrder(w)
    && (w.reader.Reader? && w.writer.Writer? ==> w.reader.pid != w.writer.pid)
  }

  lemma BytesTaken(sent: seq<int>, received: seq<int>, data: seq<int>, lost: seq<int>, n: nat)
    requires Balanced(sent, received, data, lost) && n <= |data|
    ensures Balanced(sent, received + data[..n], data[n..], lost)
  {
    assert data == data[..n] + data[n..];
  }

  lemma BytesPut(sent: seq<int>, received: seq<int>, data: seq<int>, put: seq<int>)
    requires Balanced(sent, received, data, [])
    ensures Balanced(sent + put, received, data + put, [])
  {
  }

  lemma ReadKeeps(w: World, pid: int, count: nat)
    requires Inv(w) && pid !in w.asleep && (w.reader == Reader(pid, count) || (w.reader.NoReader? && Outside(w, pid)))
    requires w.p.readOpen
    ensures Inv(AfterRead(w, pid, count, ReadCall(w.p, pid, count)))
  {
    hide Balanced;
    var v := AfterRead(w, pid, count, ReadCall(w.p, pid, count));
    BytesTaken(w.sent, w.received, w.p.data, w.lost, Min(count, |w.p.data|));
    assert v.writer == w.writer && v.sent == w.sent && v.writes == w.writes && v.lost == w.lost;
    assert InOrder(v);
    hide InOrder;
    assert MARKER !in v.p.data && |v.p.data| <= |w.p.data|;
  }

  lemma Continued(sent: seq<int>, writes: seq<int>, bytes: seq<int>, next: nat, n: nat)
    requires next + n <= |bytes| && sent == writes + bytes[..next]
    ensures bytes[next..][..n] == bytes[next..next + n]
    ensures sent + bytes[next..next + n] == writes + bytes[..next + n]
    ensures next + n == |bytes| ==> bytes[..next + n] == bytes
  {
  }

  lemma WriteKeeps(w: World, pid: int, bytes: seq<int>, next: nat)
    requires Inv(w) && next <= |bytes| && MARKER !in bytes
    requires pid !in w.asleep && (w.writer == Writer(pid, bytes, next) || (w.writer.NoWriter? && Outside(w, pid) && next == 0))
    requires w.p.writeOpen
    ensures Inv(AfterWrite(w, pid, bytes, next, WriteSegment(w.p, pid, bytes[next..], |bytes|)))
  {
    hide Balanced;
    var n := Fits(w.p, bytes[next..]);
    assert w.sent == w.writes + bytes[..next] by {
      assert bytes[..0] == [];
    }
    Continued(w.sent, w.writes, bytes, next, n);
    BytesPut(w.sent, w.received, w.p.data, bytes[next..next + n]);
  }

  lemma StepKeeps(w: World, e: Event)
    requires Inv(w) && Legal(w, e)
    ensures Inv(Step(w, e))
  {
    match e
    case StartRead(pid, count) =>
      if w.p.readOpen {
        ReadKeeps(w, pid, count);
      }
    case GoOnReading => ReadKeeps(w, w.reader.pid, w.reader.count);
    case StartWrite(pid, bytes) =>
      if w.p.writeOpen && w.p.readOpen {
        WriteKeeps(w, pid, bytes, 0);
        assert bytes[0..] == bytes;
      }
    case GoOnWriting => WriteKeeps(w, w.writer.pid, w.writer.bytes, w.writer.next);
    case Wakeup(_) =>
    case CloseReadEnd =>
    case CloseWriteEnd =>
  }

  // ------------------------------------------------------------------ whole runs

  function Fresh(): World {
    World(PipeState([], true, true, 0, 0), NoReader, NoWriter, {}, [], [], [], [], [])
  }

  ghost predicate Reaches(w: World, events: seq<Event>, end: World)
    requires Inv(w)
    decreases |events|
  {
    if events == [] then end == w
    else Legal(w, events[0]) && (StepKeeps(w, events[0]); Reaches(Step(w, events[0]), events[1..], end))
  }

  lemma {:induction false} RunKeeps(w: World, events: seq<Event>, end: World)
    requires Inv(w) && Reaches(w, events, end)
    ensures Inv(end)
    decreases |events|
  {
    if events != [] {
      StepKeeps(w, events[0]);
      RunKeeps(Step(w, events[0]), events[1..], end);
    }
  }

  /** What readers got is a prefix of what was written, in the order of the calls; the bytes
      between are those in the ring, or those lost in the close of the write end. */
  lemma ReadsArePrefixOfWrites(events: seq<Event>, end: World)
    requires Reaches(Fresh(), events, end)
    ensures end.received + end.p.data + end.lost == end.sent && |end.p.data| <= PIPE_BUFFER
    ensures end.lost != [] ==> !end.p.writeOpen && end.p.data == [] && |end.lost| == PIPE_BUFFER
    ensures end.sent == end.writes + (if end.writer.Writer? then end.writer.bytes[..Min(end.writer.next, |end.writer.bytes|)] else [])
  {
    RunKeeps(Fresh(), events, end);
  }

  /** At every switch of context: a reader asleep in its call means an empty ring, a writer
      asleep in its call a full one; so never both, and whenever bytes or room arrive, the
      other side has been woken. */
  lemma SleepersHaveReason(events: seq<Event>, end: World)
    requires Reaches(Fresh(), events, end)
    ensures end.reader.Reader? && end.reader.pid in end.asleep ==> end.p.data == []
    ensures end.writer.Writer? && end.writer.pid in end.asleep ==> |end.p.data| == PIPE_BUFFER
    ensures !(end.reader.Reader? && end.reader.pid in end.asleep && end.writer.Writer? && end.writer.pid in end.asleep)
  {
    RunKeeps(Fresh(), events, end);
  }

  // ------------------------------------------------------------------ what calls return

  /** A read of an open end returns how many bytes it delivered, which are fewer than asked for
      only if none are left, and none, when some were asked for, only behind the close of the
      write end. A write between open ends returns how many bytes it was called with, having put
      them all; unless the read end has been closed and the ring is full: then it returns -1. So
      does a call on a closed end. */
  predicate ReturnOk(r: Return) {
    match r
    case Got(count, data, result, wasOpen, left, otherOpen) =>
      if wasOpen then
        && result == |data| <= count
        && (result < count ==> left == 0)
        && (result == 0 && count > 0 ==> !otherOpen)
      else result == -1 && data == []
    case Wrote(bytes, put, result, wasOpen, left, otherOpen) =>
      if wasOpen && put == bytes then result == |bytes|
      else
        && result == -1 && put <= bytes
        && (wasOpen ==> left == PIPE_BUFFER && !otherOpen)
        && (!wasOpen ==> put == [])
  }

  /** The bytes delivered by all reads, and put by all writes. */
  function AllGot(l: seq<Return>): seq<int> {
    if l == [] then []
    else AllGot(l[..|l| - 1]) + (if l[|l| - 1].Got? then l[|l| - 1].data else [])
  }

  function AllPut(l: seq<Return>): seq<int> {
    if l == [] then []
    else AllPut(l[..|l| - 1]) + (if l[|l| - 1].Wrote? then l[|l| - 1].put else [])
  }

  predicate LogOk(w: World) {
    && (forall i | 0 <= i < |w.log| :: ReturnOk(w.log[i]))
    && AllGot(w.log) == w.received && AllPut(w.log) == w.writes
  }

  lemma LogAdds(w: World, r: Return, v: World)
    requires LogOk(w) && ReturnOk(r) && v.log == w.log + [r]
    requires v.received == w.received + (if r.Got? then r.data else [])
    requires v.writes == w.writes + (if r.Wrote? then r.put else [])
    ensures LogOk(v)
  {
    assert v.log[..|w.log|] == w.log;
  }

  lemma ReadLogs(w: World, pid: int, count: nat)
    requires Inv(w) && LogOk(w) && w.p.readOpen
    ensures LogOk(AfterRead(w, pid, count, ReadCall(w.p, pid, count)))
  {
    hide LogOk;
    var v := AfterRead(w, pid, count, ReadCall(w.p, pid, count));
    if ReadCall(w.p, pid, count).1.Done? {
      LogAdds(w, v.log[|w.log|], v);
    } else {
      SameLog(w, v);
    }
  }

  lemma SameLog(w: World, v: World)
    requires LogOk(w) && v.log == w.log && v.received == w.received && v.writes == w.writes
    ensures LogOk(v)
  {
  }

  /** What a write has put when its last segment ends. */
  lemma PutSoFar(writes: seq<int>, sent: seq<int>, bytes: seq<int>, next: nat, n: nat)
    requires next + n <= |bytes| && sent == writes + bytes[..next]
    ensures (sent + bytes[next..next + n])[|writes|..] == bytes[..next + n]
    ensures writes + bytes[..next + n] == sent + bytes[next..next + n]
    ensures bytes[..next + n] <= bytes && (bytes[..next + n] == bytes <==> n == |bytes[next..]|)
  {
  }

  lemma WriteLogs(w: World, pid: int, bytes: seq<int>, next: nat)
    requires Inv(w) && LogOk(w) && next <= |bytes| && w.p.writeOpen
    requires w.sent == w.writes + bytes[..next]
    ensures LogOk(AfterWrite(w, pid, bytes, next, WriteSegment(w.p, pid, bytes[next..], |bytes|)))
  {
    hide LogOk, Inv;
    InvBound(w);
    var t := WriteSegment(w.p, pid, bytes[next..], |bytes|);
    var v := AfterWrite(w, pid, bytes, next, t);
    PutSoFar(w.writes, w.sent, bytes, next, Fits(w.p, bytes[next..]));
    if t.1.Done? {
      LogAdds(w, v.log[|w.log|], v);
    } else {
      SameLog(w, v);
    }
  }

  lemma InvBound(w: World)
    requires Inv(w)
    ensures |w.p.data| <= PIPE_BUFFER && (w.writer.NoWriter? ==> w.sent == w.writes)
    ensures w.writer.Writer? ==> var c := w.writer;
              c.next <= |c.bytes| && w.sent == w.writes + c.bytes[..c.next] && w.p.writeOpen
    ensures w.reader.Reader? ==> w.p.readOpen
  {
  }

  lemma StepLogs(w: World, e: Event)
    requires Inv(w) && Legal(w, e) && LogOk(w)
    ensures LogOk(Step(w, e))
  {
    hide LogOk, Inv;
    InvBound(w);
    var v := Step(w, e);
    match e
    case StartRead(pid, count) =>
      if w.p.readOpen {
        ReadLogs(w, pid, count);
      } else {
        LogAdds(w, v.log[|w.log|], v);
      }
    case GoOnReading => ReadLogs(w, w.reader.pid, w.reader.count);
    case StartWrite(pid, bytes) =>
      if w.p.writeOpen && w.p.readOpen {
        assert bytes[0..] == bytes && bytes[..0] == [];
        WriteLogs(w, pid, bytes, 0);
      } else {
        LogAdds(w, v.log[|w.log|], v);
      }
    case GoOnWriting => WriteLogs(w, w.writer.pid, w.writer.bytes, w.writer.next);
    case Wakeup(_) => SameLog(w, v);
    case CloseReadEnd => SameLog(w, v);
    case CloseWriteEnd => SameLog(w, v);
  }

  lemma {:induction false} RunLogs(w: World, events: seq<Event>, end: World)
    requires Inv(w) && Reaches(w, events, end) && LogOk(w)
    ensures LogOk(end)
    decreases |events|
  {
    hide LogOk, Inv, Legal, Step;
    if events != [] {
      StepKeeps(w, events[0]);
      StepLogs(w, events[0]);
      RunLogs(Step(w, events[0]), events[1..], end);
    }
  }

  /** In every run each call that has returned did so as `ReturnOk` says, and what the reads
      delivered, one after the other, is a prefix of what the writes put, one after the other,
      and the one in progress has put. */
  lemma EveryCallReturns(events: seq<Event>, end: World, i: nat)
    requires Reaches(Fresh(), events, end)
    ensures i < |end.log| ==> ReturnOk(end.log[i])
    ensures AllGot(end.log) <= AllPut(end.log) + (if end.writer.Writer? then end.writer.bytes else [])
  {
    hide Inv, Reaches;
    FreshOk();
    RunKeeps(Fresh(), events, end);
    RunLogs(Fresh(), events, end);
    InvBound(end);
    InvSum(end);
    GotIsPrefix(end.received, end.p.data, end.lost, end.sent);
    if end.writer.Writer? {
      SentIsPrefix(end.writes, end.sent, end.writer.bytes, end.writer.next);
    }
  }

  lemma FreshOk()
    ensures Inv(Fresh()) && LogOk(Fresh())
  {
  }

  lemma InvSum(w: World)
    requires Inv(w)
    ensures w.sent == w.received + w.p.data + w.lost
  {
  }

  lemma GotIsPrefix(received: seq<int>, data: seq<int>, lost: seq<int>, sent: seq<int>)
    requires sent == received + data + lost
    ensures received <= sent
  {
    assert sent[..|received|] == received;
  }

  lemma SentIsPrefix(writes: seq<int>, sent: seq<int>, bytes: seq<int>, next: nat)
    requires next <= |bytes| && sent == writes + bytes[..next]
    ensures sent <= writes + bytes
  {
    assert writes + bytes == sent + bytes[next..];
  }

  // ------------------------------------------------------------------ after the close

  /** Calls to read one after the other, nobody writing: what each returns, and the pipe after. */
  function ReadAll(p: PipeState, pid: int, counts: seq<nat>): (seq<End>, seq<int>, PipeState)
    decreases |counts|
  {
    if counts == [] then ([], [], p)
    else
      var (q, e) := ReadCall(p, pid, counts[0]);
      var (ends, bytes, r) := ReadAll(q, pid, counts[1..]);
      ([e] + ends, (if e.Done? then Delivered(p, counts[0]) else []) + bytes, r)
  }

  function Sum(counts: seq<nat>): nat {
    if counts == [] then 0 else counts[0] + Sum(counts[1..])
  }

  lemma TakeTwice(d: seq<int>, rest: seq<int>, a: nat, b: nat)
    requires rest == d[Min(a, |d|)..]
    ensures d[..Min(a, |d|)] + rest[..Min(b, |rest|)] == d[..Min(a + b, |d|)]
    ensures rest[Min(b, |rest|)..] == d[Min(a + b, |d|)..]
  {
    assert |rest| == |d| - Min(a, |d|);
    assert Min(a, |d|) + Min(b, |rest|) == Min(a + b, |d|);
  }

  predicate NeverSlept(ends: seq<End>, counts: seq<nat>) {
    |ends| == |counts| && forall i | 0 <= i < |ends| :: ends[i].Done? && 0 <= ends[i].result <= counts[i]
  }

  predicate AllZero(ends: seq<End>) {
    forall i | 0 <= i < |ends| :: ends[i].Done? && ends[i].result == 0
  }

  lemma EndsStep(n: nat, woken: int, ends: seq<End>, counts: seq<nat>)
    requires counts != [] && NeverSlept(ends, counts[1..]) && n <= counts[0]
    ensures NeverSlept([Done(n, woken)] + ends, counts)
    ensures n == 0 && AllZero(ends) ==> AllZero([Done(n, woken)] + ends)
  {
  }

  /** What calls to read with these counts end in when no read sleeps: the first bytes of the
      ring, as many as were asked for, and 0 from each of them when there are none. */
  predicate Drained(p: PipeState, counts: seq<nat>, t: (seq<End>, seq<int>, PipeState)) {
    var n := Min(Sum(counts), |p.data|);
    && t.1 == p.data[..n] && t.2.data == p.data[n..]
    && NeverSlept(t.0, counts) && (p.data == [] ==> AllZero(t.0))
  }

  lemma DrainedStep(p: PipeState, q: PipeState, counts: seq<nat>, woken: int, t: (seq<End>, seq<int>, PipeState))
    requires counts != [] && Drained(q, counts[1..], t) && q.data == p.data[Min(counts[0], |p.data|)..]
    ensures var n := Min(counts[0], |p.data|); Drained(p, counts, ([Done(n, woken)] + t.0, p.data[..n] + t.1, t.2))
  {
    hide NeverSlept, AllZero;
    TakeTwice(p.data, q.data, counts[0], Sum(counts[1..]));
    EndsStep(Min(counts[0], |p.data|), woken, t.0, counts);
  }

  lemma ReadClosed(p: PipeState, pid: int, count: nat)
    requires !p.writeOpen && p.readOpen
    ensures var n := Min(count, |p.data|);
            && ReadCall(p, pid, count) == (p.(readPID := 0, data := p.data[n..]), Done(n, p.writePID))
            && Delivered(p, count) == p.data[..n]
  {
  }

  /** Once the write end is closed no read sleeps: the readers get the bytes still in the ring,
      in order, and when those are used up every read returns 0. */
  lemma {:induction false} ClosedPipeDrains(p: PipeState, pid: int, counts: seq<nat>)
    requires !p.writeOpen && p.readOpen
    ensures Drained(p, counts, ReadAll(p, pid, counts))
    decreases |counts|
  {
    if counts != [] {
      hide ReadCall, Delivered, Drained;
      ReadClosed(p, pid, counts[0]);
      var (q, e) := ReadCall(p, pid, counts[0]);
      ClosedPipeDrains(q, pid, counts[1..]);
      DrainedStep(p, q, counts, p.writePID, ReadAll(q, pid, counts[1..]));
    }
  }

  lemma ClosedStepBytes(w: World, e: Event)
    requires Inv(w) && Legal(w, e) && !w.p.writeOpen
    ensures var r := Step(w, e);
            && r.received + r.p.data == w.received + w.p.data && w.received <= r.received
            && r.lost == w.lost && !r.p.writeOpen
  {
    match e
    case StartRead(pid, count) => BytesTaken(w.received + w.p.data, w.received, w.p.data, [], Min(count, |w.p.data|));
    case GoOnReading => BytesTaken(w.received + w.p.data, w.received, w.p.data, [], Min(w.reader.count, |w.p.data|));
    case _ =>
  }

  /** Behind the close of the write end, readers get what was left in the ring, and nothing else. */
  lemma {:induction false} ClosedRunBytes(w: World, events: seq<Event>, end: World)
    requires Inv(w) && !w.p.writeOpen && Reaches(w, events, end)
    ensures end.received + end.p.data == w.received + w.p.data && w.received <= end.received
    ensures end.lost == w.lost && !end.p.writeOpen
    decreases |events|
  {
    hide Legal, Step, Inv;
    if events != [] {
      StepKeeps(w, events[0]);
      ClosedStepBytes(w, events[0]);
      ClosedRunBytes(Step(w, events[0]), events[1..], end);
    }
  }

  /** Closing the write end keeps the bytes in flight if and only if the ring is not full:
      whatever follows, what readers got and what is left for them is all of these bytes, or none
      of them; from a ring that was full every later read returns 0. */
  lemma CloseKeepsBytes(w: World, events: seq<Event>, end: World, pid: int, count: nat)
    requires Inv(w) && Legal(w, CloseWriteEnd)
    requires (StepKeeps(w, CloseWriteEnd); Reaches(Step(w, CloseWriteEnd), events, end))
    ensures w.received <= end.received
    ensures |w.p.data| < PIPE_BUFFER ==> end.received + end.p.data == w.received + w.p.data && end.lost == []
    ensures |w.p.data| == PIPE_BUFFER ==> end.received == w.received && end.p.data == [] && end.lost == w.p.data
    ensures |w.p.data| == PIPE_BUFFER && end.p.readOpen ==> ReadCall(end.p, pid, count).1 == Done(0, end.p.writePID)
  {
    StepKeeps(w, CloseWriteEnd);
    ClosedRunBytes(Step(w, CloseWriteEnd), events, end);
    if |w.p.data| == PIPE_BUFFER {
      NoMore(w.received, end.received, end.p.data);
    }
  }

  lemma NoMore(a: seq<int>, b: seq<int>, c: seq<int>)
    requires a <= b && b + c == a
    ensures b == a && c == []
  {
    assert |b| + |c| == |a|;
  }

  /** One write of as many bytes as the ring holds gets there: it returns, and a close then loses
      them all. */
  lemma FullRingIsReached()
    ensures exists w :: Reaches(Fresh(), [StartWrite(1, seq(PIPE_BUFFER, _ => 0))], w) && Inv(w) && Legal(w, CloseWriteEnd)
                        && w.writes == w.p.data && |w.p.data| == PIPE_BUFFER && Step(w, CloseWriteEnd).lost == w.p.data
  {
    var e := StartWrite(1, seq(PIPE_BUFFER, _ => 0));
    StepKeeps(Fresh(), e);
    var w := Step(Fresh(), e);
    assert [e][1..] == [] && Reaches(w, [], w);
  }

  // ------------------------------------------------------------------ who is left asleep

  predicate ReaderAsleep(w: World) {
    w.reader.Reader? && w.reader.pid in w.asleep
  }

  predicate WriterAsleep(w: World) {
    w.writer.Writer? && w.writer.pid in w.asleep
  }

  /** Closing an end wakes nobody: somebody is left asleep in a call exactly if the other side
      was asleep before, though its call would now return at once. */
  lemma CloseLeavesAsleep(events: seq<Event>, w: World, close: Event)
    requires Reaches(Fresh(), events, w) && Legal(w, close) && (close.CloseWriteEnd? || close.CloseReadEnd?)
    ensures var r := (RunKeeps(Fresh(), events, w); Step(w, close));
            && (ReaderAsleep(r) || WriterAsleep(r) <==> if close.CloseWriteEnd? then ReaderAsleep(w) else WriterAsleep(w))
            && r.asleep == w.asleep && r.reader == w.reader && r.writer == w.writer
            && (ReaderAsleep(r) ==> ReadSegment(r.p, r.reader.pid, r.reader.count).1 == Done(0, 0))
            && (WriterAsleep(r) ==> var c := r.writer; WriteSegment(r.p, c.pid, c.bytes[c.next..], |c.bytes|).1 == Done(-1, 0))
  {
    RunKeeps(Fresh(), events, w);
  }

  predicate EndClosed(w: World) {
    !w.p.readOpen || !w.p.writeOpen
  }

  /** With an end closed, nobody falls asleep any more, and no call wakes anybody. */
  lemma ClosedStep(w: World, e: Event, pid: int)
    requires Inv(w) && Legal(w, e) && EndClosed(w) && pid > 0
    ensures EndClosed(Step(w, e)) && (pid in Step(w, e).asleep <==> pid in w.asleep && e != Wakeup(pid))
  {
  }

  /** Whatever legal calls follow the close of an end, a process asleep on the pipe sleeps on
      exactly as long as nobody outside wakes it. */
  lemma {:induction false} SleepsUntilWoken(w: World, events: seq<Event>, end: World, pid: int)
    requires Inv(w) && EndClosed(w) && pid > 0 && Reaches(w, events, end)
    ensures pid in end.asleep <==> pid in w.asleep && Wakeup(pid) !in events
    decreases |events|
  {
    if events != [] {
      StepKeeps(w, events[0]);
      ClosedStep(w, events[0], pid);
      SleepsUntilWoken(Step(w, events[0]), events[1..], end, pid);
      assert events == [events[0]] + events[1..];
    }
  }

  /** A reader in an empty pipe, and a writer of one byte more than the ring holds, get there. */
  lemma SleepersExist()
    ensures var w := World(PipeState([], true, true, 1, 0), Reader(1, 1), NoWriter, {1}, [], [], [], [], []);
            Reaches(Fresh(), [StartRead(1, 1)], w) && Inv(w) && Legal(w, CloseWriteEnd) && ReaderAsleep(Step(w, CloseWriteEnd))
    ensures exists w :: Reaches(Fresh(), [StartWrite(1, seq(PIPE_BUFFER + 1, _ => 0))], w) && Inv(w)
                        && Legal(w, CloseReadEnd) && WriterAsleep(Step(w, CloseReadEnd))
  {
    var e, f := StartRead(1, 1), StartWrite(1, seq(PIPE_BUFFER + 1, _ => 0));
    StepKeeps(Fresh(), e);
    assert [e][1..] == [] && Reaches(Step(Fresh(), e), [], Step(Fresh(), e));
    StepKeeps(Fresh(), f);
    var w := Step(Fresh(), f);
    assert [f][1..] == [] && Reaches(w, [], w);
  }
}
