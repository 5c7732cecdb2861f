// The BMFS directory: 64 records, each a file's extent of blocks on the disk. Creating a file
// sorts a copy of the records and takes the first gap that is large enough.
module Bmfs {

  const RECORDS := 64
  const INT := 0x8000_0000

  /** The first byte of a file name is 0 in the record that ends the directory and 1 in a record
      of a deleted file, which keeps its other fields. */
  datatype Mark = EndMark | Deleted | Named(name: string)

  datatype Record = Record(mark: Mark, start: int, reserved: int)

  predicate Live(r: Record) {
    r.mark.Named?
  }

  function EndBlock(r: Record): int {
    r.start + r.reserved
  }

  // ------------------------------------------------------------------ sorting

  /** A 64-bit difference returned as a 32-bit int. */
  function Truncated(d: int): (r: int)
    ensures -INT <= r < INT
  {
    (d + INT) % (2 * INT) - INT
  }

  function StartingBlockCmp(a: Record, b: Record): int {
    if a.mark == Deleted then 1
    else if b.mark == Deleted then -1
    else Truncated(a.start - b.start)
  }

  predicate BlockNumber(b: int) {
    0 <= b < INT
  }

  function Sign(d: int): int {
    if d > 0 then 1 else if d < 0 then -1 else 0
  }

  /** Modulo 2^32, the distance of the starting blocks keeps to the half that its sign asks for. */
  predicate Comparable(a: Record, b: Record) {
    var d := a.start - b.start;
    d == 0 || (d > 0 && 0 < d % (2 * INT) < INT) || (d < 0 && 0 < (-d) % (2 * INT) <= INT)
  }

  /** The comparison, truncated to an int, orders two files correctly exactly then, ... */
  lemma ComparisonIsExact(a: Record, b: Record)
    requires a.mark != Deleted && b.mark != Deleted
    ensures Sign(StartingBlockCmp(a, b)) == Sign(a.start - b.start) <==> Comparable(a, b)
    ensures StartingBlockCmp(a, b) == a.start - b.start <==> -INT <= a.start - b.start < INT
  {
    TruncatedUp(a.start - b.start);
  }

  lemma TruncatedUp(d: int)
    ensures var m := d % (2 * INT); Truncated(d) == if m < INT then m else m - 2 * INT
  {
  }

  /** ... as it does below block 2^31; from there on a later block can come first, and blocks
      2^32 apart are taken for the same. */
  lemma ComparisonOverflows(name: string)
    ensures StartingBlockCmp(Record(Named(name), INT, 1), Record(Named(name), 0, 1)) < 0
    ensures StartingBlockCmp(Record(Named(name), 2 * INT + 1, 1), Record(Named(name), 1, 1)) == 0
    ensures StartingBlockCmp(Record(Named(name), INT, 1), Record(Named(name), 1, 1)) > 0
  {
  }

  function Insert(x: Record, l: seq<Record>): (r: seq<Record>)
    ensures |r| == |l| + 1
  {
    if l != [] && StartingBlockCmp(x, l[0]) > 0 then [l[0]] + Insert(x, l[1..]) else [x] + l
  }

  function Sort(l: seq<Record>): (r: seq<Record>)
    ensures |r| == |l|
  {
    if l == [] then [] else Insert(l[0], Sort(l[1..]))
  }

  /** The files come first, by starting block, and the deleted records last. */
  predicate Ordered(l: seq<Record>) {
    forall i, j | 0 <= i < j < |l| && Live(l[j]) :: Live(l[i]) && l[i].start <= l[j].start
  }

  predicate Sortable(l: seq<Record>) {
    forall r | r in l :: r.mark != EndMark && BlockNumber(r.start)
  }

  lemma {:induction false} InsertMembers(x: Record, l: seq<Record>)
    ensures forall r :: r in Insert(x, l) <==> r == x || r in l
  {
    if l != [] && StartingBlockCmp(x, l[0]) > 0 {
      InsertMembers(x, l[1..]);
      assert forall r :: r in l <==> r == l[0] || r in l[1..];
    }
  }

  lemma {:induction false} SortMembers(l: seq<Record>)
    ensures multiset(Sort(l)) == multiset(l)
    ensures forall r :: r in Sort(l) <==> r in l
  {
    if l != [] {
      SortMembers(l[1..]);
      InsertMembers(l[0], Sort(l[1..]));
      InsertCounts(l[0], Sort(l[1..]));
      assert l == [l[0]] + l[1..];
    }
  }

  lemma {:induction false} InsertCounts(x: Record, l: seq<Record>)
    ensures multiset(Insert(x, l)) == multiset(l) + multiset{x}
  {
    if l != [] && StartingBlockCmp(x, l[0]) > 0 {
      InsertCounts(x, l[1..]);
      assert l == [l[0]] + l[1..];
    }
  }

  /** Whether `h` can stand before `y`. */
  predicate Before(h: Record, y: Record) {
    Live(y) ==> Live(h) && h.start <= y.start
  }

  lemma HeadOrders(h: Record, r: seq<Record>)
    requires Ordered(r) && forall y | y in r :: Before(h, y)
    ensures Ordered([h] + r)
  {
    var l := [h] + r;
    forall i, j | 0 <= i < j < |l| && Live(l[j]) ensures Live(l[i]) && l[i].start <= l[j].start {
      assert l[j] == r[j - 1] && r[j - 1] in r;
      if i > 0 {
        assert l[i] == r[i - 1];
      }
    }
  }

  lemma OrderedHead(l: seq<Record>)
    requires Ordered(l) && l != []
    ensures Ordered(l[1..]) && forall y | y in l :: Before(l[0], y)
  {
    forall y | y in l ensures Before(l[0], y) {
      var i :| 0 <= i < |l| && l[i] == y;
    }
  }

  lemma InsertIs(x: Record, l: seq<Record>)
    ensures Insert(x, l) == if l != [] && StartingBlockCmp(x, l[0]) > 0 then [l[0]] + Insert(x, l[1..]) else [x] + l
  {
  }

  lemma Compared(x: Record, y: Record)
    requires x.mark != EndMark && y.mark != EndMark && BlockNumber(x.start) && BlockNumber(y.start)
    ensures StartingBlockCmp(x, y) > 0 ==> Before(y, x)
    ensures StartingBlockCmp(x, y) <= 0 ==> Before(x, y)
  {
  }

  lemma {:induction false} InsertOrders(x: Record, l: seq<Record>)
    requires Sortable([x] + l) && Ordered(l)
    ensures Ordered(Insert(x, l))
  {
    hide Ordered, Insert, StartingBlockCmp;
    assert x in [x] + l && forall r | r in l :: r in [x] + l;
    if l == [] {
      HeadOrders(x, l);
      assert Insert(x, l) == [x] + l by { InsertIs(x, l); }
    } else {
      OrderedHead(l);
      assert l[0] in l;
      assert forall r | r in l[1..] :: r in l;
      Compared(x, l[0]);
      if StartingBlockCmp(x, l[0]) > 0 {
        InsertOrders(x, l[1..]);
        InsertMembers(x, l[1..]);
        HeadOrders(l[0], Insert(x, l[1..]));
      } else {
        HeadOrders(x, l);
      }
      InsertIs(x, l);
    }
  }

  lemma {:induction false} SortOrders(l: seq<Record>)
    requires Sortable(l)
    ensures Ordered(Sort(l))
  {
    if l != [] {
      assert forall r | r in l[1..] :: r in l;
      SortOrders(l[1..]);
      SortMembers(l[1..]);
      InsertOrders(l[0], Sort(l[1..]));
    }
  }

  // ------------------------------------------------------------------ extents

  predicate Apart(r: Record, q: Record) {
    Live(r) && Live(q) ==> EndBlock(r) <= q.start || EndBlock(q) <= r.start
  }

  predicate AllApart(l: seq<Record>) {
    forall i, j | 0 <= i < j < |l| :: Apart(l[i], l[j])
  }

  /** Files lie, and deleted files lay, in blocks 1 to n - 2; the first and the last block are
      reserved. */
  predicate Inside(r: Record, n: int) {
    1 <= r.start && 1 <= r.reserved && EndBlock(r) <= n - 1
  }

  lemma HeadApart(h: Record, r: seq<Record>)
    requires AllApart(r) && forall y | y in r :: Apart(h, y)
    ensures AllApart([h] + r)
  {
    var l := [h] + r;
    forall i, j | 0 <= i < j < |l| ensures Apart(l[i], l[j]) {
      assert l[j] == r[j - 1] && r[j - 1] in r;
      if i > 0 {
        assert l[i] == r[i - 1];
      }
    }
  }

  lemma {:induction false} InsertApart(x: Record, l: seq<Record>)
    requires AllApart(l) && forall y | y in l :: Apart(x, y)
    ensures AllApart(Insert(x, l))
  {
    if l != [] && StartingBlockCmp(x, l[0]) > 0 {
      InsertApart(x, l[1..]);
      InsertMembers(x, l[1..]);
      assert l[0] in l && forall y | y in l[1..] :: Apart(l[0], y);
      HeadApart(l[0], Insert(x, l[1..]));
    } else {
      HeadApart(x, l);
    }
  }

  lemma {:induction false} SortApart(l: seq<Record>)
    requires AllApart(l)
    ensures AllApart(Sort(l))
  {
    if l != [] {
      SortApart(l[1..]);
      SortMembers(l[1..]);
      assert forall y | y in l[1..] :: Apart(l[0], y);
      InsertApart(l[0], Sort(l[1..]));
    }
  }

  /** Blocks b to b + count - 1 are allowed and free. */
  predicate Fits(l: seq<Record>, n: int, b: int, count: int) {
    1 <= b && b + count <= n - 1 && forall r | r in l && Live(r) :: b + count <= r.start || EndBlock(r) <= b
  }

  // ------------------------------------------------------------------ the first gap

  /** Where the gap after the records before `k` ends; the deleted records stand for the end. */
  function GapEnd(l: seq<Record>, n: int, k: nat): int
    requires k <= |l|
  {
    if k == |l| || l[k].mark == Deleted then n - 1 else l[k].start
  }

  /** The first gap large enough in sorted records, from the k-th on; 0 if there is none. */
  function FirstGap(l: seq<Record>, n: int, k: nat, free: int, count: int): int
    requires k <= |l|
    decreases |l| - k
  {
    if GapEnd(l, n, k) - free >= count then free
    else if k == |l| || l[k].mark == Deleted then 0
    else FirstGap(l, n, k + 1, EndBlock(l[k]), count)
  }

  /** What the scan knows when it comes to record `k`: the blocks before `free` are of no use, and
      the gap that starts there does not end before it starts. */
  ghost predicate Scanned(l: seq<Record>, n: int, k: nat, free: int, count: int)
    requires k <= |l|
  {
    && 1 <= free <= GapEnd(l, n, k)
    && (forall i | 0 <= i < k :: Live(l[i]) && EndBlock(l[i]) <= free)
    && (forall b | b < free :: !Fits(l, n, b, count))
  }

  predicate Scannable(l: seq<Record>, n: int) {
    && Ordered(l) && AllApart(l) && n >= 3
    && forall r | r in l :: r.mark != EndMark && Inside(r, n)
  }

  lemma ScanBegins(l: seq<Record>, n: int, count: int)
    requires Scannable(l, n) && count >= 1
    ensures Scanned(l, n, 0, 1, count)
  {
    if l != [] {
      assert l[0] in l;
    }
  }

  /** A gap too small is passed by: no block up to the end of the next file is of use. */
  lemma ScanGoesOn(l: seq<Record>, n: int, k: nat, free: int, count: int)
    requires Scannable(l, n) && count >= 1 && k < |l| && Live(l[k]) && Scanned(l, n, k, free, count)
    requires GapEnd(l, n, k) - free < count
    ensures Scanned(l, n, k + 1, EndBlock(l[k]), count)
  {
    assert l[k] in l;
    if k + 1 < |l| {
      assert l[k + 1] in l;
      assert Apart(l[k], l[k + 1]);
    }
    forall i | 0 <= i < k ensures EndBlock(l[i]) <= EndBlock(l[k]) {
      assert l[i] in l;
    }
  }

  /** A gap large enough is the lowest place where the file fits. */
  lemma ScanFinds(l: seq<Record>, n: int, k: nat, free: int, count: int)
    requires Scannable(l, n) && count >= 1 && k <= |l| && Scanned(l, n, k, free, count)
    requires GapEnd(l, n, k) - free >= count
    ensures Fits(l, n, free, count)
  {
    forall r | r in l && Live(r) ensures free + count <= r.start || EndBlock(r) <= free {
      var i :| 0 <= i < |l| && l[i] == r;
      if i > k {
        assert Before(l[k], r);
      }
    }
    if k < |l| {
      assert l[k] in l;
    }
  }

  /** Behind the last file, a gap too small leaves no place at all. */
  lemma ScanFails(l: seq<Record>, n: int, k: nat, free: int, count: int)
    requires Scannable(l, n) && count >= 1 && k <= |l| && Scanned(l, n, k, free, count)
    requires (k == |l| || l[k].mark == Deleted) && GapEnd(l, n, k) - free < count
    ensures forall b :: !Fits(l, n, b, count)
  {
  }

  /** The scan finds the lowest place where the file fits, and none only if there is none. */
  lemma {:induction false} FirstGapIsLowest(l: seq<Record>, n: int, k: nat, free: int, count: int)
    requires Scannable(l, n) && count >= 1 && k <= |l| && Scanned(l, n, k, free, count)
    ensures var b := FirstGap(l, n, k, free, count);
            if b == 0 then forall c :: !Fits(l, n, c, count)
            else Fits(l, n, b, count) && forall c | c < b :: !Fits(l, n, c, count)
    decreases |l| - k
  {
    if GapEnd(l, n, k) - free >= count {
      ScanFinds(l, n, k, free, count);
    } else if k == |l| || l[k].mark == Deleted {
      ScanFails(l, n, k, free, count);
    } else {
      assert l[k] in l;
      ScanGoesOn(l, n, k, free, count);
      FirstGapIsLowest(l, n, k + 1, EndBlock(l[k]), count);
    }
  }

  // ------------------------------------------------------------------ the scan as written

  function Unsigned64(d: int): int {
    d % (4 * INT * INT)
  }

  lemma NoWrap(d: int)
    requires 0 <= d < INT
    ensures Unsigned64(d) == d
  {
  }

  /** The scan as the program has it goes on behind a deleted record, from the end of the extent
      that record had; differences are of unsigned 64-bit numbers. */
  function GapAsWritten(l: seq<Record>, n: int, k: nat, free: int, count: int): int
    requires k <= |l|
    decreases |l| - k
  {
    if Unsigned64(GapEnd(l, n, k) - free) >= count then free
    else if k == |l| then 0
    else GapAsWritten(l, n, k + 1, EndBlock(l[k]), count)
  }

  predicate DeletedFrom(l: seq<Record>, k: nat) {
    forall i | k <= i < |l| :: l[i].mark == Deleted
  }

  /** None of the deleted extents from record `k` on ends `count` blocks before the last one. */
  predicate NoRoomBehind(l: seq<Record>, n: int, k: nat, count: int) {
    forall i | k <= i < |l| && l[i].mark == Deleted :: n - 1 - EndBlock(l[i]) < count
  }

  /** Among the deleted records the scan takes the end of one that is far enough from the end. */
  lemma {:induction false} ScansDeleted(l: seq<Record>, n: int, k: nat, free: int, count: int)
    requires k <= |l| && DeletedFrom(l, k) && (forall r | r in l :: Inside(r, n)) && 1 <= free <= n - 1 < INT
    ensures GapAsWritten(l, n, k, free, count) == 0 <==> n - 1 - free < count && NoRoomBehind(l, n, k, count)
    decreases |l| - k
  {
    hide Unsigned64;
    NoWrap(n - 1 - free);
    if k < |l| {
      assert l[k] in l;
      ScansDeleted(l, n, k + 1, EndBlock(l[k]), count);
    }
  }

  /** It is the intended scan exactly if that finds a gap or no deleted record misleads it. */
  lemma {:induction false} ScanAsWritten(l: seq<Record>, n: int, k: nat, free: int, count: int)
    requires Scannable(l, n) && n < INT && count >= 1 && k <= |l| && Scanned(l, n, k, free, count)
    ensures GapAsWritten(l, n, k, free, count) == FirstGap(l, n, k, free, count)
            <==> FirstGap(l, n, k, free, count) != 0 || NoRoomBehind(l, n, k, count)
    decreases |l| - k
  {
    hide Unsigned64;
    if k < |l| {
      assert l[k] in l;
    }
    NoWrap(GapEnd(l, n, k) - free);
    if k < |l| && l[k].mark == Deleted {
      assert DeletedFrom(l, k) by {
        assert forall i | k < i < |l| :: l[i] in l && !Live(l[i]);
      }
      ScansDeleted(l, n, k, free, count);
    } else if k < |l| && GapEnd(l, n, k) - free < count {
      ScanGoesOn(l, n, k, free, count);
      ScanAsWritten(l, n, k + 1, EndBlock(l[k]), count);
    }
  }

  // ------------------------------------------------------------------ the directory

  /** How many records are before the one that ends the directory; all if none does. */
  function FirstEnd(dir: seq<Record>): (n: nat)
    ensures n <= |dir|
    ensures forall i | 0 <= i < n :: dir[i].mark != EndMark
    ensures n < |dir| ==> dir[n].mark == EndMark
  {
    if dir == [] || dir[0].mark == EndMark then 0 else 1 + FirstEnd(dir[1..])
  }

  /** The records in use, of files and deleted ones. */
  function InUse(dir: seq<Record>): seq<Record> {
    dir[..FirstEnd(dir)]
  }

  function FindMark(l: seq<Record>, mark: Mark): (i: nat)
    ensures i <= |l|
    ensures forall j | 0 <= j < i :: l[j].mark != mark
    ensures i < |l| ==> l[i].mark == mark
  {
    if l == [] || l[0].mark == mark then 0 else 1 + FindMark(l[1..], mark)
  }

  /** Where a new record goes: in place of the first deleted one, or at the end. */
  function FreeSlot(dir: seq<Record>): (i: nat)
    ensures i <= |dir|
  {
    FindMark(InUse(dir), Deleted)
  }

  datatype Outcome = Created(slot: nat, start: int) | Exists | NoSlot | NoSpace

  /** Sizes are in MiB and rounded up to blocks of 2 MiB. */
  function Blocks(maxsize: int): int {
    (maxsize + maxsize % 2) / 2
  }

  function Stored(dir: seq<Record>, slot: nat, r: Record): (d: seq<Record>)
    requires slot < |dir|
    ensures |d| == |dir|
  {
    var d := dir[slot := r];
    if slot == FirstEnd(dir) && slot + 1 < |dir| then d[slot + 1 := d[slot + 1].(mark := EndMark)] else d
  }

  function Creation(dir: seq<Record>, n: int, name: string, maxsize: int): (seq<Record>, Outcome) {
    var slot := FreeSlot(dir);
    if FindMark(InUse(dir), Named(name)) < FirstEnd(dir) then (dir, Exists)
    else if slot == |dir| then (dir, NoSlot)
    else
      var b := FirstGap(Sort(InUse(dir)), n, 0, 1, Blocks(maxsize));
      if b == 0 then (dir, NoSpace)
      else (Stored(dir, slot, Record(Named(name), b, Blocks(maxsize))), Created(slot, b))
  }

  function Deletion(dir: seq<Record>, name: string): (seq<Record>, bool) {
    var i := FindMark(InUse(dir), Named(name));
    if i == FirstEnd(dir) then (dir, false) else (dir[i := dir[i].(mark := Deleted)], true)
  }

  // ------------------------------------------------------------------ the invariant

  predicate UniqueNames(l: seq<Record>) {
    forall i, j | 0 <= i < j < |l| && Live(l[i]) && Live(l[j]) :: l[i].mark != l[j].mark
  }

  predicate DiskSize(n: int) {
    3 <= n < INT
  }

  predicate RecordsOk(l: seq<Record>, n: int) {
    && AllApart(l) && UniqueNames(l)
    && forall i | 0 <= i < |l| :: l[i].mark != EndMark && Inside(l[i], n) && BlockNumber(l[i].start)
  }

  predicate Inv(dir: seq<Record>, n: int) {
    |dir| == RECORDS && DiskSize(n) && RecordsOk(InUse(dir), n)
  }

  /** The sorted copy is fit for the scan. */
  lemma CopyScannable(dir: seq<Record>, n: int)
    requires Inv(dir, n)
    ensures Scannable(Sort(InUse(dir)), n)
    ensures forall r :: r in Sort(InUse(dir)) <==> r in InUse(dir)
  {
    SortMembers(InUse(dir));
    SortOrders(InUse(dir));
    SortApart(InUse(dir));
  }

  lemma SameFits(l: seq<Record>, k: seq<Record>, n: int, b: int, count: int)
    requires forall r :: r in l <==> r in k
    ensures Fits(l, n, b, count) <==> Fits(k, n, b, count)
  {
  }

  /** The size in MiB, rounded up to blocks of two. */
  predicate BlocksFor(maxsize: int, count: int) {
    maxsize <= 2 * count <= maxsize + 1
  }

  lemma BlocksRoundUp(maxsize: int, count: int)
    requires maxsize >= 1 && BlocksFor(maxsize, count)
    ensures Blocks(maxsize) == count >= 1
  {
  }

  /** Creating takes the lowest place where the file fits; it is refused for the name exactly if
      there is a file of that name, else for the directory exactly if all 64 records are files,
      and else for space exactly if the file fits nowhere. */
  lemma CreateIsFirstFit(dir: seq<Record>, n: int, name: string, maxsize: int, count: int)
    requires Inv(dir, n) && maxsize >= 1 && BlocksFor(maxsize, count)
    ensures var l := InUse(dir);
            var named := exists r :: r in l && r.mark == Named(name);
            var full := |l| == RECORDS && forall r | r in l :: Live(r);
            match Creation(dir, n, name, maxsize).1
            case Created(slot, b) => !named && !full && Fits(l, n, b, count) && forall c | c < b :: !Fits(l, n, c, count)
            case NoSpace => !named && !full && forall c :: !Fits(l, n, c, count)
            case Exists => named
            case NoSlot => !named && full
  {
    BlocksRoundUp(maxsize, count);
    hide Fits, Sort, FirstGap, Scannable, Scanned, Blocks;
    var l := InUse(dir);
    var s := Sort(l);
    CopyScannable(dir, n);
    ScanBegins(s, n, count);
    FirstGapIsLowest(s, n, 0, 1, count);
    forall c ensures Fits(l, n, c, count) <==> Fits(s, n, c, count) {
      SameFits(l, s, n, c, count);
    }
    MarkTells(l, Named(name));
    SlotTells(dir, n);
  }

  lemma MarkTells(l: seq<Record>, mark: Mark)
    ensures FindMark(l, mark) < |l| <==> exists r :: r in l && r.mark == mark
  {
    var i := FindMark(l, mark);
    if i < |l| {
      assert l[i] in l;
    }
  }

  lemma SlotTells(dir: seq<Record>, n: int)
    requires Inv(dir, n)
    ensures var l := InUse(dir); FreeSlot(dir) == |dir| <==> |l| == RECORDS && forall r | r in l :: Live(r)
  {
    var l := InUse(dir);
    MarkTells(l, Deleted);
    if FreeSlot(dir) == |dir| {
      assert forall r | r in l :: r.mark != Deleted && r.mark != EndMark;
    }
  }

  lemma {:induction false} FirstEndIs(dir: seq<Record>, n: nat)
    requires n <= |dir| && (forall i | 0 <= i < n :: dir[i].mark != EndMark) && (n < |dir| ==> dir[n].mark == EndMark)
    ensures FirstEnd(dir) == n
  {
  }

  /** The records in use after one was stored. */
  lemma StoredInUse(dir: seq<Record>, r: Record)
    requires FreeSlot(dir) < |dir| && r.mark != EndMark
    ensures var slot := FreeSlot(dir); var l := InUse(dir);
            InUse(Stored(dir, slot, r)) == if slot < |l| then l[slot := r] else l + [r]
  {
    var slot := FreeSlot(dir);
    var d := Stored(dir, slot, r);
    FirstEndIs(d, if slot < FirstEnd(dir) then FirstEnd(dir) else FirstEnd(dir) + 1);
  }

  lemma AddedOk(l: seq<Record>, n: int, slot: nat, r: Record)
    requires RecordsOk(l, n) && slot <= |l| && (slot < |l| ==> !Live(l[slot]))
    requires Live(r) && 1 <= r.reserved && Fits(l, n, r.start, r.reserved) && n < INT
    requires forall i | 0 <= i < |l| :: l[i].mark != r.mark
    ensures RecordsOk(if slot < |l| then l[slot := r] else l + [r], n)
  {
    forall i | 0 <= i < |l| ensures Apart(l[i], r) {
      assert l[i] in l;
    }
  }

  lemma CreateKeeps(dir: seq<Record>, n: int, name: string, maxsize: int)
    requires Inv(dir, n) && maxsize >= 1
    ensures Inv(Creation(dir, n, name, maxsize).0, n)
  {
    hide RecordsOk, Fits, FirstGap, Sort;
    var (d, out) := Creation(dir, n, name, maxsize);
    if out.Created? {
      CreateIsFirstFit(dir, n, name, maxsize, Blocks(maxsize));
      var r := Record(Named(name), out.start, Blocks(maxsize));
      StoredInUse(dir, r);
      AddedOk(InUse(dir), n, out.slot, r);
    }
  }

  lemma DeletedInUse(dir: seq<Record>, i: nat)
    requires i < FirstEnd(dir)
    ensures InUse(dir[i := dir[i].(mark := Deleted)]) == InUse(dir)[i := dir[i].(mark := Deleted)]
  {
    FirstEndIs(dir[i := dir[i].(mark := Deleted)], FirstEnd(dir));
  }

  lemma DeleteKeeps(dir: seq<Record>, n: int, name: string)
    requires Inv(dir, n)
    ensures Inv(Deletion(dir, name).0, n)
  {
    var i := FindMark(InUse(dir), Named(name));
    if i < FirstEnd(dir) {
      DeletedInUse(dir, i);
    }
  }

  // ------------------------------------------------------------------ files

  /** The files of a directory. */
  ghost function Files(dir: seq<Record>): set<Record> {
    set r | r in InUse(dir) && Live(r)
  }

  /** A new record takes the place of the first deleted one, or follows the last; no other
      record changes. */
  lemma CreateTakesFirstSlot(dir: seq<Record>, n: int, name: string, maxsize: int, count: int)
    requires Inv(dir, n) && maxsize >= 1 && BlocksFor(maxsize, count) && Creation(dir, n, name, maxsize).1.Created?
    ensures var (d, out) := Creation(dir, n, name, maxsize); var l := InUse(dir);
            var r := Record(Named(name), out.start, count);
            && out.slot <= |l| && (forall j | 0 <= j < out.slot :: Live(l[j])) && (out.slot < |l| ==> l[out.slot].mark == Deleted)
            && InUse(d) == if out.slot < |l| then l[out.slot := r] else l + [r]
  {
    BlocksRoundUp(maxsize, count);
    hide Blocks, FirstGap, Sort;
    StoredInUse(dir, Record(Named(name), Creation(dir, n, name, maxsize).1.start, count));
  }

  /** Creating adds the new file and changes no other. */
  lemma CreateAddsOne(dir: seq<Record>, n: int, name: string, maxsize: int, count: int)
    requires Inv(dir, n) && maxsize >= 1 && BlocksFor(maxsize, count)
    ensures var (d, out) := Creation(dir, n, name, maxsize);
            Files(d) == if out.Created? then Files(dir) + {Record(Named(name), out.start, count)} else Files(dir)
  {
    hide Blocks;
    var (d, out) := Creation(dir, n, name, maxsize);
    if out.Created? {
      CreateTakesFirstSlot(dir, n, name, maxsize, count);
      var r := Record(Named(name), out.start, count);
      var l := InUse(dir);
      if out.slot < |l| {
        assert l[out.slot := r][out.slot] == r;
        forall q | q in l && Live(q) ensures q in l[out.slot := r] {
          var i :| 0 <= i < |l| && l[i] == q;
          assert l[out.slot := r][i] == q;
        }
      }
    }
  }

  /** Deleting removes the file of that name and changes no other. */
  lemma DeleteRemovesOne(dir: seq<Record>, n: int, name: string)
    requires Inv(dir, n)
    ensures Files(Deletion(dir, name).0) == set r | r in Files(dir) && r.mark != Named(name)
    ensures Deletion(dir, name).1 <==> exists r :: r in Files(dir) && r.mark == Named(name)
  {
    var l := InUse(dir);
    var i := FindMark(l, Named(name));
    if i < |l| {
      DeletedInUse(dir, i);
      var k := l[i := l[i].(mark := Deleted)];
      assert l[i] in Files(dir);
      forall r | r in l && Live(r) && r.mark != Named(name) ensures r in k {
        var j :| 0 <= j < |l| && l[j] == r;
        assert k[j] == r;
      }
      forall r | r in k && Live(r) ensures r in l && r.mark != Named(name) {
        var j :| 0 <= j < |k| && k[j] == r;
        assert j != i && l[j] == r;
      }
    }
  }

  // ------------------------------------------------------------------ whole runs

  datatype Op = CreateOp(name: string, maxsize: int) | DeleteOp(name: string)

  predicate Legal(op: Op) {
    op.CreateOp? ==> op.maxsize >= 1
  }

  function Apply(dir: seq<Record>, n: int, op: Op): seq<Record> {
    match op
    case CreateOp(name, maxsize) => Creation(dir, n, name, maxsize).0
    case DeleteOp(name) => Deletion(dir, name).0
  }

  function Run(dir: seq<Record>, n: int, ops: seq<Op>): seq<Record>
    decreases |ops|
  {
    if ops == [] then dir else Run(Apply(dir, n, ops[0]), n, ops[1..])
  }

  function Formatted(): seq<Record> {
    seq(RECORDS, _ => Record(EndMark, 0, 0))
  }

  lemma {:induction false} RunKeeps(dir: seq<Record>, n: int, ops: seq<Op>)
    requires Inv(dir, n) && forall i | 0 <= i < |ops| :: Legal(ops[i])
    ensures Inv(Run(dir, n, ops), n)
    decreases |ops|
  {
    if ops != [] {
      assert Legal(ops[0]);
      match ops[0] {
        case CreateOp(name, maxsize) => CreateKeeps(dir, n, name, maxsize);
        case DeleteOp(name) => DeleteKeeps(dir, n, name);
      }
      RunKeeps(Apply(dir, n, ops[0]), n, ops[1..]);
    }
  }

  /** Over any run from a formatted disk: every file lies in blocks 1 to n - 2, and no two files
      share a block. */
  lemma FilesNeverOverlap(n: int, ops: seq<Op>, r: Record, q: Record)
    requires DiskSize(n) && forall i | 0 <= i < |ops| :: Legal(ops[i])
    requires r in Files(Run(Formatted(), n, ops)) && q in Files(Run(Formatted(), n, ops))
    ensures 1 <= r.start < EndBlock(r) <= n - 1
    ensures r != q ==> EndBlock(r) <= q.start || EndBlock(q) <= r.start
  {
    RunKeeps(Formatted(), n, ops);
    var l := InUse(Run(Formatted(), n, ops));
    var i :| 0 <= i < |l| && l[i] == r;
    var j :| 0 <= j < |l| && l[j] == q;
    assert i < j ==> Apart(l[i], l[j]);
    assert j < i ==> Apart(l[j], l[i]);
  }

  // ------------------------------------------------------------------ the scan as written, on disks

  /** On every directory the scan as written finds the place it should exactly if there is one,
      or else no deleted file ended at least `count` blocks before the last block. */
  lemma WrittenScanExact(dir: seq<Record>, n: int, count: int)
    requires Inv(dir, n) && count >= 1
    ensures var l := InUse(dir); var written := GapAsWritten(Sort(l), n, 0, 1, count);
            && (written == FirstGap(Sort(l), n, 0, 1, count) <==>
                  (exists b :: Fits(l, n, b, count)) || forall r | r in l && r.mark == Deleted :: n - 1 - EndBlock(r) < count)
            && (written != FirstGap(Sort(l), n, 0, 1, count) ==> !Fits(l, n, written, count))
  {
    hide Fits, Sort, FirstGap, GapAsWritten, Scannable, Scanned;
    var l := InUse(dir);
    var s := Sort(l);
    CopyScannable(dir, n);
    ScanBegins(s, n, count);
    ScanAsWritten(s, n, 0, 1, count);
    FirstGapIsLowest(s, n, 0, 1, count);
    forall c ensures Fits(l, n, c, count) <==> Fits(s, n, c, count) {
      SameFits(l, s, n, c, count);
    }
    SameRoom(l, s, n, count);
  }

  lemma SameRoom(l: seq<Record>, s: seq<Record>, n: int, count: int)
    requires forall r :: r in l <==> r in s
    ensures NoRoomBehind(s, n, 0, count) <==> forall r | r in l && r.mark == Deleted :: n - 1 - EndBlock(r) < count
  {
    if NoRoomBehind(s, n, 0, count) {
      forall r | r in l && r.mark == Deleted ensures n - 1 - EndBlock(r) < count {
        assert r in s;
      }
    } else {
      var i :| 0 <= i < |s| && s[i].mark == Deleted && n - 1 - EndBlock(s[i]) >= count;
      assert s[i] in l;
    }
  }

  /** Ten blocks: a file of two, a file of three behind it, and the first one deleted. A file of
      four fits nowhere, but is given the blocks of the one that is left. */
  lemma DeletedRecordMisleads()
    ensures var dir := Run(Formatted(), 10, [CreateOp("a", 4), CreateOp("b", 6), DeleteOp("a")]);
            && InUse(dir) == [Record(Deleted, 1, 2), Record(Named("b"), 3, 3)]
            && GapAsWritten(Sort(InUse(dir)), 10, 0, 1, 4) == 3
            && forall b :: !Fits(InUse(dir), 10, b, 4)
  {
    hide Creation, Deletion, GapAsWritten, Sort;
    var d0 := Formatted();
    FirstFile(d0);
    var d1 := Creation(d0, 10, "a", 4).0;
    SecondFile(d1);
    FirstFileGone(Creation(d1, 10, "b", 6).0);
    ThreeSteps(d0, 10, [CreateOp("a", 4), CreateOp("b", 6), DeleteOp("a")]);
    Misled();
    assert [Record(Deleted, 1, 2), Record(Named("b"), 3, 3)][1] == Record(Named("b"), 3, 3);
  }

  lemma FirstFile(dir: seq<Record>)
    requires dir == Formatted()
    ensures InUse(Creation(dir, 10, "a", 4).0) == [Record(Named("a"), 1, 2)]
    ensures |Creation(dir, 10, "a", 4).0| == RECORDS
  {
    assert InUse(dir) == [];
    StoredInUse(dir, Record(Named("a"), 1, 2));
  }

  lemma SecondFile(dir: seq<Record>)
    requires |dir| == RECORDS && InUse(dir) == [Record(Named("a"), 1, 2)]
    ensures InUse(Creation(dir, 10, "b", 6).0) == [Record(Named("a"), 1, 2), Record(Named("b"), 3, 3)]
  {
    var l := [Record(Named("a"), 1, 2)];
    FindMarkIs(l, Deleted, 1);
    FindMarkIs(l, Named("b"), 1);
    assert Sort(l) == l;
    assert FirstGap(l, 10, 0, 1, 3) == 3 by {
      assert FirstGap(l, 10, 1, 3, 3) == 3;
    }
    StoredInUse(dir, Record(Named("b"), 3, 3));
  }

  lemma FirstFileGone(dir: seq<Record>)
    requires InUse(dir) == [Record(Named("a"), 1, 2), Record(Named("b"), 3, 3)]
    ensures InUse(Deletion(dir, "a").0) == [Record(Deleted, 1, 2), Record(Named("b"), 3, 3)]
  {
    FindMarkIs(InUse(dir), Named("a"), 0);
    DeletedInUse(dir, 0);
  }

  lemma Misled()
    ensures GapAsWritten(Sort([Record(Deleted, 1, 2), Record(Named("b"), 3, 3)]), 10, 0, 1, 4) == 3
  {
    var b, c := Record(Named("b"), 3, 3), Record(Deleted, 1, 2);
    assert Sort([c, b]) == Insert(c, [b]) == [b, c] by {
      assert [c, b][1..] == [b] && Sort([b]) == [b];
    }
    assert GapAsWritten([b, c], 10, 2, 3, 4) == 3;
    assert GapAsWritten([b, c], 10, 1, 6, 4) == 3;
  }

  lemma ThreeSteps(dir: seq<Record>, n: int, ops: seq<Op>)
    requires |ops| == 3
    ensures Run(dir, n, ops) == Apply(Apply(Apply(dir, n, ops[0]), n, ops[1]), n, ops[2])
  {
    var d := Apply(Apply(dir, n, ops[0]), n, ops[1]);
    assert ops[1..][1..] == [ops[2]];
    assert Run(d, n, [ops[2]]) == Apply(d, n, ops[2]);
  }

  // ------------------------------------------------------------------ the disk in memory

  class Disk {
    const directory: array<Record>
    const numBlocks: int

    ghost predicate Valid()
      reads directory
    {
      Inv(directory[..], numBlocks)
    }

    constructor (numBlocks: int)
      requires DiskSize(numBlocks)
      ensures Valid() && directory[..] == Formatted() && this.numBlocks == numBlocks && fresh(directory)
    {
      directory := new Record[RECORDS](_ => Record(EndMark, 0, 0));
      this.numBlocks := numBlocks;
    }

    method FindFile(name: string) returns (found: bool, slot: nat)
      requires Valid()
      ensures slot == FindMark(InUse(directory[..]), Named(name)) && (found <==> slot < FirstEnd(directory[..]))
    {
      slot := 0;
      while slot < RECORDS && directory[slot].mark != EndMark
        invariant 0 <= slot <= RECORDS
        invariant forall i | 0 <= i < slot :: directory[i].mark != EndMark && directory[i].mark != Named(name)
      {
        if directory[slot].mark == Named(name) {
          EndsAfter(directory[..], slot);
          FindMarkIs(InUse(directory[..]), Named(name), slot);
          return true, slot;
        }
        slot := slot + 1;
      }
      FirstEndIs(directory[..], slot);
      FindMarkIs(InUse(directory[..]), Named(name), slot);
      return false, slot;
    }

    /** How many records are in use, and where a new one can go; -1 if nowhere. */
    method CountRecords() returns (used: nat, slot: int)
      requires Valid()
      ensures used == FirstEnd(directory[..])
      ensures slot == if FreeSlot(directory[..]) < RECORDS then FreeSlot(directory[..]) else -1
    {
      used, slot := 0, -1;
      while used < RECORDS && directory[used].mark != EndMark
        invariant 0 <= used <= RECORDS
        invariant forall i | 0 <= i < used :: directory[i].mark != EndMark
        invariant slot == -1 ==> forall i | 0 <= i < used :: directory[i].mark != Deleted
        invariant slot != -1 ==> 0 <= slot < used && directory[slot].mark == Deleted
        invariant slot != -1 ==> forall i | 0 <= i < slot :: directory[i].mark != Deleted
      {
        if directory[used].mark == Deleted && slot == -1 {
          slot := used;
        }
        used := used + 1;
      }
      FirstEndIs(directory[..], used);
      FindMarkIs(InUse(directory[..]), Deleted, if slot == -1 then used else slot);
      if slot == -1 && used < RECORDS {
        slot := used;
      }
    }

    /** The first block of the first gap of `count` blocks; 0 if there is none. */
    method FindGap(used: nat, count: int) returns (start: int)
      requires Valid() && used == FirstEnd(directory[..]) && count >= 1
      ensures start == FirstGap(Sort(InUse(directory[..])), numBlocks, 0, 1, count)
    {
      var copy := Sort(directory[..used]);
      CopyScannable(directory[..], numBlocks);
      ScanBegins(copy, numBlocks, count);
      var i := 0;
      var free := 1;
      while i <= used
        invariant 0 <= i <= used && Scanned(copy, numBlocks, i, free, count)
        invariant FirstGap(copy, numBlocks, i, free, count) == FirstGap(copy, numBlocks, 0, 1, count)
        decreases used + 1 - i
      {
        var last := i == used || copy[i].mark == Deleted;
        var gapEnd := if last then numBlocks - 1 else copy[i].start;
        if gapEnd - free >= count {
          return free;
        }
        if last {
          return 0;
        }
        assert copy[i] in copy;
        ScanGoesOn(copy, numBlocks, i, free, count);
        free := copy[i].start + copy[i].reserved;
        i := i + 1;
      }
    }

    method Create(name: string, maxsize: int) returns (outcome: Outcome)
      requires Valid() && maxsize >= 1
      modifies directory
      ensures Valid() && (directory[..], outcome) == Creation(old(directory[..]), numBlocks, name, maxsize)
    {
      CreateKeeps(directory[..], numBlocks, name, maxsize);
      var found, at := FindFile(name);
      if found {
        return Exists;
      }
      var used, slot := CountRecords();
      if slot == -1 {
        return NoSlot;
      }
      var start := FindGap(used, Blocks(maxsize));
      if start == 0 {
        return NoSpace;
      }
      directory[slot] := Record(Named(name), start, Blocks(maxsize));
      if slot == used && used + 1 < RECORDS {
        directory[used + 1] := directory[used + 1].(mark := EndMark);
      }
      return Created(slot, start);
    }

    method Delete(name: string) returns (found: bool)
      requires Valid()
      modifies directory
      ensures Valid() && (directory[..], found) == Deletion(old(directory[..]), name)
    {
      DeleteKeeps(directory[..], numBlocks, name);
      var slot: nat;
      found, slot := FindFile(name);
      if found {
        directory[slot] := directory[slot].(mark := Deleted);
      }
    }
  }

  lemma {:induction false} EndsAfter(dir: seq<Record>, slot: nat)
    requires slot < |dir| && forall i | 0 <= i <= slot :: dir[i].mark != EndMark
    ensures slot < FirstEnd(dir)
  {
  }

  lemma FindMarkIs(l: seq<Record>, mark: Mark, i: nat)
    requires i <= |l| && (forall j | 0 <= j < i :: l[j].mark != mark) && (i < |l| ==> l[i].mark == mark)
    ensures FindMark(l, mark) == i
  {
  }
}
