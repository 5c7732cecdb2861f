// The default kernel heap in memory: block headers threaded into an address-ordered free
// list, and the allocator that rewrites them in place.
module Heap {
  import opened HeapLayout

  // ---------------------------------------------------------- headers in memory

  /** 64-bit words by 8-aligned address. A header at `a` keeps its link at `a` and its size
      at `a + 8`. */
  type Memory = map<int, int>

  predicate WordAddress(x: int) {
    x % BYTE_ALIGNMENT == 0 && START_MM <= x < START_MM + MAX_SIZE
  }

  /** The static list head lies outside the arena, and all words of interest are mapped. */
  ghost predicate Mapped(mem: Memory, start: int) {
    && start % BYTE_ALIGNMENT == 0
    && (0 < start <= START_MM - NODE_SIZE || START_MM + MAX_SIZE <= start)
    && start in mem && start + 8 in mem
    && (forall x {:trigger x in mem} | WordAddress(x) :: x in mem)
  }

  /** What the link of the list's i-th predecessor must hold. */
  function At(free: seq<int>, i: nat): int {
    if i < |free| then free[i] else END_NODE
  }

  /** The header of the i-th free block is in order. */
  predicate LinkOk(mem: Memory, h: Layout, i: nat)
    requires i < |h.free|
  {
    var a := h.free[i];
    && a in h.blocks && a in mem && a + 8 in mem
    && mem[a] == At(h.free, i + 1) && mem[a + 8] == h.blocks[a].size
  }

  /** So are the headers of the list head and of the sentinel. */
  ghost predicate EndsOk(mem: Memory, start: int, h: Layout) {
    && Mapped(mem, start)
    && WordAddress(END_NODE) && WordAddress(END_NODE + 8)
    && mem[start] == At(h.free, 0) && mem[start + 8] == 0
    && mem[END_NODE] == 0 && mem[END_NODE + 8] == 0
  }

  ghost predicate Linked(mem: Memory, start: int, h: Layout) {
    && EndsOk(mem, start, h)
    && (forall i | 0 <= i < |h.free| :: LinkOk(mem, h, i))
  }

  /** Live blocks carry the allocated bit in their size word, except those in `raw`. */
  ghost predicate Tagged(mem: Memory, blocks: map<int, Block>, raw: set<int>) {
    forall a | LiveAt(blocks, a) ::
      a + 8 in mem && mem[a + 8] == blocks[a].size + if a in raw then 0 else ALLOCATED_BIT
  }

  predicate HeaderWord(h: Layout, start: int, x: int) {
    x == start || x == start + 8 || x in h.blocks || x - 8 in h.blocks
  }

  /** Header words of different blocks are different words, all mapped and none the list head's. */
  lemma HeadersApart(mem: Memory, start: int, h: Layout, a: int, b: int)
    requires Tiled(h.blocks) && AllAligned(h.blocks) && Mapped(mem, start) && a in h.blocks && b in h.blocks
    ensures a in mem && a + 8 in mem && a != END_NODE && a + 8 != END_NODE
    ensures a != start && a + 8 != start && a != start + 8
    ensures a != b ==> a + 8 != b && a != b + 8
  {
    assert Aligned(a, h.blocks[a]) && Aligned(b, h.blocks[b]);
    assert Apart(h.blocks, a, b) && Apart(h.blocks, b, a);
    assert WordAddress(a) && WordAddress(a + 8);
  }

  /** Address of the header whose link leads to list position k. */
  function Before(start: int, free: seq<int>, k: nat): int
    requires k <= |free|
  {
    if k == 0 then start else free[k - 1]
  }

  /** Two headers with four different words, all mapped. */
  predicate HeaderPair(mem: Memory, a: int, b: int) {
    && a in mem && a + 8 in mem && b in mem && b + 8 in mem
    && a != b && a + 8 != b && b + 8 != a
  }

  /** The two writes of an insertion of `a` behind `it`. */
  function InsertWrites(mem: Memory, it: int, a: int): Memory
    requires HeaderPair(mem, it, a)
  {
    mem[a := mem[it]][it := a]
  }

  /** The two writes of a merge of `e` into `a`: size and link. */
  function MergeWrites(mem: Memory, a: int, e: int): Memory
    requires HeaderPair(mem, a, e)
  {
    mem[a + 8 := mem[a + 8] + mem[e + 8]][a := mem[e]]
  }

  lemma InsertedLinkNew(mem: Memory, start: int, h: Layout, a: int, k: nat)
    requires Tiled(h.blocks) && AllAligned(h.blocks) && Listed(h) && LiveAt(h.blocks, a) && k <= |h.free|
    requires EndsOk(mem, start, h) && a + 8 in mem && mem[a + 8] == h.blocks[a].size
    requires var it := Before(start, h.free, k); HeaderPair(mem, it, a) && mem[it] == At(h.free, k)
    ensures var m := InsertWrites(mem, Before(start, h.free, k), a);
            a in m && a + 8 in m && m[a] == At(h.free, k) && m[a + 8] == h.blocks[a].size
  {
    HeadersApart(mem, start, h, a, if k == 0 then a else h.free[k - 1]);
  }

  lemma InsertedLinkOld(mem: Memory, start: int, h: Layout, a: int, k: nat, u: nat)
    requires Tiled(h.blocks) && AllAligned(h.blocks) && Listed(h) && LiveAt(h.blocks, a) && k <= |h.free|
    requires EndsOk(mem, start, h) && u < |h.free| && LinkOk(mem, h, u)
    requires HeaderPair(mem, Before(start, h.free, k), a)
    ensures var m := InsertWrites(mem, Before(start, h.free, k), a);
            var f := h.free[u];
            && f in m && f + 8 in m && m[f + 8] == h.blocks[f].size
            && m[f] == if u + 1 == k then a else At(h.free, u + 1)
  {
    HeadersApart(mem, start, h, h.free[u], a);
    HeadersApart(mem, start, h, h.free[u], if k == 0 then a else h.free[k - 1]);
  }

  /** Header writes in the arena leave the sentinel and the list head's size alone. */
  lemma EndsFrame(mem: Memory, start: int, h: Layout, a: int)
    requires Tiled(h.blocks) && AllAligned(h.blocks) && Mapped(mem, start) && a in h.blocks
    ensures a in mem && a + 8 in mem
    ensures a < END_NODE && a + 8 < END_NODE
    ensures a != start && a + 8 != start && a != start + 8 && a + 8 != start + 8
    ensures start != END_NODE && start != END_NODE + 8 && start + 8 != END_NODE
  {
    HeadersApart(mem, start, h, a, a);
  }

  lemma EnlistedEnds(mem: Memory, start: int, h: Layout, a: int, k: nat)
    requires Tiled(h.blocks) && AllAligned(h.blocks) && Listed(h) && LiveAt(h.blocks, a)
    requires EndsOk(mem, start, h) && k == Below(h.free, a)
    requires var it := Before(start, h.free, k); HeaderPair(mem, it, a) && mem[it] == At(h.free, k)
    ensures EndsOk(InsertWrites(mem, Before(start, h.free, k), a), start, Enlisted(h, a))
  {
    hide Tiled, AllAligned, Listed, Enlisted, Below;
    EnlistedAt(h, a, k, 0);
    EndsFrame(mem, start, h, a);
    if k > 0 {
      ListedAt(h, k - 1);
      EndsFrame(mem, start, h, h.free[k - 1]);
    }
  }

  /** The two writes of an insertion enlist the block. */
  lemma EnlistedIsLinked(mem: Memory, start: int, h: Layout, a: int, k: nat)
    requires Tiled(h.blocks) && AllAligned(h.blocks) && Listed(h) && LiveAt(h.blocks, a)
    requires Linked(mem, start, h) && a + 8 in mem && mem[a + 8] == h.blocks[a].size
    requires k == Below(h.free, a)
    requires var it := Before(start, h.free, k); HeaderPair(mem, it, a) && mem[it] == At(h.free, k)
    ensures Linked(InsertWrites(mem, Before(start, h.free, k), a), start, Enlisted(h, a))
  {
    EnlistedEnds(mem, start, h, a, k);
    var m := InsertWrites(mem, Before(start, h.free, k), a);
    var r := Enlisted(h, a);
    forall i | 0 <= i <= |h.free| ensures LinkOk(m, r, i) {
      assert i > 0 ==> LinkOk(mem, h, i - 1);
      EnlistedLink(mem, start, h, a, k, i);
    }
  }

  /** The list after an insertion, entry by entry: the new one sits at k, leads to what was
      there, and is led to by its predecessor. */
  lemma EnlistedAt(h: Layout, a: int, k: nat, i: nat)
    requires Listed(h) && a in h.blocks && k == Below(h.free, a) && i <= |h.free|
    ensures var r := Enlisted(h, a);
            && |r.free| == |h.free| + 1
            && r.free[i] == (if i < k then h.free[i] else if i == k then a else h.free[i - 1])
            && r.free[i] in r.blocks && r.blocks[r.free[i]].size == h.blocks[r.free[i]].size
            && At(r.free, i + 1) ==
                 (if i + 1 < k then h.free[i + 1] else if i + 1 == k then a else At(h.free, i))
  {
    hide Listed, Ascending, Inserted, Below;
    InsertedAt(h.free, k, a, i);
    if i < |h.free| {
      InsertedAt(h.free, k, a, i + 1);
      ListedAt(h, i);
    }
    if i > 0 {
      ListedAt(h, i - 1);
    }
  }

  lemma EnlistedLink(mem: Memory, start: int, h: Layout, a: int, k: nat, i: nat)
    requires Tiled(h.blocks) && AllAligned(h.blocks) && Listed(h) && LiveAt(h.blocks, a)
    requires EndsOk(mem, start, h) && a + 8 in mem && mem[a + 8] == h.blocks[a].size
    requires k == Below(h.free, a) && i <= |h.free|
    requires i < k ==> LinkOk(mem, h, i)
    requires i > k ==> LinkOk(mem, h, i - 1)
    requires var it := Before(start, h.free, k); HeaderPair(mem, it, a) && mem[it] == At(h.free, k)
    ensures LinkOk(InsertWrites(mem, Before(start, h.free, k), a), Enlisted(h, a), i)
  {
    hide Tiled, AllAligned, Listed, EndsOk;
    EnlistedAt(h, a, k, i);
    if i == k {
      InsertedLinkNew(mem, start, h, a, k);
    } else {
      InsertedLinkOld(mem, start, h, a, k, if i < k then i else i - 1);
    }
  }

  /** The list after a join, entry by entry. */
  lemma JoinedAt(h: Layout, k: nat, i: nat)
    requires Listed(h) && Touching(h, k) && i < |h.free| - 1
    ensures h.free[k + 1] in h.blocks
    ensures var r := Joined(h, k); var u := if i <= k then i else i + 1; var a := h.free[k];
            && |r.free| == |h.free| - 1 && r.free[i] == h.free[u] && r.free[i] in r.blocks && r.free[i] in h.blocks
            && (u == k <==> r.free[i] == a) && r.free[i] != h.free[k + 1]
            && r.blocks[r.free[i]].size ==
                 h.blocks[r.free[i]].size + (if u == k then h.blocks[h.free[k + 1]].size else 0)
            && At(r.free, i + 1) == At(h.free, if u == k then k + 2 else u + 1)
  {
    hide Listed, Ascending, Without, Gap;
    var u := if i <= k then i else i + 1;
    ListedAt(h, u);
    ListedAt(h, k + 1);
    InOrder(h.free, if u < k then u else k, if u < k then k else u);
    InOrder(h.free, if u < k + 1 then u else k + 1, if u < k + 1 then k + 1 else u);
    WithoutAt(h.free, k + 1, i);
    if i + 2 < |h.free| {
      WithoutAt(h.free, k + 1, i + 1);
    }
  }

  lemma JoinedLink(mem: Memory, start: int, h: Layout, k: nat, i: nat)
    requires Tiled(h.blocks) && AllAligned(h.blocks) && Listed(h) && Mapped(mem, start)
    requires Touching(h, k) && i < |h.free| - 1 && LinkOk(mem, h, if i <= k then i else i + 1)
    requires LinkOk(mem, h, k) && LinkOk(mem, h, k + 1) && HeaderPair(mem, h.free[k], h.free[k + 1])
    ensures LinkOk(MergeWrites(mem, h.free[k], h.free[k + 1]), Joined(h, k), i)
  {
    hide Tiled, AllAligned, Listed, Gap, Joined, Mapped;
    JoinedAt(h, k, i);
    HeadersApart(mem, start, h, h.free[if i <= k then i else i + 1], h.free[k]);
  }

  lemma JoinedEnds(mem: Memory, start: int, h: Layout, k: nat)
    requires Tiled(h.blocks) && AllAligned(h.blocks) && Listed(h) && EndsOk(mem, start, h)
    requires Touching(h, k) && HeaderPair(mem, h.free[k], h.free[k + 1])
    ensures EndsOk(MergeWrites(mem, h.free[k], h.free[k + 1]), start, Joined(h, k))
  {
    hide Tiled, AllAligned, Listed, Gap, Joined;
    ListedAt(h, k);
    JoinedAt(h, k, 0);
    EndsFrame(mem, start, h, h.free[k]);
  }

  /** The two writes of a merge join the blocks. */
  lemma JoinedIsLinked(mem: Memory, start: int, h: Layout, k: nat)
    requires Tiled(h.blocks) && AllAligned(h.blocks) && Listed(h) && Linked(mem, start, h)
    requires Touching(h, k) && HeaderPair(mem, h.free[k], h.free[k + 1])
    ensures Linked(MergeWrites(mem, h.free[k], h.free[k + 1]), start, Joined(h, k))
  {
    hide Tiled, AllAligned, Listed, Gap, Joined, MergeWrites, EndsOk;
    MappedOf(mem, start, h);
    ListedAt(h, k);
    assert LinkOk(mem, h, k) && LinkOk(mem, h, k + 1);
    JoinedEnds(mem, start, h, k);
    JoinedAt(h, k, 0);
    var m := MergeWrites(mem, h.free[k], h.free[k + 1]);
    var r := Joined(h, k);
    forall i | 0 <= i < |h.free| - 1 ensures LinkOk(m, r, i) {
      assert LinkOk(mem, h, if i <= k then i else i + 1);
      JoinedLink(mem, start, h, k, i);
    }
  }

  /** A conditional merge in memory is a conditional join of the layout. */
  lemma MaybeJoined(mem: Memory, start: int, h: Layout, k: int, merge: bool, a: int, e: int)
    requires Tiled(h.blocks) && AllAligned(h.blocks) && Listed(h) && Linked(mem, start, h)
    requires HeaderPair(mem, a, e) && (merge <==> Touching(h, k))
    requires merge ==> a == h.free[k] && e == h.free[k + 1]
    ensures Linked(if merge then MergeWrites(mem, a, e) else mem, start, Joined(h, k))
  {
    if merge {
      JoinedIsLinked(mem, start, h, k);
    }
  }

  /** The header of an absorbed block, inside block b, no longer matters. */
  lemma LinkedFrame(mem: Memory, m: Memory, start: int, h: Layout, a: int, b: int)
    requires Tiled(h.blocks) && AllAligned(h.blocks) && Listed(h) && Linked(mem, start, h)
    requires b in h.blocks && b + NODE_SIZE <= a && a + NODE_SIZE <= b + h.blocks[b].size
    requires m.Keys == mem.Keys && forall x | x in mem && x != a && x != a + 8 :: m[x] == mem[x]
    ensures Linked(m, start, h)
  {
    EndsFrame(mem, start, h, b);
    forall i | 0 <= i < |h.free| ensures LinkOk(m, h, i) {
      assert LinkOk(mem, h, i);
      var f := h.free[i];
      assert Apart(h.blocks, f, b) && Apart(h.blocks, b, f);
    }
  }

  /** Everything the list walk of an insertion knows when it stops before position k. */
  lemma WalkStop(mem: Memory, start: int, h: Layout, a: int, k: nat)
    requires Tiled(h.blocks) && AllAligned(h.blocks) && Listed(h) && Linked(mem, start, h)
    requires LiveAt(h.blocks, a) && k <= |h.free|
    ensures var it := Before(start, h.free, k); var next := At(h.free, k);
            && HeaderPair(mem, it, a) && HeaderPair(mem, next, a)
            && mem[it] == next && a < END_NODE
            && mem[it + 8] == (if k == 0 then 0 else h.blocks[it].size)
            && (k == 0 ==> it + mem[it + 8] != a)
            && (next == END_NODE <==> k == |h.free|)
            && (k < |h.free| ==> HeaderPair(mem, it, next) && mem[next + 8] == h.blocks[next].size)
  {
    EndsFrame(mem, start, h, a);
    if k > 0 {
      assert LinkOk(mem, h, k - 1);
      HeadersApart(mem, start, h, h.free[k - 1], a);
      EndsFrame(mem, start, h, h.free[k - 1]);
    }
    if k < |h.free| {
      assert LinkOk(mem, h, k);
      HeadersApart(mem, start, h, h.free[k], a);
      EndsFrame(mem, start, h, h.free[k]);
      if k > 0 {
        HeadersApart(mem, start, h, h.free[k - 1], h.free[k]);
      }
    }
  }

  lemma WalkIsOver(h: Layout, a: int, k: nat)
    requires Listed(h) && LiveAt(h.blocks, a) && k <= |h.free| && At(h.free, k) >= a
    requires k > 0 ==> h.free[k - 1] < a
    ensures Below(h.free, a) == k
  {
    BelowIs(h.free, a, k);
  }

  /** All writes of `addNodeToFreeList`, once the predecessor `it` of `a` is found. */
  function AddWrites(mem: Memory, it: int, a: int): Memory
    requires HeaderPair(mem, it, a) && HeaderPair(mem, mem[it], a)
    requires mem[it] != END_NODE ==> HeaderPair(mem, it, mem[it])
  {
    var next := mem[it];
    var left := it + mem[it + 8] == a;
    var m1 := if left then mem[it + 8 := mem[it + 8] + mem[a + 8]] else mem;
    var node := if left then it else a;
    var m2 := if node + m1[node + 8] == next && next != END_NODE
              then m1[node + 8 := m1[node + 8] + m1[next + 8]][node := m1[next]]
              else m1[node := next];
    if it != node then m2[it := node] else m2
  }

  /** The same effect in the order of the specification: insert, merge right, merge left. */
  function RightWrites(mem: Memory, it: int, a: int): Memory
    requires HeaderPair(mem, it, a) && HeaderPair(mem, mem[it], a)
  {
    var m := InsertWrites(mem, it, a);
    if a + mem[a + 8] == mem[it] && mem[it] != END_NODE then MergeWrites(m, a, mem[it]) else m
  }

  function SpecWrites(mem: Memory, it: int, a: int): Memory
    requires HeaderPair(mem, it, a) && HeaderPair(mem, mem[it], a)
  {
    var m := RightWrites(mem, it, a);
    if it + mem[it + 8] == a then MergeWrites(m, it, a) else m
  }

  /** Both orders agree, except perhaps on the header of the absorbed block. */
  lemma WritesAgree(mem: Memory, it: int, a: int)
    requires HeaderPair(mem, it, a) && HeaderPair(mem, mem[it], a)
    requires mem[it] != END_NODE ==> HeaderPair(mem, it, mem[it])
    ensures AddWrites(mem, it, a).Keys == mem.Keys == SpecWrites(mem, it, a).Keys
    ensures forall x | x in mem && (it + mem[it + 8] == a ==> x != a && x != a + 8) ::
              AddWrites(mem, it, a)[x] == SpecWrites(mem, it, a)[x]
    ensures forall x | x in mem && x !in {it, it + 8, a, a + 8} :: AddWrites(mem, it, a)[x] == mem[x]
  {
  }

  lemma WritesSame(mem: Memory, it: int, a: int)
    requires HeaderPair(mem, it, a) && HeaderPair(mem, mem[it], a) && it + mem[it + 8] != a
    requires mem[it] != END_NODE ==> HeaderPair(mem, it, mem[it])
    ensures AddWrites(mem, it, a) == SpecWrites(mem, it, a)
  {
    hide AddWrites, SpecWrites;
    WritesAgree(mem, it, a);
    var p, q := AddWrites(mem, it, a), SpecWrites(mem, it, a);
    assert p.Keys == mem.Keys && q.Keys == mem.Keys;
    assert forall x | x in p :: x in mem && p[x] == q[x];
  }

  /** Which merges a release performs, read off the old layout. */
  lemma ReleaseMerges(h: Layout, a: int, k: nat)
    requires Tiled(h.blocks) && Listed(h) && LiveAt(h.blocks, a) && k == Below(h.free, a)
    requires Known(Enlisted(h, a).blocks, Enlisted(h, a).free)
    requires Known(Joined(Enlisted(h, a), k).blocks, Joined(Enlisted(h, a), k).free)
    ensures Touching(Enlisted(h, a), k) <==> k < |h.free| && a + h.blocks[a].size == h.free[k]
    ensures Touching(Joined(Enlisted(h, a), k), k - 1)
            <==> k > 0 && h.free[k - 1] + h.blocks[h.free[k - 1]].size == a
  {
    hide Tiled, Listed, Enlisted, Below;
    EnlistedAt(h, a, k, k);
    if k > 0 {
      EnlistedAt(h, a, k, k - 1);
      JoinBehind(h, a, k);
    }
  }

  /** A join behind entry k leaves entries k - 1 and k where they were. */
  lemma JoinedBefore(e: Layout, k: nat)
    requires Listed(e) && 0 < k < |e.free| && Known(e.blocks, e.free)
    ensures var j := Joined(e, k);
            && |j.free| > k && j.free[k - 1] == e.free[k - 1] && j.free[k] == e.free[k]
            && e.free[k - 1] in e.blocks && e.free[k - 1] in j.blocks
            && j.blocks[e.free[k - 1]].size == e.blocks[e.free[k - 1]].size
  {
    hide Listed, Gap, Without, Ascending;
    ListedAt(e, k - 1);
    if Touching(e, k) {
      JoinedAt(e, k, k - 1);
    }
  }

  lemma JoinBehind(h: Layout, a: int, k: nat)
    requires Listed(h) && LiveAt(h.blocks, a) && k == Below(h.free, a) && k > 0
    requires Known(Enlisted(h, a).blocks, Enlisted(h, a).free)
    ensures var e := Enlisted(h, a); var j := Joined(e, k);
            && |j.free| > k && |e.free| > k && j.free[k - 1] == e.free[k - 1] && j.free[k] == e.free[k]
            && e.free[k - 1] in e.blocks && e.free[k - 1] in j.blocks
            && j.blocks[e.free[k - 1]].size == e.blocks[e.free[k - 1]].size
  {
    hide Listed, Enlisted, Below, Gap, Joined, Known;
    EnlistedIsListed(h, a);
    EnlistedAt(h, a, k, k);
    JoinedBefore(Enlisted(h, a), k);
  }

  lemma RightWritesLinked(mem: Memory, start: int, h: Layout, a: int, k: nat, it: int)
    requires Inv(h) && Linked(mem, start, h) && LiveAt(h.blocks, a) && k == Below(h.free, a)
    requires a + 8 in mem && mem[a + 8] == h.blocks[a].size && it == Before(start, h.free, k)
    requires HeaderPair(mem, it, a) && HeaderPair(mem, mem[it], a) && mem[it] == At(h.free, k)
    requires Known(Enlisted(h, a).blocks, Enlisted(h, a).free)
    ensures Linked(RightWrites(mem, it, a), start, Joined(Enlisted(h, a), k))
  {
    hide Tiled, AllAligned, Listed, Linked;
    var e := Enlisted(h, a);
    var m := InsertWrites(mem, it, a);
    assert Tiled(e.blocks) && Listed(e) by {
      EnlistedKeeps(h, a);
    }
    assert AllAligned(e.blocks) by {
      EnlistedAligned(h, a);
    }
    assert Linked(m, start, e) by {
      EnlistedIsLinked(mem, start, h, a, k);
    }
    var merge := a + mem[a + 8] == mem[it] && mem[it] != END_NODE;
    assert merge <==> Touching(e, k) by {
      JoinedKeeps(e, k);
      ReleaseMerges(h, a, k);
      WalkStop(mem, start, h, a, k);
    }
    assert merge ==> e.free[k] == a && e.free[k + 1] == mem[it] by {
      EnlistedAt(h, a, k, k);
    }
    MaybeJoined(m, start, e, k, merge, a, mem[it]);
  }

  lemma LeftWritesLinked(mem: Memory, start: int, h: Layout, a: int, k: nat, it: int)
    requires Inv(h) && Linked(mem, start, h) && LiveAt(h.blocks, a) && k == Below(h.free, a)
    requires a + 8 in mem && mem[a + 8] == h.blocks[a].size && it == Before(start, h.free, k)
    requires HeaderPair(mem, it, a) && HeaderPair(mem, mem[it], a)
    requires Known(Enlisted(h, a).blocks, Enlisted(h, a).free)
    requires Linked(RightWrites(mem, it, a), start, Joined(Enlisted(h, a), k))
    ensures Linked(SpecWrites(mem, it, a), start, Released(h, a))
  {
    hide Tiled, AllAligned, Listed, Linked, Enlisted, Joined, Below, Gap;
    WalkStop(mem, start, h, a, k);
    var e := Enlisted(h, a);
    EnlistedKeeps(h, a);
    EnlistedAligned(h, a);
    var j := Joined(e, k);
    JoinedKeeps(e, k);
    JoinedAligned(e, k);
    ReleaseMerges(h, a, k);
    EnlistedAt(h, a, k, k);
    if k > 0 {
      EnlistedAt(h, a, k, k - 1);
      JoinBehind(h, a, k);
    }
    MaybeJoined(RightWrites(mem, it, a), start, j, k - 1, it + mem[it + 8] == a, it, a);
  }

  /** The writes of `addNodeToFreeList` release the block. */
  lemma AddWritesLinked(mem: Memory, start: int, h: Layout, a: int, k: nat, it: int)
    requires Inv(h) && Linked(mem, start, h) && LiveAt(h.blocks, a) && k == Below(h.free, a)
    requires a + 8 in mem && mem[a + 8] == h.blocks[a].size && it == Before(start, h.free, k)
    requires HeaderPair(mem, it, a) && HeaderPair(mem, mem[it], a)
    requires mem[it] != END_NODE ==> HeaderPair(mem, it, mem[it])
    ensures Linked(AddWrites(mem, it, a), start, Released(h, a))
  {
    hide Tiled, AllAligned, Listed, Linked, Enlisted, Released, Joined, Known, RightWrites, Gap;
    WalkStop(mem, start, h, a, k);
    EnlistedKeeps(h, a);
    RightWritesLinked(mem, start, h, a, k, it);
    LeftWritesLinked(mem, start, h, a, k, it);
    WritesAgree(mem, it, a);
    if it + mem[it + 8] == a {
      hide AddWrites, SpecWrites;
      ReleasedKeepsInv(h, a);
      ReleasedLeft(h, a, k);
      LinkedFrame(SpecWrites(mem, it, a), AddWrites(mem, it, a), start, Released(h, a), a, it);
    } else {
      WritesSame(mem, it, a);
    }
  }

  /** A block merged to the left ends up inside the left neighbour. */
  lemma ReleasedLeft(h: Layout, a: int, k: nat)
    requires Inv(h) && LiveAt(h.blocks, a) && k == Below(h.free, a)
    requires k > 0 && h.free[k - 1] + h.blocks[h.free[k - 1]].size == a
    ensures var b := h.free[k - 1]; var r := Released(h, a);
            b in r.blocks && b + NODE_SIZE <= a && a + NODE_SIZE <= b + r.blocks[b].size
  {
    var e := Enlisted(h, a);
    EnlistedKeeps(h, a);
    JoinedKeeps(e, k);
    ReleaseMerges(h, a, k);
    EnlistedAt(h, a, k, k - 1);
    EnlistedAt(h, a, k, k);
    assert Fits(h.free[k - 1], h.blocks[h.free[k - 1]]);
  }

  /** Writes that only touch the list head, listed headers and the header of `a` keep the
      size words of the other live blocks. */
  lemma TagsFrame(mem: Memory, m: Memory, start: int, h: Layout, a: int, it: int, raw: set<int>)
    requires Tiled(h.blocks) && AllAligned(h.blocks) && Mapped(mem, start) && Tagged(mem, h.blocks, raw)
    requires LiveAt(h.blocks, a) && (it == start || (it in h.blocks && h.blocks[it].Free?))
    requires m.Keys == mem.Keys && forall x | x in mem && x !in {it, it + 8, a, a + 8} :: m[x] == mem[x]
    ensures forall b | LiveAt(h.blocks, b) && b != a ::
              b + 8 in m && m[b + 8] == h.blocks[b].size + if b in raw then 0 else ALLOCATED_BIT
  {
    forall b | LiveAt(h.blocks, b) && b != a
      ensures b + 8 in m && m[b + 8] == h.blocks[b].size + if b in raw then 0 else ALLOCATED_BIT
    {
      HeadersApart(mem, start, h, b, a);
      if it != start {
        HeadersApart(mem, start, h, b, it);
      }
    }
  }

  /** Header words lie outside every live payload. */
  lemma HeadersOutsidePayloads(h: Layout, start: int, a: int, x: int)
    requires Tiled(h.blocks) && a in h.blocks && a + NODE_SIZE <= x < a + h.blocks[a].size
    requires start <= START_MM - NODE_SIZE || START_MM + MAX_SIZE <= start
    ensures !HeaderWord(h, start, x)
  {
    assert Fits(a, h.blocks[a]);
    forall b | b in h.blocks ensures b != x && b + 8 != x {
      assert Apart(h.blocks, a, b) && Apart(h.blocks, b, a);
    }
  }

  /** Dropping the i-th entry from the list: its predecessor leads past it. Other writes may
      touch the size words of the dropped block and of a block `n` off the list. */
  ghost predicate DropWrites(mem: Memory, m: Memory, start: int, h: Layout, i: nat, n: int)
    requires i < |h.free|
  {
    var it := Before(start, h.free, i);
    && m.Keys == mem.Keys && it in m && m[it] == At(h.free, i + 1)
    && forall x | x in mem && x != it && x != h.free[i] + 8 && x != n + 8 :: m[x] == mem[x]
  }

  /** `r` is `h` after its i-th entry left the list and maybe gave its far part to `n`. */
  ghost predicate Dropped(h: Layout, r: Layout, i: nat, n: int) {
    && i < |h.free|
    && Tiled(h.blocks) && AllAligned(h.blocks) && Listed(h)
    && Tiled(r.blocks) && AllAligned(r.blocks) && Listed(r)
    && r.free == Without(h.free, i)
    && LiveAt(r.blocks, h.free[i]) && LiveAt(r.blocks, n)
    && forall u | 0 <= u < |r.free| :: r.blocks[r.free[u]].size == h.blocks[r.free[u]].size
  }

  lemma DroppedLink(mem: Memory, m: Memory, start: int, h: Layout, r: Layout, i: nat, n: int, u: nat)
    requires Dropped(h, r, i, n) && Mapped(mem, start) && DropWrites(mem, m, start, h, i, n)
    requires u < |r.free| && LinkOk(mem, h, if u < i then u else u + 1)
    ensures LinkOk(m, r, u)
  {
    hide Tiled, AllAligned, Listed, Mapped, DropWrites, Dropped, Without, At;
    var v := if u < i then u else u + 1;
    var f := r.free[u];
    DroppedAt(h, r, i, n, u);
    HeadersApart(mem, start, r, f, h.free[i]);
    HeadersApart(mem, start, r, f, n);
    DroppedBefore(mem, m, start, h, i, n, v);
  }

  /** What is left of the list after a drop, entry by entry. */
  lemma DroppedAt(h: Layout, r: Layout, i: nat, n: int, u: nat)
    requires Dropped(h, r, i, n) && u < |r.free|
    ensures Tiled(r.blocks) && AllAligned(r.blocks) && Tiled(h.blocks) && AllAligned(h.blocks) && Listed(h)
    ensures i < |h.free| && |r.free| == |h.free| - 1 && n in r.blocks
    ensures var v := if u < i then u else u + 1;
            && r.free[u] == h.free[v] && r.free[u] in r.blocks && r.free[u] in h.blocks
            && r.blocks[r.free[u]].size == h.blocks[h.free[v]].size
            && h.free[i] in r.blocks && r.free[u] != h.free[i] && r.free[u] != n
            && At(r.free, u + 1) == if v + 1 == i then At(h.free, i + 1) else At(h.free, v + 1)
  {
    hide Tiled, AllAligned, Ascending, Without;
    WithoutAt(h.free, i, u);
    if u + 1 < |r.free| {
      WithoutAt(h.free, i, u + 1);
    }
    ListedAt(r, u);
    ListedAt(h, if u < i then u else u + 1);
  }

  lemma DroppedBefore(mem: Memory, m: Memory, start: int, h: Layout, i: nat, n: int, v: nat)
    requires Tiled(h.blocks) && AllAligned(h.blocks) && Listed(h) && Mapped(mem, start)
    requires i < |h.free| && DropWrites(mem, m, start, h, i, n)
    requires v < |h.free| && v != i && h.free[v] in mem && h.free[v] + 8 in mem
    requires h.free[v] != h.free[i] + 8 && h.free[v] != n + 8 && h.free[v] != n && h.free[v] != h.free[i]
    ensures h.free[v] in m && h.free[v] + 8 in m && m[h.free[v] + 8] == mem[h.free[v] + 8]
    ensures m[h.free[v]] == if v + 1 == i then At(h.free, i + 1) else mem[h.free[v]]
  {
    EndsFrame(mem, start, h, h.free[v]);
    if i > 0 {
      HeadersApart(mem, start, h, h.free[v], h.free[i - 1]);
    }
  }

  lemma DroppedIsLinked(mem: Memory, m: Memory, start: int, h: Layout, r: Layout, i: nat, n: int)
    requires Dropped(h, r, i, n) && Linked(mem, start, h) && DropWrites(mem, m, start, h, i, n)
    ensures Linked(m, start, r)
  {
    forall u | 0 <= u < |r.free| ensures LinkOk(m, r, u) {
      assert LinkOk(mem, h, if u < i then u else u + 1);
      DroppedLink(mem, m, start, h, r, i, n, u);
    }
    EndsFrame(mem, start, r, h.free[i]);
    EndsFrame(mem, start, r, n);
    if i > 0 {
      EndsFrame(mem, start, h, h.free[i - 1]);
    }
  }

  /** The words a release writes are header words. */
  lemma AddWritesHeaders(mem: Memory, start: int, h: Layout, a: int, k: nat, it: int)
    requires Listed(h) && a in h.blocks && k <= |h.free| && it == Before(start, h.free, k)
    requires HeaderPair(mem, it, a) && HeaderPair(mem, mem[it], a)
    requires mem[it] != END_NODE ==> HeaderPair(mem, it, mem[it])
    ensures it == start || (it in h.blocks && h.blocks[it].Free?)
    ensures forall x | x in mem && !HeaderWord(h, start, x) :: x in AddWrites(mem, it, a) && AddWrites(mem, it, a)[x] == mem[x]
  {
    hide AddWrites, SpecWrites;
    WritesAgree(mem, it, a);
    if k > 0 {
      ListedAt(h, k - 1);
    }
  }

  lemma RawSize(mem: Memory, blocks: map<int, Block>, a: int, raw: set<int>)
    requires Tagged(mem, blocks, raw) && LiveAt(blocks, a) && a in raw
    ensures a + 8 in mem && mem[a + 8] == blocks[a].size
  {
  }

  lemma ReleasedTags(m: Memory, h: Layout, r: Layout, a: int, raw: set<int>)
    requires forall b | LiveAt(r.blocks, b) :: LiveAt(h.blocks, b) && b != a && r.blocks[b] == h.blocks[b]
    requires forall b | LiveAt(h.blocks, b) && b != a ::
               b + 8 in m && m[b + 8] == h.blocks[b].size + if b in raw then 0 else ALLOCATED_BIT
    ensures Tagged(m, r.blocks, raw)
  {
  }

  /** Putting `addNodeToFreeList` together: the whole effect of its writes. */
  lemma AddNodeSound(mem: Memory, start: int, h: Layout, a: int, k: nat, it: int, raw: set<int>)
    requires Inv(h) && Linked(mem, start, h) && Tagged(mem, h.blocks, raw)
    requires LiveAt(h.blocks, a) && a in raw && k == Below(h.free, a) && it == Before(start, h.free, k)
    requires HeaderPair(mem, it, a) && HeaderPair(mem, mem[it], a)
    requires mem[it] != END_NODE ==> HeaderPair(mem, it, mem[it])
    ensures var m := AddWrites(mem, it, a); var r := Released(h, a);
            && Inv(r) && Linked(m, start, r) && Tagged(m, r.blocks, raw)
            && m.Keys == mem.Keys
            && forall x | x in mem && !HeaderWord(h, start, x) :: m[x] == mem[x]
  {
    RawSize(mem, h.blocks, a, raw);
    hide Released, AddWrites, SpecWrites, Tiled, AllAligned, Gap, Linked, Inv, Listed, Mapped, Tagged, HeaderWord;
    InvParts(h);
    MappedOf(mem, start, h);
    AddWritesLinked(mem, start, h, a, k, it);
    WritesAgree(mem, it, a);
    ReleasedKeepsInv(h, a);
    ReleasedFramesLive(h, a);
    AddWritesHeaders(mem, start, h, a, k, it);
    TagsFrame(mem, AddWrites(mem, it, a), start, h, a, it, raw);
    ReleasedTags(AddWrites(mem, it, a), h, Released(h, a), a, raw);
  }

  /** The allocated bit of a size word, set and cleared. */
  function SetBit(size: int): int {
    if size < ALLOCATED_BIT then size + ALLOCATED_BIT else size
  }

  function ClearBit(size: int): int {
    if size < ALLOCATED_BIT then size else size - ALLOCATED_BIT
  }

  /** Every payload word of a block that is live in `blocks` is the same in both memories. */
  ghost predicate PayloadsKept(mem: Memory, m: Memory, blocks: map<int, Block>) {
    forall a, x {:trigger LiveAt(blocks, a), x in m} |
      LiveAt(blocks, a) && a + NODE_SIZE <= x < a + blocks[a].size && x in mem ::
      x in m && m[x] == mem[x]
  }

  lemma HeaderWritesKeepPayloads(mem: Memory, m: Memory, start: int, h: Layout, blocks: map<int, Block>)
    requires Tiled(h.blocks) && Mapped(mem, start) && m.Keys == mem.Keys
    requires forall x | x in mem && !HeaderWord(h, start, x) :: m[x] == mem[x]
    requires forall a | LiveAt(blocks, a) :: a in h.blocks && h.blocks[a].size == blocks[a].size
    ensures PayloadsKept(mem, m, blocks)
  {
    forall a, x | LiveAt(blocks, a) && a + NODE_SIZE <= x < a + blocks[a].size && x in mem
      ensures x in m && m[x] == mem[x]
    {
      HeadersOutsidePayloads(h, start, a, x);
    }
  }

  /** What a walk reads at list position i; a null link and size 0 mark the sentinel. */
  lemma HeaderAt(mem: Memory, start: int, h: Layout, i: nat)
    requires Tiled(h.blocks) && Listed(h) && Linked(mem, start, h) && i <= |h.free|
    ensures var c := At(h.free, i);
            && c in mem && c + 8 in mem
            && (mem[c] == 0 <==> i == |h.free|)
            && (c == END_NODE <==> i == |h.free|)
            && mem[c + 8] == (if i < |h.free| then h.blocks[c].size else 0)
            && (i < |h.free| ==> mem[c] == At(h.free, i + 1))
  {
    if i < |h.free| {
      assert LinkOk(mem, h, i);
      assert Fits(h.free[i], h.blocks[h.free[i]]);
      if i + 1 < |h.free| {
        assert Fits(h.free[i + 1], h.blocks[h.free[i + 1]]);
      }
    }
  }

  /** The writes of a drop leave the size words of other live blocks alone. */
  lemma DropKeepsSize(mem: Memory, m: Memory, start: int, h: Layout, i: nat, n: int, b: int)
    requires Tiled(h.blocks) && AllAligned(h.blocks) && Listed(h) && Mapped(mem, start)
    requires i < |h.free| && DropWrites(mem, m, start, h, i, n) && LiveAt(h.blocks, b) && b != n
    ensures b + 8 in m && m[b + 8] == mem[b + 8]
  {
    hide Tiled, AllAligned, Mapped, Listed;
    ListedAt(h, i);
    if i > 0 {
      ListedAt(h, i - 1);
      HeadersApart(mem, start, h, b, h.free[i - 1]);
    }
    EndsFrame(mem, start, h, b);
  }

  lemma DroppedParts(h: Layout, r: Layout, i: nat, n: int)
    requires Dropped(h, r, i, n)
    ensures i < |h.free| && Tiled(h.blocks) && AllAligned(h.blocks) && Listed(h)
    ensures r.free == Without(h.free, i) && Known(r.blocks, r.free) && LiveAt(r.blocks, h.free[i]) && LiveAt(r.blocks, n)
  {
  }

  /** The writes of a drop touch header words only, and leave untagged only the size words of
      the dropped block and of `n`. */
  lemma DroppedTags(mem: Memory, m: Memory, start: int, h: Layout, r: Layout, i: nat, n: int)
    requires Dropped(h, r, i, n) && Mapped(mem, start) && DropWrites(mem, m, start, h, i, n)
    requires Tagged(mem, h.blocks, {})
    requires forall b | LiveAt(r.blocks, b) && b != h.free[i] && b != n :: LiveAt(h.blocks, b) && r.blocks[b] == h.blocks[b]
    requires h.free[i] + 8 in m && m[h.free[i] + 8] == r.blocks[h.free[i]].size
    requires n + 8 in m && m[n + 8] == r.blocks[n].size
    ensures Tagged(m, r.blocks, {h.free[i], n})
  {
    hide Dropped, DropWrites, Mapped;
    DroppedParts(h, r, i, n);
    hide Tiled, AllAligned, Listed, Without;
    forall b | LiveAt(r.blocks, b)
      ensures b + 8 in m && m[b + 8] == r.blocks[b].size + if b in {h.free[i], n} then 0 else ALLOCATED_BIT
    {
      if b != h.free[i] && b != n {
        assert LiveAt(h.blocks, b);
        DropKeepsSize(mem, m, start, h, i, n, b);
      }
    }
  }

  lemma DroppedWords(mem: Memory, m: Memory, start: int, h: Layout, r: Layout, i: nat, n: int)
    requires Dropped(h, r, i, n) && DropWrites(mem, m, start, h, i, n)
    ensures forall x | x in mem && !HeaderWord(r, start, x) :: m[x] == mem[x]
  {
    hide Dropped;
    DroppedParts(h, r, i, n);
    hide Tiled, AllAligned, Listed;
    if i > 0 {
      assert r.free[i - 1] == h.free[i - 1];
      assert h.free[i - 1] in r.blocks;
    }
  }

  /** Unlinking a block whole leaves a sound heap in which only its size word is untagged. */
  lemma UnlinkWhole(mem: Memory, m: Memory, start: int, h: Layout, i: nat, wanted: int)
    requires Inv(h) && Linked(mem, start, h) && Tagged(mem, h.blocks, {}) && i < |h.free|
    requires 0 < wanted <= h.blocks[h.free[i]].size - NODE_SIZE && h.free[i] in mem
    requires m == mem[Before(start, h.free, i) := mem[h.free[i]]]
    ensures var r := TakenWhole(h, i, wanted);
            && Inv(r) && Linked(m, start, r) && Tagged(m, r.blocks, {h.free[i]})
            && m.Keys == mem.Keys && (forall x | x in mem && !HeaderWord(r, start, x) :: m[x] == mem[x])
  {
    hide Tiled, AllAligned, Listed, Linked, Tagged, Dropped, Gap;
    var a := h.free[i];
    ListedAt(h, i);
    var r := TakenWhole(h, i, wanted);
    MappedOf(mem, start, h);
    TakenWholeKeepsInv(h, i, wanted);
    UnlinkWrites(mem, start, h, i);
    TakenWholeDropped(h, i, wanted);
    DroppedIsLinked(mem, m, start, h, r, i, a);
    DroppedTags(mem, m, start, h, r, i, a);
    DroppedWords(mem, m, start, h, r, i, a);
    assert {a, a} == {a};
  }

  lemma TakenWholeDropped(h: Layout, i: nat, wanted: int)
    requires Inv(h) && i < |h.free| && Inv(TakenWhole(h, i, wanted))
    ensures Dropped(h, TakenWhole(h, i, wanted), i, h.free[i])
  {
    WithoutAscending(h.free, i);
  }

  lemma CutDropped(h: Layout, i: nat, w: int, wanted: int)
    requires Inv(h) && i < |h.free| && Inv(Cut(h, i, w, wanted)) && h.free[i] + w !in h.blocks
    ensures Dropped(h, Cut(h, i, w, wanted), i, h.free[i] + w)
  {
    WithoutAscending(h.free, i);
  }

  /** The unlinking write, and that it leaves the size words of block i and beyond alone. */
  lemma UnlinkWrites(mem: Memory, start: int, h: Layout, i: nat)
    requires Tiled(h.blocks) && AllAligned(h.blocks) && Listed(h) && Linked(mem, start, h) && i < |h.free|
    ensures var it := Before(start, h.free, i); var a := h.free[i];
            && it in mem && a in mem && a + 8 in mem && it != a + 8
            && mem[a] == At(h.free, i + 1) && mem[a + 8] == h.blocks[a].size
  {
    assert LinkOk(mem, h, i);
    EndsFrame(mem, start, h, h.free[i]);
    if i > 0 {
      HeadersApart(mem, start, h, h.free[i - 1], h.free[i]);
    }
  }

  /** The three writes of a cut are a drop, and store both new sizes. */
  lemma CutWrites(mem: Memory, m: Memory, start: int, h: Layout, i: nat, w: int, wanted: int)
    requires Tiled(h.blocks) && AllAligned(h.blocks) && Listed(h) && Linked(mem, start, h)
    requires i < |h.free| && 0 < w < h.blocks[h.free[i]].size && h.free[i] in mem
    requires Tiled(Cut(h, i, w, wanted).blocks) && AllAligned(Cut(h, i, w, wanted).blocks)
    requires var a := h.free[i];
             m == mem[Before(start, h.free, i) := mem[a]][a + w + 8 := h.blocks[a].size - w][a + 8 := w]
    ensures DropWrites(mem, m, start, h, i, h.free[i] + w)
    ensures h.free[i] + 8 in m && m[h.free[i] + 8] == w
    ensures h.free[i] + w + 8 in m && m[h.free[i] + w + 8] == h.blocks[h.free[i]].size - w
  {
    hide Tiled, AllAligned, Listed, Linked, Mapped;
    ListedAt(h, i);
    var a := h.free[i];
    var r := Cut(h, i, w, wanted);
    var it := Before(start, h.free, i);
    MappedOf(mem, start, h);
    UnlinkWrites(mem, start, h, i);
    HeadersApart(mem, start, r, a, a + w);
    EndsFrame(mem, start, r, a + w);
    if i > 0 {
      ListedAt(h, i - 1);
      InOrder(h.free, i - 1, i);
      HeadersApart(mem, start, r, a + w, h.free[i - 1]);
    }
    ThreeWrites(mem, it, mem[a], a + w + 8, h.blocks[a].size - w, a + 8, w);
  }

  lemma ThreeWrites(mem: Memory, x: int, p: int, y: int, q: int, z: int, r: int)
    requires x in mem && y in mem && z in mem && x != y && y != z && x != z
    ensures var m := mem[x := p][y := q][z := r];
            && m.Keys == mem.Keys && m[x] == p && m[y] == q && m[z] == r
            && forall u | u in mem && u != x && u != y && u != z :: m[u] == mem[u]
  {
  }

  /** Cutting a block in two, both off the list, leaves a sound heap in which only their size
      words are untagged. */
  lemma UnlinkCut(mem: Memory, m: Memory, start: int, h: Layout, i: nat, w: int, wanted: int)
    requires Inv(h) && Linked(mem, start, h) && Tagged(mem, h.blocks, {}) && i < |h.free| && h.free[i] in h.blocks
    requires h.blocks[h.free[i]].size - w > MINIMUM_BLOCK_SIZE && w % BYTE_ALIGNMENT == 0
    requires 0 < wanted <= w - NODE_SIZE && h.free[i] in mem
    requires var a := h.free[i];
             m == mem[Before(start, h.free, i) := mem[a]][a + w + 8 := h.blocks[a].size - w][a + 8 := w]
    ensures var r := Cut(h, i, w, wanted); var a := h.free[i];
            && Inv(r) && Linked(m, start, r) && Tagged(m, r.blocks, {a, a + w})
            && m.Keys == mem.Keys && (forall x | x in mem && !HeaderWord(r, start, x) :: m[x] == mem[x])
  {
    hide Tiled, AllAligned, Listed, Linked, Tagged, Dropped, DropWrites;
    var n := h.free[i] + w;
    var r := Cut(h, i, w, wanted);
    CutKeepsInv(h, i, w, wanted);
    CutWrites(mem, m, start, h, i, w, wanted);
    CutDropped(h, i, w, wanted);
    DroppedIsLinked(mem, m, start, h, r, i, n);
    MappedOf(mem, start, h);
    DroppedTags(mem, m, start, h, r, i, n);
    DroppedWords(mem, m, start, h, r, i, n);
    DroppedKeys(mem, m, start, h, i, n);
  }

  lemma MappedOf(mem: Memory, start: int, h: Layout)
    requires Linked(mem, start, h)
    ensures Mapped(mem, start)
  {
  }

  lemma DroppedKeys(mem: Memory, m: Memory, start: int, h: Layout, i: nat, n: int)
    requires i < |h.free| && DropWrites(mem, m, start, h, i, n)
    ensures m.Keys == mem.Keys
  {
  }

  lemma ListedBlock(h: Layout, i: nat)
    requires Tiled(h.blocks) && Listed(h) && i < |h.free|
    ensures h.free[i] in h.blocks && h.blocks[h.free[i]].Free? && START_MM <= h.free[i]
  {
    assert Fits(h.free[i], h.blocks[h.free[i]]);
  }

  /** Unlinking a free block leaves the sizes of the live ones alone. */
  lemma UnlinkFramesLive(h: Layout, i: nat, w: int, wanted: int)
    requires Tiled(h.blocks) && Listed(h) && i < |h.free|
    ensures forall a | LiveAt(h.blocks, a) ::
              && a in TakenWhole(h, i, wanted).blocks && TakenWhole(h, i, wanted).blocks[a] == h.blocks[a]
              && (0 < w < h.blocks[h.free[i]].size ==>
                    a in Cut(h, i, w, wanted).blocks && Cut(h, i, w, wanted).blocks[a] == h.blocks[a])
    ensures 0 < w < h.blocks[h.free[i]].size ==>
              h.free[i] + w !in h.blocks && LiveAt(Cut(h, i, w, wanted).blocks, h.free[i] + w)
  {
    forall a | a in h.blocks ensures a <= h.free[i] || h.free[i] + h.blocks[h.free[i]].size <= a {
      assert Apart(h.blocks, h.free[i], a);
    }
  }

  /** What carving makes of the chosen block and of its far part. */
  lemma CarvedBlock(h: Layout, i: nat, w: int, wanted: int)
    requires Tiled(h.blocks) && Listed(h) && i < |h.free| && 0 < w <= h.blocks[h.free[i]].size
    ensures var r := Carve(h, i, w, wanted); var a := h.free[i];
            && LiveAt(r.blocks, a)
            && (h.blocks[a].size - w > MINIMUM_BLOCK_SIZE ==> !LiveAt(r.blocks, a + w))
            && r == (if h.blocks[a].size - w > MINIMUM_BLOCK_SIZE then TakenFront(h, i, w, wanted)
                     else TakenWhole(h, i, wanted))
  {
  }

  /** Tagging the last untagged live block leaves a sound heap. */
  lemma MarkAllocated(mem: Memory, start: int, h: Layout, a: int, raw: set<int>)
    requires Inv(h) && Linked(mem, start, h) && Tagged(mem, h.blocks, raw) && LiveAt(h.blocks, a) && a in raw
    requires forall b | LiveAt(h.blocks, b) && b in raw :: b == a
    ensures a in mem && a + 8 in mem && mem[a + 8] == h.blocks[a].size
    ensures var m := mem[a + 8 := SetBit(mem[a + 8])][a := 0];
            Linked(m, start, h) && Tagged(m, h.blocks, {})
  {
    var m := mem[a + 8 := SetBit(mem[a + 8])][a := 0];
    assert Fits(a, h.blocks[a]);
    HeadersApart(mem, start, h, a, a);
    forall i | 0 <= i < |h.free| ensures LinkOk(m, h, i) {
      assert LinkOk(mem, h, i);
      HeadersApart(mem, start, h, h.free[i], a);
    }
    forall b | LiveAt(h.blocks, b) ensures b + 8 in m && m[b + 8] == h.blocks[b].size + ALLOCATED_BIT {
      HeadersApart(mem, start, h, b, a);
    }
  }

  lemma PayloadsStayKept(m0: Memory, m1: Memory, m2: Memory, b0: map<int, Block>, b1: map<int, Block>)
    requires PayloadsKept(m0, m1, b0) && PayloadsKept(m1, m2, b1)
    requires forall a | LiveAt(b0, a) :: LiveAt(b1, a) && b1[a] == b0[a]
    ensures PayloadsKept(m0, m2, b0)
  {
    forall a, x | LiveAt(b0, a) && a + NODE_SIZE <= x < a + b0[a].size && x in m0 ensures x in m2 && m2[x] == m0[x] {
      assert x in m1 && LiveAt(b1, a);
    }
  }

  /** The headers that initialisation writes: the list head's, the sentinel's and the one of
      the first block. */
  function InitWrites(mem: Memory, start: int): Memory {
    mem[start := START_MM][start + 8 := 0][END_NODE + 8 := 0][END_NODE := 0]
       [START_MM + 8 := END_NODE - START_MM][START_MM := END_NODE]
  }

  lemma InitWritesAre(mem: Memory, start: int)
    ensures InitWrites(mem, start) == mem[start := START_MM][start + 8 := 0][END_NODE + 8 := 0][END_NODE := 0]
                                         [START_MM + 8 := END_NODE - START_MM][START_MM := END_NODE]
    ensures InitWrites(mem, start)[START_MM + 8] == END_NODE - START_MM
  {
  }

  lemma InitWritesLinked(mem: Memory, start: int)
    requires Mapped(mem, start)
    ensures var m := InitWrites(mem, start); var h := InitialLayout();
            && m.Keys == mem.Keys && Mapped(m, start) && Linked(m, start, h) && Tagged(m, h.blocks, {})
            && forall x | x in mem && !HeaderWord(h, start, x) && x != END_NODE && x != END_NODE + 8 :: m[x] == mem[x]
  {
    assert WordAddress(END_NODE) && WordAddress(END_NODE + 8) && WordAddress(START_MM) && WordAddress(START_MM + 8);
    assert LinkOk(InitWrites(mem, start), InitialLayout(), 0);
  }

  // --------------------------------------------------------------- the allocator

  class MemoryManager {
    /** Address of the static list head. */
    const startNode: int
    var mem: Memory
    /** 0 stands for NULL: the arena is set up by the first allocation. */
    var endNode: int
    var freeBytesRemaining: int
    ghost var layout: Layout

    ghost predicate Valid()
      reads this
    {
      && Mapped(mem, startNode)
      && (endNode == 0 || endNode == END_NODE)
      && (endNode == 0 ==> layout == InitialLayout() && freeBytesRemaining == 0)
      && (endNode == END_NODE ==> Ready({}) && freeBytesRemaining == FreeBytes(layout.blocks, layout.free))
    }

    ghost predicate Ready(raw: set<int>)
      reads this
    {
      && endNode == END_NODE
      && Inv(layout)
      && Linked(mem, startNode, layout)
      && Tagged(mem, layout.blocks, raw)
    }

    constructor (start: int, memory: Memory)
      requires Mapped(memory, start)
      ensures Valid() && layout == InitialLayout() && startNode == start && mem == memory
    {
      startNode := start;
      mem := memory;
      endNode := 0;
      freeBytesRemaining := 0;
      layout := InitialLayout();
    }

    method ListInit()
      requires Valid() && endNode == 0
      modifies this`mem, this`endNode, this`freeBytesRemaining
      ensures Valid() && endNode == END_NODE
      ensures mem.Keys == old(mem.Keys)
      ensures forall x | x in mem && !HeaderWord(layout, startNode, x) && x != END_NODE && x != END_NODE + 8 ::
                mem[x] == old(mem[x])
    {
      // START_MM is a multiple of the alignment, so no adjustment of the start is needed
      var alignedHeap := START_MM;
      var auxAddress := alignedHeap + MAX_SIZE - NODE_SIZE;
      auxAddress := auxAddress - auxAddress % BYTE_ALIGNMENT;
      hide Linked, Tagged, Inv, Mapped, InitWrites, HeaderWord, InitialLayout, LiveAt, Known, FreeBytes;
      assert auxAddress == END_NODE;
      InitialIsInv();
      InitWritesLinked(mem, startNode);
      InitWritesAre(mem, startNode);
      mem := mem[startNode := alignedHeap][startNode + 8 := 0];
      endNode := auxAddress;
      mem := mem[endNode + 8 := 0][endNode := 0];
      mem := mem[alignedHeap + 8 := auxAddress - alignedHeap][alignedHeap := endNode];
      freeBytesRemaining := mem[alignedHeap + 8];
    }

    /** Lists block `toAdd` in address order and merges it with its free neighbours. */
    method AddNodeToFreeList(toAdd: int, ghost raw: set<int>)
      requires Ready(raw) && LiveAt(layout.blocks, toAdd) && toAdd in raw
      modifies this`mem, this`layout
      ensures layout == Released(old(layout), toAdd)
      ensures Ready(raw)
      ensures mem.Keys == old(mem.Keys)
      ensures forall x | x in mem && !HeaderWord(old(layout), startNode, x) :: mem[x] == old(mem[x])
    {
      hide Tiled, Listed, AllAligned, Linked, Tagged, Released, Enlisted, Joined, Gap, Mapped;
      var cursor := startNode;
      ghost var k := 0;
      ghost var before, h := mem, layout;
      WalkStop(before, startNode, h, toAdd, k);
      while mem[cursor] < toAdd
        invariant mem == before && layout == h
        invariant 0 <= k <= |h.free| && cursor == Before(startNode, h.free, k)
        invariant HeaderPair(mem, cursor, toAdd) && mem[cursor] == At(h.free, k)
        invariant HeaderPair(mem, mem[cursor], toAdd) && (mem[cursor] == END_NODE <==> k == |h.free|)
        invariant mem[cursor] != END_NODE ==> HeaderPair(mem, cursor, mem[cursor])
        invariant k > 0 ==> h.free[k - 1] < toAdd
        decreases |h.free| - k
      {
        cursor := mem[cursor];
        k := k + 1;
        WalkStop(before, startNode, h, toAdd, k);
      }
      WalkIsOver(h, toAdd, k);
      LinkNode(cursor, toAdd);
      AddNodeSound(before, startNode, h, toAdd, k, cursor, raw);
      layout := Released(h, toAdd);
    }

    /** The merging and linking writes of `addNodeToFreeList`. */
    method LinkNode(cursor: int, toAdd: int)
      requires HeaderPair(mem, cursor, toAdd) && HeaderPair(mem, mem[cursor], toAdd) && endNode == END_NODE
      requires mem[cursor] != END_NODE ==> HeaderPair(mem, cursor, mem[cursor])
      modifies this`mem
      ensures mem == AddWrites(old(mem), cursor, toAdd)
    {
      var node := toAdd;
      // merge with the previous block if adjacent
      if cursor + mem[cursor + 8] == node {
        mem := mem[cursor + 8 := mem[cursor + 8] + mem[node + 8]];
        node := cursor;
      }
      // merge with the next block if adjacent
      if node + mem[node + 8] == mem[cursor] {
        if mem[cursor] != endNode {
          mem := mem[node + 8 := mem[node + 8] + mem[mem[cursor] + 8]];
          mem := mem[node := mem[mem[cursor]]];
        } else {
          mem := mem[node := endNode];
        }
      } else {
        mem := mem[node := mem[cursor]];
      }
      if cursor != node {
        mem := mem[cursor := node];
      }
    }

    /** First fit: NULL, or the payload of the lowest free block that is large enough. */
    method Alloc(wanted: int) returns (toReturn: int)
      requires Valid() && 0 <= wanted < WORD
      modifies this`mem, this`endNode, this`layout, this`freeBytesRemaining
      ensures Valid() && endNode == END_NODE
      ensures (layout, toReturn) == Allocated(old(layout), wanted)
      ensures PayloadsKept(old(mem), mem, old(layout).blocks)
    {
      hide Tiled, AllAligned, Listed, Linked, Tagged, Carve, Rounded;
      if endNode == 0 {
        ListInit();
      }
      ghost var h := layout;
      var wantedSize := AdjustSize(wanted);
      RoundedMeaning(wanted);
      if wantedSize == 0 || wantedSize > freeBytesRemaining {
        if wantedSize != 0 {
          EarlyExitIsExact(h, wanted);
        }
        return 0;
      }
      var prevNode, cursor, i := FindFit(wantedSize);
      toReturn := 0;
      HeaderAt(mem, startNode, h, i);
      if cursor != endNode {
        ListedBlock(h, i);
        toReturn := cursor + NODE_SIZE;
        ghost var m := mem;
        ghost var raw := TakeBlock(prevNode, cursor, wantedSize, wanted, i);
        CarveKeepsInv(h, i, wantedSize, wanted);
        GrantFramesLive(h, wanted);
        PayloadsStayKept(old(mem), m, mem, old(layout).blocks, h.blocks);
        ghost var m' := mem;
        MarkBlock(cursor, raw);
        PayloadsStayKept(old(mem), m', mem, old(layout).blocks, layout.blocks);
      }
    }

    /** Adjust a size for alignment and node overhead, as `alloc` does first. */
    static method AdjustSize(wanted: int) returns (wantedSize: int)
      requires 0 <= wanted < WORD
      ensures wantedSize == Rounded(wanted)
    {
      wantedSize := wanted;
      if wantedSize > 0 && (wantedSize + NODE_SIZE) % WORD > wantedSize {
        wantedSize := (wantedSize + NODE_SIZE) % WORD;
        if wantedSize % BYTE_ALIGNMENT != 0 {
          wantedSize := (wantedSize + (BYTE_ALIGNMENT - wantedSize % BYTE_ALIGNMENT)) % WORD;
        }
      } else {
        wantedSize := 0;
      }
    }

    /** The search loop of `alloc`. */
    method FindFit(wantedSize: int) returns (prevNode: int, cursor: int, ghost i: nat)
      requires Ready({}) && 0 < wantedSize
      ensures i == FirstFit(layout, wantedSize, 0)
      ensures prevNode == Before(startNode, layout.free, i) && cursor == At(layout.free, i)
    {
      prevNode := startNode;
      cursor := mem[startNode];
      i := 0;
      HeaderAt(mem, startNode, layout, i);
      while mem[cursor + 8] < wantedSize && mem[cursor] != 0
        invariant i <= |layout.free|
        invariant prevNode == Before(startNode, layout.free, i) && cursor == At(layout.free, i)
        invariant cursor in mem && cursor + 8 in mem && (mem[cursor] == 0 <==> i == |layout.free|)
        invariant mem[cursor + 8] == if i < |layout.free| then layout.blocks[layout.free[i]].size else 0
        invariant FirstFit(layout, wantedSize, 0) == FirstFit(layout, wantedSize, i)
        decreases |layout.free| - i
      {
        HeaderAt(mem, startNode, layout, i);
        prevNode := cursor;
        cursor := mem[cursor];
        i := i + 1;
        HeaderAt(mem, startNode, layout, i);
      }
    }

    /** Unlink the chosen block, and split it if it is larger than needed. */
    method TakeBlock(prevNode: int, cursor: int, wantedSize: int, wanted: int, ghost i: nat)
      returns (ghost raw: set<int>)
      requires Ready({}) && i < |layout.free| && layout.free[i] in layout.blocks
      requires prevNode == Before(startNode, layout.free, i) && cursor == layout.free[i]
      requires 0 < wanted <= wantedSize - NODE_SIZE && wantedSize % BYTE_ALIGNMENT == 0
      requires wantedSize <= layout.blocks[cursor].size
      modifies this`mem, this`layout
      ensures layout == Carve(old(layout), i, wantedSize, wanted)
      ensures Ready(raw) && LiveAt(layout.blocks, cursor) && cursor in raw
      ensures forall b | LiveAt(layout.blocks, b) && b in raw :: b == cursor
      ensures mem.Keys == old(mem.Keys)
      ensures PayloadsKept(old(mem), mem, old(layout).blocks)
    {
      hide Tiled, AllAligned, Listed, Linked, Tagged, Cut, TakenFront, TakenWhole, Released;
      ghost var h := layout;
      HeaderAt(mem, startNode, h, i);
      MappedOf(mem, startNode, h);
      CarvedBlock(h, i, wantedSize, wanted);
      UnlinkWrites(mem, startNode, h, i);
      UnlinkFramesLive(h, i, wantedSize, wanted);
      mem := mem[prevNode := mem[cursor]];
      // split the block if it is larger than needed
      if mem[cursor + 8] - wantedSize > MINIMUM_BLOCK_SIZE {
        var newNode := cursor + wantedSize;
        mem := mem[newNode + 8 := mem[cursor + 8] - wantedSize];
        mem := mem[cursor + 8 := wantedSize];
        UnlinkCut(old(mem), mem, startNode, h, i, wantedSize, wanted);
        layout := Cut(h, i, wantedSize, wanted);
        raw := {cursor, newNode};
        AddNodeToFreeList(newNode, raw);
        CutThenReleased(h, i, wantedSize, wanted);
        HeaderWritesKeepPayloads(old(mem), mem, startNode, Cut(h, i, wantedSize, wanted), h.blocks);
      } else {
        raw := {cursor};
        UnlinkWhole(old(mem), mem, startNode, h, i, wanted);
        layout := TakenWhole(h, i, wanted);
        HeaderWritesKeepPayloads(old(mem), mem, startNode, layout, h.blocks);
      }
    }

    /** Charge the block to the running total and mark it allocated. */
    method MarkBlock(cursor: int, ghost raw: set<int>)
      requires Ready(raw) && LiveAt(layout.blocks, cursor) && cursor in raw
      requires forall b | LiveAt(layout.blocks, b) && b in raw :: b == cursor
      requires freeBytesRemaining == FreeBytes(layout.blocks, layout.free) + layout.blocks[cursor].size
      modifies this`mem, this`freeBytesRemaining
      ensures Valid() && endNode == END_NODE && mem.Keys == old(mem.Keys)
      ensures PayloadsKept(old(mem), mem, layout.blocks)
    {
      hide Tiled, AllAligned, Listed, Linked, Tagged;
      MarkAllocated(mem, startNode, layout, cursor, raw);
      freeBytesRemaining := freeBytesRemaining - mem[cursor + 8];
      mem := mem[cursor + 8 := SetBit(mem[cursor + 8])];
      mem := mem[cursor := 0];
      MappedOf(old(mem), startNode, layout);
      HeaderWritesKeepPayloads(old(mem), mem, startNode, layout, layout.blocks);
    }

    method Free(ptr: int)
      requires Valid() && (ptr == 0 || (endNode == END_NODE && IsLive(layout, ptr)))
      modifies this`mem, this`layout, this`freeBytesRemaining
      ensures Valid()
      ensures layout == if ptr == 0 then old(layout) else Released(old(layout), ptr - NODE_SIZE)
      ensures PayloadsKept(old(mem), mem, layout.blocks)
    {
      hide Tiled, Listed, AllAligned, Linked, Released, Gap;
      if ptr == 0 {
        return;
      }
      var node := ptr - NODE_SIZE;
      ghost var h := layout;
      assert LiveAt(h.blocks, node);
      MappedOf(mem, startNode, h);
      HeadersApart(mem, startNode, h, node, node);
      mem := mem[node + 8 := ClearBit(mem[node + 8])];
      FreeTags(old(mem), mem, startNode, h, node);
      freeBytesRemaining := freeBytesRemaining + mem[node + 8];
      AddNodeToFreeList(node, {node});
      ReleasedKeepsInv(h, node);
      ReleasedFramesLive(h, node);
      MappedOf(mem, startNode, layout);
      HeaderWritesKeepPayloads(old(mem), mem, startNode, h, layout.blocks);
    }

    /** A caller writes a word of its own payload: nothing the allocator relies on changes. */
    method Store(ptr: int, offset: int, value: int)
      requires Valid() && endNode == END_NODE && IsLive(layout, ptr)
      requires 0 <= offset < layout.blocks[ptr - NODE_SIZE].size - NODE_SIZE && ptr + offset in mem
      modifies this`mem
      ensures Valid() && mem == old(mem)[ptr + offset := value]
    {
      var x := ptr + offset;
      HeadersOutsidePayloads(layout, startNode, ptr - NODE_SIZE, x);
      mem := mem[x := value];
      StoreIsHarmless(old(mem), startNode, layout, x, value);
    }
  }

  lemma StoreIsHarmless(mem: Memory, start: int, h: Layout, x: int, value: int)
    requires Inv(h) && Linked(mem, start, h) && Tagged(mem, h.blocks, {})
    requires x in mem && !HeaderWord(h, start, x) && x < END_NODE && x >= START_MM
    ensures Linked(mem[x := value], start, h) && Tagged(mem[x := value], h.blocks, {})
  {
    var m := mem[x := value];
    forall i | 0 <= i < |h.free| ensures LinkOk(m, h, i) {
      assert LinkOk(mem, h, i);
    }
  }

  lemma FreeTags(mem: Memory, m: Memory, start: int, h: Layout, a: int)
    requires Inv(h) && Linked(mem, start, h) && Tagged(mem, h.blocks, {}) && LiveAt(h.blocks, a)
    requires m == mem[a + 8 := ClearBit(mem[a + 8])]
    ensures m[a + 8] == h.blocks[a].size
    ensures Linked(m, start, h) && Tagged(m, h.blocks, {a})
  {
    assert Fits(a, h.blocks[a]);
    HeadersApart(mem, start, h, a, a);
    forall i | 0 <= i < |h.free| ensures LinkOk(m, h, i) {
      assert LinkOk(mem, h, i);
      HeadersApart(mem, start, h, h.free[i], a);
    }
    forall b | LiveAt(h.blocks, b)
      ensures b + 8 in m && m[b + 8] == h.blocks[b].size + if b in {a} then 0 else ALLOCATED_BIT
    {
      HeadersApart(mem, start, h, a, b);
    }
  }
}