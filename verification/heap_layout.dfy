// The default kernel heap as a set of blocks over one arena: the invariant of its free
// list, what allocation and release do to it, and what every run keeps.
module HeapLayout {

  // ---------------------------------------------------------------- constants

  const START_MM := 0x900000
  const MAX_SIZE := 0x4000000
  const BYTE_ALIGNMENT := 8
  const NODE_SIZE := 16
  const MINIMUM_BLOCK_SIZE := 32
  const WORD := 0x1_0000_0000_0000_0000
  const ALLOCATED_BIT := 0x8000_0000_0000_0000

  /** Address of the sentinel header at the top of the arena. */
  const END_NODE := START_MM + MAX_SIZE - NODE_SIZE

  // -------------------------------------------------------- ascending sequences

  ghost predicate Ascending(s: seq<int>) {
    forall i, j | 0 <= i < j < |s| :: s[i] < s[j]
  }

  function Inserted(s: seq<int>, k: nat, x: int): (r: seq<int>)
    requires k <= |s|
    ensures |r| == |s| + 1
  {
    s[..k] + [x] + s[k..]
  }

  function Without(s: seq<int>, k: nat): (r: seq<int>)
    requires k < |s|
    ensures |r| == |s| - 1
  {
    s[..k] + s[k + 1..]
  }

  /** Number of leading elements below `x`. */
  function Below(s: seq<int>, x: int): (k: nat)
    ensures k <= |s|
    ensures forall j | 0 <= j < k :: s[j] < x
    ensures k < |s| ==> s[k] >= x
  {
    if s == [] || s[0] >= x then 0 else 1 + Below(s[1..], x)
  }

  lemma {:induction false} BelowIs(s: seq<int>, x: int, k: nat)
    requires Ascending(s) && k <= |s|
    requires k > 0 ==> s[k - 1] < x
    requires k < |s| ==> s[k] >= x
    ensures Below(s, x) == k
  {
    if k > 0 {
      assert s[0] <= s[k - 1];
      BelowIs(s[1..], x, k - 1);
    }
  }

  lemma InsertedAscending(s: seq<int>, k: nat, x: int)
    requires Ascending(s) && k <= |s|
    requires forall j | 0 <= j < k :: s[j] < x
    requires forall j | k <= j < |s| :: x < s[j]
    ensures Ascending(Inserted(s, k, x))
  {
    var r := Inserted(s, k, x);
    assert r[k] == x;
    assert forall j | 0 <= j < k :: r[j] == s[j];
    assert forall j | k < j < |r| :: r[j] == s[j - 1];
  }

  lemma InsertedMembers(s: seq<int>, k: nat, x: int)
    requires k <= |s|
    ensures forall y :: y in Inserted(s, k, x) <==> y == x || y in s
  {
    assert s == s[..k] + s[k..];
  }

  lemma WithoutAt(s: seq<int>, k: nat, i: nat)
    requires k < |s| && i < |s| - 1
    ensures Without(s, k)[i] == s[if i < k then i else i + 1]
  {
  }

  lemma InsertedAt(s: seq<int>, k: nat, x: int, i: nat)
    requires k <= |s| && i <= |s|
    ensures Inserted(s, k, x)[i] == if i < k then s[i] else if i == k then x else s[i - 1]
  {
  }

  lemma InOrder(s: seq<int>, i: nat, j: nat)
    requires Ascending(s) && i <= j < |s|
    ensures s[i] <= s[j] && (i < j ==> s[i] < s[j])
  {
  }

  lemma WithoutAscending(s: seq<int>, k: nat)
    requires Ascending(s) && k < |s|
    ensures Ascending(Without(s, k))
    ensures forall y :: y in Without(s, k) <==> y in s && y != s[k]
  {
    var r := Without(s, k);
    assert s == s[..k] + [s[k]] + s[k + 1..];
    assert forall j | 0 <= j < k :: s[j] < s[k];
    assert forall j | k < j < |s| :: s[k] < s[j];
  }

  // ---------------------------------------------------- abstract heap layout

  /** A live block remembers, for specification only, the size its caller asked for. */
  datatype Block = Free(size: int) | Live(size: int, wanted: int)

  /** The blocks of the arena by start address, and the free ones in list order. */
  datatype Layout = Layout(blocks: map<int, Block>, free: seq<int>)

  function InitialLayout(): Layout {
    Layout(map[START_MM := Free(END_NODE - START_MM)], [START_MM])
  }

  predicate Fits(a: int, b: Block) {
    && START_MM <= a && NODE_SIZE < b.size && a + b.size <= END_NODE
    && (b.Live? ==> 0 < b.wanted <= b.size - NODE_SIZE)
  }

  predicate Aligned(a: int, b: Block) {
    a % BYTE_ALIGNMENT == 0 && b.size % BYTE_ALIGNMENT == 0
  }

  predicate Apart(blocks: map<int, Block>, a: int, b: int)
    requires a in blocks && b in blocks
  {
    a < b ==> a + blocks[a].size <= b
  }

  /** The block at `a` ends where another block starts, or at the sentinel. */
  predicate Closed(blocks: map<int, Block>, a: int)
    requires a in blocks
  {
    var e := a + blocks[a].size;
    e == END_NODE || e in blocks
  }

  ghost predicate Tiled(blocks: map<int, Block>) {
    && START_MM in blocks
    && (forall a | a in blocks :: Fits(a, blocks[a]))
    && (forall a {:trigger Closed(blocks, a)} | a in blocks :: Closed(blocks, a))
    && (forall a, b {:trigger Apart(blocks, a, b)} | a in blocks && b in blocks :: Apart(blocks, a, b))
  }

  predicate Known(blocks: map<int, Block>, free: seq<int>) {
    forall i | 0 <= i < |free| :: free[i] in blocks
  }

  /** The free list is strictly address-ordered and holds exactly the free blocks. */
  ghost predicate Listed(h: Layout) {
    && Ascending(h.free)
    && Known(h.blocks, h.free)
    && (forall i | 0 <= i < |h.free| :: h.blocks[h.free[i]].Free?)
    && (forall a | a in h.blocks && h.blocks[a].Free? :: a in h.free)
  }

  lemma ListedAt(h: Layout, i: nat)
    requires Listed(h) && i < |h.free|
    ensures Ascending(h.free) && Known(h.blocks, h.free) && h.free[i] in h.blocks && h.blocks[h.free[i]].Free?
  {
  }

  ghost predicate AllAligned(blocks: map<int, Block>) {
    forall a {:trigger Aligned(a, blocks[a])} | a in blocks :: Aligned(a, blocks[a])
  }

  /** The free blocks at list positions k and k + 1 do not touch. */
  predicate Gap(h: Layout, k: nat)
    requires k + 1 < |h.free| && h.free[k] in h.blocks
  {
    h.free[k] + h.blocks[h.free[k]].size != h.free[k + 1]
  }

  /** The invariant of every reachable heap. */
  ghost predicate Inv(h: Layout) {
    && Tiled(h.blocks)
    && AllAligned(h.blocks)
    && Listed(h)
    && (forall k | 0 <= k < |h.free| - 1 :: Gap(h, k))
  }

  lemma InvParts(h: Layout)
    requires Inv(h)
    ensures Tiled(h.blocks) && AllAligned(h.blocks) && Listed(h)
  {
  }

  ghost function FreeBytes(blocks: map<int, Block>, free: seq<int>): int
    requires Known(blocks, free)
  {
    if free == [] then 0 else blocks[free[0]].size + FreeBytes(blocks, free[1..])
  }

  // ------------------------------------------------------------- specification

  /** Rounding of a request, in 64-bit arithmetic; 0 means the request is refused. */
  function Rounded(wanted: int): int
    requires 0 <= wanted < WORD
  {
    if wanted > 0 && (wanted + NODE_SIZE) % WORD > wanted then
      var w := wanted + NODE_SIZE;
      if w % BYTE_ALIGNMENT != 0 then (w + (BYTE_ALIGNMENT - w % BYTE_ALIGNMENT)) % WORD else w
    else 0
  }

  /** Rounding yields the least multiple of 8 that holds header and payload; it refuses
      exactly the empty request and those whose rounded size does not fit 64 bits. */
  lemma RoundedMeaning(wanted: int)
    requires 0 <= wanted < WORD
    ensures Rounded(wanted) == 0 <==> wanted == 0 || wanted + NODE_SIZE + BYTE_ALIGNMENT > WORD
    ensures Rounded(wanted) != 0 ==>
              && Rounded(wanted) % BYTE_ALIGNMENT == 0
              && wanted + NODE_SIZE <= Rounded(wanted) < wanted + NODE_SIZE + BYTE_ALIGNMENT
              && Rounded(wanted) < WORD
  {
    var w := wanted + NODE_SIZE;
    var k := w % BYTE_ALIGNMENT;
    assert (w + (BYTE_ALIGNMENT - k)) % BYTE_ALIGNMENT == 0;
  }

  /** Index of the first free block of at least `w` bytes, from index `k` on. */
  function FirstFit(h: Layout, w: int, k: nat): (i: nat)
    requires Listed(h) && k <= |h.free|
    ensures k <= i <= |h.free|
    ensures forall j | k <= j < i :: h.blocks[h.free[j]].size < w
    ensures i < |h.free| ==> h.blocks[h.free[i]].size >= w
    decreases |h.free| - k
  {
    if k == |h.free| || h.blocks[h.free[k]].size >= w then k else FirstFit(h, w, k + 1)
  }

  /** The i-th free block leaves the list, whole. */
  function TakenWhole(h: Layout, i: nat, wanted: int): Layout
    requires i < |h.free| && h.free[i] in h.blocks
  {
    Layout(h.blocks[h.free[i] := Live(h.blocks[h.free[i]].size, wanted)], Without(h.free, i))
  }

  /** The first `w` bytes of the i-th free block leave the list; the rest takes its place. */
  function TakenFront(h: Layout, i: nat, w: int, wanted: int): Layout
    requires i < |h.free| && h.free[i] in h.blocks
  {
    var a := h.free[i];
    Layout(h.blocks[a := Live(w, wanted)][a + w := Free(h.blocks[a].size - w)], h.free[i := a + w])
  }

  /** Carve `w` bytes for a request of `wanted` bytes out of the i-th free block, which is
      split if more than 32 bytes are left over. */
  function Carve(h: Layout, i: nat, w: int, wanted: int): Layout
    requires i < |h.free| && h.free[i] in h.blocks
  {
    if h.blocks[h.free[i]].size - w > MINIMUM_BLOCK_SIZE then TakenFront(h, i, w, wanted)
    else TakenWhole(h, i, wanted)
  }

  /** What an allocation does to the layout, and the payload address it returns (0 is NULL). */
  function Allocated(h: Layout, wanted: int): (r: (Layout, int))
    requires Listed(h) && 0 <= wanted < WORD
  {
    var w := Rounded(wanted);
    var i := FirstFit(h, w, 0);
    if w == 0 || i == |h.free| then (h, 0)
    else (Carve(h, i, w, wanted), h.free[i] + NODE_SIZE)
  }

  /** Block `a` becomes free and is listed in address order. */
  function Enlisted(h: Layout, a: int): Layout
    requires a in h.blocks
  {
    var k := Below(h.free, a);
    Layout(h.blocks[a := Free(h.blocks[a].size)], Inserted(h.free, k, a))
  }

  predicate Touching(h: Layout, k: int)
    requires Known(h.blocks, h.free)
  {
    0 <= k && k + 1 < |h.free| && !Gap(h, k)
  }

  /** The listed blocks at k and k + 1 become one if they touch. */
  function Joined(h: Layout, k: int): Layout
    requires Known(h.blocks, h.free)
  {
    if Touching(h, k) then
      var a, e := h.free[k], h.free[k + 1];
      Layout((h.blocks - {e})[a := Free(h.blocks[a].size + h.blocks[e].size)],
             Without(h.free, k + 1))
    else h
  }

  /** What giving block `a` back does: list it, then merge it with what follows and with what
      precedes it. */
  function Released(h: Layout, a: int): Layout
    requires Tiled(h.blocks) && Listed(h) && a in h.blocks && h.blocks[a].Live?
  {
    var k := Below(h.free, a);
    EnlistedKeeps(h, a);
    JoinedKeeps(Enlisted(h, a), k);
    Joined(Joined(Enlisted(h, a), k), k - 1)
  }

  // ------------------------------------------------------ laws of the free sum

  /** If two maps agree on the listed sizes except perhaps at position k, their totals differ
      by the difference there. */
  lemma {:induction false} FreeBytesDiffer(b: map<int, Block>, c: map<int, Block>, f: seq<int>, k: nat)
    requires Known(b, f) && Known(c, f) && k <= |f|
    requires forall i | 0 <= i < |f| && i != k :: b[f[i]].size == c[f[i]].size
    ensures FreeBytes(c, f) - FreeBytes(b, f) == if k < |f| then c[f[k]].size - b[f[k]].size else 0
  {
    if f != [] {
      var t := f[1..];
      if k == 0 {
        FreeBytesDiffer(b, c, t, |t|);
      } else {
        FreeBytesDiffer(b, c, t, k - 1);
      }
    }
  }

  lemma {:induction false} FreeBytesInserted(b: map<int, Block>, f: seq<int>, k: nat, x: int)
    requires Known(b, f) && k <= |f| && x in b
    ensures Known(b, Inserted(f, k, x))
    ensures FreeBytes(b, Inserted(f, k, x)) == FreeBytes(b, f) + b[x].size
  {
    var r := Inserted(f, k, x);
    if k == 0 {
      assert r[1..] == f;
    } else {
      FreeBytesInserted(b, f[1..], k - 1, x);
      assert r[1..] == Inserted(f[1..], k - 1, x);
    }
  }

  lemma FreeBytesWithout(b: map<int, Block>, f: seq<int>, k: nat)
    requires Known(b, f) && k < |f|
    ensures Known(b, Without(f, k))
    ensures FreeBytes(b, f) == FreeBytes(b, Without(f, k)) + b[f[k]].size
  {
    var r := Without(f, k);
    assert forall i | 0 <= i < |r| :: r[i] == f[if i < k then i else i + 1];
    FreeBytesInserted(b, r, k, f[k]);
    assert Inserted(r, k, f[k]) == f;
  }

  /** No free block is larger than the running total, so the early exit on the total never
      refuses a request that first fit would serve. */
  lemma {:induction false} FreeBytesBound(b: map<int, Block>, f: seq<int>, i: nat)
    requires i < |f|
    requires forall j | 0 <= j < |f| :: f[j] in b && b[f[j]].size > 0
    ensures b[f[i]].size <= FreeBytes(b, f)
    ensures FreeBytes(b, f) > 0
  {
    if i > 0 {
      FreeBytesBound(b, f[1..], i - 1);
    } else if |f| > 1 {
      FreeBytesBound(b, f[1..], 0);
    }
  }

  // --------------------------------------------------- preservation by one step

  lemma RetagKeepsTiling(b: map<int, Block>, a: int, c: Block)
    requires Tiled(b) && a in b && c.size == b[a].size && Fits(a, c)
    ensures Tiled(b[a := c])
  {
    var r := b[a := c];
    forall x | x in r ensures Closed(r, x) {
      assert Closed(b, x);
    }
    forall x, y | x in r && y in r ensures Apart(r, x, y) {
      assert Apart(b, x, y);
    }
  }

  /** No block starts strictly inside another. */
  lemma NothingInside(b: map<int, Block>, a: int)
    requires Tiled(b) && a in b
    ensures forall x | x in b :: x <= a || a + b[a].size <= x
  {
    forall x | x in b ensures x <= a || a + b[a].size <= x {
      assert Apart(b, a, x);
    }
  }

  lemma SplitApart(b: map<int, Block>, a: int, c: Block, d: Block, x: int, y: int)
    requires Tiled(b) && a in b && c.size + d.size == b[a].size && c.size > 0 && d.size > 0
    requires forall z | z in b :: z <= a || a + b[a].size <= z
    requires var r := b[a := c][a + c.size := d]; x in r && y in r
    ensures Apart(b[a := c][a + c.size := d], x, y)
  {
    hide Tiled;
    if x in b {
      TiledApart(b, x, if y in b then y else a);
    }
  }

  lemma SplitClosed(b: map<int, Block>, a: int, c: Block, d: Block, x: int)
    requires Tiled(b) && a in b && c.size + d.size == b[a].size && c.size > 0 && d.size > 0
    requires var r := b[a := c][a + c.size := d]; x in r
    ensures Closed(b[a := c][a + c.size := d], x)
  {
    assert Closed(b, if x == a + c.size then a else x);
  }

  lemma TiledApart(b: map<int, Block>, x: int, y: int)
    requires Tiled(b) && x in b && y in b
    ensures x < y ==> x + b[x].size <= y
  {
    assert Apart(b, x, y);
  }

  /** Splitting a block in two keeps the tiling. */
  lemma SplitKeepsTiling(b: map<int, Block>, a: int, c: Block, d: Block)
    requires Tiled(b) && a in b && c.size + d.size == b[a].size
    requires Fits(a, c) && Fits(a + c.size, d)
    ensures a + c.size !in b
    ensures Tiled(b[a := c][a + c.size := d])
  {
    var e := a + c.size;
    var r := b[a := c][e := d];
    NothingInside(b, a);
    forall x | x in r ensures Closed(r, x) {
      SplitClosed(b, a, c, d, x);
    }
    forall x, y | x in r && y in r ensures Apart(r, x, y) {
      SplitApart(b, a, c, d, x, y);
    }
  }

  /** Replacing two touching blocks by one keeps the tiling. */
  lemma JoinKeepsTiling(b: map<int, Block>, a: int)
    requires Tiled(b) && a in b && a + b[a].size in b
    ensures Tiled((b - {a + b[a].size})[a := Free(b[a].size + b[a + b[a].size].size)])
  {
    var e := a + b[a].size;
    var r := (b - {e})[a := Free(b[a].size + b[e].size)];
    assert Closed(b, e);
    forall x | x in r ensures Closed(r, x) {
      assert Closed(b, x) && Apart(b, x, a) && Apart(b, a, x);
    }
    forall x, y | x in r && y in r ensures Apart(r, x, y) {
      assert Apart(b, x, y) && Apart(b, e, y);
    }
  }

  lemma EnlistedIsListed(h: Layout, a: int)
    requires Listed(h) && a in h.blocks && h.blocks[a].Live?
    ensures Listed(Enlisted(h, a))
  {
    var r := Enlisted(h, a);
    var k := Below(h.free, a);
    assert forall j | 0 <= j < |h.free| :: h.free[j] in h.free && h.free[j] != a;
    InsertedAscending(h.free, k, a);
    InsertedMembers(h.free, k, a);
    forall i | 0 <= i < |r.free| ensures r.free[i] in r.blocks && r.blocks[r.free[i]].Free? {
      assert r.free[i] in r.free;
    }
  }

  lemma EnlistedFreeBytes(h: Layout, a: int)
    requires Listed(h) && a in h.blocks && h.blocks[a].Live?
    requires Listed(Enlisted(h, a))
    ensures var r := Enlisted(h, a);
            FreeBytes(r.blocks, r.free) == FreeBytes(h.blocks, h.free) + h.blocks[a].size
  {
    var r := Enlisted(h, a);
    FreeBytesDiffer(h.blocks, r.blocks, h.free, |h.free|);
    FreeBytesInserted(r.blocks, h.free, Below(h.free, a), a);
  }

  lemma EnlistedKeeps(h: Layout, a: int)
    requires Tiled(h.blocks) && Listed(h) && a in h.blocks && h.blocks[a].Live?
    ensures var r := Enlisted(h, a);
            && Tiled(r.blocks) && Listed(r)
            && FreeBytes(r.blocks, r.free) == FreeBytes(h.blocks, h.free) + h.blocks[a].size
  {
    RetagKeepsTiling(h.blocks, a, Free(h.blocks[a].size));
    EnlistedIsListed(h, a);
    EnlistedFreeBytes(h, a);
  }

  lemma JoinedIsListed(h: Layout, k: nat)
    requires Listed(h) && Touching(h, k)
    ensures Listed(Joined(h, k))
  {
    var r := Joined(h, k);
    WithoutAscending(h.free, k + 1);
    forall i | 0 <= i < |r.free| ensures r.free[i] in r.blocks && r.blocks[r.free[i]].Free? {
      assert r.free[i] in r.free;
    }
  }

  lemma JoinedFreeBytes(h: Layout, k: nat)
    requires Listed(h) && Touching(h, k) && Listed(Joined(h, k))
    ensures var r := Joined(h, k); FreeBytes(r.blocks, r.free) == FreeBytes(h.blocks, h.free)
  {
    var r := Joined(h, k);
    FreeBytesWithout(h.blocks, h.free, k + 1);
    assert r.free[k] == h.free[k];
    FreeBytesDiffer(h.blocks, r.blocks, r.free, k);
  }

  lemma JoinedIsTiled(h: Layout, k: nat)
    requires Tiled(h.blocks) && Listed(h) && Touching(h, k)
    ensures Tiled(Joined(h, k).blocks)
  {
    JoinKeepsTiling(h.blocks, h.free[k]);
  }

  lemma JoinedKeeps(h: Layout, k: int)
    requires Tiled(h.blocks) && Listed(h)
    ensures Tiled(Joined(h, k).blocks)
    ensures Listed(Joined(h, k))
    ensures FreeBytes(Joined(h, k).blocks, Joined(h, k).free) == FreeBytes(h.blocks, h.free)
  {
    if Touching(h, k) {
      JoinedIsTiled(h, k);
      JoinedIsListed(h, k);
      JoinedFreeBytes(h, k);
    }
  }

  /** All gaps hold except perhaps at list positions j and k. */
  ghost predicate GapsExcept(h: Layout, j: int, k: int)
    requires Known(h.blocks, h.free)
  {
    forall i | 0 <= i < |h.free| - 1 && i != j && i != k :: Gap(h, i)
  }

  lemma EnlistedGaps(h: Layout, a: int)
    requires Listed(h) && GapsExcept(h, -1, -1) && a in h.blocks && h.blocks[a].Live?
    requires Known(Enlisted(h, a).blocks, Enlisted(h, a).free)
    ensures GapsExcept(Enlisted(h, a), Below(h.free, a) - 1, Below(h.free, a))
  {
    var k: int := Below(h.free, a);
    var r := Enlisted(h, a);
    forall i | 0 <= i < |r.free| - 1 && i != k - 1 && i != k ensures Gap(r, i) {
      EnlistedGap(h, a, i);
    }
  }

  lemma EnlistedGap(h: Layout, a: int, i: nat)
    requires Listed(h) && GapsExcept(h, -1, -1) && a in h.blocks && h.blocks[a].Live?
    requires Known(Enlisted(h, a).blocks, Enlisted(h, a).free)
    requires i < |h.free| && i + 1 != Below(h.free, a) && i != Below(h.free, a)
    ensures Gap(Enlisted(h, a), i)
  {
    hide Listed, Ascending, Inserted, Below;
    var k := Below(h.free, a);
    var u := if i < k then i else i - 1;
    ListedAt(h, u);
    InsertedAt(h.free, k, a, i);
    InsertedAt(h.free, k, a, i + 1);
    assert Gap(h, u);
  }

  /** Joining at k settles the gap at k and disturbs no other. */
  lemma JoinedGaps(h: Layout, k: int, m: int)
    requires Listed(h) && (m == k - 1 || m == -1) && GapsExcept(h, m, k)
    requires Listed(Joined(h, k))
    ensures GapsExcept(Joined(h, k), m, m)
  {
    var r := Joined(h, k);
    forall i | 0 <= i < |r.free| - 1 && i != m ensures Gap(r, i) {
      if Touching(h, k) {
        JoinedGap(h, k, m, i);
      }
    }
  }

  lemma JoinedGap(h: Layout, k: int, m: int, i: nat)
    requires Listed(h) && (m == k - 1 || m == -1) && GapsExcept(h, m, k) && Touching(h, k)
    requires Known(Joined(h, k).blocks, Joined(h, k).free) && i + 2 < |h.free| && i != m
    ensures Gap(Joined(h, k), i)
  {
    hide Listed, Ascending, Without;
    var u := if i < k then i else i + 1;
    ListedAt(h, u);
    ListedAt(h, k);
    InOrder(h.free, if u < k then u else k, if u < k then k else u);
    InOrder(h.free, if u < k + 1 then u else k + 1, if u < k + 1 then k + 1 else u);
    WithoutAt(h.free, k + 1, i);
    WithoutAt(h.free, k + 1, i + 1);
    assert Gap(h, u);
  }

  lemma ReleasedIsAligned(h: Layout, a: int)
    requires Inv(h) && a in h.blocks && h.blocks[a].Live?
    ensures AllAligned(Released(h, a).blocks)
  {
    var k: int := Below(h.free, a);
    EnlistedKeeps(h, a);
    EnlistedAligned(h, a);
    JoinedKeeps(Enlisted(h, a), k);
    JoinedAligned(Enlisted(h, a), k);
    JoinedAligned(Joined(Enlisted(h, a), k), k - 1);
  }

  lemma EnlistedAligned(h: Layout, a: int)
    requires AllAligned(h.blocks) && a in h.blocks
    ensures AllAligned(Enlisted(h, a).blocks)
  {
    forall x | x in h.blocks ensures Aligned(x, Enlisted(h, a).blocks[x]) {
      assert Aligned(x, h.blocks[x]);
    }
  }

  lemma JoinedAligned(h: Layout, k: int)
    requires AllAligned(h.blocks) && Known(h.blocks, h.free)
    ensures AllAligned(Joined(h, k).blocks)
  {
    if Touching(h, k) {
      var a, e := h.free[k], h.free[k + 1];
      assert Aligned(a, h.blocks[a]) && Aligned(e, h.blocks[e]);
      forall x | x in Joined(h, k).blocks ensures Aligned(x, Joined(h, k).blocks[x]) {
        assert Aligned(x, h.blocks[x]);
      }
    }
  }

  /** Giving back any live block keeps the whole invariant, and grows the free total by
      exactly that block's size. */
  lemma ReleasedKeepsInv(h: Layout, a: int)
    requires Inv(h) && a in h.blocks && h.blocks[a].Live?
    ensures Inv(Released(h, a))
    ensures var r := Released(h, a);
            FreeBytes(r.blocks, r.free) == FreeBytes(h.blocks, h.free) + h.blocks[a].size
  {
    var k: int := Below(h.free, a);
    ReleasedIsAligned(h, a);
    EnlistedKeeps(h, a);
    EnlistedGaps(h, a);
    var e := Enlisted(h, a);
    JoinedKeeps(e, k);
    JoinedGaps(e, k, k - 1);
    var j := Joined(e, k);
    JoinedKeeps(j, k - 1);
    JoinedGaps(j, k - 1, -1);
  }

  /** The i-th free block, cut in two blocks that are both off the list. */
  function Cut(h: Layout, i: nat, w: int, wanted: int): Layout
    requires i < |h.free| && h.free[i] in h.blocks
  {
    var a := h.free[i];
    Layout(h.blocks[a := Live(w, wanted)][a + w := Live(h.blocks[a].size - w, 1)], Without(h.free, i))
  }

  lemma CutIsListed(h: Layout, i: nat, w: int, wanted: int)
    requires Tiled(h.blocks) && Listed(h) && i < |h.free|
    requires h.free[i] + w !in h.blocks
    ensures Listed(Cut(h, i, w, wanted))
  {
    hide Tiled, Without, Ascending;
    var r := Cut(h, i, w, wanted);
    WithoutAscending(h.free, i);
    forall j | 0 <= j < |r.free| ensures r.free[j] in r.blocks && r.blocks[r.free[j]].Free? {
      assert r.free[j] in r.free;
    }
  }

  /** Dropping a list entry keeps the gaps, whatever happens to the dropped block. */
  lemma WithoutGaps(h: Layout, r: Layout, i: nat)
    requires Tiled(h.blocks) && Listed(h) && GapsExcept(h, -1, -1)
    requires i < |h.free| && r.free == Without(h.free, i) && Known(r.blocks, r.free)
    requires forall x | x in r.free && x in h.blocks :: r.blocks[x].size == h.blocks[x].size
    ensures GapsExcept(r, -1, -1)
  {
    forall j | 0 <= j < |r.free| - 1 ensures Gap(r, j) {
      WithoutGap(h, r, i, j);
    }
  }

  lemma WithoutGap(h: Layout, r: Layout, i: nat, j: nat)
    requires Tiled(h.blocks) && Listed(h) && GapsExcept(h, -1, -1)
    requires i < |h.free| && r.free == Without(h.free, i) && Known(r.blocks, r.free) && j < |r.free| - 1
    requires forall x | x in r.free && x in h.blocks :: r.blocks[x].size == h.blocks[x].size
    ensures Gap(r, j)
  {
    hide Tiled, Listed, Ascending, Without;
    var u := if j < i then j else j + 1;
    var v := if j + 1 < i then j + 1 else j + 2;
    ListedAt(h, u);
    ListedAt(h, u + 1);
    WithoutAt(h.free, i, j);
    WithoutAt(h.free, i, j + 1);
    InOrder(h.free, u, u + 1);
    InOrder(h.free, u + 1, v);
    assert Gap(h, u);
    TiledApart(h.blocks, h.free[u], h.free[u + 1]);
    assert r.free[j] in r.free;
  }

  lemma CutKeepsInv(h: Layout, i: nat, w: int, wanted: int)
    requires Inv(h) && i < |h.free| && w % BYTE_ALIGNMENT == 0
    requires h.blocks[h.free[i]].size - w > MINIMUM_BLOCK_SIZE
    requires 0 < wanted <= w - NODE_SIZE
    ensures Inv(Cut(h, i, w, wanted))
    ensures h.free[i] + w !in h.blocks
    ensures var r := Cut(h, i, w, wanted);
            FreeBytes(r.blocks, r.free) == FreeBytes(h.blocks, h.free) - h.blocks[h.free[i]].size
  {
    CutIsTiled(h, i, w, wanted);
    CutIsAligned(h, i, w, wanted);
    CutIsListed(h, i, w, wanted);
    DropBytes(h, Cut(h, i, w, wanted), i);
  }

  lemma CutIsTiled(h: Layout, i: nat, w: int, wanted: int)
    requires Tiled(h.blocks) && Listed(h) && i < |h.free|
    requires h.blocks[h.free[i]].size - w > MINIMUM_BLOCK_SIZE && 0 < wanted <= w - NODE_SIZE
    ensures Tiled(Cut(h, i, w, wanted).blocks)
    ensures h.free[i] + w !in h.blocks
  {
    var s := h.blocks[h.free[i]].size;
    SplitKeepsTiling(h.blocks, h.free[i], Live(w, wanted), Live(s - w, 1));
  }

  /** Dropping a list entry keeps the gaps and lowers the total by that entry's size. */
  lemma DropBytes(h: Layout, r: Layout, i: nat)
    requires Tiled(h.blocks) && Listed(h) && GapsExcept(h, -1, -1)
    requires i < |h.free| && r.free == Without(h.free, i) && Known(r.blocks, r.free)
    requires forall x | x in h.blocks && x != h.free[i] :: x in r.blocks && r.blocks[x].size == h.blocks[x].size
    ensures GapsExcept(r, -1, -1)
    ensures FreeBytes(r.blocks, r.free) == FreeBytes(h.blocks, h.free) - h.blocks[h.free[i]].size
  {
    WithoutAscending(h.free, i);
    WithoutGaps(h, r, i);
    FreeBytesWithout(h.blocks, h.free, i);
    assert forall j | 0 <= j < |r.free| :: r.free[j] in r.free && r.free[j] in h.blocks;
    FreeBytesDiffer(h.blocks, r.blocks, r.free, |r.free|);
  }

  lemma CutIsAligned(h: Layout, i: nat, w: int, wanted: int)
    requires AllAligned(h.blocks) && i < |h.free| && h.free[i] in h.blocks
    requires w % BYTE_ALIGNMENT == 0
    ensures AllAligned(Cut(h, i, w, wanted).blocks)
  {
    var r := Cut(h, i, w, wanted);
    assert Aligned(h.free[i], h.blocks[h.free[i]]);
    forall x | x in r.blocks ensures Aligned(x, r.blocks[x]) {
      if x in h.blocks {
        assert Aligned(x, h.blocks[x]);
      }
    }
  }

  /** The far part of a cut block belongs at the list position the block came from. */
  lemma CutBelow(h: Layout, i: nat, w: int, wanted: int)
    requires Inv(h) && i < |h.free| && 0 < w < h.blocks[h.free[i]].size
    ensures Below(Cut(h, i, w, wanted).free, h.free[i] + w) == i
    ensures i > 0 ==> h.free[i - 1] + h.blocks[h.free[i - 1]].size <= h.free[i]
    ensures i + 1 < |h.free| ==> h.free[i] + h.blocks[h.free[i]].size < h.free[i + 1]
  {
    var a := h.free[i];
    var c := Cut(h, i, w, wanted);
    if i > 0 {
      assert c.free[i - 1] == h.free[i - 1];
      assert Apart(h.blocks, h.free[i - 1], a);
    }
    if i + 1 < |h.free| {
      assert c.free[i] == h.free[i + 1];
      assert Gap(h, i);
      assert Apart(h.blocks, a, h.free[i + 1]);
    }
    WithoutAscending(h.free, i);
    BelowIs(c.free, a + w, i);
  }

  /** The rest of a split block touches neither list neighbour. */
  lemma TakenFrontTouchesNone(h: Layout, i: nat, w: int, wanted: int)
    requires Inv(h) && i < |h.free| && 0 < w < h.blocks[h.free[i]].size
    requires Known(TakenFront(h, i, w, wanted).blocks, TakenFront(h, i, w, wanted).free)
    ensures !Touching(TakenFront(h, i, w, wanted), i)
    ensures !Touching(TakenFront(h, i, w, wanted), i - 1)
  {
    hide Inv, Tiled, Listed, Ascending, Below;
    InvParts(h);
    CutBelow(h, i, w, wanted);
    ListedAt(h, i);
    var r := TakenFront(h, i, w, wanted);
    if i > 0 {
      InOrder(h.free, i - 1, i);
      assert r.free[i - 1] == h.free[i - 1];
    }
  }

  lemma PutBack(s: seq<int>, i: nat, x: int)
    requires i < |s|
    ensures Inserted(Without(s, i), i, x) == s[i := x]
  {
  }

  lemma CutEnlisted(h: Layout, i: nat, w: int, wanted: int)
    requires Inv(h) && i < |h.free| && h.free[i] in h.blocks && 0 < w < h.blocks[h.free[i]].size
    ensures Enlisted(Cut(h, i, w, wanted), h.free[i] + w) == TakenFront(h, i, w, wanted)
    ensures h.free[i] + w in Cut(h, i, w, wanted).blocks && Cut(h, i, w, wanted).blocks[h.free[i] + w].Live?
    ensures Below(Cut(h, i, w, wanted).free, h.free[i] + w) == i
  {
    hide Tiled, Listed, Gap, Inv, Ascending, Inserted, Without, Below;
    CutBelow(h, i, w, wanted);
    PutBack(h.free, i, h.free[i] + w);
  }

  lemma ReleasedWithoutMerge(h: Layout, a: int, e: Layout, k: nat)
    requires Tiled(h.blocks) && Listed(h) && a in h.blocks && h.blocks[a].Live?
    requires e == Enlisted(h, a) && k == Below(h.free, a)
    requires Known(e.blocks, e.free) && !Touching(e, k) && !Touching(e, k - 1)
    ensures Released(h, a) == e
  {
    hide Tiled, Listed, Ascending, Gap, Enlisted, Touching, Below;
  }

  /** Releasing the far part of a cut block puts it back in the same list position, with no
      merge: splitting is cutting and releasing. */
  lemma CutThenReleased(h: Layout, i: nat, w: int, wanted: int)
    requires Inv(h) && i < |h.free| && h.free[i] in h.blocks
    requires 0 < w < h.blocks[h.free[i]].size && h.free[i] + w !in h.blocks
    requires Inv(Cut(h, i, w, wanted))
    ensures Released(Cut(h, i, w, wanted), h.free[i] + w) == TakenFront(h, i, w, wanted)
  {
    hide Tiled, Listed, Cut, TakenFront, Enlisted, Released;
    var c := Cut(h, i, w, wanted);
    var t := TakenFront(h, i, w, wanted);
    CutEnlisted(h, i, w, wanted);
    assert Known(t.blocks, t.free) by {
      EnlistedKeeps(c, h.free[i] + w);
    }
    TakenFrontTouchesNone(h, i, w, wanted);
    ReleasedWithoutMerge(c, h.free[i] + w, t, i);
  }

  lemma TakenWholeKeepsInv(h: Layout, i: nat, wanted: int)
    requires Inv(h) && i < |h.free| && 0 < wanted <= h.blocks[h.free[i]].size - NODE_SIZE
    ensures Inv(TakenWhole(h, i, wanted))
    ensures var r := TakenWhole(h, i, wanted);
            FreeBytes(r.blocks, r.free) == FreeBytes(h.blocks, h.free) - h.blocks[h.free[i]].size
  {
    var a := h.free[i];
    var r := TakenWhole(h, i, wanted);
    RetagKeepsTiling(h.blocks, a, Live(h.blocks[a].size, wanted));
    forall x | x in r.blocks ensures Aligned(x, r.blocks[x]) {
      assert Aligned(x, h.blocks[x]);
    }
    WithoutAscending(h.free, i);
    forall j | 0 <= j < |r.free| ensures r.free[j] in r.blocks && r.blocks[r.free[j]].Free? {
      assert r.free[j] in r.free;
    }
    DropBytes(h, r, i);
  }

  lemma TakenFrontKeepsInv(h: Layout, i: nat, w: int, wanted: int)
    requires Inv(h) && i < |h.free| && w % BYTE_ALIGNMENT == 0
    requires h.blocks[h.free[i]].size - w > MINIMUM_BLOCK_SIZE
    requires 0 < wanted <= w - NODE_SIZE
    ensures Inv(TakenFront(h, i, w, wanted))
    ensures var r := TakenFront(h, i, w, wanted);
            FreeBytes(r.blocks, r.free) == FreeBytes(h.blocks, h.free) - w
  {
    hide Inv, Listed, Tiled, Released, TakenFront;
    InvParts(h);
    ListedAt(h, i);
    CutKeepsInv(h, i, w, wanted);
    CutThenReleased(h, i, w, wanted);
    ReleasedKeepsInv(Cut(h, i, w, wanted), h.free[i] + w);
  }

  /** Carving keeps the whole invariant, and shrinks the free total by exactly the size of
      the block handed out. */
  lemma CarveKeepsInv(h: Layout, i: nat, w: int, wanted: int)
    requires Inv(h) && i < |h.free| && w % BYTE_ALIGNMENT == 0 && w <= h.blocks[h.free[i]].size
    requires 0 < wanted <= w - NODE_SIZE
    ensures Inv(Carve(h, i, w, wanted))
    ensures var r := Carve(h, i, w, wanted);
            FreeBytes(r.blocks, r.free) == FreeBytes(h.blocks, h.free) - r.blocks[h.free[i]].size
  {
    if h.blocks[h.free[i]].size - w > MINIMUM_BLOCK_SIZE {
      TakenFrontKeepsInv(h, i, w, wanted);
    } else {
      TakenWholeKeepsInv(h, i, wanted);
    }
  }

  // ------------------------------------------------------------- main theorems

  /** Every allocation keeps the invariant, and a refused one changes nothing. */
  lemma AllocatedKeepsInv(h: Layout, wanted: int)
    requires Inv(h) && 0 <= wanted < WORD
    ensures Inv(Allocated(h, wanted).0)
    ensures Allocated(h, wanted).1 == 0 ==> Allocated(h, wanted).0 == h
  {
    RoundedMeaning(wanted);
    var w := Rounded(wanted);
    var i := FirstFit(h, w, 0);
    if w != 0 && i < |h.free| {
      CarveKeepsInv(h, i, w, wanted);
    }
  }

  /** NULL is returned exactly when the request is empty, does not survive rounding, or no
      free block has the rounded size. */
  lemma NullIsExact(h: Layout, wanted: int)
    requires Inv(h) && 0 <= wanted < WORD
    ensures Allocated(h, wanted).1 == 0 <==>
            || Rounded(wanted) == 0
            || forall a | a in h.blocks && h.blocks[a].Free? :: h.blocks[a].size < Rounded(wanted)
  {
    var w := Rounded(wanted);
    var i := FirstFit(h, w, 0);
    forall a | i == |h.free| && a in h.blocks && h.blocks[a].Free? ensures h.blocks[a].size < w {
      var j :| 0 <= j < |h.free| && h.free[j] == a;
    }
  }

  /** A granted payload is aligned, comes from the lowest free block that fits, and its block
      becomes live and holds the request. */
  lemma GrantIsLowestFit(h: Layout, wanted: int)
    requires Inv(h) && 0 <= wanted < WORD && Allocated(h, wanted).1 != 0
    ensures var (r, p) := Allocated(h, wanted);
            var a := p - NODE_SIZE;
            && p % BYTE_ALIGNMENT == 0
            && a in h.blocks && h.blocks[a].Free? && h.blocks[a].size >= Rounded(wanted)
            && (forall b | b in h.blocks && b < a && h.blocks[b].Free? :: h.blocks[b].size < Rounded(wanted))
            && a in r.blocks && r.blocks[a].Live? && r.blocks[a].wanted == wanted
            && Rounded(wanted) <= r.blocks[a].size <= Rounded(wanted) + MINIMUM_BLOCK_SIZE
            && (r.blocks[a].size < h.blocks[a].size <==> h.blocks[a].size > Rounded(wanted) + MINIMUM_BLOCK_SIZE)
            && (r.blocks[a].size < h.blocks[a].size ==>
                  var rest := a + r.blocks[a].size;
                  rest in r.blocks && r.blocks[rest] == Free(h.blocks[a].size - r.blocks[a].size))
  {
    RoundedMeaning(wanted);
    var w := Rounded(wanted);
    var i := FirstFit(h, w, 0);
    var a := h.free[i];
    assert Aligned(a, h.blocks[a]);
    forall b | b in h.blocks && b < a && h.blocks[b].Free? ensures h.blocks[b].size < w {
      var j :| 0 <= j < |h.free| && h.free[j] == b;
      assert j < i;
    }
  }

  /** An allocation makes no other block live, and leaves the live ones as they were. */
  lemma GrantFramesLive(h: Layout, wanted: int)
    requires Inv(h) && 0 <= wanted < WORD && Allocated(h, wanted).1 != 0
    ensures var (r, p) := Allocated(h, wanted);
            && (forall b | b in h.blocks && h.blocks[b].Live? :: b in r.blocks && r.blocks[b] == h.blocks[b])
            && (forall b | b in r.blocks && r.blocks[b].Live? && b != p - NODE_SIZE :: b in h.blocks && h.blocks[b].Live?)
  {
    hide Inv, Listed, Tiled, Rounded, FirstFit;
    InvParts(h);
    RoundedMeaning(wanted);
    var w := Rounded(wanted);
    var i := FirstFit(h, w, 0);
    ListedAt(h, i);
    if h.blocks[h.free[i]].size - w > MINIMUM_BLOCK_SIZE {
      CutKeepsInv(h, i, w, wanted);
    }
  }

  /** The early exit of `alloc` on the running total only refuses what first fit would refuse. */
  lemma EarlyExitIsExact(h: Layout, wanted: int)
    requires Inv(h) && 0 <= wanted < WORD
    requires Rounded(wanted) > FreeBytes(h.blocks, h.free)
    ensures Allocated(h, wanted) == (h, 0)
  {
    var i := FirstFit(h, Rounded(wanted), 0);
    if i < |h.free| {
      FreeBytesBound(h.blocks, h.free, i);
    }
  }

  /** The blocks tile the arena: every address up to the sentinel lies in exactly one block. */
  lemma BlocksTileArena(h: Layout, x: int)
    requires Inv(h) && START_MM <= x < END_NODE
    ensures exists a :: a in h.blocks && a <= x < a + h.blocks[a].size
    ensures forall a, b | a in h.blocks && b in h.blocks ::
              a <= x < a + h.blocks[a].size && b <= x < b + h.blocks[b].size ==> a == b
  {
    BlockAround(h.blocks, START_MM, x);
    forall a, b | a in h.blocks && b in h.blocks
      ensures a <= x < a + h.blocks[a].size && b <= x < b + h.blocks[b].size ==> a == b
    {
      assert Apart(h.blocks, a, b) && Apart(h.blocks, b, a);
    }
  }

  lemma {:induction false} BlockAround(blocks: map<int, Block>, from: int, x: int)
    requires Tiled(blocks) && from in blocks && from <= x < END_NODE
    ensures exists a :: a in blocks && a <= x < a + blocks[a].size
    decreases END_NODE - from
  {
    if x >= from + blocks[from].size {
      assert Closed(blocks, from);
      BlockAround(blocks, from + blocks[from].size, x);
    }
  }

  /** Payloads of live blocks are 8-aligned, inside the arena, large enough, and pairwise
      disjoint from each other and from every header. */
  lemma LivePayloads(h: Layout, a: int, b: int)
    requires Inv(h) && a in h.blocks && h.blocks[a].Live? && b in h.blocks && a != b
    ensures (a + NODE_SIZE) % BYTE_ALIGNMENT == 0
    ensures START_MM <= a && a + NODE_SIZE + h.blocks[a].wanted <= a + h.blocks[a].size <= END_NODE
    ensures a + h.blocks[a].size <= b || b + h.blocks[b].size <= a
  {
    assert Aligned(a, h.blocks[a]);
    assert Apart(h.blocks, a, b) && Apart(h.blocks, b, a);
  }

  /** A free block never precedes another free block. */
  lemma FreeBlocksAreApart(h: Layout, a: int)
    requires Inv(h) && a in h.blocks && h.blocks[a].Free? && a + h.blocks[a].size in h.blocks
    ensures h.blocks[a + h.blocks[a].size].Live?
  {
    var e := a + h.blocks[a].size;
    var i :| 0 <= i < |h.free| && h.free[i] == a;
    forall j | 0 <= j < |h.free| ensures h.free[j] != e {
      if i < j {
        assert Gap(h, i);
        assert Apart(h.blocks, a, h.free[i + 1]);
        assert h.free[i + 1] <= h.free[j];
      }
    }
  }

  /** With no live block left, the heap is the initial one: one free block over the arena. */
  lemma DrainedHeapIsInitial(h: Layout)
    requires Inv(h) && forall a | a in h.blocks :: h.blocks[a].Free?
    ensures h == InitialLayout()
  {
    var s := START_MM;
    assert Closed(h.blocks, s);
    if s + h.blocks[s].size in h.blocks {
      FreeBlocksAreApart(h, s);
    }
    forall a | a in h.blocks ensures a == s {
      assert Apart(h.blocks, s, a);
    }
    assert h.blocks.Keys == {s};
    assert h.blocks == InitialLayout().blocks;
    assert s in h.free;
    assert h.free[0] == s && h.free[|h.free| - 1] == s;
  }

  lemma InitialIsInv()
    ensures Inv(InitialLayout())
    ensures FreeBytes(InitialLayout().blocks, InitialLayout().free) == END_NODE - START_MM
  {
    assert forall a | a in InitialLayout().blocks :: Aligned(a, InitialLayout().blocks[a]);
  }

  predicate LiveAt(blocks: map<int, Block>, a: int) {
    a in blocks && blocks[a].Live?
  }

  /** The block at `a` if it is live, and an empty free block otherwise. */
  function LivePart(blocks: map<int, Block>, a: int): Block {
    if LiveAt(blocks, a) then blocks[a] else Free(0)
  }

  lemma EnlistedLivePart(h: Layout, a: int)
    requires LiveAt(h.blocks, a)
    ensures forall b :: LivePart(Enlisted(h, a).blocks, b) == if b == a then Free(0) else LivePart(h.blocks, b)
  {
  }

  lemma JoinedLivePart(h: Layout, k: int)
    requires Listed(h)
    ensures forall b :: LivePart(Joined(h, k).blocks, b) == LivePart(h.blocks, b)
  {
  }

  lemma ReleasedLivePart(h: Layout, a: int)
    requires Inv(h) && LiveAt(h.blocks, a)
    ensures forall b :: LivePart(Released(h, a).blocks, b) == if b == a then Free(0) else LivePart(h.blocks, b)
  {
    hide Tiled, Listed, Enlisted, Joined, LivePart;
    var k: int := Below(h.free, a);
    var e := Enlisted(h, a);
    EnlistedKeeps(h, a);
    EnlistedLivePart(h, a);
    JoinedLivePart(e, k);
    JoinedKeeps(e, k);
    JoinedLivePart(Joined(e, k), k - 1);
  }

  /** Giving a block back makes no block live, and leaves the other live ones as they were. */
  lemma ReleasedFramesLive(h: Layout, a: int)
    requires Inv(h) && LiveAt(h.blocks, a)
    ensures forall b {:trigger LiveAt(Released(h, a).blocks, b)} ::
              LiveAt(Released(h, a).blocks, b) <==> LiveAt(h.blocks, b) && b != a
    ensures forall b {:trigger LiveAt(Released(h, a).blocks, b)} | LiveAt(h.blocks, b) && b != a ::
              LiveAt(Released(h, a).blocks, b) && Released(h, a).blocks[b] == h.blocks[b]
  {
    hide Tiled, Listed, Released;
    ReleasedLivePart(h, a);
    var r := Released(h, a).blocks;
    forall b
      ensures LiveAt(r, b) <==> LiveAt(h.blocks, b) && b != a
      ensures LiveAt(h.blocks, b) && b != a ==> r[b] == h.blocks[b]
    {
      assert LivePart(r, b) == if b == a then Free(0) else LivePart(h.blocks, b);
    }
  }

  // -------------------------------------------------------------- conservation

  /** Bytes in live blocks from block boundary `a` up to the sentinel. */
  ghost function LiveBytes(blocks: map<int, Block>, a: int): int
    requires Tiled(blocks) && (a == END_NODE || a in blocks)
    decreases END_NODE - a
  {
    if a == END_NODE then 0
    else
      assert Closed(blocks, a);
      (if blocks[a].Live? then blocks[a].size else 0) + LiveBytes(blocks, a + blocks[a].size)
  }

  /** Passing one block passes one list entry if it is free, and none otherwise. */
  lemma BelowNext(h: Layout, a: int)
    requires Tiled(h.blocks) && Listed(h) && a in h.blocks
    ensures var k := Below(h.free, a);
            if h.blocks[a].Free? then
              k < |h.free| && h.free[k] == a && Below(h.free, a + h.blocks[a].size) == k + 1
            else Below(h.free, a + h.blocks[a].size) == k
  {
    if h.blocks[a].Free? {
      BelowNextFree(h, a);
    } else {
      BelowNextLive(h, a);
    }
  }

  lemma BelowNextFree(h: Layout, a: int)
    requires Tiled(h.blocks) && Listed(h) && a in h.blocks && h.blocks[a].Free?
    ensures var k := Below(h.free, a);
            k < |h.free| && h.free[k] == a && Below(h.free, a + h.blocks[a].size) == k + 1
  {
    hide Tiled, Below;
    var i :| 0 <= i < |h.free| && h.free[i] == a;
    BelowIs(h.free, a, i);
    if i + 1 < |h.free| {
      ListedAt(h, i + 1);
      InOrder(h.free, i, i + 1);
      TiledApart(h.blocks, a, h.free[i + 1]);
    }
    NextBoundary(h.blocks, a);
    BelowIs(h.free, a + h.blocks[a].size, i + 1);
  }

  lemma BelowNextLive(h: Layout, a: int)
    requires Tiled(h.blocks) && Listed(h) && a in h.blocks && h.blocks[a].Live?
    ensures Below(h.free, a + h.blocks[a].size) == Below(h.free, a)
  {
    hide Tiled, Listed, Ascending;
    var k := Below(h.free, a);
    NextBoundary(h.blocks, a);
    if k < |h.free| {
      ListedAt(h, k);
      TiledApart(h.blocks, a, h.free[k]);
    }
    assert Ascending(h.free) by { ListedOrder(h); }
    BelowIs(h.free, a + h.blocks[a].size, k);
  }

  lemma ListedOrder(h: Layout)
    requires Listed(h)
    ensures Ascending(h.free)
  {
  }

  lemma BelowEnd(h: Layout)
    requires Tiled(h.blocks) && Listed(h)
    ensures Below(h.free, END_NODE) == |h.free|
  {
    assert forall j | 0 <= j < |h.free| :: Fits(h.free[j], h.blocks[h.free[j]]);
    BelowIs(h.free, END_NODE, |h.free|);
  }

  lemma NextBoundary(b: map<int, Block>, a: int)
    requires Tiled(b) && a in b
    ensures a < a + b[a].size <= END_NODE && (a + b[a].size == END_NODE || a + b[a].size in b)
  {
    assert Closed(b, a);
  }

  lemma FreeBytesStep(blocks: map<int, Block>, free: seq<int>, k: nat)
    requires k <= |free| && Known(blocks, free)
    ensures Known(blocks, free[k..])
    ensures k == |free| ==> FreeBytes(blocks, free[k..]) == 0
    ensures k < |free| ==> Known(blocks, free[k + 1..])
                           && FreeBytes(blocks, free[k..]) == blocks[free[k]].size + FreeBytes(blocks, free[k + 1..])
  {
    if k < |free| {
      assert free[k..][1..] == free[k + 1..];
    }
  }

  lemma LiveBytesStep(blocks: map<int, Block>, a: int)
    requires Tiled(blocks) && (a == END_NODE || a in blocks)
    ensures a == END_NODE ==> LiveBytes(blocks, a) == 0
    ensures a != END_NODE ==> var e := a + blocks[a].size;
              && (e == END_NODE || e in blocks)
              && LiveBytes(blocks, a) == (if blocks[a].Live? then blocks[a].size else 0) + LiveBytes(blocks, e)
  {
    if a != END_NODE {
      assert Closed(blocks, a);
    }
  }

  lemma {:induction false} BytesFrom(h: Layout, a: int, k: nat)
    requires Inv(h) && (a == END_NODE || a in h.blocks) && k == Below(h.free, a) && Known(h.blocks, h.free)
    ensures Known(h.blocks, h.free[k..])
    ensures FreeBytes(h.blocks, h.free[k..]) + LiveBytes(h.blocks, a) == END_NODE - a
    decreases END_NODE - a
  {
    hide Tiled, Listed, AllAligned, Gap, Below, Inv, FreeBytes, LiveBytes, Known;
    InvParts(h);
    FreeBytesStep(h.blocks, h.free, k);
    LiveBytesStep(h.blocks, a);
    if a == END_NODE {
      BelowEnd(h);
    } else {
      NextBoundary(h.blocks, a);
      BelowNext(h, a);
      BytesFrom(h, a + h.blocks[a].size, if h.blocks[a].Free? then k + 1 else k);
    }
  }

  /** The running total is the arena minus the live blocks. */
  lemma BytesAreConserved(h: Layout)
    requires Inv(h)
    ensures FreeBytes(h.blocks, h.free) == END_NODE - START_MM - LiveBytes(h.blocks, START_MM)
  {
    BelowIs(h.free, START_MM, 0);
    BytesFrom(h, START_MM, 0);
    assert h.free[0..] == h.free;
  }

  // ---------------------------------------------------------------------- runs

  datatype Op = Alloc(wanted: int) | Release(ptr: int)

  ghost predicate IsLive(h: Layout, ptr: int) {
    LiveAt(h.blocks, ptr - NODE_SIZE)
  }

  /** Callers ask for a 64-bit size, and give back NULL or a live payload. */
  ghost predicate LegalOp(h: Layout, op: Op) {
    match op
    case Alloc(wanted) => 0 <= wanted < WORD
    case Release(ptr) => ptr == 0 || IsLive(h, ptr)
  }

  ghost function Step(h: Layout, op: Op): Layout
    requires Inv(h) && LegalOp(h, op)
  {
    match op
    case Alloc(wanted) => Allocated(h, wanted).0
    case Release(ptr) => if ptr == 0 then h else Released(h, ptr - NODE_SIZE)
  }

  lemma StepKeepsInv(h: Layout, op: Op)
    requires Inv(h) && LegalOp(h, op)
    ensures Inv(Step(h, op))
  {
    hide Inv, Allocated, Released;
    match op
    case Alloc(wanted) => AllocatedKeepsInv(h, wanted);
    case Release(ptr) => if ptr != 0 { ReleasedKeepsInv(h, ptr - NODE_SIZE); }
  }

  /** `end` is the heap after the legal operations `ops`, starting from `h`. */
  ghost predicate Runs(h: Layout, ops: seq<Op>, end: Layout)
    requires Inv(h)
    decreases |ops|
  {
    if ops == [] then end == h
    else
      && LegalOp(h, ops[0])
      && (StepKeepsInv(h, ops[0]); Runs(Step(h, ops[0]), ops[1..], end))
  }

  /** After any history of allocations and releases, the invariant holds; and once nothing
      is live, the heap is back in its initial state, whatever the order of the releases. */
  lemma {:induction false} EveryRunIsSound(h: Layout, ops: seq<Op>, end: Layout)
    requires Inv(h) && Runs(h, ops, end)
    ensures Inv(end)
    ensures (forall a | a in end.blocks :: end.blocks[a].Free?) ==> end == InitialLayout()
    decreases |ops|
  {
    if ops == [] {
      if forall a | a in end.blocks :: end.blocks[a].Free? {
        DrainedHeapIsInitial(end);
      }
    } else {
      StepKeepsInv(h, ops[0]);
      EveryRunIsSound(Step(h, ops[0]), ops[1..], end);
    }
  }

  function Releases(order: seq<int>): seq<Op> {
    if order == [] then [] else [Release(order[0])] + Releases(order[1..])
  }

  /** `order` lists every live payload exactly once. */
  ghost predicate CoversLive(h: Layout, order: seq<int>) {
    && (forall i, j | 0 <= i < j < |order| :: order[i] != order[j])
    && (forall i | 0 <= i < |order| :: order[i] != 0 && IsLive(h, order[i]))
    && (forall a | LiveAt(h.blocks, a) :: a + NODE_SIZE in order)
  }

  lemma CoversRest(h: Layout, order: seq<int>)
    requires Inv(h) && order != [] && CoversLive(h, order)
    ensures CoversLive(Released(h, order[0] - NODE_SIZE), order[1..])
  {
    var r := Released(h, order[0] - NODE_SIZE);
    ReleasedFramesLive(h, order[0] - NODE_SIZE);
    forall i | 0 <= i < |order| - 1 ensures IsLive(r, order[1..][i]) {
      assert IsLive(h, order[i + 1]);
    }
    forall a | LiveAt(r.blocks, a) ensures a + NODE_SIZE in order[1..] {
      var i :| 0 <= i < |order| && order[i] == a + NODE_SIZE;
      assert order[1..][i - 1] == order[i];
    }
  }

  lemma RunsFrom(h: Layout, op: Op, ops: seq<Op>, end: Layout)
    requires Inv(h) && LegalOp(h, op) && Inv(Step(h, op)) && Runs(Step(h, op), ops, end)
    ensures Runs(h, [op] + ops, end)
  {
    assert ([op] + ops)[1..] == ops;
  }

  /** Giving back every live payload, in any order, is a legal run that ends in the initial
      heap. */
  lemma {:induction false} ReleasingAllRestores(h: Layout, order: seq<int>)
    requires Inv(h) && CoversLive(h, order)
    ensures Runs(h, Releases(order), InitialLayout())
    decreases |order|
  {
    if order == [] {
      assert forall a | a in h.blocks :: !LiveAt(h.blocks, a);
      DrainedHeapIsInitial(h);
    } else {
      var a := order[0] - NODE_SIZE;
      assert IsLive(h, order[0]);
      ReleasedKeepsInv(h, a);
      CoversRest(h, order);
      ReleasingAllRestores(Released(h, a), order[1..]);
      RunsFrom(h, Release(order[0]), Releases(order[1..]), InitialLayout());
    }
  }
}
