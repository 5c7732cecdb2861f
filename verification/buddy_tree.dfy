// The buddy system as a binary tree: the root is the arena, and a split block has two halves.
module BuddyTree {

  const MAX_LEVELS := 26

  function Pow2(n: nat): (r: nat)
    ensures r >= 1
  {
    if n == 0 then 1 else 2 * Pow2(n - 1)
  }

  /** The size of a block of a level. */
  function Width(level: int): nat
    requires 0 <= level <= MAX_LEVELS
  {
    Pow2(MAX_LEVELS - level)
  }

  lemma WidthHalves(level: int)
    requires 0 <= level < MAX_LEVELS
    ensures Width(level) == 2 * Width(level + 1)
  {
  }

  datatype Tree = Free | Used | Split(left: Tree, right: Tree)

  datatype Block = Block(level: int, addr: int)

  /** A tree below level `d`; the last level is not split. */
  predicate Fits(t: Tree, d: int) {
    0 <= d < MAX_LEVELS && (t.Split? ==> Fits(t.left, d + 1) && Fits(t.right, d + 1))
  }

  /** No block is split into two free halves. */
  predicate Normal(t: Tree) {
    t.Split? ==> !(t.left == Free && t.right == Free) && Normal(t.left) && Normal(t.right)
  }

  /** The blocks that are leaves of one kind, in the tree for the block `at`. */
  ghost function Leaves(t: Tree, at: Block, leaf: Tree): set<Block>
    requires Fits(t, at.level)
  {
    if t.Split? then Leaves(t.left, Left(at), leaf) + Leaves(t.right, Right(at), leaf)
    else if t == leaf then {at}
    else {}
  }

  function Left(at: Block): Block {
    Block(at.level + 1, at.addr)
  }

  function Right(at: Block): Block
    requires 0 <= at.level < MAX_LEVELS
  {
    Block(at.level + 1, at.addr + Width(at.level + 1))
  }

  const ARENA := Block(0, 0)

  /** Block `b` lies within block `at`. */
  predicate Within(b: Block, at: Block) {
    0 <= at.level <= b.level < MAX_LEVELS && at.addr <= b.addr && b.addr + Width(b.level) <= at.addr + Width(at.level)
  }

  lemma {:induction false} LeavesWithin(t: Tree, at: Block, leaf: Tree)
    requires Fits(t, at.level)
    ensures forall b | b in Leaves(t, at, leaf) :: Within(b, at)
    decreases t
  {
    if t.Split? {
      LeavesWithin(t.left, Left(at), leaf);
      LeavesWithin(t.right, Right(at), leaf);
    }
  }

  // ------------------------------------------------------------------ subtrees

  /** Following the halves from `at` leads to block `b`. */
  predicate Reaches(t: Tree, at: Block, b: Block)
    requires Fits(t, at.level)
  {
    if at.level == b.level then at == b
    else t.Split? && if b.addr < Right(at).addr then Reaches(t.left, Left(at), b) else Reaches(t.right, Right(at), b)
  }

  function Sub(t: Tree, at: Block, b: Block): (s: Tree)
    requires Fits(t, at.level) && Reaches(t, at, b)
    ensures Fits(s, b.level)
  {
    if at.level == b.level then t
    else if b.addr < Right(at).addr then Sub(t.left, Left(at), b)
    else Sub(t.right, Right(at), b)
  }

  function Put(t: Tree, at: Block, b: Block, s: Tree): (r: Tree)
    requires Fits(t, at.level) && Reaches(t, at, b) && Fits(s, b.level)
    ensures Fits(r, at.level) && Reaches(r, at, b) && Sub(r, at, b) == s
  {
    if at.level == b.level then s
    else if b.addr < Right(at).addr then Split(Put(t.left, Left(at), b, s), t.right)
    else Split(t.left, Put(t.right, Right(at), b, s))
  }

  lemma {:induction false} ReachedWithin(t: Tree, at: Block, b: Block)
    requires Fits(t, at.level) && Reaches(t, at, b)
    ensures Within(b, at)
    decreases t
  {
    if at.level != b.level {
      if b.addr < Right(at).addr {
        ReachedWithin(t.left, Left(at), b);
      } else {
        ReachedWithin(t.right, Right(at), b);
      }
    }
  }

  lemma Exchanged(part: set<Block>, other: set<Block>, out: set<Block>, put: set<Block>)
    requires out <= part && out !! other
    ensures (part - out + put) + other == (part + other) - out + put
  {
  }

  /** Blocks of the two halves differ. */
  lemma HalvesApart(at: Block, a: set<Block>, b: set<Block>)
    requires 0 <= at.level && at.level + 1 < MAX_LEVELS
    requires (forall x | x in a :: Within(x, Left(at))) && forall x | x in b :: Within(x, Right(at))
    ensures a !! b
  {
    forall x | x in a ensures x !in b {
    }
  }

  /** The leaves outside a subtree stay as they are when it is replaced. */
  lemma {:induction false} PutLeaves(t: Tree, at: Block, b: Block, s: Tree, leaf: Tree)
    requires Fits(t, at.level) && Reaches(t, at, b) && Fits(s, b.level)
    ensures Leaves(Put(t, at, b, s), at, leaf) == Leaves(t, at, leaf) - Leaves(Sub(t, at, b), b, leaf) + Leaves(s, b, leaf)
    ensures Leaves(Sub(t, at, b), b, leaf) <= Leaves(t, at, leaf)
    decreases t
  {
    hide Within, Width;
    if at.level != b.level {
      var left := Leaves(t.left, Left(at), leaf);
      var right := Leaves(t.right, Right(at), leaf);
      var out := Leaves(Sub(t, at, b), b, leaf);
      LeavesWithin(t.left, Left(at), leaf);
      LeavesWithin(t.right, Right(at), leaf);
      HalvesApart(at, left, right);
      if b.addr < Right(at).addr {
        PutLeaves(t.left, Left(at), b, s, leaf);
        Exchanged(left, right, out, Leaves(s, b, leaf));
      } else {
        PutLeaves(t.right, Right(at), b, s, leaf);
        Exchanged(right, left, out, Leaves(s, b, leaf));
      }
    }
  }

  /** A leaf is reached, and is what it is. */
  lemma {:induction false} LeafReached(t: Tree, at: Block, b: Block, leaf: Tree)
    requires Fits(t, at.level) && !leaf.Split? && b in Leaves(t, at, leaf)
    ensures Reaches(t, at, b) && Sub(t, at, b) == leaf
    decreases t
  {
    if t.Split? {
      LeavesWithin(t.left, Left(at), leaf);
      LeavesWithin(t.right, Right(at), leaf);
      if b in Leaves(t.left, Left(at), leaf) {
        LeafReached(t.left, Left(at), b, leaf);
      } else {
        LeafReached(t.right, Right(at), b, leaf);
      }
    }
  }

  // ------------------------------------------------------------------ the arena is tiled

  ghost function AllLeaves(t: Tree, at: Block): set<Block>
    requires Fits(t, at.level)
  {
    Leaves(t, at, Free) + Leaves(t, at, Used)
  }

  predicate Covers(b: Block, x: int) {
    0 <= b.level < MAX_LEVELS && b.addr <= x < b.addr + Width(b.level)
  }

  /** Every address is in some block ... */
  lemma {:induction false} SomeLeafCovers(t: Tree, at: Block, x: int) returns (b: Block)
    requires Fits(t, at.level) && Covers(at, x)
    ensures b in AllLeaves(t, at) && Covers(b, x)
    decreases t
  {
    if !t.Split? {
      b := at;
    } else if x < Right(at).addr {
      b := SomeLeafCovers(t.left, Left(at), x);
    } else {
      b := SomeLeafCovers(t.right, Right(at), x);
    }
  }

  /** ... and in no other. */
  lemma {:induction false} OneLeafCovers(t: Tree, at: Block, b: Block, c: Block, x: int)
    requires Fits(t, at.level) && b in AllLeaves(t, at) && c in AllLeaves(t, at) && Covers(b, x) && Covers(c, x)
    ensures b == c
    decreases t
  {
    if t.Split? {
      LeafOfHalf(t, at, b, x);
      LeafOfHalf(t, at, c, x);
      if x < Right(at).addr {
        OneLeafCovers(t.left, Left(at), b, c, x);
      } else {
        OneLeafCovers(t.right, Right(at), b, c, x);
      }
    }
  }

  lemma LeafOfHalf(t: Tree, at: Block, b: Block, x: int)
    requires Fits(t, at.level) && t.Split? && b in AllLeaves(t, at) && Covers(b, x)
    ensures if x < Right(at).addr then b in AllLeaves(t.left, Left(at)) else b in AllLeaves(t.right, Right(at))
  {
    hide Width;
    var leaf := if b in Leaves(t, at, Free) then Free else Used;
    LeavesWithin(t.left, Left(at), leaf);
    LeavesWithin(t.right, Right(at), leaf);
    assert b in Leaves(t.left, Left(at), leaf) || b in Leaves(t.right, Right(at), leaf);
    assert b in Leaves(t.left, Left(at), leaf) ==> Within(b, Left(at));
    assert b in Leaves(t.right, Right(at), leaf) ==> Within(b, Right(at));
  }

  /** No block is both free and used. */
  lemma {:induction false} FreeIsNotUsed(t: Tree, at: Block)
    requires Fits(t, at.level)
    ensures Leaves(t, at, Free) !! Leaves(t, at, Used)
    decreases t
  {
    if t.Split? {
      LeavesWithin(t.left, Left(at), Free);
      LeavesWithin(t.left, Left(at), Used);
      LeavesWithin(t.right, Right(at), Free);
      LeavesWithin(t.right, Right(at), Used);
      FreeIsNotUsed(t.left, Left(at));
      FreeIsNotUsed(t.right, Right(at));
    }
  }

  /** Which block of its level a block is. */
  function Index(b: Block): int
    requires 0 <= b.level <= MAX_LEVELS
  {
    b.addr / Width(b.level)
  }

  predicate Aligned(b: Block) {
    0 <= b.level <= MAX_LEVELS && b.addr == Index(b) * Width(b.level)
  }

  lemma HalvesAligned(at: Block)
    requires Aligned(at) && at.level < MAX_LEVELS
    ensures Aligned(Left(at)) && Index(Left(at)) == 2 * Index(at)
    ensures Aligned(Right(at)) && Index(Right(at)) == 2 * Index(at) + 1
  {
    var w := Width(at.level + 1);
    var k := Index(at);
    WidthHalves(at.level);
    TwoHalves(at.addr, k, w);
    Quotient(2 * k, w);
    Quotient(2 * k + 1, w);
  }

  lemma TwoHalves(addr: int, k: int, w: int)
    requires addr == k * (2 * w)
    ensures addr == (2 * k) * w && addr + w == (2 * k + 1) * w
  {
  }

  lemma Quotient(k: int, w: int)
    requires w > 0
    ensures k * w / w == k
  {
    var q := k * w / w;
    assert k * w - q * w == (k * w) % w;
    Multiples(k - q, w);
  }

  lemma Multiples(d: int, w: int)
    requires w > 0
    ensures d > 0 ==> d * w >= w
    ensures d < 0 ==> d * w <= -w
  {
  }

  /** Each block of a level is aligned to its own size. */
  lemma {:induction false} ReachedAligned(t: Tree, at: Block, b: Block)
    requires Fits(t, at.level) && Reaches(t, at, b) && Aligned(at)
    ensures Aligned(b)
    decreases t
  {
    if at.level != b.level {
      HalvesAligned(at);
      if b.addr < Right(at).addr {
        ReachedAligned(t.left, Left(at), b);
      } else {
        ReachedAligned(t.right, Right(at), b);
      }
    }
  }

  // ------------------------------------------------------------------ buddies

  /** The other half of the block that `b` is a half of, by the parity of its index. */
  function Buddy(b: Block): Block
    requires 0 <= b.level <= MAX_LEVELS
  {
    if Index(b) % 2 == 0 then Block(b.level, b.addr + Width(b.level)) else Block(b.level, b.addr - Width(b.level))
  }

  function Parent(b: Block): Block
    requires 0 <= b.level <= MAX_LEVELS
  {
    Block(b.level - 1, if Index(b) % 2 == 0 then b.addr else Buddy(b).addr)
  }

  /** The parity rule finds the only other half. */
  lemma {:induction false} BuddyIsSibling(t: Tree, at: Block, b: Block)
    requires Fits(t, at.level) && at.level < b.level < MAX_LEVELS && Reaches(t, at, b) && Aligned(at)
    ensures var p := Parent(b);
            && Reaches(t, at, p) && Sub(t, at, p).Split?
            && (if Index(b) % 2 == 0 then b == Left(p) && Buddy(b) == Right(p) else b == Right(p) && Buddy(b) == Left(p))
    ensures Reaches(t, at, Buddy(b))
    ensures Sub(t, at, Parent(b)) ==
            if Index(b) % 2 == 0 then Split(Sub(t, at, b), Sub(t, at, Buddy(b))) else Split(Sub(t, at, Buddy(b)), Sub(t, at, b))
    decreases t
  {
    hide Index, Aligned, Pow2;
    HalvesAligned(at);
    if at.level + 1 < b.level {
      if b.addr < Right(at).addr {
        BuddyIsSibling(t.left, Left(at), b);
        ReachedWithin(t.left, Left(at), Parent(b));
        ReachedWithin(t.left, Left(at), Buddy(b));
      } else {
        BuddyIsSibling(t.right, Right(at), b);
        ReachedWithin(t.right, Right(at), Parent(b));
        ReachedWithin(t.right, Right(at), Buddy(b));
      }
    }
  }

  // ------------------------------------------------------------------ normal trees

  lemma {:induction false} PutNormal(t: Tree, at: Block, b: Block, s: Tree)
    requires Fits(t, at.level) && Reaches(t, at, b) && Fits(s, b.level)
    requires Normal(t) && Normal(s) && s != Free
    ensures Normal(Put(t, at, b, s)) && Put(t, at, b, s) != Free
    decreases t
  {
    if at.level != b.level {
      if b.addr < Right(at).addr {
        PutNormal(t.left, Left(at), b, s);
      } else {
        PutNormal(t.right, Right(at), b, s);
      }
    }
  }

  /** A block can be freed alone if its buddy is not free. */
  lemma {:induction false} PutFreeNormal(t: Tree, at: Block, b: Block)
    requires Fits(t, at.level) && at.level <= b.level < MAX_LEVELS && Reaches(t, at, b) && Aligned(at) && Normal(t)
    requires at.level < b.level ==> Reaches(t, at, Buddy(b)) && Sub(t, at, Buddy(b)) != Free
    ensures Normal(Put(t, at, b, Free)) && (at.level < b.level ==> Put(t, at, b, Free).Split?)
    decreases t
  {
    if at.level != b.level {
      HalvesAligned(at);
      BuddyIsSibling(t, at, b);
      if at.level + 1 == b.level {
      } else if b.addr < Right(at).addr {
        BuddyIsSibling(t.left, Left(at), b);
        ReachedWithin(t.left, Left(at), Buddy(b));
        PutFreeNormal(t.left, Left(at), b);
      } else {
        BuddyIsSibling(t.right, Right(at), b);
        ReachedWithin(t.right, Right(at), Buddy(b));
        PutFreeNormal(t.right, Right(at), b);
      }
    }
  }

  /** A split block of a normal tree holds a used one. */
  lemma {:induction false} SplitHoldsUsed(t: Tree, at: Block)
    requires Fits(t, at.level) && Normal(t) && t != Free
    ensures Leaves(t, at, Used) != {}
    decreases t
  {
    if t.Split? {
      if t.left != Free {
        SplitHoldsUsed(t.left, Left(at));
      } else {
        SplitHoldsUsed(t.right, Right(at));
      }
    }
  }

  /** The used blocks decide the whole tree: what is free, and how it is split, does not depend
      on how it came about. */
  lemma {:induction false} UsedBlocksDecide(t: Tree, r: Tree, at: Block)
    requires Fits(t, at.level) && Fits(r, at.level) && Normal(t) && Normal(r)
    requires Leaves(t, at, Used) == Leaves(r, at, Used)
    ensures t == r
    decreases t
  {
    if t == Free || r == Free {
      NoneUsed(t, at);
      NoneUsed(r, at);
    } else if t == Used {
      NotSplit(r, at);
    } else if r == Used {
      NotSplit(t, at);
    } else {
      HalfLeaves(t, at);
      HalfLeaves(r, at);
      UsedBlocksDecide(t.left, r.left, Left(at));
      UsedBlocksDecide(t.right, r.right, Right(at));
    }
  }

  lemma NoneUsed(t: Tree, at: Block)
    requires Fits(t, at.level) && Normal(t)
    ensures t == Free <==> Leaves(t, at, Used) == {}
  {
    if t != Free {
      SplitHoldsUsed(t, at);
    }
  }

  lemma NotSplit(t: Tree, at: Block)
    requires Fits(t, at.level) && at in Leaves(t, at, Used)
    ensures !t.Split?
  {
    if t.Split? {
      LeavesWithin(t.left, Left(at), Used);
      LeavesWithin(t.right, Right(at), Used);
    }
  }

  lemma HalfLeaves(t: Tree, at: Block)
    requires Fits(t, at.level) && t.Split?
    ensures Leaves(t.left, Left(at), Used) == set b | b in Leaves(t, at, Used) && b.addr < Right(at).addr
    ensures Leaves(t.right, Right(at), Used) == set b | b in Leaves(t, at, Used) && b.addr >= Right(at).addr
  {
    LeavesWithin(t.left, Left(at), Used);
    LeavesWithin(t.right, Right(at), Used);
  }
}
