// The buddy allocator: one list of free blocks per level, changed in place. Addresses count from
// the start of the arena.
module Buddy {
  import opened BuddyTree
  import opened Lists

  const MAX_SIZE := Pow2(MAX_LEVELS)
  const WORD := 0x1_0000_0000_0000_0000

  /** What a block keeps for itself: a level byte and two list pointers. */
  const OVERHEAD := 17

  const NULL := -1

  /** What is taken from the arena for a request, in 64-bit arithmetic. */
  function Request(size: nat): nat {
    (size + OVERHEAD) % WORD
  }

  function SizeAtLevel(level: nat): nat {
    MAX_SIZE / Pow2(level)
  }

  lemma {:induction false} Pow2Splits(n: nat, m: nat)
    ensures Pow2(n + m) == Pow2(n) * Pow2(m)
  {
    if n > 0 {
      Pow2Splits(n - 1, m);
    }
  }

  /** Integer division gives the exact sizes of the levels there are, and 0 from the one after
      the smallest on. */
  lemma SizeIsWidth(level: nat)
    ensures level <= MAX_LEVELS ==> SizeAtLevel(level) == Width(level)
    ensures level > MAX_LEVELS ==> SizeAtLevel(level) == 0
  {
    hide Pow2;
    if level <= MAX_LEVELS {
      Pow2Splits(MAX_LEVELS - level, level);
      Quotient(Width(level), Pow2(level));
    } else {
      Pow2Grows(MAX_LEVELS, level);
      SmallQuotient(MAX_SIZE, Pow2(level));
    }
  }

  lemma SmallQuotient(a: nat, b: nat)
    requires a < b
    ensures a / b == 0
  {
  }

  lemma {:induction false} Pow2Grows(n: nat, m: nat)
    requires n < m
    ensures Pow2(n) < Pow2(m)
  {
    if n + 1 < m {
      Pow2Grows(n, m - 1);
    }
  }

  /** The level of a request: the smallest block that is larger than it; -1 if even the arena is
      not. */
  method GetLevel(size: nat) returns (level: int)
    ensures -1 <= level <= MAX_LEVELS
    ensures level >= 0 ==> SizeAtLevel(level) > size
    ensures SizeAtLevel(level + 1) <= size
  {
    var l := 0;
    while SizeAtLevel(l) > size
      invariant 0 <= l <= MAX_LEVELS + 1
      invariant l > 0 ==> SizeAtLevel(l - 1) > size
      decreases MAX_LEVELS + 1 - l
    {
      SizeIsWidth(l);
      l := l + 1;
    }
    return l - 1;
  }

  // ------------------------------------------------------------------ steps on the tree

  lemma TakeLeaf(t: Tree, b: Block)
    requires Fits(t, 0) && Normal(t) && b in Leaves(t, ARENA, Free)
    ensures Reaches(t, ARENA, b) && Within(b, ARENA)
    ensures var r := Put(t, ARENA, b, Used);
            && Normal(r)
            && Leaves(r, ARENA, Free) == Leaves(t, ARENA, Free) - {b}
            && Leaves(r, ARENA, Used) == Leaves(t, ARENA, Used) + {b} && b !in Leaves(t, ARENA, Used)
  {
    FreeIsNotUsed(t, ARENA);
    LeafReached(t, ARENA, b, Free);
    LeavesWithin(t, ARENA, Free);
    PutLeaves(t, ARENA, b, Used, Free);
    PutLeaves(t, ARENA, b, Used, Used);
    PutNormal(t, ARENA, b, Used);
  }

  function Halved(t: Tree, p: Block): (r: Tree)
    requires Fits(t, 0) && Reaches(t, ARENA, p) && 0 <= p.level && p.level + 1 < MAX_LEVELS
    ensures Fits(r, 0)
  {
    assert Fits(Used, p.level + 1) && Fits(Free, p.level + 1);
    Put(t, ARENA, p, Split(Used, Free))
  }

  /** A block just taken is halved: the left half is taken, the right half free. */
  lemma HalveLeaf(t: Tree, p: Block)
    requires Fits(t, 0) && Normal(t) && p in Leaves(t, ARENA, Used) && 0 <= p.level && p.level + 1 < MAX_LEVELS
    ensures Reaches(t, ARENA, p) && Within(p, ARENA)
    ensures var r := Halved(t, p);
            && Normal(r)
            && Leaves(r, ARENA, Free) == Leaves(t, ARENA, Free) + {Right(p)}
            && Leaves(r, ARENA, Used) == Leaves(t, ARENA, Used) - {p} + {Left(p)}
            && Right(p) !in Leaves(t, ARENA, Free) && Left(p) !in Leaves(t, ARENA, Used)
  {
    LeafReached(t, ARENA, p, Used);
    LeavesWithin(t, ARENA, Used);
    PutLeaves(t, ARENA, p, Split(Used, Free), Free);
    PutLeaves(t, ARENA, p, Split(Used, Free), Used);
    PutNormal(t, ARENA, p, Split(Used, Free));
    NothingBelow(t, p);
  }

  lemma NothingBelow(t: Tree, p: Block)
    requires Fits(t, 0) && p in Leaves(t, ARENA, Used) && 0 <= p.level && p.level + 1 < MAX_LEVELS
    ensures Right(p) !in Leaves(t, ARENA, Free) && Left(p) !in Leaves(t, ARENA, Used)
  {
    LeafReached(t, ARENA, p, Used);
    if Right(p) in Leaves(t, ARENA, Free) {
      LeafReached(t, ARENA, Right(p), Free);
      Descends(t, ARENA, p, Right(p));
    }
    if Left(p) in Leaves(t, ARENA, Used) {
      LeafReached(t, ARENA, Left(p), Used);
      Descends(t, ARENA, p, Left(p));
    }
  }

  /** Nothing is reached below a leaf. */
  lemma {:induction false} Descends(t: Tree, at: Block, p: Block, b: Block)
    requires Fits(t, at.level) && Reaches(t, at, p) && Reaches(t, at, b) && Within(b, p) && p.level < b.level
    ensures Sub(t, at, p).Split?
    decreases t
  {
    ReachedWithin(t, at, p);
    ReachedWithin(t, at, b);
    if at.level != p.level {
      if p.addr < Right(at).addr {
        ReachedWithin(t.left, Left(at), p);
        Descends(t.left, Left(at), p, b);
      } else {
        Descends(t.right, Right(at), p, b);
      }
    }
  }

  lemma ArenaAligned()
    ensures Aligned(ARENA)
  {
  }

  /** A block given back whose buddy is free becomes, with it, the block they are halves of. */
  lemma MergeLeaves(t: Tree, b: Block)
    requires Fits(t, 0) && Normal(t) && b in Leaves(t, ARENA, Used) && 0 < b.level < MAX_LEVELS
    requires Buddy(b) in Leaves(t, ARENA, Free)
    ensures Reaches(t, ARENA, Parent(b))
    ensures var p := Parent(b); var r := Put(t, ARENA, p, Used);
            && Normal(r)
            && Leaves(r, ARENA, Free) == Leaves(t, ARENA, Free) - {Buddy(b)}
            && Leaves(r, ARENA, Used) == Leaves(t, ARENA, Used) - {b} + {p}
            && p !in Leaves(t, ARENA, Used) && b !in Leaves(t, ARENA, Free)
  {
    hide Normal, Aligned, Index;
    ArenaAligned();
    FreeIsNotUsed(t, ARENA);
    var p := Parent(b);
    LeafReached(t, ARENA, b, Used);
    LeafReached(t, ARENA, Buddy(b), Free);
    BuddyIsSibling(t, ARENA, b);
    PutLeaves(t, ARENA, p, Used, Free);
    PutLeaves(t, ARENA, p, Used, Used);
    PutNormal(t, ARENA, p, Used);
    if p in Leaves(t, ARENA, Used) {
      LeafReached(t, ARENA, p, Used);
    }
  }

  lemma FreeLeaf(t: Tree, b: Block)
    requires Fits(t, 0) && Normal(t) && b in Leaves(t, ARENA, Used) && 0 <= b.level < MAX_LEVELS
    requires Buddy(b) !in Leaves(t, ARENA, Free)
    ensures Reaches(t, ARENA, b)
    ensures var r := Put(t, ARENA, b, Free);
            && Normal(r)
            && Leaves(r, ARENA, Free) == Leaves(t, ARENA, Free) + {b} && b !in Leaves(t, ARENA, Free)
            && Leaves(r, ARENA, Used) == Leaves(t, ARENA, Used) - {b}
  {
    hide Normal, Aligned, Index;
    ArenaAligned();
    LeafReached(t, ARENA, b, Used);
    FreeIsNotUsed(t, ARENA);
    if b.level > 0 {
      BuddyIsSibling(t, ARENA, b);
      PutLeaves(t, ARENA, Buddy(b), Free, Free);
    }
    PutFreeNormal(t, ARENA, b);
    PutLeaves(t, ARENA, b, Free, Free);
    PutLeaves(t, ARENA, b, Free, Used);
  }

  lemma TopHasNoBuddy(t: Tree, b: Block)
    requires Fits(t, 0) && b in Leaves(t, ARENA, Used) && b.level == 0
    ensures Buddy(b) !in Leaves(t, ARENA, Free)
  {
    LeavesWithin(t, ARENA, Free);
    LeavesWithin(t, ARENA, Used);
  }

  /** A list holds the free blocks of its level, each once. */
  ghost predicate ListOk(l: seq<int>, free: set<Block>, level: int) {
    NoRepeats(l) && forall a {:trigger a in l} {:trigger Block(level, a) in free} :: a in l <==> Block(level, a) in free
  }

  ghost predicate ListsOk(lists: seq<seq<int>>, free: set<Block>) {
    |lists| == MAX_LEVELS && forall l | 0 <= l < MAX_LEVELS :: ListOk(lists[l], free, l)
  }

  /** Only the list of one level has changed, and with it the free blocks of that level. */
  lemma ListsAfter(lists: seq<seq<int>>, free: set<Block>, level: int, l: seq<int>, free': set<Block>)
    requires ListsOk(lists, free) && 0 <= level < MAX_LEVELS && ListOk(l, free', level)
    requires forall b: Block | b.level != level :: b in free <==> b in free'
    ensures ListsOk(lists[level := l], free')
  {
    var r := lists[level := l];
    forall k | 0 <= k < MAX_LEVELS ensures ListOk(r[k], free', k) {
      assert ListOk(lists[k], free, k);
    }
  }

  /** The list of a level is empty exactly when no block of that level is free. */
  lemma NoneAt(lists: seq<seq<int>>, free: set<Block>, level: int)
    requires ListsOk(lists, free) && 0 <= level < MAX_LEVELS
    ensures lists[level] == [] <==> forall b | b in free :: b.level != level
    ensures lists[level] != [] ==> Block(level, lists[level][0]) in free
  {
    assert ListOk(lists[level], free, level);
    if lists[level] == [] {
      forall b | b in free ensures b.level != level {
        assert Block(level, b.addr) !in free;
      }
    } else {
      assert lists[level][0] in lists[level];
    }
  }

  lemma NoneBelow(t: Tree)
    requires Fits(t, 0)
    ensures forall b | b in Leaves(t, ARENA, Free) :: b.level >= 0
  {
    LeavesWithin(t, ARENA, Free);
  }

  lemma NotListed(lists: seq<seq<int>>, free: set<Block>, level: int, a: int)
    requires ListsOk(lists, free) && 0 <= level < MAX_LEVELS && Block(level, a) !in free
    ensures a !in lists[level]
  {
    assert ListOk(lists[level], free, level);
  }

  lemma Popped(lists: seq<seq<int>>, free: set<Block>, level: int)
    requires ListsOk(lists, free) && 0 <= level < MAX_LEVELS && lists[level] != []
    ensures ListsOk(lists[level := lists[level][1..]], free - {Block(level, lists[level][0])})
  {
    var l := lists[level];
    assert ListOk(l, free, level);
    assert forall a :: a in l <==> a == l[0] || a in l[1..];
    ListsAfter(lists, free, level, l[1..], free - {Block(level, l[0])});
  }

  lemma Pushed(lists: seq<seq<int>>, free: set<Block>, level: int, a: int)
    requires ListsOk(lists, free) && 0 <= level < MAX_LEVELS && Block(level, a) !in free
    ensures ListsOk(lists[level := lists[level] + [a]], free + {Block(level, a)})
  {
    var l := lists[level];
    assert ListOk(l, free, level);
    assert a !in l;
    ListsAfter(lists, free, level, l + [a], free + {Block(level, a)});
  }

  lemma Unlinked(lists: seq<seq<int>>, free: set<Block>, level: int, a: int)
    requires ListsOk(lists, free) && 0 <= level < MAX_LEVELS
    ensures ListsOk(lists[level := WithoutFirst(lists[level], a)], free - {Block(level, a)})
  {
    var l := lists[level];
    assert ListOk(l, free, level);
    WithoutFirstIs(l, a);
    ListsAfter(lists, free, level, WithoutFirst(l, a), free - {Block(level, a)});
  }

  /** Block `b` is free, and no smaller free one is large enough for a level. */
  ghost predicate SmallestFor(b: Block, free: set<Block>, level: int) {
    b in free && b.level <= level && forall c | c in free && c.level <= level :: c.level <= b.level
  }

  lemma SmallerNone(b: Block, free: set<Block>, level: int)
    requires SmallestFor(b, free, level - 1) && forall c | c in free :: c.level != level
    ensures SmallestFor(b, free, level)
  {
  }

  lemma FreeIsSmallest(t: Tree, b: Block)
    requires Fits(t, 0) && b in Leaves(t, ARENA, Free)
    ensures Within(b, b) && SmallestFor(b, Leaves(t, ARENA, Free), b.level)
  {
    LeavesWithin(t, ARENA, Free);
  }

  lemma LeftHalfWithin(m: int, level: int, b: Block)
    requires 0 < level < MAX_LEVELS && Within(Block(level - 1, m), b)
    ensures Within(Block(level, m), b)
  {
    WidthHalves(level - 1);
  }

  class Allocator {
    const freeLists: array<seq<int>>

    /** The level byte at the start of each block given out. */
    var levels: map<int, nat>
    var usedMemory: int
    ghost var tree: Tree

    /** What each block given out was taken for, and what was given back so far. */
    ghost var requests: map<Block, nat>
    ghost var givenBack: seq<Loan>

    ghost predicate Valid()
      reads this`tree, freeLists
    {
      && freeLists.Length == MAX_LEVELS && Fits(tree, 0) && Normal(tree)
      && ListsOk(freeLists[..], Leaves(tree, ARENA, Free))
    }

    /** The blocks given out. */
    ghost function Live(): set<Block>
      requires Fits(tree, 0)
      reads this`tree
    {
      Leaves(tree, ARENA, Used)
    }

    constructor ()
      ensures Valid() && Stamped() && Accounted() && Live() == {} && tree == Free && givenBack == [] && fresh(freeLists)
    {
      freeLists := new seq<int>[MAX_LEVELS](_ => []);
      levels, usedMemory, tree := map[], 0, Free;
      requests, givenBack := map[], [];
      new;
      freeLists[0] := freeLists[0] + [0];
    }

    /** Both halves of block `m` of the level above go to the list of free blocks, the left one
        first; `taken` is the tree once that one is taken out again. */
    method Halve(level: int, m: int) returns (ghost taken: Tree)
      requires Valid() && 0 < level < MAX_LEVELS && freeLists[level] == [] && Block(level - 1, m) in Live()
      modifies freeLists
      ensures freeLists[level] != [] && freeLists[level][0] == m
      ensures forall l | 0 <= l < MAX_LEVELS && l != level :: freeLists[l] == old(freeLists[l])
      ensures Fits(taken, 0) && Normal(taken)
      ensures ListsOk(freeLists[..][level := freeLists[level][1..]], Leaves(taken, ARENA, Free))
      ensures Leaves(taken, ARENA, Used) == Live() - {Block(level - 1, m)} + {Block(level, m)} && Block(level, m) !in Live()
    {
      hide Leaves, Normal, ListOk, ListsOk, Within, Reaches, Put, Pow2, SizeAtLevel;
      ghost var p := Block(level - 1, m);
      HalveLeaf(tree, p);
      var size := SizeAtLevel(level);
      SizeIsWidth(level);
      Pushed(freeLists[..], Leaves(tree, ARENA, Free), level, m + size);
      ghost var lists := freeLists[..];
      freeLists[level] := freeLists[level] + [m];
      freeLists[level] := freeLists[level] + [m + size];
      assert freeLists[level] == [m, m + size];
      assert freeLists[level][1..] == [m + size] == lists[level] + [m + size];
      assert freeLists[..][level := freeLists[level][1..]] == lists[level := lists[level] + [m + size]];
      taken := Halved(tree, p);
    }

    /** Takes the head of a list, which makes `taken` the tree. */
    method PopHead(level: int, ghost taken: Tree) returns (mem: int)
      requires freeLists.Length == MAX_LEVELS && 0 <= level < MAX_LEVELS && freeLists[level] != []
      requires Fits(taken, 0) && Normal(taken)
      requires ListsOk(freeLists[..][level := freeLists[level][1..]], Leaves(taken, ARENA, Free))
      modifies this`tree, freeLists
      ensures Valid() && tree == taken && mem == old(freeLists[level][0])
      ensures forall l | 0 <= l < MAX_LEVELS && l != level :: freeLists[l] == old(freeLists[l])
    {
      hide Leaves, Normal, Fits, ListsOk;
      mem := freeLists[level][0];
      freeLists[level] := freeLists[level][1..];
      tree := taken;
    }

    /** A block of a level, halving a larger one if there is none; NULL if there is no block of
        that level or a larger one. */
    method AllocBlock(level: int) returns (mem: int)
      requires Valid()
      modifies this`tree, freeLists
      ensures Valid()
      ensures mem == NULL <==> !(0 <= level < MAX_LEVELS) || forall b | b in old(Leaves(tree, ARENA, Free)) :: b.level > level
      ensures mem == NULL ==> tree == old(tree) && freeLists[..] == old(freeLists[..])
      ensures mem != NULL ==> Block(level, mem) !in old(Live()) && Live() == old(Live()) + {Block(level, mem)}
      ensures mem != NULL ==> exists b :: SmallestFor(b, old(Leaves(tree, ARENA, Free)), level) && Within(Block(level, mem), b)
      ensures forall l | 0 <= l < MAX_LEVELS && l > level :: freeLists[l] == old(freeLists[l])
      decreases level
    {
      if level < 0 || level >= MAX_LEVELS {
        return NULL;
      }
      hide Leaves, Normal, Fits, ListOk, ListsOk, Within, SmallestFor, Put, Reaches, Pow2, Halved;
      ghost var taken: Tree;
      ghost var free := Leaves(tree, ARENA, Free);
      ghost var b: Block;
      NoneAt(freeLists[..], Leaves(tree, ARENA, Free), level);
      NoneBelow(tree);
      if |freeLists[level]| == 0 {
        var m := AllocBlock(level - 1);
        if m == NULL {
          return NULL;
        }
        b :| SmallestFor(b, free, level - 1) && Within(Block(level - 1, m), b);
        SmallerNone(b, free, level);
        LeftHalfWithin(m, level, b);
        taken := Halve(level, m);
      } else {
        b := Block(level, freeLists[level][0]);
        FreeIsSmallest(tree, b);
        Popped(freeLists[..], Leaves(tree, ARENA, Free), level);
        TakeLeaf(tree, Block(level, freeLists[level][0]));
        taken := Put(tree, ARENA, Block(level, freeLists[level][0]), Used);
      }
      mem := PopHead(level, taken);
      assert SmallestFor(b, free, level) && Within(Block(level, mem), b);
    }

    method FindInList(level: int, mem: int) returns (found: bool)
      requires Valid() && 0 <= level < MAX_LEVELS
      ensures found <==> Block(level, mem) in Leaves(tree, ARENA, Free)
    {
      var l := freeLists[level];
      assert ListOk(freeLists[..][level], Leaves(tree, ARENA, Free), level);
      var i := 0;
      while i < |l|
        invariant 0 <= i <= |l| && mem !in l[..i]
      {
        if l[i] == mem {
          return true;
        }
        i := i + 1;
      }
      return false;
    }

    /** Gives a block back, and merges it with its buddy as long as that is free, too. */
    method FreeBlock(mem: int, level: int)
      requires Valid() && 0 <= level < MAX_LEVELS && Block(level, mem) in Live()
      modifies this`tree, freeLists
      ensures Valid() && Live() == old(Live()) - {Block(level, mem)}
      decreases level
    {
      hide Leaves, Normal, ListOk, ListsOk, Within, Put, Reaches, Pow2, SizeAtLevel;
      ghost var b := Block(level, mem);
      var size := SizeAtLevel(level);
      SizeIsWidth(level);
      var even := mem / size % 2 == 0;
      var buddy := if even then mem + size else mem - size;
      var found := FindInList(level, buddy);
      if level == 0 {
        TopHasNoBuddy(tree, b);
      }
      if found {
        MergeLeaves(tree, b);
        Unlinked(freeLists[..], Leaves(tree, ARENA, Free), level, buddy);
        NotListed(freeLists[..], Leaves(tree, ARENA, Free), level, mem);
        tree := Put(tree, ARENA, Parent(b), Used);
      } else {
        FreeLeaf(tree, b);
        Pushed(freeLists[..], Leaves(tree, ARENA, Free), level, mem);
        tree := Put(tree, ARENA, b, Free);
      }
      freeLists[level] := freeLists[level] + [mem];
      if found {
        freeLists[level] := WithoutFirst(freeLists[level], mem);
        freeLists[level] := WithoutFirst(freeLists[level], buddy);
        AppendedGone(old(freeLists[level]), mem);
        assert freeLists[..] == old(freeLists[..])[level := WithoutFirst(old(freeLists[level]), buddy)];
        FreeBlock(if even then mem else buddy, level - 1);
      }
    }

    /** The byte before each payload tells its level. */
    ghost predicate Stamped()
      requires Fits(tree, 0)
      reads this`tree, this`levels
    {
      forall b | b in Live() :: b.addr in levels && levels[b.addr] == b.level
    }

    /** The count of used memory: requests are added, but whole blocks taken off. */
    ghost predicate Accounted()
      requires Fits(tree, 0)
      reads this`tree, this`usedMemory, this`requests, this`givenBack
    {
      && requests.Keys == Live() && AllLoans(requests) && AllReturned(givenBack)
      && usedMemory == Total(requests) - Excess(givenBack)
    }

    /** The payload starts one byte into the block. */
    method Alloc(size: nat) returns (ptr: int)
      requires Valid() && Stamped() && Accounted() && size < WORD
      modifies this, freeLists
      ensures Valid() && Stamped() && Accounted() && givenBack == old(givenBack)
      ensures ptr == NULL ==> Live() == old(Live()) && tree == old(tree) && requests == old(requests)
      ensures ptr != NULL ==> ptr - 1 in levels && var b := Block(levels[ptr - 1], ptr - 1);
                && b !in old(Live()) && Live() == old(Live()) + {b} && LevelFor(Request(size), b.level)
                && requests == old(requests)[b := Request(size)]
                && (SizeAtLevel(b.level) - 1 >= size <==> size + OVERHEAD < WORD)
      ensures ptr == NULL <==> forall l | 0 <= l < MAX_LEVELS && LevelFor(Request(size), l) ::
                forall b | b in old(Leaves(tree, ARENA, Free)) :: b.level > l
    {
      hide Leaves, Normal, ListOk, ListsOk, Pow2, SizeAtLevel, Total, Excess;
      var blockSize := (size + OVERHEAD) % WORD;
      var level := GetLevel(blockSize);
      LevelIsUnique(blockSize, level);
      var mem := AllocBlock(level);
      if mem == NULL {
        return NULL;
      }
      assert LevelFor(Request(size), level);
      HoldsRequest(size, level);
      ghost var b := Block(level, mem);
      OtherAddresses(tree, b);
      TotalAdds(requests, b, blockSize);
      requests := requests[b := blockSize];
      usedMemory := usedMemory + blockSize;
      levels := levels[mem := level];
      return mem + 1;
    }

    /** Gives the payload at `ptr` back. */
    method FreeMem(ptr: int)
      requires Valid() && Stamped() && Accounted() && exists b :: b in Live() && b.addr == ptr - 1
      modifies this, freeLists
      ensures Valid() && Stamped() && Accounted()
      ensures ptr - 1 in old(levels) && var b := Block(old(levels)[ptr - 1], ptr - 1);
                && Live() == old(Live()) - {b} && b in old(requests)
                && requests == old(requests) - {b} && givenBack == old(givenBack) + [Loan(b, old(requests)[b])]
    {
      hide Leaves, Normal, ListOk, ListsOk, Pow2, SizeAtLevel, Total, Excess;
      LeavesWithin(tree, ARENA, Used);
      var level := levels[ptr - 1];
      ghost var b := Block(level, ptr - 1);
      FreeBlock(ptr - 1, level);
      TotalTakes(requests, b);
      ExcessAdds(givenBack, Loan(b, requests[b]));
      givenBack := givenBack + [Loan(b, requests[b])];
      requests := requests - {b};
      usedMemory := usedMemory - SizeAtLevel(level);
    }

    /** The count shrinks with every block that is given back. With nothing given out any more
        it is 0 only if nothing ever was. */
    lemma UsedMemoryDrifts()
      requires Valid() && Accounted()
      ensures usedMemory <= Total(requests) - |givenBack|
      ensures Live() == {} ==> usedMemory == -Excess(givenBack) && (usedMemory == 0 <==> givenBack == [])
    {
      ExcessGrows(givenBack);
      if Live() == {} {
        assert requests == map[];
      }
    }

    /** When everything is given back, whatever happened before, the arena is one free block. */
    lemma AllFreed()
      requires Valid() && Live() == {}
      ensures tree == Free && freeLists[0] == [0]
      ensures forall l | 0 < l < MAX_LEVELS :: freeLists[l] == []
    {
      NoneUsed(tree, ARENA);
      forall l | 0 < l < MAX_LEVELS ensures freeLists[l] == [] {
        NoneAt(freeLists[..], Leaves(tree, ARENA, Free), l);
      }
      NoneAt(freeLists[..], Leaves(tree, ARENA, Free), 0);
      OnlyOne(freeLists[0]);
    }
  }

  /** Any block given out and back, and nothing else, leaves the count below zero. */
  method LendOnce(size: nat) returns (a: Allocator)
    requires size + OVERHEAD < MAX_SIZE
    ensures fresh(a) && a.Valid() && a.Stamped() && a.Accounted() && a.Live() == {}
    ensures |a.givenBack| == 1 && a.usedMemory < 0
  {
    hide Leaves, SizeAtLevel, Pow2, ListsOk, Normal;
    a := new Allocator();
    ArenaFits(size);
    ghost var level := FitLevel(size + OVERHEAD, 0);
    assert Leaves(a.tree, ARENA, Free) == {ARENA} by { FreshLeaves(); }
    var ptr := a.Alloc(size);
    assert LevelFor(Request(size), level) && ARENA.level <= level;
    assert Block(a.levels[ptr - 1], ptr - 1) in a.Live();
    a.FreeMem(ptr);
    a.UsedMemoryDrifts();
  }

  lemma OnlyOne(l: seq<int>)
    requires ListOk(l, {ARENA}, 0)
    ensures l == [0]
  {
    assert 0 in l by {
      assert Block(0, 0) in {ARENA};
    }
    forall i | 0 <= i < |l| ensures l[i] == 0 {
      var a := l[i];
      assert a in l && Block(0, a) in {ARENA};
    }
    var k := if |l| >= 2 then 1 else 0;
    assert l[k] == l[0];
  }

  // ------------------------------------------------------------------ used memory

  datatype Loan = Loan(block: Block, request: nat)

  /** What a block has that its request did not ask for. */
  function Surplus(l: Loan): int
    requires l.block.level >= 0
  {
    SizeAtLevel(l.block.level) - l.request
  }

  predicate AllLoans(m: map<Block, nat>) {
    forall b | b in m :: b.level >= 0 && LevelFor(m[b], b.level)
  }

  predicate AllReturned(l: seq<Loan>) {
    forall i | 0 <= i < |l| :: l[i].block.level >= 0 && LevelFor(l[i].request, l[i].block.level)
  }

  ghost function Total(m: map<Block, nat>): int {
    if m == map[] then 0
    else
      var b :| b in m;
      m[b] + Total(m - {b})
  }

  lemma {:induction false} TotalTakes(m: map<Block, nat>, b: Block)
    requires b in m
    ensures Total(m) == m[b] + Total(m - {b})
    decreases m
  {
    var c :| c in m && Total(m) == m[c] + Total(m - {c});
    if c != b {
      TotalTakes(m - {c}, b);
      TotalTakes(m - {b}, c);
      assert m - {c} - {b} == m - {b} - {c};
    }
  }

  lemma TotalAdds(m: map<Block, nat>, b: Block, request: nat)
    requires b !in m
    ensures Total(m[b := request]) == Total(m) + request
  {
    TotalTakes(m[b := request], b);
    assert m[b := request] - {b} == m;
  }

  function Excess(l: seq<Loan>): int
    requires AllReturned(l)
  {
    if l == [] then 0 else Excess(l[..|l| - 1]) + Surplus(l[|l| - 1])
  }

  lemma ExcessAdds(l: seq<Loan>, x: Loan)
    requires AllReturned(l) && x.block.level >= 0 && LevelFor(x.request, x.block.level)
    ensures AllReturned(l + [x]) && Excess(l + [x]) == Excess(l) + Surplus(x)
  {
    assert (l + [x])[..|l|] == l;
  }

  lemma {:induction false} ExcessGrows(l: seq<Loan>)
    requires AllReturned(l)
    ensures Excess(l) >= |l|
  {
    hide SizeAtLevel;
    if l != [] {
      ExcessGrows(l[..|l| - 1]);
    }
  }

  /** The level of the smallest block larger than a size. */
  predicate LevelFor(size: nat, level: int) {
    0 <= level <= MAX_LEVELS && SizeAtLevel(level + 1) <= size < SizeAtLevel(level)
  }

  /** The level for a size less than that of the arena, searched for from level `l` on. */
  lemma {:induction false} FitLevel(size: nat, l: nat) returns (level: int)
    requires l < MAX_LEVELS && 1 < size < SizeAtLevel(l)
    ensures 0 <= level < MAX_LEVELS && LevelFor(size, level)
    decreases MAX_LEVELS - l
  {
    SizeIsWidth(l + 1);
    if SizeAtLevel(l + 1) <= size {
      level := l;
    } else {
      assert Pow2(0) == 1;
      level := FitLevel(size, l + 1);
    }
  }

  lemma ArenaFits(size: nat)
    requires size + OVERHEAD < MAX_SIZE
    ensures size + OVERHEAD < SizeAtLevel(0) && Request(size) == size + OVERHEAD
  {
    assert Pow2(13) == 8192;
    Pow2Splits(13, 13);
    SizeIsWidth(0);
  }

  lemma FreshLeaves()
    ensures Leaves(Free, ARENA, Free) == {ARENA} && Leaves(Free, ARENA, Used) == {}
  {
  }

  lemma LevelIsUnique(size: nat, level: int)
    requires -1 <= level <= MAX_LEVELS && (level >= 0 ==> size < SizeAtLevel(level)) && SizeAtLevel(level + 1) <= size
    ensures forall l :: LevelFor(size, l) <==> l == level && l >= 0
  {
    forall l | LevelFor(size, l) ensures l == level {
      if l < level {
        SizesShrink(l + 1, level);
      } else if level < l {
        SizesShrink(level + 1, l);
      }
    }
  }

  lemma SizesShrink(l: nat, m: nat)
    requires l <= m <= MAX_LEVELS
    ensures SizeAtLevel(l) >= SizeAtLevel(m)
  {
    SizeIsWidth(l);
    SizeIsWidth(m);
    if l < m {
      Pow2Grows(MAX_LEVELS - m, MAX_LEVELS - l);
    }
  }

  /** No other live block starts where `b` does. */
  lemma OtherAddresses(t: Tree, b: Block)
    requires Fits(t, 0) && b in Leaves(t, ARENA, Used)
    ensures b.addr >= 0 && forall c | c in Leaves(t, ARENA, Used) && c.addr == b.addr :: c == b
  {
    LeavesWithin(t, ARENA, Used);
    forall c | c in Leaves(t, ARENA, Used) && c.addr == b.addr ensures c == b {
      OneLeafCovers(t, ARENA, b, c, b.addr);
    }
  }

  // ------------------------------------------------------------------ main results

  /** The blocks tile the arena: every address is in exactly one of them. */
  lemma ArenaIsTiled(t: Tree, x: int)
    requires Fits(t, 0) && 0 <= x < MAX_SIZE
    ensures exists b :: b in AllLeaves(t, ARENA) && Covers(b, x)
    ensures forall b, c | b in AllLeaves(t, ARENA) && c in AllLeaves(t, ARENA) && Covers(b, x) && Covers(c, x) :: b == c
  {
    var b := SomeLeafCovers(t, ARENA, x);
    forall c, d | c in AllLeaves(t, ARENA) && d in AllLeaves(t, ARENA) && Covers(c, x) && Covers(d, x) ensures c == d {
      OneLeafCovers(t, ARENA, c, d, x);
    }
  }

  /** Each block is inside the arena and aligned to its own size. */
  lemma BlocksAreAligned(t: Tree, b: Block)
    requires Fits(t, 0) && b in AllLeaves(t, ARENA)
    ensures Within(b, ARENA) && Aligned(b)
  {
    var leaf := if b in Leaves(t, ARENA, Free) then Free else Used;
    LeavesWithin(t, ARENA, leaf);
    LeafReached(t, ARENA, b, leaf);
    ReachedAligned(t, ARENA, b);
  }

  /** A payload holds the request exactly when the request, with the overhead, does not wrap
      around 2^64. */
  lemma HoldsRequest(size: nat, level: int)
    requires size < WORD && LevelFor(Request(size), level) && level < MAX_LEVELS
    ensures SizeAtLevel(level) - 1 >= size <==> size + OVERHEAD < WORD
  {
    hide SizeAtLevel, Width, Pow2;
    SizeIsWidth(level);
    SizeIsWidth(level + 1);
    WidthHalves(level);
    if size + OVERHEAD >= WORD {
      assert (size + OVERHEAD) % WORD == size + OVERHEAD - WORD;
    }
  }

  /** Sixteen bytes less than 2^64 get a block of two bytes. */
  lemma TooSmallABlock()
    ensures var size := WORD - 16;
            LevelFor(Request(size), 25) && SizeAtLevel(25) == 2 && !(SizeAtLevel(25) - 1 >= size)
  {
    SizeIsWidth(25);
    SizeIsWidth(26);
  }
}
