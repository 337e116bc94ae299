// The buddy allocator as it runs: headers in memory, rewritten in place.
// Each method is proved to move the abstract state as BuddyTheorems says.
module BuddyAllocator {
  import opened Sequences
  import opened Bits
  import opened Prints
  import opened BuddyTree
  import opened BuddySizing
  import opened BuddyState
  import opened BuddyList
  import opened BuddyTheorems

  // What malloc returns: NULL, the address of a payload, or the value the code
  // computes from a list head that does not exist.
  datatype Pointer = NullPointer | Wild | Payload(off: nat)

  // free takes NULL, or the payload address of a block in use.
  ghost predicate MayFree(s: State, p: Pointer)
  {
    Inv(s) && !p.Wild? && (p.Payload? ==> p.off >= HEADER && Owned(s, p.off - HEADER))
  }

  // The header of every block carries its bucket, and its free flag.
  ghost predicate TagsMatch(m: Memory, s: State)
    requires Inv(s)
  {
    forall x: nat :: BlockAt(s.tree, s.top, x).Block? ==>
      && At(x) in m && m[At(x)].bucket == BlockAt(s.tree, s.top, x).bucket
      && m[At(x)].free == BlockAt(s.tree, s.top, x).free
  }

  // The same, while the block at p, which is nobody's yet, still says "free".
  ghost predicate TagsMatchBut(m: Memory, s: State, p: nat)
    requires Inv(s)
  {
    && (forall x: nat :: BlockAt(s.tree, s.top, x).Block? ==>
          At(x) in m && m[At(x)].bucket == BlockAt(s.tree, s.top, x).bucket
          && (x != p ==> m[At(x)].free == BlockAt(s.tree, s.top, x).free))
    && At(p) in m && m[At(p)].free
  }

  lemma InsideIsAbsent(s: State, x: nat, at: nat)
    requires Inv(s) && BlockAt(s.tree, s.top, x).Block?
    requires x < at < x + Size(BlockAt(s.tree, s.top, x).bucket)
    ensures BlockAt(s.tree, s.top, at) == Absent
  {
    if BlockAt(s.tree, s.top, at).Block? {
      Disjoint(s.tree, s.top, x, at);
    }
  }

  lemma UsedIsUnlisted(s: State, x: nat, b: nat)
    requires Inv(s) && BlockAt(s.tree, s.top, x) == Block(b, false)
    ensures !Listed(s.lists, x)
  {
    forall c | 0 <= c < |s.lists|
      ensures x !in s.lists[c]
    {
      assert x in s.lists[c] <==> BlockAt(s.tree, s.top, x) == Block(c, true);
    }
  }

  lemma AbsentIsUnlisted(s: State, x: nat)
    requires Inv(s) && BlockAt(s.tree, s.top, x) == Absent
    ensures !Listed(s.lists, x)
  {
    forall c | 0 <= c < |s.lists|
      ensures x !in s.lists[c]
    {
      assert x in s.lists[c] <==> BlockAt(s.tree, s.top, x) == Block(c, true);
    }
  }

  lemma UpperHalf(s: State, x: nat, b: nat)
    requires Inv(s) && IsUsed(s, x, b) && b >= 2
    ensures BuddyOf(x, b - 1) == x + Size(b - 1)
  {
    BlockIsLeaf(s.tree, s.top, x, b);
    BuddyBits(s.tree, s.top, x, b - 1);
  }

  // What free's loop reads.  Below the top bucket the address it inspects holds
  // a header, and that header tells whether the buddy is a free block as large.
  lemma BuddyApart(s: State, x: nat, b: nat)
    requires Inv(s) && IsUsed(s, x, b) && b < s.top
    ensures BuddyOf(x, b) != x
  {
    BlockIsLeaf(s.tree, s.top, x, b);
    var p := Parent(s.tree, s.top, x, b);
    NodeBounds(s.tree, s.top, p, b + 1);
    BuddyBits(s.tree, s.top, p, b);
    hide BuddyOf, LowerOf, BlockAt, NodeAt, IsNode, Canonical, ListsMatch;
  }

  lemma BuddyHeader(m: Memory, s: State, x: nat, b: nat)
    requires Inv(s) && IsUsed(s, x, b) && TagsMatchBut(m, s, x)
    ensures At(x) in m && m[At(x)].bucket == b && b <= s.top
    ensures b < s.top ==> At(BuddyOf(x, b)) in m
    ensures BuddyIsFree(s, x, b) <==>
            b < s.top && m[At(BuddyOf(x, b))].bucket == b && m[At(BuddyOf(x, b))].free
  {
    BlockBounds(s.tree, s.top, x);
    if b < s.top {
      BuddyIsBlock(s.tree, s.top, x, b);
      BuddyApart(s, x, b);
    }
    hide BuddyOf, LowerOf, BlockAt, NodeAt, IsNode, Canonical, ListsMatch, Distinct;
  }

  lemma NoWrap(nbytes: nat, heapSize: nat)
    requires nbytes + HEADER < W64
    ensures Admitted(nbytes, heapSize) <==> nbytes != 0 && nbytes + HEADER <= heapSize + 1
    ensures IdealBucket(nbytes) == MinimumSuitableBucket(nbytes + HEADER) % W8
  {
    hide MinimumSuitableBucket;
    SmallMod(nbytes + HEADER, W64);
  }

  lemma ReleaseTags(m: Memory, n: Memory, s: State, x: nat, b: nat)
    requires Inv(s) && IsUsed(s, x, b) && !BuddyIsFree(s, x, b) && TagsMatchBut(m, s, x) && SameTags(m, n)
    ensures Inv(Release(s, x, b)) && TagsMatch(n, Release(s, x, b))
  {
    ReleaseInv(s, x, b);
  }

  lemma EmptiesThenTop(top: nat)
    ensures Empties(top + 1)[top := Empties(top + 1)[top] + [0]] == Empties(top) + [[0]]
    ensures Empties(top) + [[]] == Empties(top + 1)
  {
    var l := Empties(top + 1)[top := Empties(top + 1)[top] + [0]];
    var r := Empties(top) + [[0]];
    assert l[top] == [0] == r[top];
    assert forall i :: 0 <= i < top ==> l[i] == r[i];
  }

  lemma LogAtLeast5(n: nat)
    ensures FloorLog2(n) >= 5 <==> n >= 32
  {
    assert Pow2(5) == 32;
    if n > 0 {
      FloorLog2Bounds(n);
      if FloorLog2(n) + 1 < 5 {
        Pow2Monotone(FloorLog2(n) + 1, 5);
      }
      if FloorLog2(n) > 5 {
        Pow2Monotone(5, FloorLog2(n));
      }
    }
  }

  lemma TagOf(m: Memory, s: State, x: nat, b: nat)
    requires Inv(s) && IsUsed(s, x, b) && TagsMatchBut(m, s, x)
    ensures At(x) in m && m[At(x)].bucket == b && m[At(x)].free
  {
  }

  // What a split does to the rest of the state, and that its new block is nobody's yet.
  lemma SplitFields(s: State, x: nat, b: nat)
    requires Inv(s) && IsUsed(s, x, b) && b >= 2
    ensures var r, y := SplitUsed(s, x, b), x + Size(b - 1);
            && Inv(r) && r.top == s.top && r.heapSize == s.heapSize && b - 1 < |s.lists|
            && r.lists == s.lists[b - 1 := s.lists[b - 1] + [y]] && !Listed(s.lists, y) && y != x
  {
    SplitInv(s, x, b);
    AbsentIsUnlisted(s, x + Size(b - 1));
    hide BlockAt, WellFormed, Canonical, ListsMatch, Distinct;
  }

  // The headers after a split.
  lemma HalvedTags(m: Memory, written: Memory, n: Memory, s: State, x: nat, b: nat)
    requires Inv(s) && IsUsed(s, x, b) && b >= 2 && TagsMatchBut(m, s, x) && SameTags(written, n)
    requires At(x) in written && written[At(x)].bucket == b - 1 && written[At(x)].free
    requires var y := At(x + Size(b - 1));
             y in written && written[y].bucket == b - 1 && written[y].free
    requires forall q :: q in m && q != At(x) && q != At(x + Size(b - 1)) ==> q in written && written[q] == m[q]
    ensures Inv(SplitUsed(s, x, b)) && TagsMatchBut(n, SplitUsed(s, x, b), x)
  {
    SplitInv(s, x, b);
    hide WellFormed, Canonical, ListsMatch, Distinct, SplitUsed;
  }

  lemma NullMayBeFreed(s: State)
    requires Inv(s)
    ensures MayFree(s, NullPointer)
  {
  }

  lemma ServedMayBeFreed(s: State, r: State, payload: nat, nbytes: nat)
    requires Inv(s) && Inv(r) && Served(s, r, payload, nbytes)
    ensures MayFree(r, Payload(payload)) && FreeBlock(r, payload - HEADER) == s
  {
  }

  // buckets_amount for a heap of the given size.  Below 32 bytes there is no bucket
  // whose blocks hold a header.
  method BucketsFor(heapSize: nat) returns (amount: int)
    requires heapSize < W32
    ensures amount <= MAX_BUCKET_COUNT && (amount >= 2 <==> heapSize >= 32)
    ensures amount >= 1 ==> Size(amount - 1) <= heapSize
    ensures 0 <= amount < MAX_BUCKET_COUNT ==> heapSize < Size(amount)
  {
    var log := Log2(heapSize);
    if heapSize > 0 {
      FloorLog2Bounds(heapSize);
    }
    LogAtLeast5(heapSize);
    amount := log - MIN_ALLOC_LOG2 + 1;
    if amount > MAX_BUCKET_COUNT {
      amount := MAX_BUCKET_COUNT;
      if log > 30 {
        Pow2Monotone(30, log);
      }
    }
  }

  class Allocator {
    const arena: Arena
    const bucketsAmount: nat
    const maximumBucketSize: nat
    ghost var state: State

    ghost predicate Framed()
      reads this, arena
      ensures Framed() ==> Inv(state) && bucketsAmount == state.top + 1 && maximumBucketSize == state.heapSize
    {
      arena.Valid() && Inv(state) && arena.lists == state.lists
      && bucketsAmount == state.top + 1 && maximumBucketSize == state.heapSize
    }

    ghost predicate Valid()
      reads this, arena
      ensures Valid() ==> Framed()
    {
      Framed() && TagsMatch(arena.mem, state)
    }

    // initializeMemoryManager, for a heap that can hold one block and whose size
    // the 32-bit log2 sees whole.
    constructor (heapSize: nat, memory: Memory)
      requires 32 <= heapSize < W32 - 1
      ensures Valid() && fresh(arena)
      ensures Inv(state) && state == Initial(state.top, heapSize)
      ensures Size(state.top) <= heapSize && (state.top < 26 ==> heapSize < Size(state.top + 1))
    {
      hide Rings, Canonical;
      var amount := BucketsFor(heapSize);
      var a := new Arena(memory);
      var i := 0;
      while i < amount
        invariant fresh(a) && a.Valid() && 0 <= i <= amount && a.lists == Empties(i)
      {
        EmptiesThenTop(i);
        a.Initialize(i);
        a.SetTag(Head(i), i, false);
        i := i + 1;
      }
      a.SetTag(At(0), amount - 1, true);
      a.Push(amount - 1, 0);
      arena := a;
      bucketsAmount := amount;
      maximumBucketSize := heapSize;
      state := Initial(amount - 1, heapSize);
      InitialInv(amount - 1, heapSize);
      EmptiesThenTop(amount - 1);
    }

    // getAvailableBucket: the first bucket with a free block; the number of
    // buckets when there is none; -1 only when the search starts beyond that.
    method GetAvailableBucket(minBucketRequired: nat) returns (r: int)
      requires Valid()
      ensures var b := FirstAvailable(state.lists, minBucketRequired);
              r == if b > bucketsAmount then -1 else b
    {
      var availableBucket := minBucketRequired;
      while availableBucket < bucketsAmount
        invariant FirstAvailable(state.lists, minBucketRequired) == FirstAvailable(state.lists, availableBucket)
      {
        var empty := arena.IsEmpty(availableBucket);
        if !empty {
          break;
        }
        availableBucket := availableBucket + 1;
      }
      if availableBucket > bucketsAmount {
        return -1;
      }
      return availableBucket;
    }

    // malloc.  NULL says that the request is refused, a block that some free one had
    // room; the payload lies behind the header of the smallest of those, cut down as
    // far as the request allows.  The caller may free it, and then nothing has changed.
    method Malloc(nbytes: nat) returns (result: Pointer)
      requires Valid() && nbytes + HEADER < W64
      modifies this, arena
      ensures Valid() && state == BuddyTheorems.Malloc(old(state), nbytes).0
      ensures result.NullPointer? <==> Refused(old(state), nbytes)
      ensures result.Payload? <==> !Refused(old(state), nbytes) && SomeRoom(old(state), nbytes + HEADER)
      ensures !result.Payload? ==> state == old(state)
      ensures result.Payload? ==> MayFree(state, result) && Served(old(state), state, result.off, nbytes)
    {
      hide Valid, Framed, Inv, BuddyTheorems.Malloc, Carve, Take, BlockAt, FirstAvailable, IdealBucket, Admitted;
      hide MinimumSuitableBucket, SomeRoom, Refused, Served;
      NoWrap(nbytes, maximumBucketSize);
      MallocBranches(state, nbytes);
      MallocAnswers(state, nbytes);
      if BuddyTheorems.Malloc(state, nbytes).1.Allocated? {
        MallocServes(state, nbytes);
        ServedMayBeFreed(state, BuddyTheorems.Malloc(state, nbytes).0,
                         BuddyTheorems.Malloc(state, nbytes).1.block + HEADER, nbytes);
      }
      var bytesNeeded := nbytes + HEADER;
      if nbytes == 0 || bytesNeeded > maximumBucketSize + 1 {
        return NullPointer;
      }
      var idealBucket := MinimumSuitableBucket(bytesNeeded) % W8;
      var availableBucket := GetAvailableBucket(idealBucket);
      if availableBucket == -1 {
        return NullPointer;
      }
      if availableBucket == bucketsAmount {
        return Wild;
      }
      var x := TakeBlock(availableBucket);
      HalveDown(x, availableBucket, idealBucket);
      Claim(x, idealBucket);
      return Payload(x + HEADER);
    }

    // malloc's loop.
    method HalveDown(x: nat, b: nat, idealBucket: nat)
      requires 1 <= idealBucket <= b && Framed() && IsUsed(state, x, b) && TagsMatchBut(arena.mem, state, x)
      modifies this, arena
      ensures Framed() && state == Carve(old(state), x, b, idealBucket)
      ensures IsUsed(state, x, idealBucket) && TagsMatchBut(arena.mem, state, x)
    {
      hide Framed, Inv, Carve, SplitUsed, TagsMatchBut, BlockAt;
      ghost var goal := Carve(state, x, b, idealBucket);
      var availableBucket := b;
      while idealBucket < availableBucket
        invariant 1 <= idealBucket <= availableBucket && Framed() && IsUsed(state, x, availableBucket)
        invariant TagsMatchBut(arena.mem, state, x)
        invariant Carve(state, x, availableBucket, idealBucket) == goal
      {
        CarveStep(state, x, availableBucket, idealBucket);
        HalveOnce(x, availableBucket);
        availableBucket := availableBucket - 1;
      }
      CarveStep(state, x, availableBucket, idealBucket);
    }

    // malloc takes the last block off the chosen list.
    method TakeBlock(b: nat) returns (x: nat)
      requires Valid() && b <= state.top && state.lists[b] != []
      modifies this, arena
      ensures Framed() && state == Take(old(state), b) && x == old(state).lists[b][|old(state).lists[b]| - 1]
      ensures IsUsed(state, x, b) && TagsMatchBut(arena.mem, state, x)
    {
      hide Rings, WellFormed, Canonical, Distinct, ListsMatch;
      TakeInv(state, b);
      ghost var next := Take(state, b);
      var resultNode := arena.Pop(b);
      x := resultNode.off;
      state := next;
    }

    // resultNode->free = 0
    method Claim(x: nat, ghost b: nat)
      requires Framed() && IsUsed(state, x, b) && TagsMatchBut(arena.mem, state, x)
      modifies arena
      ensures Valid()
    {
      hide Rings, WellFormed, Canonical, Distinct, ListsMatch;
      arena.SetTag(At(x), arena.mem[At(x)].bucket, false);
    }

    // The body of malloc's loop.
    method HalveOnce(x: nat, availableBucket: nat)
      requires Framed() && IsUsed(state, x, availableBucket) && availableBucket >= 2
      requires TagsMatchBut(arena.mem, state, x)
      modifies this, arena
      ensures Framed() && state == SplitUsed(old(state), x, availableBucket)
      ensures TagsMatchBut(arena.mem, state, x)
    {
      hide Rings, TagsMatchBut, BlockAt, SplitUsed, BuddyOf, Size, Listed, SameTags;
      TagOf(arena.mem, state, x, availableBucket);
      UpperHalf(state, x, availableBucket);
      SplitFields(state, x, availableBucket);
      ghost var s, was := state, arena.mem;
      ghost var next := SplitUsed(state, x, availableBucket);
      arena.SetTag(At(x), arena.mem[At(x)].bucket - 1, arena.mem[At(x)].free);
      var buddy := BuddyOf(x, arena.mem[At(x)].bucket);
      arena.SetTag(At(buddy), availableBucket - 1, true);
      ghost var written := arena.mem;
      arena.Push(availableBucket - 1, buddy);
      HalvedTags(was, written, arena.mem, s, x, availableBucket);
      state := next;
    }

    // free takes its block out of use, and no other; NULL changes nothing.
    method Free(block: Pointer)
      requires Valid() && MayFree(state, block)
      modifies this, arena
      ensures Valid() && state == if block.Payload? then FreeBlock(old(state), block.off - HEADER) else old(state)
      ensures state.top == old(state).top && state.heapSize == old(state).heapSize
      ensures forall y: nat, c: nat ::
                IsUsed(state, y, c) <==> IsUsed(old(state), y, c) && !(block.Payload? && y == block.off - HEADER)
    {
      hide Valid, Framed, Coalesce, TagsMatchBut;
      if block.NullPointer? {
        return;
      }
      var freeNode: nat := block.off - HEADER;
      ghost var b := BlockAt(state.tree, state.top, freeNode).bucket;
      FreeEffect(state, freeNode);
      MarkFree(freeNode, b);
      MergeUp(freeNode, b);
    }

    // A block that malloc answers and that is freed at once leaves everything as it
    // was: the same blocks, and the same free lists in the same order.
    method MallocThenFree(nbytes: nat)
      requires Valid() && nbytes + HEADER < W64
      modifies this, arena
      ensures Valid() && state == old(state)
    {
      hide Valid, Framed, Inv, BlockAt, Refused, SomeRoom, Served, FreeBlock, MayFree;
      ghost var s := state;
      var result := Malloc(nbytes);
      if !result.Wild? {
        if result.Payload? {
          ServedMayBeFreed(s, state, result.off, nbytes);
        } else {
          NullMayBeFreed(state);
        }
        Free(result);
      }
    }

    // free's loop, and the listPush after it.
    method MergeUp(x: nat, ghost b0: nat)
      requires Framed() && IsUsed(state, x, b0) && TagsMatchBut(arena.mem, state, x)
      modifies this, arena
      ensures Valid() && state == Coalesce(old(state), x, b0)
    {
      hide Valid, Framed, Inv, Coalesce, MergeUsed, Release, TagsMatchBut, BuddyIsFree, BlockAt, Pow2;
      ghost var goal := Coalesce(state, x, b0);
      var freeNode := x;
      ghost var b := b0;
      BuddyHeader(arena.mem, state, freeNode, b);
      var freeNodeBuddy := BuddyOf(freeNode, arena.mem[At(freeNode)].bucket);
      while arena.mem[At(freeNode)].bucket != bucketsAmount - 1
            && arena.mem[At(freeNodeBuddy)].bucket == arena.mem[At(freeNode)].bucket
            && arena.mem[At(freeNodeBuddy)].free
        invariant Framed() && IsUsed(state, freeNode, b) && b <= state.top
        invariant TagsMatchBut(arena.mem, state, freeNode)
        invariant At(freeNode) in arena.mem && arena.mem[At(freeNode)].bucket == b
        invariant freeNodeBuddy == BuddyOf(freeNode, b)
        invariant b < state.top ==> At(freeNodeBuddy) in arena.mem
        invariant BuddyIsFree(state, freeNode, b) <==>
                  b < state.top && arena.mem[At(freeNodeBuddy)].bucket == b && arena.mem[At(freeNodeBuddy)].free
        invariant Coalesce(state, freeNode, b) == goal
        decreases bucketsAmount - b
      {
        CoalesceStep(state, freeNode, b);
        freeNode := MergeOnce(freeNode, freeNodeBuddy, b);
        b := b + 1;
        BuddyHeader(arena.mem, state, freeNode, b);
        freeNodeBuddy := BuddyOf(freeNode, arena.mem[At(freeNode)].bucket);
      }
      CoalesceStep(state, freeNode, b);
      GiveBack(freeNode, b);
    }

    // freeNode->free = 1
    method MarkFree(x: nat, ghost b: nat)
      requires Valid() && IsUsed(state, x, b)
      modifies arena
      ensures Framed() && TagsMatchBut(arena.mem, state, x)
    {
      hide Rings, WellFormed, Canonical, Distinct, ListsMatch;
      arena.SetTag(At(x), arena.mem[At(x)].bucket, true);
    }

    // free puts the merged block at the back of its list.
    method GiveBack(x: nat, ghost b: nat)
      requires Framed() && IsUsed(state, x, b) && !BuddyIsFree(state, x, b)
      requires TagsMatchBut(arena.mem, state, x)
      modifies this, arena
      ensures Valid() && state == Release(old(state), x, b)
    {
      ReleaseInv(state, x, b);
      UsedIsUnlisted(state, x, b);
      BuddyHeader(arena.mem, state, x, b);
      hide Rings, WellFormed, Canonical, Distinct, ListsMatch, Listed, TagsMatch, TagsMatchBut, SameTags, BlockAt;
      ghost var next := Release(state, x, b);
      arena.Push(arena.mem[At(x)].bucket, x);
      ReleaseTags(old(arena.mem), arena.mem, state, x, b);
      state := next;
    }

    // The owner of a block writes HEADER bytes at offset at of the arena, behind its
    // header and inside its block.  That changes what is read as a header at every
    // offset less than HEADER away: junk says how.  Whatever is written, even bytes
    // that look like a header, the allocator's state is the same.
    method WritePayload(x: nat, at: nat, junk: Memory)
      requires Valid() && Owned(state, x)
      requires x + HEADER <= at && at + HEADER <= x + Size(BlockAt(state.tree, state.top, x).bucket)
      requires forall r :: r in junk ==> r.At? && at - HEADER < r.off < at + HEADER
      modifies arena
      ensures Valid() && arena.mem == old(arena.mem) + junk
    {
      forall r | r in junk
        ensures r.At? && BlockAt(state.tree, state.top, r.off) == Absent && !Listed(state.lists, r.off)
      {
        InsideIsAbsent(state, x, r.off);
        AbsentIsUnlisted(state, r.off);
      }
      hide Rings, Inv, Listed;
      arena.Overwrite(junk);
    }

    // The body of free's loop.
    method MergeOnce(x: nat, buddy: nat, ghost b: nat) returns (r: nat)
      requires Framed() && IsUsed(state, x, b) && BuddyIsFree(state, x, b) && buddy == BuddyOf(x, b)
      requires TagsMatchBut(arena.mem, state, x)
      modifies this, arena
      ensures Framed() && state == MergeUsed(old(state), x, b) && r == LowerOf(x, b)
      ensures IsUsed(state, r, b + 1) && TagsMatchBut(arena.mem, state, r)
    {
      MergeInv(state, x, b);
      MergeBlocks(state, x, b);
      ghost var next := MergeUsed(state, x, b);
      assert buddy in state.lists[b];
      arena.Remove(buddy, b);
      r := LowerOf(x, arena.mem[At(x)].bucket);
      arena.SetTag(At(r), arena.mem[At(r)].bucket + 1, arena.mem[At(r)].free);
      state := next;
    }
  }
}
