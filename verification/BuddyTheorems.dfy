// malloc and free of the buddy allocator on its abstract state, and what holds
// of every run of them.
module BuddyTheorems {
  import opened Sequences
  import opened Bits
  import opened BuddyTree
  import opened BuddySizing
  import opened BuddyState

  // ----- the operations -----

  function Empties(n: nat): (r: seq<seq<nat>>)
    ensures |r| == n && forall i :: 0 <= i < n ==> r[i] == []
  {
    seq(n, i => [])
  }

  // One free block, the whole arena, in the top bucket.
  ghost function Initial(top: nat, heapSize: nat): State
  {
    State(top, heapSize, Free, Empties(top) + [[0]])
  }

  lemma InitialInv(top: nat, heapSize: nat)
    requires 1 <= top <= 26 && Size(top) <= heapSize < W32 - 1
    ensures Inv(Initial(top, heapSize))
  {
  }

  // getAvailableBucket's loop: the first bucket from b on with a free block, or
  // the number of buckets when there is none.
  function FirstAvailable(lists: seq<seq<nat>>, b: nat): (r: nat)
    ensures r >= b
    decreases |lists| - b
  {
    if b < |lists| && lists[b] == [] then FirstAvailable(lists, b + 1) else b
  }

  lemma {:induction false} FirstAvailableIsFirst(lists: seq<seq<nat>>, b: nat)
    requires b <= |lists|
    ensures FirstAvailable(lists, b) <= |lists|
    ensures forall c :: b <= c < FirstAvailable(lists, b) ==> lists[c] == []
    ensures FirstAvailable(lists, b) < |lists| ==> lists[FirstAvailable(lists, b)] != []
    decreases |lists| - b
  {
    if b < |lists| && lists[b] == [] {
      FirstAvailableIsFirst(lists, b + 1);
    }
  }

  // Halve the used block at x from bucket b down to the ideal bucket.
  ghost function Carve(s: State, x: nat, b: nat, ideal: nat): State
    requires Inv(s) && IsUsed(s, x, b) && ideal >= 1
    decreases b
  {
    if b <= ideal then s
    else
      SplitInv(s, x, b);
      Carve(SplitUsed(s, x, b), x, b - 1, ideal)
  }

  ghost function Malloc(s: State, nbytes: nat): (State, Outcome)
    requires Inv(s) && nbytes + HEADER < W64
  {
    if !Admitted(nbytes, s.heapSize) then (s, Null)
    else
      IdealIsTight(nbytes);
      var ideal := IdealBucket(nbytes);
      var b := FirstAvailable(s.lists, ideal);
      if b > s.top + 1 then (s, Null)
      else if b == s.top + 1 then (s, Fault)
      else
        FirstAvailableIsFirst(s.lists, ideal);
        TakeInv(s, b);
        var x := s.lists[b][|s.lists[b]| - 1];
        (Carve(Take(s, b), x, b, ideal), Allocated(x))
  }

  // Merge the used block at x with free buddies as far as possible, then free it.
  ghost function Coalesce(s: State, x: nat, b: nat): State
    requires Inv(s) && IsUsed(s, x, b)
    decreases s.top - b
  {
    if BuddyIsFree(s, x, b) then
      MergeInv(s, x, b);
      Coalesce(MergeUsed(s, x, b), LowerOf(x, b), b + 1)
    else Release(s, x, b)
  }

  ghost predicate Owned(s: State, x: nat)
    requires Inv(s)
  {
    BlockAt(s.tree, s.top, x).Block? && !BlockAt(s.tree, s.top, x).free
  }

  ghost function FreeBlock(s: State, x: nat): State
    requires Inv(s) && Owned(s, x)
  {
    Coalesce(s, x, BlockAt(s.tree, s.top, x).bucket)
  }

  // ----- one step of each loop, one branch of each call -----

  // malloc's branches, one by one.
  lemma MallocBranches(s: State, nbytes: nat)
    requires Inv(s) && nbytes + HEADER < W64
    ensures !Admitted(nbytes, s.heapSize) ==> Malloc(s, nbytes) == (s, Null)
    ensures Admitted(nbytes, s.heapSize) ==>
              var ideal := IdealBucket(nbytes);
              var b := FirstAvailable(s.lists, ideal);
              && 1 <= ideal <= b
              && (b > s.top + 1 ==> Malloc(s, nbytes) == (s, Null))
              && (b == s.top + 1 ==> Malloc(s, nbytes) == (s, Fault))
              && (b <= s.top ==>
                    && s.lists[b] != []
                    && var x := s.lists[b][|s.lists[b]| - 1];
                    Inv(Take(s, b)) && IsUsed(Take(s, b), x, b)
                    && Malloc(s, nbytes) == (Carve(Take(s, b), x, b, ideal), Allocated(x)))
  {
    if Admitted(nbytes, s.heapSize) {
      IdealIsTight(nbytes);
      var ideal := IdealBucket(nbytes);
      var b := FirstAvailable(s.lists, ideal);
      if b <= s.top {
        FirstAvailableIsFirst(s.lists, ideal);
        TakeInv(s, b);
      }
    }
  }

  lemma CarveStep(s: State, x: nat, b: nat, ideal: nat)
    requires Inv(s) && IsUsed(s, x, b) && 1 <= ideal <= b
    ensures b == ideal ==> Carve(s, x, b, ideal) == s
    ensures b > ideal ==>
              Inv(SplitUsed(s, x, b)) && IsUsed(SplitUsed(s, x, b), x, b - 1)
              && Carve(s, x, b, ideal) == Carve(SplitUsed(s, x, b), x, b - 1, ideal)
  {
    if b > ideal {
      SplitInv(s, x, b);
    }
  }

  lemma CoalesceStep(s: State, x: nat, b: nat)
    requires Inv(s) && IsUsed(s, x, b)
    ensures !BuddyIsFree(s, x, b) ==> Coalesce(s, x, b) == Release(s, x, b)
    ensures BuddyIsFree(s, x, b) ==>
              var m := MergeUsed(s, x, b);
              Inv(m) && IsUsed(m, LowerOf(x, b), b + 1) && Coalesce(s, x, b) == Coalesce(m, LowerOf(x, b), b + 1)
  {
    if BuddyIsFree(s, x, b) {
      MergeInv(s, x, b);
    }
  }

  // ----- what one call does -----

  lemma {:induction false} CarveEffect(s: State, x: nat, b: nat, ideal: nat)
    requires Inv(s) && IsUsed(s, x, b) && 1 <= ideal <= b
    ensures var r := Carve(s, x, b, ideal);
            Inv(r) && r.top == s.top && r.heapSize == s.heapSize
            && forall y, c :: IsUsed(r, y, c) <==> (if y == x then c == ideal else IsUsed(s, y, c))
    decreases b
  {
    hide Carve, BlockAt;
    CarveStep(s, x, b, ideal);
    if b > ideal {
      SplitInv(s, x, b);
      CarveEffect(SplitUsed(s, x, b), x, b - 1, ideal);
    }
  }

  lemma {:induction false} CoalesceEffect(s: State, x: nat, b: nat)
    requires Inv(s) && IsUsed(s, x, b)
    ensures var r := Coalesce(s, x, b);
            Inv(r) && r.top == s.top && r.heapSize == s.heapSize
            && forall y, c :: IsUsed(r, y, c) <==> y != x && IsUsed(s, y, c)
    decreases s.top - b
  {
    hide BuddyOf, LowerOf, BlockAt, Canonical, ListsMatch, Distinct, Replace;
    if BuddyIsFree(s, x, b) {
      MergeInv(s, x, b);
      var m := MergeUsed(s, x, b);
      CoalesceEffect(m, LowerOf(x, b), b + 1);
      forall y, c
        ensures IsUsed(Coalesce(s, x, b), y, c) <==> y != x && IsUsed(s, y, c)
      {
        BuddyIsBlock(s.tree, s.top, x, b);
        assert IsUsed(Coalesce(s, x, b), y, c) <==> y != LowerOf(x, b) && IsUsed(m, y, c);
      }
    } else {
      ReleaseInv(s, x, b);
    }
  }

  ghost predicate SomeFree(s: State, ideal: nat)
    requires Inv(s)
  {
    exists x: nat, c: nat :: c >= ideal && IsFree(s, x, c)
  }

  // Where the search stops, in terms of free blocks.
  lemma SearchFinds(s: State, ideal: nat)
    requires Inv(s) && ideal <= s.top + 1
    ensures FirstAvailable(s.lists, ideal) <= s.top + 1
    ensures FirstAvailable(s.lists, ideal) <= s.top <==> SomeFree(s, ideal)
    ensures forall y: nat, d: nat :: IsFree(s, y, d) && d >= ideal ==> FirstAvailable(s.lists, ideal) <= d <= s.top
  {
    FirstAvailableIsFirst(s.lists, ideal);
    var b := FirstAvailable(s.lists, ideal);
    forall y: nat, d: nat | IsFree(s, y, d) && d >= ideal
      ensures b <= d <= s.top
    {
      BlockBounds(s.tree, s.top, y);
      assert y in s.lists[d];
    }
    if b <= s.top {
      var x := s.lists[b][0];
      assert x in s.lists[b];
      assert IsFree(s, x, b);
    }
  }

  // When malloc answers a block, no block, or runs past the last bucket.
  lemma MallocOutcome(s: State, nbytes: nat)
    requires Inv(s) && nbytes + HEADER < W64
    ensures Malloc(s, nbytes).1 == Null <==>
            !Admitted(nbytes, s.heapSize) || IdealBucket(nbytes) > s.top + 1
    ensures Malloc(s, nbytes).1.Allocated? <==>
            Admitted(nbytes, s.heapSize) && SomeFree(s, IdealBucket(nbytes))
    ensures !Malloc(s, nbytes).1.Allocated? ==> Malloc(s, nbytes).0 == s
  {
    if Admitted(nbytes, s.heapSize) {
      MallocBranches(s, nbytes);
      var ideal := IdealBucket(nbytes);
      if ideal <= s.top + 1 {
        SearchFinds(s, ideal);
      } else {
        forall y: nat, d: nat | d >= ideal
          ensures !IsFree(s, y, d)
        {
          BlockBounds(s.tree, s.top, y);
        }
      }
    }
  }

  // The block at x is free and in the smallest bucket, from ideal up, that has any.
  ghost predicate SmallestFree(s: State, x: nat, ideal: nat)
    requires Inv(s)
  {
    exists c: nat ::
      IsFree(s, x, c) && ideal <= c && forall y: nat, d: nat :: IsFree(s, y, d) && d >= ideal ==> c <= d
  }

  // The block malloc answers was free, in the smallest bucket that could serve.
  lemma MallocTakesSmallest(s: State, nbytes: nat)
    requires Inv(s) && nbytes + HEADER < W64 && Malloc(s, nbytes).1.Allocated?
    ensures SmallestFree(s, Malloc(s, nbytes).1.block, IdealBucket(nbytes))
  {
    hide Malloc, Admitted, IdealBucket, FirstAvailable;
    MallocOutcome(s, nbytes);
    MallocBranches(s, nbytes);
    var ideal := IdealBucket(nbytes);
    var b := FirstAvailable(s.lists, ideal);
    if b <= s.top {
      SearchFinds(s, ideal);
      TakeInv(s, b);
      var x := s.lists[b][|s.lists[b]| - 1];
      hide Inv;
      assert IsFree(s, x, b);
    }
  }

  // Afterwards the block is used and in exactly the ideal bucket, no other used
  // block has changed, and the payload lies behind the header inside the block.
  lemma MallocEffect(s: State, nbytes: nat)
    requires Inv(s) && nbytes + HEADER < W64 && Malloc(s, nbytes).1.Allocated?
    ensures var (r, o) := Malloc(s, nbytes);
            Inv(r) && r.top == s.top && r.heapSize == s.heapSize
    ensures var (r, o) := Malloc(s, nbytes);
            forall y: nat, c: nat :: IsUsed(r, y, c) <==>
              if y == o.block then c == IdealBucket(nbytes) else IsUsed(s, y, c)
    ensures var x := Malloc(s, nbytes).1.block;
            x + HEADER + nbytes <= x + Size(IdealBucket(nbytes)) <= Size(s.top)
  {
    IdealIsTight(nbytes);
    var ideal := IdealBucket(nbytes);
    FirstAvailableIsFirst(s.lists, ideal);
    var b := FirstAvailable(s.lists, ideal);
    TakeInv(s, b);
    var x := s.lists[b][|s.lists[b]| - 1];
    var t := Take(s, b);
    CarvedBlock(t, x, b, ideal);
    var r := Carve(t, x, b, ideal);
    assert Malloc(s, nbytes) == (r, Allocated(x));
    forall y: nat, c: nat
      ensures IsUsed(r, y, c) <==> if y == x then c == ideal else IsUsed(s, y, c)
    {
      assert y != x ==> (IsUsed(t, y, c) <==> IsUsed(s, y, c));
    }
  }

  lemma CarvedBlock(s: State, x: nat, b: nat, ideal: nat)
    requires Inv(s) && IsUsed(s, x, b) && 1 <= ideal <= b
    ensures var r := Carve(s, x, b, ideal);
            && Inv(r) && r.top == s.top && r.heapSize == s.heapSize
            && (forall y: nat, c: nat :: IsUsed(r, y, c) <==> if y == x then c == ideal else IsUsed(s, y, c))
            && x + Size(ideal) <= Size(s.top)
  {
    CarveEffect(s, x, b, ideal);
    var r := Carve(s, x, b, ideal);
    assert IsUsed(r, x, ideal);
    BlockBounds(r.tree, r.top, x);
  }

  // free removes its block from the used ones and touches no other used block.
  lemma FreeEffect(s: State, x: nat)
    requires Inv(s) && Owned(s, x)
    ensures var r := FreeBlock(s, x);
            Inv(r) && r.top == s.top && r.heapSize == s.heapSize
            && forall y, c :: IsUsed(r, y, c) <==> y != x && IsUsed(s, y, c)
  {
    CoalesceEffect(s, x, BlockAt(s.tree, s.top, x).bucket);
  }

  // ----- free undoes malloc -----

  lemma {:induction false} ReplaceTwice(t: Tree, l: nat, x: int, b: nat, u: Tree, v: Tree)
    requires WellFormed(t, l) && IsNode(t, l, x, b) && WellFormed(u, b) && WellFormed(v, b)
    ensures Replace(Replace(t, l, x, b, u), l, x, b, v) == Replace(t, l, x, b, v)
    ensures Replace(t, l, x, b, NodeAt(t, l, x, b)) == t
  {
    if l != b {
      if x < Size(l - 1) {
        ReplaceTwice(t.left, l - 1, x, b, u, v);
      } else {
        ReplaceTwice(t.right, l - 1, x - Size(l - 1), b, u, v);
      }
    }
  }

  lemma {:induction false} WithoutLast(xs: seq<nat>, x: nat)
    requires x !in xs
    ensures Without(xs + [x], x) == xs
  {
    if xs != [] {
      WithoutLast(xs[1..], x);
      assert (xs + [x])[1..] == xs[1..] + [x];
    }
  }

  // A merge right after a split gives the state before the split.
  lemma MergeUndoesSplit(s: State, x: nat, b: nat)
    requires Inv(s) && IsUsed(s, x, b) && b >= 2
    ensures var r := SplitUsed(s, x, b);
            Inv(r) && IsUsed(r, x, b - 1) && BuddyIsFree(r, x, b - 1) && LowerOf(x, b - 1) == x
            && MergeUsed(r, x, b - 1) == s
  {
    hide BuddyOf, LowerOf, BlockAt, Replace, IsNode, NodeAt, Canonical, Without;
    SplitInv(s, x, b);
    var r := SplitUsed(s, x, b);
    BlockIsLeaf(s.tree, s.top, x, b);
    BlockBounds(s.tree, s.top, x);
    BuddyBits(r.tree, r.top, x, b - 1);
    ReplaceTwice(s.tree, s.top, x, b, Split(Used, Free), Used);
    assert x + Size(b - 1) !in s.lists[b - 1];
    WithoutLast(s.lists[b - 1], x + Size(b - 1));
    var m := MergeUsed(r, x, b - 1);
    assert m.lists == s.lists;
  }

  lemma {:induction false} CoalesceUndoesCarve(s: State, x: nat, b: nat, ideal: nat)
    requires Inv(s) && IsUsed(s, x, b) && 1 <= ideal <= b
    ensures var r := Carve(s, x, b, ideal);
            Inv(r) && IsUsed(r, x, ideal) && Coalesce(r, x, ideal) == Coalesce(s, x, b)
    decreases b
  {
    hide Carve, Coalesce, SplitUsed, MergeUsed, Release, BlockAt;
    CarveEffect(s, x, b, ideal);
    CarveStep(s, x, b, ideal);
    if b > ideal {
      CoalesceUndoesCarve(SplitUsed(s, x, b), x, b - 1, ideal);
      MergeUndoesSplit(s, x, b);
      CoalesceStep(SplitUsed(s, x, b), x, b - 1);
    }
  }

  // Freeing what malloc just answered restores the state exactly: the same
  // blocks and the same free lists, in the same order.
  lemma FreeUndoesMalloc(s: State, nbytes: nat)
    requires Inv(s) && nbytes + HEADER < W64 && Malloc(s, nbytes).1.Allocated?
    ensures var (r, o) := Malloc(s, nbytes);
            Inv(r) && Owned(r, o.block) && FreeBlock(r, o.block) == s
  {
    MallocEffect(s, nbytes);
    IdealIsTight(nbytes);
    var ideal := IdealBucket(nbytes);
    FirstAvailableIsFirst(s.lists, ideal);
    var b := FirstAvailable(s.lists, ideal);
    TakeInv(s, b);
    var t := Take(s, b);
    var n := |s.lists[b]| - 1;
    var x := s.lists[b][n];
    CoalesceUndoesCarve(t, x, b, ideal);
    TakeThenRelease(s, b);
  }

  // A free block has no free buddy, so none after it was taken either.
  lemma FreeHasNoFreeBuddy(s: State, x: nat, b: nat)
    requires Inv(s) && IsFree(s, x, b) && b < s.top
    ensures !IsFree(s, BuddyOf(x, b), b) && BuddyOf(x, b) != x
  {
    BuddyIsBlock(s.tree, s.top, x, b);
    BuddyDiffers(s, x, b);
    hide BuddyOf, LowerOf, BlockAt, Size;
    var p := LowerOf(x, b);
    assert Canonical(NodeAt(s.tree, s.top, p, b + 1));
  }

  lemma BuddyDiffers(s: State, x: nat, b: nat)
    requires Inv(s) && IsFree(s, x, b) && b < s.top
    ensures BuddyOf(x, b) != x
  {
    BlockIsLeaf(s.tree, s.top, x, b);
    var p := Parent(s.tree, s.top, x, b);
    NodeBounds(s.tree, s.top, p, b + 1);
    BuddyBits(s.tree, s.top, p, b);
    hide BuddyOf, LowerOf, BlockAt, NodeAt;
  }

  lemma TakeThenRelease(s: State, b: nat)
    requires Inv(s) && b <= s.top && s.lists[b] != []
    ensures var x := s.lists[b][|s.lists[b]| - 1];
            Inv(Take(s, b)) && IsUsed(Take(s, b), x, b) && Coalesce(Take(s, b), x, b) == s
  {
    TakeInv(s, b);
    var t := Take(s, b);
    var n := |s.lists[b]| - 1;
    var x := s.lists[b][n];
    BlockIsLeaf(s.tree, s.top, x, b);
    BlockBounds(s.tree, s.top, x);
    if b < s.top {
      FreeHasNoFreeBuddy(s, x, b);
    }
    ReplaceTwice(s.tree, s.top, x, b, Used, Free);
    hide BuddyOf, BlockAt, Replace, NodeAt, IsNode, Canonical, WellFormed, ListsMatch, Distinct;
    assert !BuddyIsFree(t, x, b);
    assert s.lists[b] == s.lists[b][..n] + [x];
    assert Release(t, x, b).lists == s.lists;
  }

  // ----- what a caller sees of malloc -----

  // Too large, or nothing asked for.
  predicate Refused(s: State, nbytes: nat)
  {
    nbytes == 0 || nbytes + HEADER > s.heapSize + 1 || nbytes + HEADER > Size(s.top + 1)
  }

  // Some free block has room for this many bytes.
  ghost predicate SomeRoom(s: State, bytes: nat)
    requires Inv(s)
  {
    exists x: nat, c: nat :: IsFree(s, x, c) && bytes <= Size(c)
  }

  // The block at x is free and has room, and none with room is smaller.
  ghost predicate BestFit(s: State, x: nat, bytes: nat)
    requires Inv(s)
  {
    exists c: nat :: IsFree(s, x, c) && bytes <= Size(c)
                     && forall y: nat, d: nat :: IsFree(s, y, d) && bytes <= Size(d) ==> c <= d
  }

  // NULL, a block or a fault, in terms of sizes and of the free blocks.
  lemma MallocAnswers(s: State, nbytes: nat)
    requires Inv(s) && nbytes + HEADER < W64
    ensures Malloc(s, nbytes).1 == Null <==> Refused(s, nbytes)
    ensures Malloc(s, nbytes).1.Allocated? <==> !Refused(s, nbytes) && SomeRoom(s, nbytes + HEADER)
  {
    SmallMod(nbytes + HEADER, W64);
    hide Malloc, IdealBucket, Inv, Size;
    MallocOutcome(s, nbytes);
    if Admitted(nbytes, s.heapSize) {
      IdealIsLeast(nbytes, s.top + 1);
      forall x: nat, c: nat | IsFree(s, x, c)
        ensures IdealBucket(nbytes) <= c <==> nbytes + HEADER <= Size(c)
        ensures c <= s.top
      {
        IdealIsLeast(nbytes, c);
        FreeInArena(s, x, c);
      }
    }
  }

  lemma FreeInArena(s: State, x: nat, c: nat)
    requires Inv(s) && IsFree(s, x, c)
    ensures c <= s.top
  {
    BlockBounds(s.tree, s.top, x);
  }

  // What the answer payload means for the caller, who goes from s to r.  Its block was
  // free, and the smallest one with room.  Now it is in use, no larger than it must
  // be; the bytes asked for lie behind its header and inside it; no other block in use
  // has changed, and freeing it gives the state before back.
  ghost predicate Served(s: State, r: State, payload: nat, nbytes: nat)
    requires Inv(s) && Inv(r)
  {
    && payload >= HEADER
    && var x := payload - HEADER;
    && BestFit(s, x, nbytes + HEADER) && Owned(r, x) && !Owned(s, x)
    && (exists b: nat :: b >= 1 && IsUsed(r, x, b) && Size(b - 1) < nbytes + HEADER
                         && payload + nbytes <= x + Size(b) <= Size(s.top))
    && (forall y: nat, c: nat :: y != x ==> (IsUsed(r, y, c) <==> IsUsed(s, y, c)))
    && FreeBlock(r, x) == s
  }

  lemma MallocServes(s: State, nbytes: nat)
    requires Inv(s) && nbytes + HEADER < W64 && Malloc(s, nbytes).1.Allocated?
    ensures var (r, o) := Malloc(s, nbytes);
            Inv(r) && Served(s, r, o.block + HEADER, nbytes)
  {
    MallocOutcome(s, nbytes);
    SmallMod(nbytes + HEADER, W64);
    IdealIsTight(nbytes);
    hide Malloc, IdealBucket, Admitted, Size, Inv, FreeBlock, BlockAt;
    MallocEffect(s, nbytes);
    MallocTakesSmallest(s, nbytes);
    FreeUndoesMalloc(s, nbytes);
    assert IsUsed(Malloc(s, nbytes).0, Malloc(s, nbytes).1.block, IdealBucket(nbytes));
    forall y: nat, c: nat | IsFree(s, y, c)
      ensures IdealBucket(nbytes) <= c <==> nbytes + HEADER <= Size(c)
    {
      IdealIsLeast(nbytes, c);
    }
  }

  // ----- runs -----

  datatype Call = CallMalloc(nbytes: nat) | CallFree(block: nat)

  // free is given a block that malloc answered and that was not freed since;
  // malloc does not run past the last bucket.
  ghost predicate Allowed(s: State, c: Call)
    requires Inv(s)
  {
    match c
    case CallMalloc(n) => n + HEADER < W64 && Malloc(s, n).1 != Fault
    case CallFree(x) => Owned(s, x)
  }

  ghost function Step(s: State, c: Call): (r: State)
    requires Inv(s) && Allowed(s, c)
    ensures Inv(r) && r.top == s.top && r.heapSize == s.heapSize
  {
    match c
    case CallMalloc(n) =>
      MallocOutcome(s, n);
      if Malloc(s, n).1 == Null then s else MallocEffect(s, n); Malloc(s, n).0
    case CallFree(x) => FreeEffect(s, x); FreeBlock(s, x)
  }

  // s leads to r by the given calls.
  ghost predicate Run(s: State, calls: seq<Call>, r: State)
    requires Inv(s)
    decreases |calls|
  {
    if calls == [] then r == s
    else Allowed(s, calls[0]) && Run(Step(s, calls[0]), calls[1..], r)
  }

  lemma {:induction false} RunKeepsInv(s: State, calls: seq<Call>, r: State)
    requires Inv(s) && Run(s, calls, r)
    ensures Inv(r) && r.top == s.top && r.heapSize == s.heapSize
    decreases |calls|
  {
    if calls != [] {
      RunKeepsInv(Step(s, calls[0]), calls[1..], r);
    }
  }

  lemma MulAtLeast(d: nat, z: nat)
    requires d >= 1
    ensures d * z >= z
  {
    assert d * z == (d - 1) * z + z;
  }

  lemma NoSmallMultiple(d: int, z: nat)
    requires 0 <= d * z < z
    ensures d * z == 0
  {
    if d >= 1 {
      MulAtLeast(d, z);
    }
  }

  lemma MultipleMod(m: nat, z: nat)
    requires z > 0
    ensures (m * z) % z == 0
  {
    var x := m * z;
    assert x == z * (x / z) + x % z;
    assert (m - x / z) * z == m * z - (x / z) * z == x % z;
    NoSmallMultiple(m - x / z, z);
  }

  ghost predicate Covers(s: State, x: int, byte: int)
    requires Inv(s)
  {
    BlockAt(s.tree, s.top, x).Block? && x <= byte < x + Size(BlockAt(s.tree, s.top, x).bucket)
  }

  ghost predicate CoveredOnce(s: State, byte: int)
    requires Inv(s)
  {
    exists x :: Covers(s, x, byte) && forall y :: Covers(s, y, byte) ==> y == x
  }

  lemma Tiled(s: State, byte: int)
    requires Inv(s) && 0 <= byte < Size(s.top)
    ensures CoveredOnce(s, byte)
  {
    var x := Cover(s.tree, s.top, byte);
    assert Covers(s, x, byte);
    forall y | Covers(s, y, byte) ensures y == x {
      if x < y {
        Disjoint(s.tree, s.top, x, y);
      } else if y < x {
        Disjoint(s.tree, s.top, y, x);
      }
    }
  }

  // A block starts at a multiple of its size, lies in the arena and holds its header.
  lemma BlockStarts(s: State, x: int)
    requires Inv(s) && BlockAt(s.tree, s.top, x).Block?
    ensures var z := Size(BlockAt(s.tree, s.top, x).bucket);
            0 <= x && x % z == 0 && x + z <= Size(s.top) && HEADER <= z
  {
    var b := BlockAt(s.tree, s.top, x).bucket;
    BlockBounds(s.tree, s.top, x);
    BlockIsLeaf(s.tree, s.top, x, b);
    var m := NodeAligned(s.tree, s.top, x, b);
    MultipleMod(m, Size(b));
    AtLeast32(b);
  }

  lemma AtLeast32(b: nat)
    requires b >= 1
    ensures Size(b) >= 32
  {
    assert Pow2(3) == 8;
    assert Pow2(5) == 32;
    if b > 1 {
      Pow2Monotone(MIN_ALLOC_LOG2 + 1, MIN_ALLOC_LOG2 + b);
    }
  }

  // In every state a run reaches, the blocks tile the arena - each byte is in
  // exactly one - each starts at a multiple of its size and holds its header,
  // and list b holds exactly the free blocks of bucket b, each once.
  lemma RunTiles(top: nat, heapSize: nat, calls: seq<Call>, r: State)
    requires 1 <= top <= 26 && Size(top) <= heapSize < W32 - 1
    requires Inv(Initial(top, heapSize)) && Run(Initial(top, heapSize), calls, r)
    ensures Inv(r) && r.top == top
    ensures forall byte :: 0 <= byte < Size(top) ==> CoveredOnce(r, byte)
    ensures forall x :: BlockAt(r.tree, top, x).Block? ==>
              var z := Size(BlockAt(r.tree, top, x).bucket);
              0 <= x && x % z == 0 && x + z <= Size(top) && HEADER <= z
    ensures forall b :: 0 <= b <= top ==> Distinct(r.lists[b])
    ensures forall b, x: nat :: 0 <= b <= top ==> (x in r.lists[b] <==> BlockAt(r.tree, top, x) == Block(b, true))
  {
    RunKeepsInv(Initial(top, heapSize), calls, r);
    forall byte | 0 <= byte < Size(top)
      ensures CoveredOnce(r, byte)
    {
      Tiled(r, byte);
    }
    forall x | BlockAt(r.tree, top, x).Block?
      ensures var z := Size(BlockAt(r.tree, top, x).bucket);
              0 <= x && x % z == 0 && x + z <= Size(top) && HEADER <= z
    {
      BlockStarts(r, x);
    }
  }

  // The free blocks depend only on the used ones: two states with the same used
  // blocks, however they were reached, have the same blocks altogether and the
  // same members in every free list.
  lemma UsedDecidesFree(s: State, r: State)
    requires Inv(s) && Inv(r) && s.top == r.top
    requires forall x: nat, b :: IsUsed(s, x, b) <==> IsUsed(r, x, b)
    ensures s.tree == r.tree
    ensures forall b, x :: 0 <= b <= s.top ==> (x in s.lists[b] <==> x in r.lists[b])
  {
    forall x, b
      ensures BlockAt(s.tree, s.top, x) == Block(b, false) <==> BlockAt(r.tree, s.top, x) == Block(b, false)
    {
      BlockBounds(s.tree, s.top, x);
      BlockBounds(r.tree, s.top, x);
      if x >= 0 {
        assert IsUsed(s, x, b) <==> IsUsed(r, x, b);
      }
    }
    UsedDecidesAll(s.tree, r.tree, s.top);
    forall b, x | 0 <= b <= s.top
      ensures x in s.lists[b] <==> x in r.lists[b]
    {
      assert x in s.lists[b] <==> BlockAt(s.tree, s.top, x) == Block(b, true);
      assert x in r.lists[b] <==> BlockAt(r.tree, r.top, x) == Block(b, true);
    }
  }

  // A run that has freed everything, in whatever order, is back at the start.
  lemma EverythingFreed(top: nat, heapSize: nat, calls: seq<Call>, r: State)
    requires 1 <= top <= 26 && Size(top) <= heapSize < W32 - 1
    requires Inv(Initial(top, heapSize)) && Run(Initial(top, heapSize), calls, r)
    requires Inv(r) && forall x :: !Owned(r, x)
    ensures r == Initial(top, heapSize)
  {
    var s := Initial(top, heapSize);
    RunKeepsInv(s, calls, r);
    forall x, b ensures IsUsed(s, x, b) <==> IsUsed(r, x, b) {
      assert !Owned(r, x);
    }
    UsedDecidesFree(s, r);
    forall b | 0 <= b <= top
      ensures r.lists[b] == s.lists[b]
    {
      SmallLists(r.lists[b], s.lists[b]);
    }
    assert r.lists == s.lists;
  }

  // Lists without duplicates that have the same members are equal when one of
  // them has at most one member.
  lemma SmallLists(xs: seq<nat>, ys: seq<nat>)
    requires Distinct(xs) && |ys| <= 1 && forall x :: x in xs <==> x in ys
    ensures xs == ys
  {
    FirstTwo(xs);
    assert |ys| >= 1 ==> ys[0] in xs;
  }

  lemma FirstTwo(xs: seq<nat>)
    requires Distinct(xs)
    ensures |xs| >= 1 ==> xs[0] in xs
    ensures |xs| >= 2 ==> xs[1] in xs && xs[0] != xs[1]
  {
  }

  lemma Admits8()
    ensures Admitted(8, 32)
  {
    SmallMod(8 + HEADER, W64);
    hide Pow2, Size;
  }

  lemma IdealOf8()
    ensures IdealBucket(8) == 1
  {
    assert Pow2(3) == 8;
    assert Pow2(5) == 32;
    IdealIsTight(8);
    hide IdealBucket;
    if IdealBucket(8) > 1 {
      AtLeast32(IdealBucket(8) - 1);
    }
  }

  // An arena of one smallest block, free and then used.
  lemma FirstOf32()
    ensures Size(1) == 32 && Inv(Initial(1, 32)) && Initial(1, 32).lists == [[], [0]]
    ensures var r := Take(Initial(1, 32), 1);
            Inv(r) && IsUsed(r, 0, 1) && r.lists == [[], []] && r.top == 1 && r.heapSize == 32
  {
    assert Pow2(5) == 32;
    InitialInv(1, 32);
    assert Initial(1, 32).lists == [[], [0]];
    TakeInv(Initial(1, 32), 1);
  }

  // A request for the bucket that a list holds, and one that finds every list empty.
  lemma ServedAtOnce(s: State, nbytes: nat, b: nat)
    requires Inv(s) && nbytes + HEADER < W64 && Admitted(nbytes, s.heapSize)
    requires IdealBucket(nbytes) == b <= s.top && s.lists[b] != []
    ensures var x := s.lists[b][|s.lists[b]| - 1];
            Malloc(s, nbytes) == (Take(s, b), Allocated(x))
  {
    hide Malloc, Take, IdealBucket, Admitted, WellFormed, Canonical, ListsMatch, Distinct;
    MallocBranches(s, nbytes);
    var x := s.lists[b][|s.lists[b]| - 1];
    assert FirstAvailable(s.lists, b) == b;
    CarveStep(Take(s, b), x, b, b);
  }

  lemma FaultsWhenEmpty(s: State, nbytes: nat)
    requires Inv(s) && nbytes + HEADER < W64 && Admitted(nbytes, s.heapSize) && IdealBucket(nbytes) <= s.top + 1
    requires forall c :: IdealBucket(nbytes) <= c <= s.top ==> s.lists[c] == []
    ensures Malloc(s, nbytes) == (s, Fault)
  {
    hide Malloc, IdealBucket, Admitted, WellFormed, Canonical, ListsMatch, Distinct;
    MallocBranches(s, nbytes);
    FirstAvailableIsFirst(s.lists, IdealBucket(nbytes));
  }

  // Memory exhausted: malloc answers Fault, not Null, once the last block that
  // could serve has gone - here the second request to a 32-byte arena.
  lemma FaultExample()
    ensures var s := Initial(1, 32);
            Inv(s) && var (r, o) := Malloc(s, 8);
            o == Allocated(0) && Inv(r) && Malloc(r, 8).1 == Fault
  {
    FirstOf32();
    IdealOf8();
    Admits8();
    hide Inv, Take, IdealBucket, Malloc, Admitted;
    ServedAtOnce(Initial(1, 32), 8, 1);
    FaultsWhenEmpty(Take(Initial(1, 32), 1), 8);
  }
}
