// The abstract state of the buddy allocator - the tree of blocks, and the order of
// each bucket's free list - and the steps that malloc and free are made of.
module BuddyState {
  import opened Sequences
  import opened BuddyTree
  import opened BuddySizing

  datatype State = State(top: nat, heapSize: nat, tree: Tree, lists: seq<seq<nat>>)

  // Null and a block are the answers the code means to give; Fault is the read
  // of buckets[buckets_amount], one past the buckets in use, that the code
  // performs when no block is large enough.
  datatype Outcome = Null | Fault | Allocated(block: nat)

  ghost predicate ListsMatch(s: State)
    requires WellFormed(s.tree, s.top) && |s.lists| == s.top + 1
  {
    forall b, x :: 0 <= b <= s.top ==> (x in s.lists[b] <==> BlockAt(s.tree, s.top, x) == Block(b, true))
  }

  // What every state between two calls satisfies.
  ghost predicate Inv(s: State)
  {
    && s.top <= 26 && Size(s.top) <= s.heapSize < W32 - 1
    && WellFormed(s.tree, s.top) && Canonical(s.tree)
    && |s.lists| == s.top + 1
    && (forall b :: 0 <= b <= s.top ==> Distinct(s.lists[b]))
    && ListsMatch(s)
  }

  ghost predicate IsUsed(s: State, x: nat, b: nat)
    requires Inv(s)
  {
    BlockAt(s.tree, s.top, x) == Block(b, false)
  }

  ghost predicate IsFree(s: State, x: nat, b: nat)
    requires Inv(s)
  {
    BlockAt(s.tree, s.top, x) == Block(b, true)
  }

  // ----- sequences without duplicates -----

  // The sequence without its element x.
  function Without(xs: seq<nat>, x: nat): seq<nat>
  {
    if xs == [] then [] else if xs[0] == x then xs[1..] else [xs[0]] + Without(xs[1..], x)
  }

  lemma {:induction false} WithoutAt(xs: seq<nat>, k: nat)
    requires Distinct(xs) && k < |xs|
    ensures Without(xs, xs[k]) == xs[..k] + xs[k + 1..]
  {
    assert k > 0 ==> xs[0] != xs[k];
    if k > 0 {
      WithoutAt(xs[1..], k - 1);
      assert xs[..k] + xs[k + 1..] == [xs[0]] + (xs[1..][..k - 1] + xs[1..][k..]);
    }
  }

  lemma WithoutMembers(xs: seq<nat>, x: nat)
    requires Distinct(xs) && x in xs
    ensures Distinct(Without(xs, x))
    ensures forall y :: y in Without(xs, x) <==> y in xs && y != x
  {
    var k :| 0 <= k < |xs| && xs[k] == x;
    WithoutAt(xs, k);
    var ys := xs[..k] + xs[k + 1..];
    forall y ensures y in ys <==> y in xs && y != x {
      if y in xs && y != x {
        var j :| 0 <= j < |xs| && xs[j] == y;
        assert ys[if j < k then j else j - 1] == y;
      }
    }
  }

  // ----- the steps -----

  // Replacing the leaf at x touches the blocks inside it and no other.
  lemma LeafReplace(t: Tree, l: nat, x: nat, b: nat, s: Tree, y: int)
    requires WellFormed(t, l) && IsNode(t, l, x, b) && !NodeAt(t, l, x, b).Split? && WellFormed(s, b)
    ensures BlockAt(Replace(t, l, x, b, s), l, y) ==
            if x <= y < x + Size(b) then BlockAt(s, b, y - x) else BlockAt(t, l, y)
    ensures x < y < x + Size(b) ==> BlockAt(t, l, y) == Absent
  {
    BlockAfterReplace(t, l, x, b, s, y);
    if x < y < x + Size(b) {
      BlockInNode(t, l, x, b, y - x);
    }
  }

  // listPop: the most recently pushed block of bucket b leaves its list.
  ghost function Take(s: State, b: nat): State
    requires Inv(s) && b <= s.top && s.lists[b] != []
  {
    var x := s.lists[b][|s.lists[b]| - 1];
    assert BlockAt(s.tree, s.top, x) == Block(b, true);
    BlockIsLeaf(s.tree, s.top, x, b);
    BlockBounds(s.tree, s.top, x);
    s.(tree := Replace(s.tree, s.top, x, b, Used),
       lists := s.lists[b := s.lists[b][..|s.lists[b]| - 1]])
  }

  lemma TakeInv(s: State, b: nat)
    requires Inv(s) && b <= s.top && s.lists[b] != []
    ensures var x := s.lists[b][|s.lists[b]| - 1];
            Inv(Take(s, b)) && IsFree(s, x, b) && IsUsed(Take(s, b), x, b)
    ensures var x := s.lists[b][|s.lists[b]| - 1];
            forall y :: y != x ==> BlockAt(Take(s, b).tree, s.top, y) == BlockAt(s.tree, s.top, y)
  {
    hide Replace, IsNode, NodeAt;
    var n := |s.lists[b]| - 1;
    var x := s.lists[b][n];
    assert x in s.lists[b];
    BlockIsLeaf(s.tree, s.top, x, b);
    BlockBounds(s.tree, s.top, x);
    ReplaceCanonical(s.tree, s.top, x, b, Used);
    var r := Take(s, b);
    forall y ensures BlockAt(r.tree, s.top, y) == if y == x then Block(b, false) else BlockAt(s.tree, s.top, y) {
      LeafReplace(s.tree, s.top, x, b, Used, y);
    }
    forall c, y | 0 <= c <= s.top
      ensures y in r.lists[c] <==> BlockAt(r.tree, s.top, y) == Block(c, true)
    {
      assert y in s.lists[c] <==> BlockAt(s.tree, s.top, y) == Block(c, true);
      if c == b {
        assert s.lists[b] == r.lists[b] + [x];
      }
    }
  }

  // One round of malloc's loop: the lower half is kept, the upper half is free.
  ghost function SplitUsed(s: State, x: nat, b: nat): State
    requires Inv(s) && IsUsed(s, x, b) && b >= 2
  {
    BlockIsLeaf(s.tree, s.top, x, b);
    BlockBounds(s.tree, s.top, x);
    assert WellFormed(Used, b - 1) && WellFormed(Free, b - 1);
    s.(tree := Replace(s.tree, s.top, x, b, Split(Used, Free)),
       lists := s.lists[b - 1 := s.lists[b - 1] + [x + Size(b - 1)]])
  }

  lemma SplitInv(s: State, x: nat, b: nat)
    requires Inv(s) && IsUsed(s, x, b) && b >= 2
    ensures var r := SplitUsed(s, x, b);
            b <= s.top && Inv(r) && IsUsed(r, x, b - 1) && IsFree(r, x + Size(b - 1), b - 1)
    ensures BlockAt(s.tree, s.top, x + Size(b - 1)) == Absent
    ensures forall y :: y != x && y != x + Size(b - 1) ==>
              BlockAt(SplitUsed(s, x, b).tree, s.top, y) == BlockAt(s.tree, s.top, y)
  {
    hide Replace, IsNode, NodeAt;
    BlockIsLeaf(s.tree, s.top, x, b);
    BlockBounds(s.tree, s.top, x);
    var half := Split(Used, Free);
    ReplaceCanonical(s.tree, s.top, x, b, half);
    var r := SplitUsed(s, x, b);
    var z := x + Size(b - 1);
    LeafReplace(s.tree, s.top, x, b, half, z);
    forall y
      ensures BlockAt(r.tree, s.top, y) ==
              if y == x then Block(b - 1, false) else if y == z then Block(b - 1, true)
              else BlockAt(s.tree, s.top, y)
    {
      LeafReplace(s.tree, s.top, x, b, half, y);
    }
    forall c, y | 0 <= c <= s.top
      ensures y in r.lists[c] <==> BlockAt(r.tree, s.top, y) == Block(c, true)
    {
      assert y in s.lists[c] <==> BlockAt(s.tree, s.top, y) == Block(c, true);
    }
    assert z !in s.lists[b - 1];
  }

  ghost predicate BuddyIsFree(s: State, x: nat, b: nat)
    requires Inv(s)
  {
    b < s.top && IsFree(s, BuddyOf(x, b), b)
  }

  // One round of free's loop: the free buddy leaves its list and joins the block.
  ghost function MergeUsed(s: State, x: nat, b: nat): State
    requires Inv(s) && IsUsed(s, x, b) && BuddyIsFree(s, x, b)
  {
    BuddyIsBlock(s.tree, s.top, x, b);
    s.(tree := Replace(s.tree, s.top, LowerOf(x, b), b + 1, Used),
       lists := s.lists[b := Without(s.lists[b], BuddyOf(x, b))])
  }

  lemma MergeInv(s: State, x: nat, b: nat)
    requires Inv(s) && IsUsed(s, x, b) && BuddyIsFree(s, x, b)
    ensures Inv(MergeUsed(s, x, b)) && IsUsed(MergeUsed(s, x, b), LowerOf(x, b), b + 1)
    ensures LowerOf(x, b) == x || LowerOf(x, b) == BuddyOf(x, b)
    ensures forall y :: y != x && y != BuddyOf(x, b) ==>
              BlockAt(MergeUsed(s, x, b).tree, s.top, y) == BlockAt(s.tree, s.top, y)
    ensures forall y :: y != LowerOf(x, b) && (y == x || y == BuddyOf(x, b)) ==>
              BlockAt(MergeUsed(s, x, b).tree, s.top, y) == Absent
  {
    hide BuddyOf, LowerOf, Size, BlockAt, Replace, IsNode, NodeAt, Without;
    BuddyIsBlock(s.tree, s.top, x, b);
    var y := BuddyOf(x, b);
    var p := LowerOf(x, b);
    NodeBounds(s.tree, s.top, p, b + 1);
    ReplaceCanonical(s.tree, s.top, p, b + 1, Used);
    MergeBlocks(s, x, b);
    assert y in s.lists[b];
    WithoutMembers(s.lists[b], y);
    var r := MergeUsed(s, x, b);
    forall c, z | 0 <= c <= s.top
      ensures z in r.lists[c] <==> BlockAt(r.tree, s.top, z) == Block(c, true)
    {
      assert z in s.lists[c] <==> BlockAt(s.tree, s.top, z) == Block(c, true);
    }
  }

  lemma MergeBlocks(s: State, x: nat, b: nat)
    requires Inv(s) && IsUsed(s, x, b) && BuddyIsFree(s, x, b)
    ensures forall z :: BlockAt(MergeUsed(s, x, b).tree, s.top, z) ==
              if z == LowerOf(x, b) then Block(b + 1, false)
              else if z == x || z == BuddyOf(x, b) then Absent
              else BlockAt(s.tree, s.top, z)
  {
    hide BuddyOf, LowerOf, Replace, IsNode, Canonical, ListsMatch, Distinct;
    BuddyIsBlock(s.tree, s.top, x, b);
    var y := BuddyOf(x, b);
    var p := LowerOf(x, b);
    NodeBounds(s.tree, s.top, p, b + 1);
    Children(s.tree, s.top, p, b);
    BuddyBits(s.tree, s.top, p, b);
    forall z ensures BlockAt(MergeUsed(s, x, b).tree, s.top, z) ==
              if z == p then Block(b + 1, false)
              else if z == x || z == y then Absent
              else BlockAt(s.tree, s.top, z)
    {
      BlockAfterReplace(s.tree, s.top, p, b + 1, Used, z);
      if p <= z < p + Size(b + 1) {
        BlockInNode(s.tree, s.top, p, b + 1, z - p);
      }
    }
  }

  // The end of free: the block becomes free and goes to the back of its list.
  ghost function Release(s: State, x: nat, b: nat): State
    requires Inv(s) && IsUsed(s, x, b) && !BuddyIsFree(s, x, b)
  {
    BlockIsLeaf(s.tree, s.top, x, b);
    BlockBounds(s.tree, s.top, x);
    s.(tree := Replace(s.tree, s.top, x, b, Free), lists := s.lists[b := s.lists[b] + [x]])
  }

  lemma ReleaseInv(s: State, x: nat, b: nat)
    requires Inv(s) && IsUsed(s, x, b) && !BuddyIsFree(s, x, b)
    ensures b <= s.top && Inv(Release(s, x, b)) && IsFree(Release(s, x, b), x, b)
    ensures forall y :: y != x ==> BlockAt(Release(s, x, b).tree, s.top, y) == BlockAt(s.tree, s.top, y)
  {
    hide Replace, IsNode, NodeAt;
    BlockIsLeaf(s.tree, s.top, x, b);
    BlockBounds(s.tree, s.top, x);
    ReplaceCanonical(s.tree, s.top, x, b, Free);
    var r := Release(s, x, b);
    forall y ensures BlockAt(r.tree, s.top, y) == if y == x then Block(b, true) else BlockAt(s.tree, s.top, y) {
      LeafReplace(s.tree, s.top, x, b, Free, y);
    }
    forall c, y | 0 <= c <= s.top
      ensures y in r.lists[c] <==> BlockAt(r.tree, s.top, y) == Block(c, true)
    {
      assert y in s.lists[c] <==> BlockAt(s.tree, s.top, y) == Block(c, true);
    }
    assert x !in s.lists[b];
  }
}
