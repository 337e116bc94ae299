// The arena of the buddy allocator as a binary tree.  A tree at level b covers
// 2^(4+b) bytes; a leaf is one block, free or used; a Split has two buddies.
module BuddyTree {
  import opened Bits

  // Bucket 0 (16 bytes) is too small for the 24-byte block header, so no block of the
  // allocator ever lives there.

  const MIN_ALLOC_LOG2 := 4

  datatype Tree = Free | Used | Split(left: Tree, right: Tree)

  datatype Lookup = Absent | Block(bucket: nat, free: bool)

  // Bytes in a block of bucket b.
  function Size(b: nat): (r: nat)
    ensures r > 0
  {
    Pow2(MIN_ALLOC_LOG2 + b)
  }

  // Every leaf of a tree at level l is in a bucket between 1 and l.
  predicate WellFormed(t: Tree, l: nat)
  {
    l >= 1 && (t.Split? ==> l >= 2 && WellFormed(t.left, l - 1) && WellFormed(t.right, l - 1))
  }

  // No two free buddies side by side.
  predicate Canonical(t: Tree)
  {
    t.Split? ==> !(t.left.Free? && t.right.Free?) && Canonical(t.left) && Canonical(t.right)
  }

  // The block that starts at offset x, if one does.
  function BlockAt(t: Tree, l: nat, x: int): Lookup
    requires WellFormed(t, l)
  {
    match t
    case Free => if x == 0 then Block(l, true) else Absent
    case Used => if x == 0 then Block(l, false) else Absent
    case Split(a, b) => if x < Size(l - 1) then BlockAt(a, l - 1, x) else BlockAt(b, l - 1, x - Size(l - 1))
  }

  // Whether some subtree starts at offset x and has level b.
  predicate IsNode(t: Tree, l: nat, x: int, b: nat)
    requires WellFormed(t, l)
  {
    if l == b then x == 0
    else
      b < l && t.Split? &&
      if x < Size(l - 1) then IsNode(t.left, l - 1, x, b) else IsNode(t.right, l - 1, x - Size(l - 1), b)
  }

  function NodeAt(t: Tree, l: nat, x: int, b: nat): (r: Tree)
    requires WellFormed(t, l) && IsNode(t, l, x, b)
    ensures WellFormed(r, b)
    ensures Canonical(t) ==> Canonical(r)
  {
    if l == b then t
    else if x < Size(l - 1) then NodeAt(t.left, l - 1, x, b)
    else NodeAt(t.right, l - 1, x - Size(l - 1), b)
  }

  // The tree with the subtree at (x, b) replaced by s.
  function Replace(t: Tree, l: nat, x: int, b: nat, s: Tree): (r: Tree)
    requires WellFormed(t, l) && IsNode(t, l, x, b) && WellFormed(s, b)
    ensures WellFormed(r, l) && IsNode(r, l, x, b) && NodeAt(r, l, x, b) == s
  {
    if l == b then s
    else if x < Size(l - 1) then Split(Replace(t.left, l - 1, x, b, s), t.right)
    else Split(t.left, Replace(t.right, l - 1, x - Size(l - 1), b, s))
  }

  // ----- where blocks are -----

  lemma {:induction false} NodeBounds(t: Tree, l: nat, x: int, b: nat)
    requires WellFormed(t, l) && IsNode(t, l, x, b)
    ensures 0 <= x && x + Size(b) <= Size(l) && 1 <= b <= l
  {
    if l != b {
      if x < Size(l - 1) {
        NodeBounds(t.left, l - 1, x, b);
      } else {
        NodeBounds(t.right, l - 1, x - Size(l - 1), b);
      }
    }
  }

  // A block is a leaf node of the level its bucket says, and the other way round.
  lemma {:induction false} BlockIsLeaf(t: Tree, l: nat, x: int, b: nat)
    requires WellFormed(t, l)
    ensures BlockAt(t, l, x) == Block(b, true) <==> IsNode(t, l, x, b) && NodeAt(t, l, x, b).Free?
    ensures BlockAt(t, l, x) == Block(b, false) <==> IsNode(t, l, x, b) && NodeAt(t, l, x, b).Used?
    decreases t
  {
    if t.Split? {
      if x < Size(l - 1) {
        BlockIsLeaf(t.left, l - 1, x, b);
      } else {
        BlockIsLeaf(t.right, l - 1, x - Size(l - 1), b);
      }
      if b == l {
      } else if b > l {
        if x < Size(l - 1) {
          BlockBounds(t.left, l - 1, x);
        } else {
          BlockBounds(t.right, l - 1, x - Size(l - 1));
        }
      }
      BlockBounds(t, l, x);
    }
  }

  lemma {:induction false} BlockBounds(t: Tree, l: nat, x: int)
    requires WellFormed(t, l)
    ensures BlockAt(t, l, x).Block? ==>
              var b := BlockAt(t, l, x).bucket;
              1 <= b <= l && (t.Split? ==> b < l) && 0 <= x && x + Size(b) <= Size(l)
  {
    if t.Split? {
      if x < Size(l - 1) {
        BlockBounds(t.left, l - 1, x);
      } else {
        BlockBounds(t.right, l - 1, x - Size(l - 1));
      }
    }
  }

  // A subtree starts with a block, of at most its own level.
  lemma {:induction false} FirstBlock(t: Tree, l: nat)
    requires WellFormed(t, l)
    ensures BlockAt(t, l, 0).Block? && BlockAt(t, l, 0).bucket <= l
    ensures BlockAt(t, l, 0).bucket == l <==> !t.Split?
  {
    BlockBounds(t, l, 0);
    if t.Split? {
      FirstBlock(t.left, l - 1);
    }
  }

  // Looking inside a subtree is looking at the tree at a shifted offset.
  lemma {:induction false} BlockInNode(t: Tree, l: nat, x: int, b: nat, y: int)
    requires WellFormed(t, l) && IsNode(t, l, x, b) && 0 <= y < Size(b)
    ensures BlockAt(t, l, x + y) == BlockAt(NodeAt(t, l, x, b), b, y)
  {
    if l != b {
      if x < Size(l - 1) {
        NodeBounds(t.left, l - 1, x, b);
        BlockInNode(t.left, l - 1, x, b, y);
      } else {
        NodeBounds(t.right, l - 1, x - Size(l - 1), b);
        BlockInNode(t.right, l - 1, x - Size(l - 1), b, y);
      }
    }
  }

  // Replacing a subtree changes the blocks inside it and no other.
  lemma {:induction false} BlockAfterReplace(t: Tree, l: nat, x: int, b: nat, s: Tree, y: int)
    requires WellFormed(t, l) && IsNode(t, l, x, b) && WellFormed(s, b)
    ensures BlockAt(Replace(t, l, x, b, s), l, y) ==
            if x <= y < x + Size(b) then BlockAt(s, b, y - x) else BlockAt(t, l, y)
  {
    if l == b {
      BlockBounds(s, b, y);
      BlockBounds(t, b, y);
    } else if x < Size(l - 1) {
      NodeBounds(t.left, l - 1, x, b);
      BlockAfterReplace(t.left, l - 1, x, b, s, y);
    } else {
      NodeBounds(t.right, l - 1, x - Size(l - 1), b);
      BlockAfterReplace(t.right, l - 1, x - Size(l - 1), b, s, y - Size(l - 1));
    }
  }

  // Every byte of the arena lies in some block ...
  lemma {:induction false} Cover(t: Tree, l: nat, byte: int) returns (x: int)
    requires WellFormed(t, l) && 0 <= byte < Size(l)
    ensures BlockAt(t, l, x).Block? && x <= byte < x + Size(BlockAt(t, l, x).bucket)
  {
    if t.Split? {
      if byte < Size(l - 1) {
        x := Cover(t.left, l - 1, byte);
      } else {
        x := Cover(t.right, l - 1, byte - Size(l - 1));
        BlockBounds(t.right, l - 1, x);
        x := x + Size(l - 1);
      }
    } else {
      x := 0;
    }
  }

  // ... and two blocks that start at different places do not overlap.
  lemma {:induction false} Disjoint(t: Tree, l: nat, x: int, y: int)
    requires WellFormed(t, l) && BlockAt(t, l, x).Block? && BlockAt(t, l, y).Block? && x < y
    ensures x + Size(BlockAt(t, l, x).bucket) <= y
  {
    match t
    case Free =>
    case Used =>
    case Split(a, b) =>
      if y < Size(l - 1) {
        Disjoint(a, l - 1, x, y);
      } else if x < Size(l - 1) {
        BlockBounds(a, l - 1, x);
      } else {
        Disjoint(b, l - 1, x - Size(l - 1), y - Size(l - 1));
      }
  }

  // A node starts at a multiple of its size.
  lemma AddMultiples(m: int, k: int, z: int)
    ensures m * z + k * z == (m + k) * z
  {
  }

  lemma {:induction false} NodeAligned(t: Tree, l: nat, x: int, b: nat) returns (m: nat)
    requires WellFormed(t, l) && IsNode(t, l, x, b)
    ensures x == m * Size(b)
  {
    if l == b {
      m := 0;
    } else if x < Size(l - 1) {
      m := NodeAligned(t.left, l - 1, x, b);
    } else {
      m := NodeAligned(t.right, l - 1, x - Size(l - 1), b);
      NodeBounds(t.right, l - 1, x - Size(l - 1), b);
      SizeDivides(b, l - 1);
      hide WellFormed, IsNode, Size, Pow2;
      AddMultiples(m, Pow2(l - 1 - b), Size(b));
      m := m + Pow2(l - 1 - b);
    }
  }

  lemma {:induction false} SizeDivides(b: nat, c: nat)
    requires b <= c
    ensures Size(c) == Pow2(c - b) * Size(b)
    decreases c
  {
    if b < c {
      SizeDivides(b, c - 1);
    }
  }

  // ----- buddies -----

  // The two children of a split node are nodes one level down.
  lemma {:induction false} Children(t: Tree, l: nat, p: int, b: nat)
    requires WellFormed(t, l) && IsNode(t, l, p, b + 1) && NodeAt(t, l, p, b + 1).Split?
    ensures IsNode(t, l, p, b) && NodeAt(t, l, p, b) == NodeAt(t, l, p, b + 1).left
    ensures IsNode(t, l, p + Size(b), b) && NodeAt(t, l, p + Size(b), b) == NodeAt(t, l, p, b + 1).right
  {
    if l == b + 1 {
    } else if p < Size(l - 1) {
      NodeBounds(t.left, l - 1, p, b + 1);
      Children(t.left, l - 1, p, b);
    } else {
      Children(t.right, l - 1, p - Size(l - 1), b);
    }
  }

  // A node below the root has a parent, and is one of its two children.
  lemma {:induction false} Parent(t: Tree, l: nat, x: int, b: nat) returns (p: int)
    requires WellFormed(t, l) && IsNode(t, l, x, b) && b < l
    ensures (p == x || p + Size(b) == x) && IsNode(t, l, p, b + 1) && NodeAt(t, l, p, b + 1).Split?
  {
    if b == l - 1 {
      p := 0;
    } else if x < Size(l - 1) {
      p := Parent(t.left, l - 1, x, b);
      NodeBounds(t.left, l - 1, p, b + 1);
    } else {
      p := Parent(t.right, l - 1, x - Size(l - 1), b);
      NodeBounds(t.right, l - 1, p, b + 1);
      p := p + Size(l - 1);
    }
  }

  // The offset of the buddy of the block of bucket b at offset x: bit 4+b flipped.
  function BuddyOf(x: nat, b: nat): nat
  {
    Xor(x, Size(b))
  }

  // The lower of a block and its buddy: bit 4+b cleared.
  function LowerOf(x: nat, b: nat): nat
  {
    AndNot(x, Size(b))
  }

  lemma PairBits(m: nat, b: nat)
    ensures BuddyOf(2 * m * Size(b), b) == (2 * m + 1) * Size(b)
    ensures BuddyOf((2 * m + 1) * Size(b), b) == 2 * m * Size(b)
    ensures LowerOf(2 * m * Size(b), b) == 2 * m * Size(b)
    ensures LowerOf((2 * m + 1) * Size(b), b) == 2 * m * Size(b)
  {
    hide Pow2, Xor, AndNot;
    XorAligned(2 * m, MIN_ALLOC_LOG2 + b);
    XorAligned(2 * m + 1, MIN_ALLOC_LOG2 + b);
    AndNotAligned(2 * m, MIN_ALLOC_LOG2 + b);
    AndNotAligned(2 * m + 1, MIN_ALLOC_LOG2 + b);
  }

  // At a split node the bit operations name exactly the two children.
  lemma BuddyBits(t: Tree, l: nat, p: nat, b: nat)
    requires WellFormed(t, l) && IsNode(t, l, p, b + 1)
    ensures BuddyOf(p, b) == p + Size(b) && BuddyOf(p + Size(b), b) == p
    ensures LowerOf(p, b) == p && LowerOf(p + Size(b), b) == p
  {
    var m := NodeAligned(t, l, p, b + 1);
    var z := Size(b);
    assert p == m * (2 * z) == 2 * m * z;
    assert p + z == (2 * m + 1) * z;
    PairBits(m, b);
  }

  // Below the top bucket, the buddy address of a block is the start of a block:
  // its header is a header and never the inside of somebody's payload.  That
  // block is no larger, and if it is as large then the two fill their parent.
  lemma {:induction false} BuddyIsBlock(t: Tree, l: nat, x: nat, b: nat)
    requires WellFormed(t, l) && BlockAt(t, l, x).Block? && BlockAt(t, l, x).bucket == b && b < l
    ensures BlockAt(t, l, BuddyOf(x, b)).Block? && BlockAt(t, l, BuddyOf(x, b)).bucket <= b
    ensures BuddyOf(BuddyOf(x, b), b) == x
    ensures LowerOf(x, b) == (if x < BuddyOf(x, b) then x else BuddyOf(x, b))
    ensures IsNode(t, l, LowerOf(x, b), b + 1)
    ensures BlockAt(t, l, BuddyOf(x, b)).bucket == b ==>
              NodeAt(t, l, LowerOf(x, b), b + 1) ==
              var mine := if BlockAt(t, l, x).free then Free else Used;
              var other := if BlockAt(t, l, BuddyOf(x, b)).free then Free else Used;
              if x < BuddyOf(x, b) then Split(mine, other) else Split(other, mine)
  {
    BlockIsLeaf(t, l, x, b);
    var p := Parent(t, l, x, b);
    NodeBounds(t, l, p, b + 1);
    Children(t, l, p, b);
    BuddyBits(t, l, p, b);
    var y := BuddyOf(x, b);
    var sibling := NodeAt(t, l, y, b);
    FirstBlock(sibling, b);
    BlockInNode(t, l, y, b, 0);
    BlockIsLeaf(t, l, y, b);
  }

  // ----- the canonical form -----

  ghost predicate NoneUsed(t: Tree, l: nat)
    requires WellFormed(t, l)
  {
    forall x, b :: BlockAt(t, l, x) != Block(b, false)
  }

  // A canonical tree without a used block is one free block.
  lemma {:induction false} NothingUsed(t: Tree, l: nat)
    requires WellFormed(t, l) && Canonical(t) && NoneUsed(t, l)
    ensures t == Free
    decreases t
  {
    assert t.Used? ==> BlockAt(t, l, 0) == Block(l, false);
    match t
    case Free =>
    case Used =>
    case Split(a, b) =>
      var k := l - 1;
      forall x, c
        ensures BlockAt(a, k, x) != Block(c, false) && BlockAt(b, k, x) != Block(c, false)
      {
        HalfBlocks(t, l, x);
        assert BlockAt(t, l, x) != Block(c, false);
        assert BlockAt(t, l, x + Size(l - 1)) != Block(c, false);
      }
      NothingUsed(a, l - 1);
      NothingUsed(b, l - 1);
  }

  // The blocks of a split tree are those of its halves.
  lemma HalfBlocks(t: Tree, l: nat, x: int)
    requires WellFormed(t, l) && t.Split?
    ensures BlockAt(t.left, l - 1, x).Block? ==> BlockAt(t, l, x) == BlockAt(t.left, l - 1, x)
    ensures BlockAt(t.right, l - 1, x).Block? ==> BlockAt(t, l, x + Size(l - 1)) == BlockAt(t.right, l - 1, x)
  {
    BlockBounds(t.left, l - 1, x);
    BlockBounds(t.right, l - 1, x);
  }

  ghost predicate SameUsed(t: Tree, u: Tree, l: nat)
    requires WellFormed(t, l) && WellFormed(u, l)
  {
    forall x, b :: BlockAt(t, l, x) == Block(b, false) <==> BlockAt(u, l, x) == Block(b, false)
  }

  // The used blocks decide the whole tree, the free blocks included.
  lemma {:induction false} UsedDecidesAll(t: Tree, u: Tree, l: nat)
    requires WellFormed(t, l) && WellFormed(u, l) && Canonical(t) && Canonical(u)
    requires SameUsed(t, u, l)
    ensures t == u
    decreases t
  {
    if t.Free? {
      NothingUsed(u, l);
    } else if u.Free? {
      NothingUsed(t, l);
    } else if t.Used? {
      assert BlockAt(t, l, 0) == Block(l, false);
      BlockBounds(u, l, 0);
    } else if u.Used? {
      assert BlockAt(u, l, 0) == Block(l, false);
      BlockBounds(t, l, 0);
    } else {
      SameUsedHalves(t, u, l);
      UsedDecidesAll(t.left, u.left, l - 1);
      UsedDecidesAll(t.right, u.right, l - 1);
    }
  }

  lemma SameUsedHalves(t: Tree, u: Tree, l: nat)
    requires WellFormed(t, l) && WellFormed(u, l) && t.Split? && u.Split? && SameUsed(t, u, l)
    ensures SameUsed(t.left, u.left, l - 1) && SameUsed(t.right, u.right, l - 1)
  {
    var k := l - 1;
    forall x, b
      ensures BlockAt(t.left, k, x) == Block(b, false) <==> BlockAt(u.left, k, x) == Block(b, false)
      ensures BlockAt(t.right, k, x) == Block(b, false) <==> BlockAt(u.right, k, x) == Block(b, false)
    {
      assert BlockAt(t, l, x) == Block(b, false) <==> BlockAt(u, l, x) == Block(b, false);
      var y := x + Size(l - 1);
      assert BlockAt(t, l, y) == Block(b, false) <==> BlockAt(u, l, y) == Block(b, false);
      BlockBounds(t.left, l - 1, x);
      BlockBounds(u.left, l - 1, x);
      BlockBounds(t.right, l - 1, x);
      BlockBounds(u.right, l - 1, x);
    }
  }

  // Replacing a leaf keeps the tree canonical as long as a free leaf does not
  // land beside a free sibling.
  lemma {:induction false} ReplaceCanonical(t: Tree, l: nat, x: int, b: nat, s: Tree)
    requires WellFormed(t, l) && Canonical(t) && IsNode(t, l, x, b)
    requires WellFormed(s, b) && Canonical(s)
    requires s.Free? && b < l && x >= 0 ==>
               BlockAt(t, l, BuddyOf(x, b)) != Block(b, true)
    ensures Canonical(Replace(t, l, x, b, s))
  {
    if !s.Free? {
      ReplaceNonFree(t, l, x, b, s);
    } else if b < l {
      NodeBounds(t, l, x, b);
      var p := Parent(t, l, x, b);
      NodeBounds(t, l, p, b + 1);
      ReplaceFreeChild(t, l, p, x, b, s);
    }
  }

  // The same for a free subtree under its parent.
  lemma ReplaceFreeChild(t: Tree, l: nat, p: nat, x: nat, b: nat, s: Tree)
    requires WellFormed(t, l) && Canonical(t) && WellFormed(s, b) && s.Free? && b < l
    requires IsNode(t, l, p, b + 1) && NodeAt(t, l, p, b + 1).Split? && (x == p || x == p + Size(b))
    requires BlockAt(t, l, BuddyOf(x, b)) != Block(b, true)
    ensures IsNode(t, l, x, b) && Canonical(Replace(t, l, x, b, s))
  {
    Children(t, l, p, b);
    BuddyBits(t, l, p, b);
    SiblingNotFree(t, l, p, x, b);
    ReplaceChild(t, l, p, b, s);
    var n := NodeAt(t, l, p, b + 1);
    hide BuddyOf, LowerOf, IsNode, NodeAt, Replace, BlockAt, Size;
    ReplaceNonFree(t, l, p, b + 1, if p == x then Split(s, n.right) else Split(n.left, s));
  }

  lemma SiblingNotFree(t: Tree, l: nat, p: nat, x: nat, b: nat)
    requires WellFormed(t, l) && IsNode(t, l, p, b + 1) && NodeAt(t, l, p, b + 1).Split?
    requires (x == p || x == p + Size(b)) && BlockAt(t, l, BuddyOf(x, b)) != Block(b, true)
    ensures var n := NodeAt(t, l, p, b + 1);
            !(if p == x then n.right else n.left).Free?
  {
    Children(t, l, p, b);
    BuddyBits(t, l, p, b);
    hide BuddyOf, LowerOf, Replace;
    if x == p {
      BlockIsLeaf(t, l, p + Size(b), b);
    } else {
      BlockIsLeaf(t, l, p, b);
    }
  }

  lemma {:induction false} ReplaceNonFree(t: Tree, l: nat, x: int, b: nat, s: Tree)
    requires WellFormed(t, l) && Canonical(t) && IsNode(t, l, x, b)
    requires WellFormed(s, b) && Canonical(s) && !s.Free?
    ensures Canonical(Replace(t, l, x, b, s)) && !Replace(t, l, x, b, s).Free?
  {
    if l != b {
      if x < Size(l - 1) {
        ReplaceNonFree(t.left, l - 1, x, b, s);
      } else {
        ReplaceNonFree(t.right, l - 1, x - Size(l - 1), b, s);
      }
    }
  }

  // Replacing a child is replacing its parent by a node with that child.
  lemma {:induction false} ReplaceChild(t: Tree, l: nat, p: int, b: nat, s: Tree)
    requires WellFormed(t, l) && IsNode(t, l, p, b + 1) && NodeAt(t, l, p, b + 1).Split? && WellFormed(s, b)
    ensures IsNode(t, l, p, b) && IsNode(t, l, p + Size(b), b)
    ensures Replace(t, l, p, b, s) == Replace(t, l, p, b + 1, Split(s, NodeAt(t, l, p, b + 1).right))
    ensures Replace(t, l, p + Size(b), b, s) == Replace(t, l, p, b + 1, Split(NodeAt(t, l, p, b + 1).left, s))
  {
    Children(t, l, p, b);
    NodeBounds(t, l, p, b + 1);
    if l == b + 1 {
    } else if p < Size(l - 1) {
      NodeBounds(t.left, l - 1, p, b + 1);
      ReplaceChild(t.left, l - 1, p, b, s);
    } else {
      ReplaceChild(t.right, l - 1, p - Size(l - 1), b, s);
    }
  }
}
