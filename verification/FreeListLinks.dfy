// How malloc and free rewrite the circle of free headers of the default allocator.
// malloc takes a header out of the circle by linking past it, or makes it smaller
// in place; free puts one in and joins it with the neighbours it touches.  Each
// header's new successor is worked out from its old one: IndexShift and IndexJoin
// do this on the places in the list, the lemmas named after Bypassed and Relinked
// on the headers.
module FreeListLinks {
  import opened FreeListState

  datatype Header = Header(ptr: nat, size: nat)

  type Memory = map<nat, Header>

  function Next(i: nat, n: nat): (r: nat)
    requires i < n
    ensures r < n
  {
    if i + 1 < n then i + 1 else 0
  }

  // The circle of free headers.
  ghost predicate Linked(m: Memory, free: seq<Block>)
  {
    forall i {:trigger m[free[i].at]} {:trigger free[i].at in m} :: 0 <= i < |free| ==>
      free[i].at in m && m[free[i].at].size == free[i].size && m[free[i].at].ptr == free[Next(i, |free|)].at
  }

  ghost predicate Sized(m: Memory, used: seq<Block>)
  {
    forall j :: 0 <= j < |used| ==> used[j].at in m && m[used[j].at].size == used[j].size
  }

  // Memory and free_node are a valid allocator, in abstract state s.
  ghost predicate Represents(m: Memory, freeNode: nat, s: State)
  {
    Inv(s) && Linked(m, s.free) && Sized(m, s.used) && freeNode == s.free[s.rover].at
  }

  // ----- malloc's writes -----

  function Bypassed(m: Memory, prev: nat, current: nat): Memory
    requires prev in m && current in m
  {
    m[prev := m[prev].(ptr := m[current].ptr)]
  }

  lemma BypassedLinked(m: Memory, free: seq<Block>, i: nat, p: nat)
    requires Linked(m, free) && Apart(free) && i < |free| && p < |free| && |free| > 1 && Next(p, |free|) == i
    requires forall j :: 0 <= j < |free| ==> free[j].size > 0
    ensures Linked(Bypassed(m, free[p].at, free[i].at), Without(free, i))
  {
    var r, n := Without(free, i), Bypassed(m, free[p].at, free[i].at);
    forall j | 0 <= j < |r|
      ensures r[j].at in n && n[r[j].at].size == r[j].size && n[r[j].at].ptr == r[Next(j, |r|)].at
    {
      BypassedAt(m, free, i, p, j);
    }
  }

  lemma BypassedAt(m: Memory, free: seq<Block>, i: nat, p: nat, j: nat)
    requires Linked(m, free) && Apart(free) && i < |free| && p < |free| && |free| > 1 && Next(p, |free|) == i
    requires j < |free| - 1
    requires forall j :: 0 <= j < |free| ==> free[j].size > 0
    ensures var r, n := Without(free, i), Bypassed(m, free[p].at, free[i].at);
            r[j].at in n && n[r[j].at].size == r[j].size && n[r[j].at].ptr == r[Next(j, |r|)].at
  {
    hide Without, Next, Linked, Apart;
    var o := if j < i then j else j + 1;
    IndexShift(|free|, i, p, j);
    WithoutAt(free, i, j);
    WithoutAt(free, i, Next(j, |free| - 1));
    FreeHeader(m, free, o);
    FreeHeader(m, free, i);
    FreeHeader(m, free, p);
    SameAddress(free, o, p);
  }

  lemma FreeHeader(m: Memory, free: seq<Block>, i: nat)
    requires Linked(m, free) && i < |free|
    ensures free[i].at in m && m[free[i].at] == Header(free[Next(i, |free|)].at, free[i].size)
  {
  }

  lemma SameAddress(free: seq<Block>, i: nat, j: nat)
    requires Apart(free) && i < |free| && j < |free|
    ensures free[i].at == free[j].at <==> i == j
  {
  }

  // Who follows whom once place i, behind p, is taken out of a circle of n.
  lemma IndexShift(n: nat, i: nat, p: nat, j: nat)
    requires n > 1 && i < n && p < n && Next(p, n) == i && j < n - 1
    ensures var o := if j < i then j else j + 1;
            var next := Next(j, n - 1);
            (if next < i then next else next + 1) == if o == p then Next(i, n) else Next(o, n)
  {
  }

  lemma ShrunkLinked(m: Memory, free: seq<Block>, i: nat, size: nat, n: Memory)
    requires Linked(m, free) && Apart(free) && i < |free|
    requires forall j :: 0 <= j < |free| ==> free[j].size > 0
    requires forall j :: 0 <= j < |free| && j != i ==> free[j].at in n && n[free[j].at] == m[free[j].at]
    requires free[i].at in n && n[free[i].at] == m[free[i].at].(size := size)
    ensures Linked(n, free[i := Block(free[i].at, size)])
  {
    var r := free[i := Block(free[i].at, size)];
    forall j | 0 <= j < |r|
      ensures r[j].at in n && n[r[j].at].size == r[j].size && n[r[j].at].ptr == r[Next(j, |r|)].at
    {
    }
  }

  // ----- free's writes -----

  // The freed header takes over what follows the block before it, and the next
  // block itself if they touch.
  function LinkUpper(m: Memory, current: nat, b: nat): Memory
    requires current in m && b in m && m[current].ptr in m
  {
    var next := m[current].ptr;
    if b + m[b].size == next then m[b := Header(m[next].ptr, m[b].size + m[next].size)]
    else m[b := m[b].(ptr := next)]
  }

  // The block before it points to the freed one, or swallows it if they touch.
  function LinkLower(m: Memory, current: nat, b: nat): Memory
    requires current in m && b in m
  {
    if current + m[current].size == b then m[current := Header(m[b].ptr, m[current].size + m[b].size)]
    else m[current := m[current].(ptr := b)]
  }

  function Relinked(m: Memory, current: nat, b: nat): Memory
    requires current in m && b in m && m[current].ptr in m
  {
    LinkLower(LinkUpper(m, current, b), current, b)
  }

  // The free block before place k in the circle.
  function Before(k: nat, n: nat): (i: nat)
    requires n > 0 && k <= n
    ensures i < n
  {
    if k > 0 then k - 1 else n - 1
  }

  ghost predicate ReadyToFree(m: Memory, free: seq<Block>, k: nat, b: Block)
  {
    && Linked(m, free) && Apart(free) && |free| > 0 && k == Rank(free, b.at) && b.size > 0
    && b.at in m && m[b.at].size == b.size
    && forall i :: 0 <= i < |free| ==> free[i].size > 0 && Disjoint(free[i], b)
  }

  // The tests of the code are the ones meant.
  lemma TestsAreRight(m: Memory, free: seq<Block>, k: nat, b: Block)
    requires ReadyToFree(m, free, k, b)
    ensures var c := free[Before(k, |free|)];
            && c.at in m && m[c.at].ptr in m && c.at != b.at && m[c.at].size == c.size
            && (b.at + m[b.at].size == m[c.at].ptr <==> TouchesUpper(free, k, b))
            && (TouchesUpper(free, k, b) ==> m[c.at].ptr == free[k].at)
            && (c.at + m[c.at].size == b.at <==> TouchesLower(free, k, b))
            && (TouchesLower(free, k, b) ==> Before(k, |free|) == k - 1)
            && (k < |free| ==> Next(Before(k, |free|), |free|) == k)
            && (k == |free| ==> Next(Before(k, |free|), |free|) == 0)
  {
    RankSplits(free, b.at);
    hide Rank;
    var i := Before(k, |free|);
    assert Disjoint(free[i], b) && Disjoint(free[0], b);
    assert k < |free| ==> Disjoint(free[k], b);
  }

  // What the writes leave in the headers concerned, and everywhere else.
  lemma RelinkedHeaders(m: Memory, free: seq<Block>, k: nat, b: Block)
    requires ReadyToFree(m, free, k, b)
    ensures var c := free[Before(k, |free|)].at;
            c in m && m[c].ptr in m && c != b.at
    ensures var c := free[Before(k, |free|)].at;
            var n := Relinked(m, c, b.at);
            var next := if TouchesUpper(free, k, b) then m[free[k].at].ptr else m[c].ptr;
            && n.Keys == m.Keys
            && (forall a :: a in m && a != c && a != b.at ==> n[a] == m[a])
            && (TouchesLower(free, k, b) ==> n[c] == Header(next, Joined(free, k, b).size))
            && (!TouchesLower(free, k, b) ==>
                  n[b.at] == Header(next, Joined(free, k, b).size) && n[c] == m[c].(ptr := b.at))
  {
    TestsAreRight(m, free, k, b);
    var c := free[Before(k, |free|)];
    assert k < |free| ==> m[free[k].at].size == free[k].size;
    hide Linked, Apart, Rank, TouchesUpper, TouchesLower, Before, ReadyToFree, Disjoint;
    UpperHeaders(m, c.at, b.at);
    LowerHeaders(LinkUpper(m, c.at, b.at), c.at, b.at);
  }

  lemma UpperHeaders(m: Memory, c: nat, b: nat)
    requires c in m && b in m && m[c].ptr in m
    ensures var next := m[c].ptr;
            var n := LinkUpper(m, c, b);
            && n.Keys == m.Keys && (forall a :: a in m && a != b ==> n[a] == m[a])
            && n[b] == if b + m[b].size == next then Header(m[next].ptr, m[b].size + m[next].size)
                       else Header(next, m[b].size)
  {
  }

  lemma LowerHeaders(m: Memory, c: nat, b: nat)
    requires c in m && b in m
    ensures var n := LinkLower(m, c, b);
            && n.Keys == m.Keys && (forall a :: a in m && a != c ==> n[a] == m[a])
            && n[c] == if c + m[c].size == b then Header(m[b].ptr, m[c].size + m[b].size) else Header(b, m[c].size)
  {
  }

  // Who follows whom once a block is put in at place k of a circle of n: lo is its
  // new place, Old says where another place's block was before.
  function Old(lo: nat, hi: nat, m: nat): int
  {
    if m < lo then m else m - lo - 1 + hi
  }

  lemma IndexJoin(n: nat, k: nat, lower: bool, upper: bool, m: nat)
    requires n > 0 && k <= n && (lower ==> k > 0) && (upper ==> k < n) && !(n == 1 && k == 0 && upper)
    requires m < n - ((if upper then k + 1 else k) - (if lower then k - 1 else k)) + 1
    ensures var lo, hi := if lower then k - 1 else k, if upper then k + 1 else k;
            var next := Next(m, n - (hi - lo) + 1);
            && (m != lo ==> 0 <= Old(lo, hi, m) < n)
            && (m != lo && (lower || Old(lo, hi, m) != Before(k, n)) ==>
                  if next == lo then lower && Next(Old(lo, hi, m), n) == lo
                  else Next(Old(lo, hi, m), n) == Old(lo, hi, next))
            && (m != lo && !lower && Old(lo, hi, m) == Before(k, n) ==> next == lo)
            && (m == lo ==>
                  var q := if upper then Next(k, n) else Next(Before(k, n), n);
                  if next == lo then lower && q == lo else q == Old(lo, hi, next))
  {
  }

  lemma NotFreed(m: Memory, free: seq<Block>, k: nat, b: Block, o: nat)
    requires ReadyToFree(m, free, k, b) && o < |free|
    ensures free[o].at != b.at
  {
    assert Disjoint(free[o], b);
  }

  // One header of the new circle: the joined block's, and any other's.
  lemma RelinkedJoined(m: Memory, free: seq<Block>, k: nat, b: Block)
    requires ReadyToFree(m, free, k, b) && !Uncovered(free, b)
    ensures var c := free[Before(k, |free|)].at;
            c in m && m[c].ptr in m
            && var n, r := Relinked(m, c, b.at), Inserted(free, k, b);
            var lo := if TouchesLower(free, k, b) then k - 1 else k;
            lo < |r| && r[lo].at in n && n[r[lo].at] == Header(r[Next(lo, |r|)].at, r[lo].size)
  {
    hide Linked, Apart, Inserted, Next, Before, Relinked, Rank, Disjoint;
    var lower, upper := TouchesLower(free, k, b), TouchesUpper(free, k, b);
    var lo := if lower then k - 1 else k;
    RelinkedHeaders(m, free, k, b);
    RoverInRange(free, k, b);
    InsertedAt(free, k, b, 0);
    InsertedAt(free, k, b, lo);
    InsertedAt(free, k, b, Next(lo, |Inserted(free, k, b)|));
    IndexJoin(|free|, k, lower, upper, lo);
    FreeHeader(m, free, Before(k, |free|));
    FreeHeader(m, free, if upper then k else 0);
    LowerIsBefore(free, k, b);
  }

  lemma LowerIsBefore(free: seq<Block>, k: nat, b: Block)
    requires |free| > 0 && k <= |free|
    ensures TouchesLower(free, k, b) ==> Before(k, |free|) == k - 1
  {
  }

  lemma RelinkedOther(m: Memory, free: seq<Block>, k: nat, b: Block, j: nat)
    requires ReadyToFree(m, free, k, b) && !Uncovered(free, b) && j < |Inserted(free, k, b)|
    requires j != if TouchesLower(free, k, b) then k - 1 else k
    ensures var c := free[Before(k, |free|)].at;
            c in m && m[c].ptr in m
            && var n, r := Relinked(m, c, b.at), Inserted(free, k, b);
            r[j].at in n && n[r[j].at] == Header(r[Next(j, |r|)].at, r[j].size)
  {
    hide Linked, Apart, Inserted, Next, Before, Relinked, Rank, Disjoint;
    var lower, upper := TouchesLower(free, k, b), TouchesUpper(free, k, b);
    var lo, hi := if lower then k - 1 else k, if upper then k + 1 else k;
    RelinkedHeaders(m, free, k, b);
    InsertedAt(free, k, b, j);
    InsertedAt(free, k, b, Next(j, |Inserted(free, k, b)|));
    IndexJoin(|free|, k, lower, upper, j);
    var o := Old(lo, hi, j);
    FreeHeader(m, free, o);
    FreeHeader(m, free, Before(k, |free|));
    SameAddress(free, o, Before(k, |free|));
    NotFreed(m, free, k, b, o);
    LowerIsBefore(free, k, b);
  }

  lemma RelinkedLinked(m: Memory, free: seq<Block>, k: nat, b: Block)
    requires ReadyToFree(m, free, k, b) && !Uncovered(free, b)
    ensures var c := free[Before(k, |free|)].at;
            c in m && m[c].ptr in m && Linked(Relinked(m, c, b.at), Inserted(free, k, b))
  {
    RelinkedHeaders(m, free, k, b);
    var r := Inserted(free, k, b);
    var n := Relinked(m, free[Before(k, |free|)].at, b.at);
    forall j | 0 <= j < |r|
      ensures r[j].at in n && n[r[j].at].size == r[j].size && n[r[j].at].ptr == r[Next(j, |r|)].at
    {
      if j == (if TouchesLower(free, k, b) then k - 1 else k) {
        RelinkedJoined(m, free, k, b);
      } else {
        RelinkedOther(m, free, k, b, j);
      }
    }
  }

  // In the uncovered case what is left is no allocator any more: the freed block
  // has swallowed the only free one and still is linked to it.
  lemma UncoveredBreaks(m: Memory, free: seq<Block>, b: Block, s: State)
    requires ReadyToFree(m, free, 0, b) && Uncovered(free, b)
    ensures var f := free[0].at;
            f in m && m[f].ptr in m && !Represents(Relinked(m, f, b.at), f, s)
  {
    RelinkedHeaders(m, free, 0, b);
    var f := free[0].at;
    var n := Relinked(m, f, b.at);
    if Represents(n, f, s) {
      var i := s.rover;
      var j := Next(i, |s.free|);
      SameAddress(s.free, i, j);
      FreeHeader(n, s.free, i);
      FreeHeader(n, s.free, j);
    }
  }
}
