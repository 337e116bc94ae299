// The default allocator as it runs: headers in memory, the free ones linked in a
// circle by address.  Memory is counted in headers, and base is 0.  The lemmas before
// the class say what a search has in front of it at each turn, and that the writes of
// malloc and free lead from one valid memory to the next.
module FreeListAllocator {
  import opened FreeListState
  import opened FreeListLinks

  lemma Headers(m: Memory, freeNode: nat, s: State, i: nat)
    requires Represents(m, freeNode, s) && i < |s.free|
    ensures s.rover < |s.free| && freeNode == s.free[s.rover].at
    ensures var next := s.free[Next(i, |s.free|)].at;
            s.free[i].at in m && m[s.free[i].at] == Header(next, s.free[i].size) && next in m
  {
    FreeHeader(m, s.free, i);
    FreeHeader(m, s.free, Next(i, |s.free|));
  }

  lemma TakenWhole(m: Memory, freeNode: nat, s: State, i: nat, p: nat)
    requires i < |s.free| && p < |s.free| && |s.free| > 1 && Next(p, |s.free|) == i
    requires Represents(m, freeNode, s)
    ensures s.free[p].at in m && s.free[i].at in m
            && Represents(Bypassed(m, s.free[p].at, s.free[i].at), s.free[p].at, TakeWhole(s, i, p))
  {
    hide Without, Apart, Linked, UsedApart, Total, Next, NoneShared, Disjoint, Sized, Within;
    var r := TakeWhole(s, i, p);
    Headers(m, freeNode, s, i);
    Headers(m, freeNode, s, p);
    StayApart(s, i, p);
    SizedAfterWhole(m, s, i, p);
    TakeWholeInv(s, i, p);
    BypassedLinked(m, s.free, i, p);
    WithoutAt(s.free, i, r.rover);
    hide Inv, Bypassed;
  }

  lemma StayApart(s: State, i: nat, p: nat)
    requires Inv(s) && i < |s.free| && p < |s.free| && |s.free| > 1 && Next(p, |s.free|) == i
    ensures p != i && forall j :: 0 <= j < |s.free| ==> s.free[j].size > 0
  {
  }

  lemma SizedAfterWhole(m: Memory, s: State, i: nat, p: nat)
    requires Inv(s) && Sized(m, s.used) && i < |s.free| && p < |s.free| && p != i
    requires s.free[i].at in m && s.free[p].at in m && m[s.free[i].at].size == s.free[i].size
    ensures Sized(Bypassed(m, s.free[p].at, s.free[i].at), s.used + [s.free[i]])
  {
    var n := Bypassed(m, s.free[p].at, s.free[i].at);
    SameAddress(s.free, i, p);
    forall j | 0 <= j < |s.used|
      ensures s.used[j].at in n && n[s.used[j].at].size == s.used[j].size
    {
      assert Disjoint(s.free[p], s.used[j]);
    }
    hide Inv;
    SizedMore(n, s.used, s.free[i]);
  }

  lemma SizedMore(m: Memory, used: seq<Block>, b: Block)
    requires Sized(m, used) && b.at in m && m[b.at].size == b.size
    ensures Sized(m, used + [b])
  {
  }

  // A free header made smaller, and a new one behind what is left of its block.
  function Carved(m: Memory, at: nat, rest: nat, tail: Header): Memory
    requires at in m
  {
    m[at := m[at].(size := rest)][at + rest := tail]
  }

  lemma TakenTail(m: Memory, freeNode: nat, s: State, i: nat, p: nat, units: nat, tail: Header)
    requires i < |s.free| && p < |s.free| && 0 < units < s.free[i].size && tail.size == units
    requires Represents(m, freeNode, s)
    ensures s.free[i].at in m
            && Represents(Carved(m, s.free[i].at, s.free[i].size - units, tail), s.free[p].at, TakeTail(s, i, p, units))
  {
    hide Inv, Linked, Sized, Carved, Apart, NoneShared;
    Headers(m, freeNode, s, i);
    FromInv(s);
    TakeTailInv(s, i, p, units);
    var n := Carved(m, s.free[i].at, s.free[i].size - units, tail);
    TailShrinks(m, s.free, i, s.free[i].size - units, n, tail);
    TailSized(m, s.free, s.used, i, s.free[i].size - units, n, tail);
  }

  lemma FromInv(s: State)
    requires Inv(s)
    ensures Apart(s.free) && NoneShared(s.free, s.used)
    ensures forall j :: 0 <= j < |s.free| ==> s.free[j].size > 0
    ensures forall j :: 0 <= j < |s.used| ==> s.used[j].size > 0
  {
  }

  lemma TailShrinks(m: Memory, free: seq<Block>, i: nat, rest: nat, n: Memory, tail: Header)
    requires Linked(m, free) && Apart(free) && i < |free| && free[i].at in m && 0 < rest < free[i].size
    requires forall j :: 0 <= j < |free| ==> free[j].size > 0
    requires n == Carved(m, free[i].at, rest, tail)
    ensures Linked(n, free[i := Block(free[i].at, rest)])
  {
    forall j | 0 <= j < |free| && j != i
      ensures free[j].at in n && n[free[j].at] == m[free[j].at]
    {
      FreeHeader(m, free, j);
    }
    ShrunkLinked(m, free, i, rest, n);
  }

  lemma TailSized(m: Memory, free: seq<Block>, used: seq<Block>, i: nat, rest: nat, n: Memory, tail: Header)
    requires i < |free| && free[i].at in m && 0 < rest < free[i].size && tail.size == free[i].size - rest
    requires Sized(m, used) && NoneShared(free, used)
    requires forall j :: 0 <= j < |used| ==> used[j].size > 0
    requires n == Carved(m, free[i].at, rest, tail)
    ensures Sized(n, used + [Block(free[i].at + rest, free[i].size - rest)])
  {
    forall j | 0 <= j < |used|
      ensures used[j].at in n && n[used[j].at].size == used[j].size
    {
      assert Disjoint(free[i], used[j]);
    }
    SizedMore(n, used, Block(free[i].at + rest, free[i].size - rest));
  }

  // Where the search of free ends: at the block before the freed one, inside the
  // circle or at its wrap, and nowhere else.  The addresses it compares with are
  // never the freed block's own.
  lemma StopsAt(free: seq<Block>, b: Block, i: nat)
    requires Apart(free) && i < |free| && b.size > 0
    requires forall m :: 0 <= m < |free| ==> free[m].size > 0 && Disjoint(free[m], b)
    ensures var k := Rank(free, b.at);
            var (at, next) := (free[i].at, free[Next(i, |free|)].at);
            && b.at != at && b.at != next
            && (at < b.at < next <==> i == Before(k, |free|) && 0 < k < |free|)
            && (at >= next && (b.at > at || b.at < next) <==> i == Before(k, |free|) && (k == 0 || k == |free|))
  {
    var n, k, next := |free|, Rank(free, b.at), Next(i, |free|);
    RankSplits(free, b.at);
    assert Disjoint(free[i], b) && Disjoint(free[next], b);
    hide Rank;
  }

  // The overlap guard of free lets every block in use pass.
  lemma GuardPasses(free: seq<Block>, b: Block, k: nat)
    requires Apart(free) && b.size > 0 && k == Rank(free, b.at) && 0 < k < |free|
    requires forall m :: 0 <= m < |free| ==> free[m].size > 0 && Disjoint(free[m], b)
    ensures free[k - 1].End() <= b.at && b.End() <= free[k].at
  {
    RankSplits(free, b.at);
    assert Disjoint(free[k - 1], b) && Disjoint(free[k], b);
    hide Rank;
  }

  lemma SizedAfterFree(m: Memory, s: State, u: nat, c: nat, n: Memory)
    requires Inv(s) && Sized(m, s.used) && u < |s.used| && c < |s.free|
    requires forall a :: a in m && a != s.free[c].at && a != s.used[u].at ==> a in n && n[a] == m[a]
    ensures Sized(n, Without(s.used, u))
  {
    var r := Without(s.used, u);
    forall j | 0 <= j < |r|
      ensures r[j].at in n && n[r[j].at].size == r[j].size
    {
      var o := if j < u then j else j + 1;
      WithoutAt(s.used, u, j);
      assert Disjoint(s.free[c], s.used[o]);
      assert Disjoint(s.used[if o < u then o else u], s.used[if o < u then u else o]);
    }
  }

  lemma Ready(m: Memory, s: State, u: nat)
    requires Inv(s) && Linked(m, s.free) && Sized(m, s.used) && u < |s.used|
    ensures ReadyToFree(m, s.free, Rank(s.free, s.used[u].at), s.used[u])
  {
    forall i | 0 <= i < |s.free|
      ensures s.free[i].size > 0 && Disjoint(s.free[i], s.used[u])
    {
    }
  }

  lemma Freed(m: Memory, s: State, u: nat)
    requires Inv(s) && Linked(m, s.free) && Sized(m, s.used) && u < |s.used|
    requires !Uncovered(s.free, s.used[u])
    ensures var b := s.used[u];
            var c := s.free[Before(Rank(s.free, b.at), |s.free|)].at;
            c in m && b.at in m && m[c].ptr in m && Represents(Relinked(m, c, b.at), c, Free(s, u))
  {
    hide Total, Apart, Within, UsedApart, NoneShared, Linked, Sized, Rank, Relinked, Inserted, Uncovered;
    var b := s.used[u];
    var k := Rank(s.free, b.at);
    var i := Before(k, |s.free|);
    Ready(m, s, u);
    FreeInv(s, u);
    RelinkedHeaders(m, s.free, k, b);
    RelinkedLinked(m, s.free, k, b);
    SizedAfterFree(m, s, u, i, Relinked(m, s.free[i].at, b.at));
    RoverStays(s.free, k, b);
  }

  lemma RoverStays(free: seq<Block>, k: nat, b: Block)
    requires |free| > 0 && k <= |free| && (k == 0 ==> !Uncovered(free, b))
    ensures var r := Inserted(free, k, b);
            |r| > 0 && (k > 0 ==> k - 1 < |r|)
            && r[if k > 0 then k - 1 else |r| - 1].at == free[Before(k, |free|)].at
  {
    RoverInRange(free, k, b);
    InsertedAt(free, k, b, if k > 0 then k - 1 else |Inserted(free, k, b)| - 1);
  }

  lemma UncoveredRank(s: State, u: nat)
    requires Inv(s) && u < |s.used| && Uncovered(s.free, s.used[u])
    ensures Rank(s.free, s.used[u].at) == 0
  {
  }

  // Block i lies this many steps round from the rover.
  function StepsTo(rover: nat, i: nat, n: nat): (t: nat)
    requires rover < n && i < n
    ensures t < n
  {
    if i >= rover then i - rover else i - rover + n
  }

  lemma StepsToOnly(rover: nat, i: nat, j: nat, n: nat)
    requires rover < n && i < n && j < n
    ensures Around(rover, j, n) == i <==> j == StepsTo(rover, i, n)
  {
  }

  lemma OneStepRound(rover: nat, j: nat, n: nat)
    requires rover < n && j < n
    ensures Around(rover, j + 1, n) == Next(Around(rover, j, n), n)
  {
  }

  // The end of the tail cut off lies in the arena, and is no free header.
  lemma TailHeader(m: Memory, freeNode: nat, s: State, i: nat, p: nat, rest: nat)
    requires Represents(m, freeNode, s) && i < |s.free| && p < |s.free| && 0 < rest < s.free[i].size
    ensures s.free[i].at + rest < s.total && s.free[i].at + rest != s.free[p].at
  {
    hide Linked, Sized, NoneShared, UsedApart, Total;
  }

  lemma SameBlock(m: Memory, freeNode: nat, s: State, i: nat, p: nat)
    requires Represents(m, freeNode, s) && i < |s.free| && p < |s.free| && Next(p, |s.free|) == i
    ensures s.free[i].at == s.free[p].at <==> |s.free| == 1
  {
    SameAddress(s.free, i, p);
  }

  lemma AtRover(m: Memory, freeNode: nat, s: State, nbytes: nat)
    requires Represents(m, freeNode, s)
    ensures |s.free| > 0 && s.rover < |s.free| && Passed(s, nbytes, 1) && freeNode in m
    ensures freeNode == s.free[Around(s.rover, 0, |s.free|)].at
    ensures m[freeNode].ptr == s.free[Around(s.rover, 1, |s.free|)].at
  {
    Headers(m, freeNode, s, s.rover);
  }

  // What one turn of malloc's loop reads.
  lemma AtStep(m: Memory, freeNode: nat, s: State, j: nat)
    requires Represents(m, freeNode, s) && 1 <= j <= |s.free|
    ensures var n := |s.free|;
            var i, p := Around(s.rover, j, n), Around(s.rover, j - 1, n);
            && s.free[i].at in m && m[s.free[i].at].size == s.free[i].size && Next(p, n) == i
            && (s.free[i].at == freeNode <==> j == n)
            && (j < n ==> m[s.free[i].at].ptr == s.free[Around(s.rover, j + 1, n)].at)
  {
    hide Apart, Linked, Within, Sized, UsedApart, NoneShared, Total;
    var n := |s.free|;
    var i := Around(s.rover, j, n);
    Headers(m, freeNode, s, i);
    SameAddress(s.free, i, s.rover);
    if j < n {
      OneStepRound(s.rover, j, n);
    }
  }

  // No block from step 1 to before step j was large enough.
  predicate Passed(s: State, nbytes: nat, j: nat)
    requires s.rover < |s.free| && j <= |s.free| + 1
  {
    FirstFit(s, Request(nbytes), 1) == FirstFit(s, Request(nbytes), j)
  }

  lemma FitFound(s: State, nbytes: nat, j: nat)
    requires s.rover < |s.free| && 1 <= j <= |s.free| && Passed(s, nbytes, j) && nbytes > 0
    ensures var i, p := Around(s.rover, j, |s.free|), Around(s.rover, j - 1, |s.free|);
            s.free[i].size >= Request(nbytes) ==>
              FreeListState.Malloc(s, nbytes) == Taken(s, i, p, Request(nbytes))
  {
    hide Taken;
  }

  lemma NoFitHere(s: State, nbytes: nat, j: nat)
    requires s.rover < |s.free| && 1 <= j <= |s.free| && Passed(s, nbytes, j) && nbytes > 0
    ensures s.free[Around(s.rover, j, |s.free|)].size < Request(nbytes) ==>
              Passed(s, nbytes, j + 1) && (j == |s.free| ==> FreeListState.Malloc(s, nbytes) == (s, Null))
  {
    hide Taken;
  }

  // What one turn of free's search knows.
  lemma Looks(m: Memory, freeNode: nat, s: State, u: nat, i: nat)
    requires Represents(m, freeNode, s) && u < |s.used| && i < |s.free|
    ensures s.rover < |s.free| && freeNode == s.free[s.rover].at && s.used[u].at in m
    ensures var b, n := s.used[u], |s.free|;
            var k, at, next := Rank(s.free, b.at), s.free[i].at, s.free[Next(i, n)].at;
            && at in m && next in m && m[at].ptr == next && b.at in m
            && b.at != at && b.at != next
            && (at < b.at < next <==> i == Before(k, n) && 0 < k < n)
            && (at >= next && (b.at > at || b.at < next) <==> i == Before(k, n) && (k == 0 || k == n))
            && (at < b.at < next ==> at + m[at].size <= b.at && b.at + m[b.at].size <= next)
  {
    var b, k := s.used[u], Rank(s.free, s.used[u].at);
    Ready(m, s, u);
    Headers(m, freeNode, s, i);
    hide Linked, Apart, Rank, Disjoint, NoneShared, UsedApart, Total;
    StopsAt(s.free, b, i);
    if 0 < k < |s.free| {
      GuardPasses(s.free, b, k);
    }
  }

  lemma Fresh(heapSize: nat, memory: Memory)
    ensures Represents(memory[0 := Header(0, Units(heapSize))], 0, Initial(heapSize))
  {
    var m, s := memory[0 := Header(0, Units(heapSize))], Initial(heapSize);
    InitialInv(heapSize);
    assert s.free[0] == Block(0, Units(heapSize)) && Next(0, 1) == 0;
    assert Linked(m, s.free) && Sized(m, s.used);
    hide Inv, Linked, Sized;
  }

  // The headers are not in anybody's payload.
  lemma PayloadApart(s: State, at: nat, u: nat)
    requires Inv(s) && u < |s.used| && s.used[u].at < at < s.used[u].End()
    ensures at < s.total
    ensures forall i :: 0 <= i < |s.free| ==> s.free[i].at != at
    ensures forall j :: 0 <= j < |s.used| ==> s.used[j].at != at
  {
    hide Apart, Total;
    forall i | 0 <= i < |s.free|
      ensures s.free[i].at != at
    {
      assert Disjoint(s.free[i], s.used[u]);
    }
    forall j | 0 <= j < |s.used|
      ensures s.used[j].at != at
    {
      assert j != u ==> Disjoint(s.used[if j < u then j else u], s.used[if j < u then u else j]);
    }
  }

  lemma PayloadIsNoHeader(m: Memory, freeNode: nat, s: State, at: nat, content: Header, u: nat)
    requires Represents(m, freeNode, s) && u < |s.used| && s.used[u].at < at < s.used[u].End()
    ensures Represents(m[at := content], freeNode, s) && at < s.total
  {
    PayloadApart(s, at, u);
    hide Inv, Next;
    assert Linked(m[at := content], s.free);
    assert Sized(m[at := content], s.used);
    hide Linked, Sized;
  }

  // What free's writes lead to, in either case.
  lemma AfterRelink(m: Memory, freeNode: nat, s: State, u: nat)
    requires Represents(m, freeNode, s) && u < |s.used|
    ensures var b := s.used[u].at;
            var c := s.free[Before(Rank(s.free, b), |s.free|)].at;
            && c in m && b in m && m[c].ptr in m && Relinked(m, c, b).Keys == m.Keys
            && if Uncovered(s.free, s.used[u]) then forall r :: !Represents(Relinked(m, c, b), c, r)
               else Represents(Relinked(m, c, b), c, Free(s, u))
  {
    var b, k := s.used[u], Rank(s.free, s.used[u].at);
    Ready(m, s, u);
    RelinkedHeaders(m, s.free, k, b);
    if Uncovered(s.free, b) {
      UncoveredRank(s, u);
      hide Represents, Relinked, ReadyToFree;
      forall r ensures !Represents(Relinked(m, s.free[0].at, b.at), s.free[0].at, r) {
        UncoveredBreaks(m, s.free, b, r);
      }
    } else {
      Freed(m, s, u);
    }
  }

  lemma FreeTotal(s: State, u: nat)
    requires u < |s.used|
    ensures Free(s, u).total == s.total
  {
  }

  class Allocator {
    var mem: Memory
    var freeNode: nat
    const totalUnits: nat
    ghost var state: State

    ghost predicate Valid()
      reads this
    {
      Represents(mem, freeNode, state) && state.total == totalUnits && forall a :: 0 <= a < totalUnits ==> a in mem
    }

    // initializeMemoryManager, over a memory of any contents
    constructor (heapSize: nat, memory: Memory)
      requires heapSize + HEADER_BYTES - 1 < WORD
      requires forall a :: 0 <= a < Units(heapSize) ==> a in memory
      ensures Valid() && state == Initial(heapSize)
    {
      totalUnits := Units(heapSize);
      freeNode := 0;
      mem := memory[0 := Header(0, Units(heapSize))];
      state := Initial(heapSize);
      Fresh(heapSize, memory);
    }

    // The writes of malloc once free block i, behind block p, is large enough.
    method Take(prev: nat, current: nat, nunits: nat, ghost i: nat, ghost p: nat) returns (taken: nat)
      requires Valid() && i < |state.free| && p < |state.free| && Next(p, |state.free|) == i
      requires prev == state.free[p].at && current == state.free[i].at
      requires 0 < nunits <= state.free[i].size
      modifies this
      ensures (state, if taken == freeNode then Null else Payload(taken + 1)) == Taken(old(state), i, p, nunits)
      ensures Valid() && taken in mem
    {
      hide Represents, TakeWhole, TakeTail;
      Headers(mem, freeNode, state, i);
      if mem[current].size == nunits {
        taken := TakeAll(prev, current, i, p);
      } else {
        taken := TakeEnd(prev, current, nunits, i, p);
      }
    }

    method TakeAll(prev: nat, current: nat, ghost i: nat, ghost p: nat) returns (taken: nat)
      requires Valid() && i < |state.free| && p < |state.free| && Next(p, |state.free|) == i
      requires prev == state.free[p].at && current == state.free[i].at
      modifies this
      ensures state == if |old(state).free| == 1 then old(state) else TakeWhole(old(state), i, p)
      ensures Valid() && taken == current && taken in mem && (taken == freeNode <==> |old(state).free| == 1)
    {
      hide Represents, TakeWhole;
      Headers(mem, freeNode, state, i);
      Headers(mem, freeNode, state, p);
      SameBlock(mem, freeNode, state, i, p);
      hide Next;
      if |state.free| > 1 {
        TakenWhole(mem, freeNode, state, i, p);
        state := TakeWhole(state, i, p);
      } else {
        assert Bypassed(mem, prev, current) == mem;
      }
      mem := Bypassed(mem, prev, current);
      freeNode := prev;
      taken := current;
    }

    method TakeEnd(prev: nat, current: nat, nunits: nat, ghost i: nat, ghost p: nat) returns (taken: nat)
      requires Valid() && i < |state.free| && p < |state.free|
      requires prev == state.free[p].at && current == state.free[i].at
      requires 0 < nunits < state.free[i].size
      modifies this
      ensures state == TakeTail(old(state), i, p, nunits)
      ensures Valid() && taken == current + (old(state).free[i].size - nunits) && taken in mem && taken != freeNode
    {
      hide Represents, TakeTail, Next, Carved;
      Headers(mem, freeNode, state, i);
      var rest := mem[current].size - nunits;
      TailHeader(mem, freeNode, state, i, p, rest);
      assert current + rest in mem;
      var tail := mem[current + rest].(size := nunits);
      TakenTail(mem, freeNode, state, i, p, nunits, tail);
      Carve(current, rest, tail);
      taken := current + rest;
      freeNode := prev;
      state := TakeTail(state, i, p, nunits);
    }

    method Carve(current: nat, rest: nat, tail: Header)
      requires current in mem && current + rest in mem
      modifies this`mem
      ensures mem == Carved(old(mem), current, rest, tail) && mem.Keys == old(mem).Keys
    {
      mem := mem[current := mem[current].(size := rest)];
      mem := mem[current + rest := tail];
    }

    method Malloc(nbytes: nat) returns (result: Answer)
      requires Valid() && nbytes < WORD
      modifies this
      ensures (state, result) == FreeListState.Malloc(old(state), nbytes)
      ensures Valid()
    {
      if nbytes == 0 { return Null; }
      hide Represents, FirstFit, Inv, Linked, Around, Taken, FreeListState.Malloc, Passed, Next, Request;
      var nunits := Request(nbytes);
      ghost var j, n := 1, |state.free|;
      AtRover(mem, freeNode, state, nbytes);
      var prev, current := freeNode, mem[freeNode].ptr;
      var allocating := true;
      result := Null;
      while allocating
        invariant Valid()
        invariant allocating ==> state == old(state) && 1 <= j <= n && Passed(state, nbytes, j)
        invariant allocating ==> prev == state.free[Around(state.rover, j - 1, n)].at
        invariant allocating ==> current == state.free[Around(state.rover, j, n)].at
        invariant !allocating ==> (state, result) == FreeListState.Malloc(old(state), nbytes)
        decreases if allocating then n + 1 - j else 0
      {
        AtStep(mem, freeNode, state, j);
        FitFound(state, nbytes, j);
        NoFitHere(state, nbytes, j);
        if mem[current].size >= nunits {
          current := Take(prev, current, nunits, Around(state.rover, j, n), Around(state.rover, j - 1, n));
          result := Payload(current + 1);
          allocating := false;
        }
        if current == freeNode { return Null; }
        prev := current;
        current := mem[current].ptr;
        j := j + 1;
      }
    }

    // A process writes anything it likes behind the header of its block.
    method WritePayload(at: nat, content: Header, ghost u: nat)
      requires Valid() && u < |state.used| && state.used[u].at < at < state.used[u].End()
      modifies this`mem
      ensures Valid() && mem == old(mem)[at := content]
    {
      PayloadIsNoHeader(mem, freeNode, state, at, content, u);
      mem := mem[at := content];
    }

    method Free(block: Answer, ghost u: nat)
      requires Valid() && (block != Null ==> u < |state.used| && block.at == state.used[u].at + 1)
      modifies this
      ensures block == Null ==> state == old(state) && Valid()
      ensures block != Null && !Uncovered(old(state).free, old(state).used[u]) ==>
                state == FreeListState.Free(old(state), u) && Valid()
      ensures block != Null && Uncovered(old(state).free, old(state).used[u]) ==>
                forall s :: !Represents(mem, freeNode, s)
    {
      if block == Null { return; }
      var freed := block.at - 1;
      if freed >= totalUnits * HEADER_BYTES {
        assert false;
      }
      var current := FindPlace(freed, u);
      Relink(current, freed, u);
    }

    // The search of free, with its guards.
    method FindPlace(freed: nat, ghost u: nat) returns (current: nat)
      requires Valid() && u < |state.used| && freed == state.used[u].at
      ensures current == state.free[Before(Rank(state.free, freed), |state.free|)].at
    {
      ghost var n, k := |state.free|, Rank(state.free, freed);
      ghost var t := StepsTo(state.rover, Before(k, n), n);
      ghost var j := 0;
      var external := false;
      current := freeNode;
      hide Represents, Rank, Around, Next, Before, StepsTo;
      Looks(mem, freeNode, state, u, state.rover);
      while !(freed > current && freed < mem[current].ptr)
        invariant j <= t && current == state.free[Around(state.rover, j, n)].at && current in mem
        invariant !external
        decreases t - j
      {
        Looks(mem, freeNode, state, u, Around(state.rover, j, n));
        if freed == current || freed == mem[current].ptr { assert false; }
        if current >= mem[current].ptr && (freed > current || freed < mem[current].ptr) {
          external := true;
          break;
        }
        OneStepRound(state.rover, j, n);
        StepsToOnly(state.rover, Before(k, n), j, n);
        current := mem[current].ptr;
        j := j + 1;
      }
      Looks(mem, freeNode, state, u, Around(state.rover, j, n));
      if !external && (current + mem[current].size > freed || freed + mem[freed].size > mem[current].ptr) {
        assert false;
      }
    }

    method Relink(current: nat, freed: nat, ghost u: nat)
      requires Valid() && u < |state.used| && freed == state.used[u].at
      requires current == state.free[Before(Rank(state.free, freed), |state.free|)].at
      modifies this
      ensures !Uncovered(old(state).free, old(state).used[u]) ==>
                state == FreeListState.Free(old(state), u) && Valid()
      ensures Uncovered(old(state).free, old(state).used[u]) ==> forall s :: !Represents(mem, freeNode, s)
    {
      hide Represents, Uncovered, FreeListState.Free, Rank, Before, Relinked;
      AfterRelink(mem, freeNode, state, u);
      FreeTotal(state, u);
      ghost var covered := !Uncovered(state.free, state.used[u]);
      ghost var next := FreeListState.Free(state, u);
      Rewire(current, freed);
      freeNode := current;
      if covered {
        state := next;
      }
    }

    // The writes of free.
    method Rewire(current: nat, freed: nat)
      requires current in mem && freed in mem && mem[current].ptr in mem
      modifies this`mem
      ensures mem == Relinked(old(mem), current, freed)
    {
      var next := mem[current].ptr;
      if freed + mem[freed].size == next {
        mem := mem[freed := mem[freed].(size := mem[freed].size + mem[next].size)];
        mem := mem[freed := mem[freed].(ptr := mem[next].ptr)];
      } else {
        mem := mem[freed := mem[freed].(ptr := next)];
      }
      if current + mem[current].size == freed {
        mem := mem[current := mem[current].(size := mem[current].size + mem[freed].size)];
        mem := mem[current := mem[current].(ptr := mem[freed].ptr)];
      } else {
        mem := mem[current := mem[current].(ptr := freed)];
      }
    }
  }
}
