// The default allocator on its abstract state, and what holds of every run of it.
module FreeListState {

  // The state is the free blocks in address order, the one where the next search
  // starts, and the blocks in use.  Addresses and sizes count headers of 16 bytes.

  const HEADER_BYTES := 16
  const WORD := 0x1_0000_0000_0000_0000

  datatype Block = Block(at: nat, size: nat)
  {
    function End(): nat
    {
      at + size
    }
  }

  // rover is the index of free_node among the free blocks.
  datatype State = State(total: nat, free: seq<Block>, rover: nat, used: seq<Block>)

  datatype Answer = Null | Payload(at: nat)

  function Total(bs: seq<Block>): nat
  {
    if bs == [] then 0 else bs[0].size + Total(bs[1..])
  }

  // In address order, and no two of them touch.
  ghost predicate Apart(free: seq<Block>)
  {
    forall i, j :: 0 <= i < j < |free| ==> free[i].End() < free[j].at
  }

  ghost predicate Within(bs: seq<Block>, total: nat)
  {
    forall i :: 0 <= i < |bs| ==> bs[i].size > 0 && bs[i].End() <= total
  }

  predicate Disjoint(a: Block, b: Block)
  {
    a.End() <= b.at || b.End() <= a.at
  }

  ghost predicate UsedApart(used: seq<Block>)
  {
    forall i, j :: 0 <= i < j < |used| ==> Disjoint(used[i], used[j])
  }

  ghost predicate NoneShared(free: seq<Block>, used: seq<Block>)
  {
    forall i, j :: 0 <= i < |free| && 0 <= j < |used| ==> Disjoint(free[i], used[j])
  }

  // Free and used blocks lie in the arena without overlap, there is always a free
  // one, and together they account for every unit.
  ghost predicate Inv(s: State)
  {
    && s.rover < |s.free|
    && Apart(s.free) && Within(s.free, s.total) && Within(s.used, s.total)
    && UsedApart(s.used) && NoneShared(s.free, s.used)
    && Total(s.free) + Total(s.used) == s.total
  }

  // initializeMemoryManager
  function Units(bytes: nat): nat
  {
    (bytes + HEADER_BYTES - 1) / HEADER_BYTES + 1
  }

  function Initial(heapSize: nat): State
  {
    State(Units(heapSize), [Block(0, Units(heapSize))], 0, [])
  }

  lemma InitialInv(heapSize: nat)
    ensures Inv(Initial(heapSize))
  {
  }

  // One header more than it takes to hold these bytes.
  lemma UnitsAreOneMore(bytes: nat)
    ensures HEADER_BYTES * (Units(bytes) - 2) < bytes <= HEADER_BYTES * (Units(bytes) - 1)
    ensures var s := Initial(bytes); s.total == Units(bytes) && s.free == [Block(0, s.total)] && s.used == []
  {
  }

  // What malloc asks for; the sum is one of 64-bit words.
  function Request(nbytes: nat): (r: nat)
    ensures r > 0
  {
    (nbytes + HEADER_BYTES - 1) % WORD / HEADER_BYTES + 1
  }

  // A block of this many units holds its header and the bytes, and not a unit more,
  // exactly if the sum does not wrap.
  lemma RequestIsTight(nbytes: nat)
    requires 0 < nbytes < WORD
    ensures HEADER_BYTES * (Request(nbytes) - 2) < nbytes
    ensures nbytes <= HEADER_BYTES * (Request(nbytes) - 1) <==> nbytes + HEADER_BYTES - 1 < WORD
  {
  }

  // ----- malloc -----

  // j steps round the list from the rover.
  function Around(rover: nat, j: nat, n: nat): (i: nat)
    requires rover < n && j <= n
    ensures i < n
  {
    if rover + j < n then rover + j else rover + j - n
  }

  // The first step, from j on, at which a block is large enough; beyond the last
  // block if there is none.
  function FirstFit(s: State, units: nat, j: nat): (r: nat)
    requires s.rover < |s.free| && j <= |s.free| + 1
    ensures j <= r <= |s.free| + 1
    decreases |s.free| + 1 - j
  {
    if j <= |s.free| && s.free[Around(s.rover, j, |s.free|)].size < units then FirstFit(s, units, j + 1) else j
  }

  lemma {:induction false} FirstFitIsFirst(s: State, units: nat, j: nat)
    requires s.rover < |s.free| && j <= |s.free| + 1
    ensures var r := FirstFit(s, units, j);
            && (r <= |s.free| ==> s.free[Around(s.rover, r, |s.free|)].size >= units)
            && forall m :: j <= m < r ==> s.free[Around(s.rover, m, |s.free|)].size < units
    decreases |s.free| + 1 - j
  {
    if j <= |s.free| && s.free[Around(s.rover, j, |s.free|)].size < units {
      FirstFitIsFirst(s, units, j + 1);
    }
  }

  function Without(bs: seq<Block>, i: nat): (r: seq<Block>)
    requires i < |bs|
    ensures |r| == |bs| - 1
  {
    bs[..i] + bs[i + 1..]
  }

  // Take the whole of free block i; the rover stays on block p.
  function TakeWhole(s: State, i: nat, p: nat): (r: State)
    requires i < |s.free| && p < |s.free|
    ensures r.total == s.total
  {
    s.(free := Without(s.free, i), rover := if p > i then p - 1 else p, used := s.used + [s.free[i]])
  }

  // Cut the last units off free block i.
  function TakeTail(s: State, i: nat, p: nat, units: nat): (r: State)
    requires i < |s.free| && s.free[i].size > units
    ensures r.total == s.total
  {
    var b := s.free[i];
    s.(free := s.free[i := Block(b.at, b.size - units)], rover := p,
       used := s.used + [Block(b.at + (b.size - units), units)])
  }

  // malloc has found free block i, behind block p.  The last free block is not
  // given away whole.
  function Taken(s: State, i: nat, p: nat, units: nat): (State, Answer)
    requires i < |s.free| && p < |s.free| && s.free[i].size >= units
  {
    var b := s.free[i];
    if b.size > units then (TakeTail(s, i, p, units), Payload(b.at + (b.size - units) + 1))
    else if |s.free| == 1 then (s, Null)
    else (TakeWhole(s, i, p), Payload(b.at + 1))
  }

  function Malloc(s: State, nbytes: nat): (State, Answer)
    requires s.rover < |s.free|
  {
    var n := |s.free|;
    var units := Request(nbytes);
    var j := FirstFit(s, units, 1);
    if nbytes == 0 || j > n then (s, Null)
    else
      FirstFitIsFirst(s, units, 1);
      Taken(s, Around(s.rover, j, n), Around(s.rover, j - 1, n), units)
  }

  // ----- sums -----

  lemma {:induction false} TotalAppend(a: seq<Block>, b: seq<Block>)
    ensures Total(a + b) == Total(a) + Total(b)
  {
    if a == [] {
      assert a + b == b;
    } else {
      TotalAppend(a[1..], b);
      assert (a + b)[1..] == a[1..] + b;
    }
  }

  lemma TotalThree(a: seq<Block>, b: seq<Block>, c: seq<Block>)
    ensures Total(a + b + c) == Total(a) + Total(b) + Total(c)
  {
    TotalAppend(a + b, c);
    TotalAppend(a, b);
  }

  lemma TotalFew(a: Block, b: Block)
    ensures Total([]) == 0 && Total([a]) == a.size && Total([a, b]) == a.size + b.size
  {
    assert [a, b][1..] == [b];
    assert [b][1..] == [] && [a][1..] == [];
    assert Total([b]) == b.size;
  }

  lemma TotalSplit(bs: seq<Block>, i: nat)
    requires i < |bs|
    ensures Total(bs) == Total(bs[..i]) + bs[i].size + Total(bs[i + 1..])
    ensures Total(Without(bs, i)) == Total(bs) - bs[i].size
  {
    hide Total;
    SplitSeq(bs, i);
    var l, m, r := bs[..i], [bs[i]], bs[i + 1..];
    TotalThree(l, m, r);
    TotalFew(bs[i], bs[i]);
    TotalAppend(l, r);
  }

  lemma SplitSeq(bs: seq<Block>, i: nat)
    requires i < |bs|
    ensures bs == bs[..i] + [bs[i]] + bs[i + 1..]
  {
  }

  lemma TotalUpdate(bs: seq<Block>, i: nat, b: Block)
    requires i < |bs|
    ensures Total(bs[i := b]) == Total(bs) - bs[i].size + b.size
  {
    TotalSplit(bs, i);
    var r := bs[i := b];
    TotalSplit(r, i);
    assert r[..i] == bs[..i] && r[i + 1..] == bs[i + 1..];
  }

  // ----- malloc keeps the invariant -----

  lemma WithoutAt(bs: seq<Block>, i: nat, m: nat)
    requires i < |bs| && m < |bs| - 1
    ensures Without(bs, i)[m] == bs[if m < i then m else m + 1]
  {
  }

  lemma WithoutKeeps(free: seq<Block>, used: seq<Block>, i: nat, total: nat)
    requires i < |free| && Apart(free) && Within(free, total) && NoneShared(free, used)
    ensures Apart(Without(free, i)) && Within(Without(free, i), total) && NoneShared(Without(free, i), used)
  {
    var r := Without(free, i);
    forall m | 0 <= m < |r|
      ensures r[m] == free[if m < i then m else m + 1]
    {
      WithoutAt(free, i, m);
    }
    hide Without;
  }

  // A block that is apart from everybody joins the used ones.
  lemma UsedGrows(free: seq<Block>, used: seq<Block>, b: Block, total: nat)
    requires UsedApart(used) && NoneShared(free, used) && Within(used, total)
    requires b.size > 0 && b.End() <= total
    requires forall j :: 0 <= j < |used| ==> Disjoint(used[j], b)
    requires forall i :: 0 <= i < |free| ==> Disjoint(free[i], b)
    ensures UsedApart(used + [b]) && NoneShared(free, used + [b]) && Within(used + [b], total)
    ensures Total(used + [b]) == Total(used) + b.size
  {
    TotalAppend(used, [b]);
  }

  lemma TakeWholeInv(s: State, i: nat, p: nat)
    requires Inv(s) && i < |s.free| && p < |s.free| && p != i
    ensures Inv(TakeWhole(s, i, p))
  {
    TotalSplit(s.free, i);
    WithoutKeeps(s.free, s.used, i, s.total);
    var r := Without(s.free, i);
    forall m | 0 <= m < |r|
      ensures Disjoint(r[m], s.free[i])
    {
      WithoutAt(s.free, i, m);
    }
    hide Without, Total;
    UsedGrows(r, s.used, s.free[i], s.total);
  }

  // Shrinking a free block.
  lemma ShrinkKeeps(free: seq<Block>, used: seq<Block>, i: nat, b: Block, total: nat)
    requires i < |free| && Apart(free) && Within(free, total) && NoneShared(free, used)
    requires b.at == free[i].at && 0 < b.size <= free[i].size
    ensures Apart(free[i := b]) && Within(free[i := b], total) && NoneShared(free[i := b], used)
  {
  }

  lemma TailIsApart(free: seq<Block>, used: seq<Block>, i: nat, r: seq<Block>, rest: Block, tail: Block)
    requires i < |free| && Apart(free) && NoneShared(free, used) && r == free[i := rest]
    requires rest.at == free[i].at && rest.End() == tail.at && tail.End() == free[i].End() && rest.size > 0
    ensures forall m :: 0 <= m < |r| ==> Disjoint(r[m], tail)
    ensures forall j :: 0 <= j < |used| ==> Disjoint(used[j], tail)
  {
    assert forall j :: 0 <= j < |used| ==> Disjoint(free[i], used[j]);
  }

  lemma TakeTailInv(s: State, i: nat, p: nat, units: nat)
    requires Inv(s) && i < |s.free| && p < |s.free| && 0 < units < s.free[i].size
    ensures Inv(TakeTail(s, i, p, units))
  {
    hide Total, Apart, NoneShared, Disjoint, UsedApart;
    var b := s.free[i];
    var rest, tail := Block(b.at, b.size - units), Block(b.at + (b.size - units), units);
    TotalUpdate(s.free, i, rest);
    ShrinkKeeps(s.free, s.used, i, rest, s.total);
    TailIsApart(s.free, s.used, i, s.free[i := rest], rest, tail);
    UsedGrows(s.free[i := rest], s.used, tail, s.total);
  }

  lemma StepBefore(rover: nat, j: nat, n: nat)
    requires rover < n && 1 <= j <= n && n > 1
    ensures Around(rover, j - 1, n) != Around(rover, j, n)
  {
  }

  // malloc answers NULL exactly when nothing is asked for, no free block is large
  // enough, or the only one fits exactly.  Otherwise the answer is a new block with room for the
  // bytes behind its header - unless the request wraps - apart from all others,
  // and of no more units than needed.
  lemma MallocEffect(s: State, nbytes: nat)
    requires Inv(s) && nbytes < WORD
    ensures var (r, a) := Malloc(s, nbytes);
            Inv(r) && r.total == s.total
    ensures Malloc(s, nbytes).1 == Null <==>
            || nbytes == 0
            || (forall i :: 0 <= i < |s.free| ==> s.free[i].size < Request(nbytes))
            || (|s.free| == 1 && s.free[0].size == Request(nbytes))
    ensures Malloc(s, nbytes).1 == Null ==> Malloc(s, nbytes).0 == s
    ensures var (r, a) := Malloc(s, nbytes);
            a != Null ==>
              && |r.used| == |s.used| + 1 && r.used[..|s.used|] == s.used
              && var b := r.used[|s.used|];
              a.at == b.at + 1 && b.size == Request(nbytes) && b.End() <= s.total
              && (nbytes <= HEADER_BYTES * (b.size - 1) <==> nbytes + HEADER_BYTES - 1 < WORD)
  {
    hide Total, Apart, Within, UsedApart, NoneShared, Request, Taken, Around, FirstFit;
    var units := Request(nbytes);
    var j := FirstFit(s, units, 1);
    if nbytes > 0 {
      RequestIsTight(nbytes);
    }
    if nbytes == 0 {
    } else if j > |s.free| {
      NoneFits(s, units);
    } else {
      FirstFitIsFirst(s, units, 1);
      if |s.free| > 1 {
        StepBefore(s.rover, j, |s.free|);
      }
      TakenEffect(s, Around(s.rover, j, |s.free|), Around(s.rover, j - 1, |s.free|), units);
    }
  }

  // The free blocks in the order in which a search from the rover meets them.
  function Lap(s: State): (r: seq<Block>)
    requires s.rover < |s.free|
    ensures |r| == |s.free|
  {
    s.free[s.rover + 1..] + s.free[..s.rover + 1]
  }

  lemma StartOfLap(s: State)
    requires s.rover < |s.free|
    ensures Around(s.rover, 0, |s.free|) == s.rover
  {
  }

  lemma LapAt(s: State, j: nat)
    requires s.rover < |s.free| && 1 <= j <= |s.free|
    ensures Lap(s)[j - 1] == s.free[Around(s.rover, j, |s.free|)]
  {
  }

  // Which block it is: the end of the first one on the lap that is large enough; what is
  // left of that stays free, all others stay as they are, and the next search starts
  // behind the block before it.
  lemma MallocPlaces(s: State, nbytes: nat) returns (k: nat)
    requires Inv(s) && nbytes < WORD && Malloc(s, nbytes).1 != Null
    ensures k < |s.free| && Lap(s)[k].size >= Request(nbytes)
    ensures forall m :: 0 <= m < k ==> Lap(s)[m].size < Request(nbytes)
    ensures var r, f := Malloc(s, nbytes).0, Lap(s)[k];
            && |r.used| == |s.used| + 1 && r.used[|s.used|].End() == f.End()
            && r.rover < |r.free|
            && r.free[r.rover].at == (if k == 0 then s.free[s.rover] else Lap(s)[k - 1]).at
            && forall b :: b in r.free <==>
                 || (b in s.free && b != f)
                 || (f.size > Request(nbytes) && b == Block(f.at, f.size - Request(nbytes)))
  {
    hide Total, Apart, Within, UsedApart, NoneShared, Request, Taken, Lap, Around, FirstFit;
    var n, units := |s.free|, Request(nbytes);
    var j := FirstFit(s, units, 1);
    FirstFitIsFirst(s, units, 1);
    StartOfLap(s);
    if n > 1 {
      StepBefore(s.rover, j, n);
    }
    TakenPlaces(s, Around(s.rover, j, n), Around(s.rover, j - 1, n), units);
    k := j - 1;
    LapAt(s, j);
    if k > 0 {
      LapAt(s, k);
    }
    forall m | 0 <= m < k
      ensures Lap(s)[m].size < units
    {
      LapAt(s, m + 1);
    }
  }

  lemma TakenPlaces(s: State, i: nat, p: nat, units: nat)
    requires Inv(s) && i < |s.free| && p < |s.free| && (|s.free| > 1 ==> p != i) && 0 < units <= s.free[i].size
    requires Taken(s, i, p, units).1 != Null
    ensures var r, f := Taken(s, i, p, units).0, s.free[i];
            && |r.used| == |s.used| + 1 && r.used[|s.used|].End() == f.End()
            && r.rover < |r.free| && r.free[r.rover].at == s.free[p].at
            && forall b :: b in r.free <==>
                 (b in s.free && b != f) || (f.size > units && b == Block(f.at, f.size - units))
  {
    var r, f := Taken(s, i, p, units).0, s.free[i];
    assert forall m :: 0 <= m < |s.free| && m != i ==> s.free[m] != f;
    forall b: Block
      ensures b in r.free <==> (b in s.free && b != f) || (f.size > units && b == Block(f.at, f.size - units))
    {
      if f.size > units {
        UpdateMembers(s.free, i, Block(f.at, f.size - units), b);
      } else {
        WithoutMembers(s.free, i, b);
      }
    }
  }

  lemma UpdateMembers(bs: seq<Block>, i: nat, c: Block, b: Block)
    requires i < |bs| && forall m :: 0 <= m < |bs| && m != i ==> bs[m] != bs[i]
    ensures b in bs[i := c] <==> (b in bs && b != bs[i]) || b == c
  {
    assert bs[i := c][i] == c;
    if b in bs && b != bs[i] {
      var m :| 0 <= m < |bs| && bs[m] == b;
      assert bs[i := c][m] == b;
    }
  }

  lemma WithoutMembers(bs: seq<Block>, i: nat, b: Block)
    requires i < |bs| && forall m :: 0 <= m < |bs| && m != i ==> bs[m] != bs[i]
    ensures b in Without(bs, i) <==> b in bs && b != bs[i]
  {
    if b in bs && b != bs[i] {
      var m :| 0 <= m < |bs| && bs[m] == b;
      assert Without(bs, i)[if m < i then m else m - 1] == b;
    }
  }

  lemma NoneFits(s: State, units: nat)
    requires s.rover < |s.free| && FirstFit(s, units, 1) > |s.free|
    ensures forall i :: 0 <= i < |s.free| ==> s.free[i].size < units
  {
    FirstFitIsFirst(s, units, 1);
    forall i | 0 <= i < |s.free|
      ensures s.free[i].size < units
    {
      EveryoneVisited(s.rover, i, |s.free|);
    }
  }

  lemma TakenEffect(s: State, i: nat, p: nat, units: nat)
    requires Inv(s) && i < |s.free| && p < |s.free| && (|s.free| > 1 ==> p != i)
    requires 0 < units <= s.free[i].size
    ensures var (r, a) := Taken(s, i, p, units);
            && Inv(r) && r.total == s.total
            && (a == Null <==> |s.free| == 1 && s.free[i].size == units) && (a == Null ==> r == s)
            && (a != Null ==>
                  && |r.used| == |s.used| + 1 && r.used[..|s.used|] == s.used
                  && var b := r.used[|s.used|];
                  a.at == b.at + 1 && b.size == units && b.End() <= s.total)
  {
    if s.free[i].size > units {
      TakeTailInv(s, i, p, units);
    } else if |s.free| > 1 {
      TakeWholeInv(s, i, p);
    }
    hide Apart, UsedApart, NoneShared, Total, Without;
  }

  // A full turn from the rover meets every block.
  lemma EveryoneVisited(rover: nat, i: nat, n: nat)
    requires rover < n && i < n
    ensures exists m :: 1 <= m <= n && Around(rover, m, n) == i
  {
    var m := if i > rover then i - rover else i - rover + n;
    assert Around(rover, m, n) == i;
  }

  // ----- free -----

  // How many free blocks lie below this address.
  function Rank(free: seq<Block>, at: nat): (k: nat)
    ensures k <= |free|
  {
    if free == [] || free[0].at >= at then 0 else 1 + Rank(free[1..], at)
  }

  lemma {:induction false} RankSplits(free: seq<Block>, at: nat)
    requires Apart(free)
    ensures var k := Rank(free, at);
            (forall i :: 0 <= i < k ==> free[i].at < at) && (forall i :: k <= i < |free| ==> free[i].at >= at)
  {
    if free != [] {
      RankSplits(free[1..], at);
      assert forall i :: 1 <= i < |free| ==> free[i] == free[1..][i - 1];
    }
  }

  // The one case the code does not cover: a block that ends where the only free
  // block starts.
  predicate Uncovered(free: seq<Block>, b: Block)
  {
    |free| == 1 && b.End() == free[0].at
  }

  predicate TouchesUpper(free: seq<Block>, k: nat, b: Block)
    requires k <= |free|
  {
    k < |free| && b.End() == free[k].at
  }

  predicate TouchesLower(free: seq<Block>, k: nat, b: Block)
    requires k <= |free|
  {
    k > 0 && free[k - 1].End() == b.at
  }

  // The freed block put in at its place k and joined to the neighbours it touches.
  function Joined(free: seq<Block>, k: nat, b: Block): Block
    requires k <= |free|
  {
    Block(if TouchesLower(free, k, b) then free[k - 1].at else b.at,
          (if TouchesLower(free, k, b) then free[k - 1].size else 0) + b.size
          + (if TouchesUpper(free, k, b) then free[k].size else 0))
  }

  function Inserted(free: seq<Block>, k: nat, b: Block): seq<Block>
    requires k <= |free|
  {
    free[..if TouchesLower(free, k, b) then k - 1 else k] + [Joined(free, k, b)]
    + free[if TouchesUpper(free, k, b) then k + 1 else k..]
  }

  // free of the u-th used block.  The rover ends on the block before it in the
  // circle - itself, if they were joined.
  function Free(s: State, u: nat): State
    requires u < |s.used|
  {
    var b := s.used[u];
    var k := Rank(s.free, b.at);
    var free := Inserted(s.free, k, b);
    s.(free := free, rover := if k > 0 then k - 1 else |free| - 1, used := Without(s.used, u))
  }

  lemma TotalReplaced(free: seq<Block>, lo: nat, hi: nat, m: Block)
    requires lo <= hi <= |free|
    ensures Total(free[..lo] + [m] + free[hi..]) == Total(free) - Total(free[lo..hi]) + m.size
  {
    hide Total;
    TotalThree(free[..lo], [m], free[hi..]);
    TotalThree(free[..lo], free[lo..hi], free[hi..]);
    assert free == free[..lo] + free[lo..hi] + free[hi..];
    TotalFew(m, m);
  }

  lemma TotalNeighbours(free: seq<Block>, k: nat, lower: bool, upper: bool)
    requires k <= |free| && (lower ==> k > 0) && (upper ==> k < |free|)
    ensures Total(free[if lower then k - 1 else k..if upper then k + 1 else k])
         == (if lower then free[k - 1].size else 0) + (if upper then free[k].size else 0)
  {
    hide Total;
    if lower {
      TotalFew(free[k - 1], free[if upper then k else k - 1]);
      assert free[k - 1..k] == [free[k - 1]];
      assert upper ==> free[k - 1..k + 1] == [free[k - 1], free[k]];
    } else if upper {
      TotalFew(free[k], free[k]);
      assert free[k..k + 1] == [free[k]];
    } else {
      assert free[k..k] == [];
      TotalNothing();
    }
  }

  lemma TotalNothing()
    ensures Total([]) == 0
  {
  }

  lemma TotalInserted(free: seq<Block>, k: nat, b: Block)
    requires k <= |free|
    ensures Total(Inserted(free, k, b)) == Total(free) + b.size
  {
    hide Total;
    var lower, upper := TouchesLower(free, k, b), TouchesUpper(free, k, b);
    TotalReplaced(free, if lower then k - 1 else k, if upper then k + 1 else k, Joined(free, k, b));
    TotalNeighbours(free, k, lower, upper);
  }

  // Where an element of the new list comes from.
  lemma InsertedAt(free: seq<Block>, k: nat, b: Block, m: nat)
    requires k <= |free| && m < |Inserted(free, k, b)|
    ensures var lo := if TouchesLower(free, k, b) then k - 1 else k;
            var hi := if TouchesUpper(free, k, b) then k + 1 else k;
            && |Inserted(free, k, b)| == |free| - (hi - lo) + 1
            && Inserted(free, k, b)[m] ==
                 if m < lo then free[m] else if m == lo then Joined(free, k, b) else free[m - lo - 1 + hi]
  {
  }

  lemma InsertedKeeps(free: seq<Block>, used: seq<Block>, k: nat, b: Block, total: nat)
    requires Apart(free) && Within(free, total) && k == Rank(free, b.at) && b.size > 0 && b.End() <= total
    requires forall i :: 0 <= i < |free| ==> Disjoint(free[i], b)
    ensures Apart(Inserted(free, k, b)) && Within(Inserted(free, k, b), total)
  {
    var r := Inserted(free, k, b);
    forall i, j | 0 <= i < j < |r|
      ensures r[i].End() < r[j].at
    {
      InsertedOrder(free, k, b, i, j);
    }
    forall i | 0 <= i < |r|
      ensures r[i].size > 0 && r[i].End() <= total
    {
      InsertedAt(free, k, b, i);
    }
  }

  lemma InsertedOrder(free: seq<Block>, k: nat, b: Block, i: nat, j: nat)
    requires Apart(free) && k == Rank(free, b.at) && b.size > 0 && i < j < |Inserted(free, k, b)|
    requires forall m :: 0 <= m < |free| ==> Disjoint(free[m], b) && free[m].size > 0
    ensures Inserted(free, k, b)[i].End() < Inserted(free, k, b)[j].at
  {
    JoinedFits(free, k, b);
    InsertedAt(free, k, b, i);
    InsertedAt(free, k, b, j);
    hide Inserted, Rank, Joined, TouchesLower, TouchesUpper, Disjoint;
  }

  // The joined block is apart from the neighbours it was not joined to.
  lemma JoinedFits(free: seq<Block>, k: nat, b: Block)
    requires Apart(free) && k == Rank(free, b.at) && b.size > 0
    requires forall m :: 0 <= m < |free| ==> Disjoint(free[m], b) && free[m].size > 0
    ensures var lo := if TouchesLower(free, k, b) then k - 1 else k;
            forall m :: 0 <= m < lo ==> free[m].End() < Joined(free, k, b).at
    ensures var hi := if TouchesUpper(free, k, b) then k + 1 else k;
            forall m :: hi <= m < |free| ==> Joined(free, k, b).End() < free[m].at
  {
    RankSplits(free, b.at);
    hide Rank;
    JoinedAbove(free, k, b);
    JoinedBelow(free, k, b);
  }

  lemma JoinedAbove(free: seq<Block>, k: nat, b: Block)
    requires Apart(free) && k <= |free| && b.size > 0
    requires k > 0 ==> Disjoint(free[k - 1], b) && free[k - 1].at < b.at && free[k - 1].size > 0
    ensures var lo := if TouchesLower(free, k, b) then k - 1 else k;
            forall m :: 0 <= m < lo ==> free[m].End() < Joined(free, k, b).at
  {
    assert k > 0 ==> free[k - 1].End() <= b.at;
  }

  lemma JoinedBelow(free: seq<Block>, k: nat, b: Block)
    requires Apart(free) && k <= |free| && b.size > 0
    requires k < |free| ==> Disjoint(free[k], b) && free[k].at >= b.at && free[k].size > 0
    ensures var hi := if TouchesUpper(free, k, b) then k + 1 else k;
            forall m :: hi <= m < |free| ==> Joined(free, k, b).End() < free[m].at
  {
    assert k < |free| ==> b.End() <= free[k].at;
  }

  lemma InsertedShares(free: seq<Block>, k: nat, b: Block, c: Block)
    requires Apart(free) && k == Rank(free, b.at)
    requires Disjoint(b, c) && forall i :: 0 <= i < |free| ==> Disjoint(free[i], c)
    requires c.size > 0 && b.size > 0 && forall i :: 0 <= i < |free| ==> free[i].size > 0
    ensures forall m :: 0 <= m < |Inserted(free, k, b)| ==> Disjoint(Inserted(free, k, b)[m], c)
  {
    forall m | 0 <= m < |Inserted(free, k, b)|
      ensures Disjoint(Inserted(free, k, b)[m], c)
    {
      InsertedAt(free, k, b, m);
    }
  }

  // free as it is meant keeps the invariant - no two free blocks touch - and gives
  // back exactly the units of the block.  The code does this except in the uncovered
  // case (FreeListAllocator.Allocator.Free).
  lemma FreeInv(s: State, u: nat)
    requires Inv(s) && u < |s.used|
    ensures Inv(Free(s, u)) && Free(s, u).total == s.total && Free(s, u).used == Without(s.used, u)
    ensures Total(Free(s, u).free) == Total(s.free) + s.used[u].size
  {
    var b := s.used[u];
    var k := Rank(s.free, b.at);
    var free, used := Inserted(s.free, k, b), Without(s.used, u);
    TotalInserted(s.free, k, b);
    TotalSplit(s.used, u);
    InsertedKeeps(s.free, s.used, k, b, s.total);
    forall j | 0 <= j < |used|
      ensures Disjoint(b, used[j]) && used[j].size > 0 && used[j].End() <= s.total
      ensures forall m :: 0 <= m < |free| ==> Disjoint(free[m], used[j])
    {
      WithoutAt(s.used, u, j);
      InsertedShares(s.free, k, b, used[j]);
    }
    forall i, j | 0 <= i < j < |used|
      ensures Disjoint(used[i], used[j])
    {
      WithoutAt(s.used, u, i);
      WithoutAt(s.used, u, j);
    }
    RoverInRange(s.free, k, b);
  }

  // The next search starts behind the free block next below the freed one - which is
  // joined to it if they touch - or behind the last block if there is none below.
  lemma FreeRover(s: State, u: nat)
    requires Inv(s) && u < |s.used|
    ensures var r, b := Free(s, u), s.used[u];
            && r.rover < |r.free|
            && var c := r.free[r.rover].at;
            if forall i :: 0 <= i < |s.free| ==> s.free[i].at >= b.at
            then forall i :: 0 <= i < |r.free| ==> r.free[i].at <= c
            else c < b.at && (exists i :: 0 <= i < |s.free| && s.free[i].at == c)
                 && forall i :: 0 <= i < |s.free| && s.free[i].at < b.at ==> s.free[i].at <= c
  {
    hide Rank, Total, Within, UsedApart, NoneShared, Inserted, Joined, TouchesLower, TouchesUpper;
    var b := s.used[u];
    var k := Rank(s.free, b.at);
    RankSplits(s.free, b.at);
    FreeInv(s, u);
    if k > 0 {
      BelowStays(s.free, k, b);
    }
  }

  // The block below the freed one is still where it was.
  lemma BelowStays(free: seq<Block>, k: nat, b: Block)
    requires 0 < k <= |free|
    ensures k - 1 < |Inserted(free, k, b)| && Inserted(free, k, b)[k - 1].at == free[k - 1].at
  {
    RoverInRange(free, k, b);
    InsertedAt(free, k, b, k - 1);
  }

  lemma RoverInRange(free: seq<Block>, k: nat, b: Block)
    requires k <= |free|
    ensures |Inserted(free, k, b)| > 0 && (k > 0 ==> k - 1 < |Inserted(free, k, b)|)
  {
    InsertedAt(free, k, b, 0);
  }

  // ----- runs -----

  datatype Call = CallMalloc(nbytes: nat) | CallFree(u: nat)

  // free is given a block in use, and not the one the code gets wrong.
  predicate Allowed(s: State, c: Call)
  {
    match c
    case CallMalloc(n) => n < WORD
    case CallFree(u) => u < |s.used| && !Uncovered(s.free, s.used[u])
  }

  function Step(s: State, c: Call): State
    requires s.rover < |s.free| && Allowed(s, c)
  {
    match c
    case CallMalloc(n) => Malloc(s, n).0
    case CallFree(u) => Free(s, u)
  }

  ghost predicate Run(s: State, calls: seq<Call>, r: State)
    decreases |calls|
  {
    if calls == [] then r == s
    else s.rover < |s.free| && Allowed(s, calls[0]) && Run(Step(s, calls[0]), calls[1..], r)
  }

  // Over every run the free list stays one address-ordered list of blocks that do
  // not touch, and free and allocated units add up to the arena.
  lemma {:induction false} RunKeepsInv(s: State, calls: seq<Call>, r: State)
    requires Inv(s) && Run(s, calls, r)
    ensures Inv(r) && r.total == s.total
    decreases |calls|
  {
    if calls != [] {
      match calls[0] {
        case CallMalloc(n) =>
          if n > 0 {
            MallocEffect(s, n);
          }
        case CallFree(u) => FreeInv(s, u);
      }
      RunKeepsInv(Step(s, calls[0]), calls[1..], r);
    }
  }

  // The two inputs the code gets wrong are within reach.  A process that asks for
  // 2^64 - 1 bytes gets a block of one unit, its header.
  lemma WrapExample()
    ensures Request(WORD - 1) == 1
    ensures var s := Initial(96);
            Malloc(s, WORD - 1) == (State(7, [Block(0, 6)], 0, [Block(6, 1)]), Payload(7))
  {
    var s := Initial(96);
    assert Request(WORD - 1) == 1;
    assert FirstFit(s, 1, 1) == 1;
    assert s.free[0].size == 7 && Around(0, 1, 1) == 0 && Around(0, 0, 1) == 0;
    assert Malloc(s, WORD - 1) == Taken(s, 0, 0, 1);
    assert TakeTail(s, 0, 0, 1) == State(7, [Block(0, 6)], 0, [Block(6, 1)]);
  }

  // And three requests with one free leave a used block that ends where the only
  // free one starts.
  lemma UncoveredReached() returns (calls: seq<Call>, r: State)
    ensures Run(Initial(96), calls, r) && r == State(7, [Block(5, 2)], 0, [Block(3, 2), Block(0, 3)])
    ensures Uncovered(r.free, r.used[0])
  {
    var s0, s1 := Initial(96), State(7, [Block(0, 5)], 0, [Block(5, 2)]);
    var s2 := State(7, [Block(0, 3)], 0, [Block(5, 2), Block(3, 2)]);
    var s3 := State(7, [Block(0, 3), Block(5, 2)], 0, [Block(3, 2)]);
    r := State(7, [Block(5, 2)], 0, [Block(3, 2), Block(0, 3)]);
    FirstRequest();
    SecondRequest();
    OneFree();
    ThirdRequest();
    calls := [CallMalloc(16), CallMalloc(16), CallFree(0), CallMalloc(32)];
    hide Run, Malloc, Free, Initial, Uncovered;
    RunEnds(r);
    RunStarts(s3, CallMalloc(32), [], r);
    RunStarts(s2, CallFree(0), [CallMalloc(32)], r);
    RunStarts(s1, CallMalloc(16), [CallFree(0), CallMalloc(32)], r);
    RunStarts(s0, CallMalloc(16), [CallMalloc(16), CallFree(0), CallMalloc(32)], r);
  }

  lemma RunEnds(r: State)
    ensures Run(r, [], r)
  {
  }

  lemma RunStarts(s: State, c: Call, rest: seq<Call>, r: State)
    requires s.rover < |s.free| && Allowed(s, c) && Run(Step(s, c), rest, r)
    ensures Run(s, [c] + rest, r)
  {
    assert ([c] + rest)[1..] == rest;
  }

  lemma FirstRequest()
    ensures Malloc(Initial(96), 16).0 == State(7, [Block(0, 5)], 0, [Block(5, 2)])
  {
    assert FirstFit(Initial(96), 2, 1) == 1;
  }

  lemma SecondRequest()
    ensures Malloc(State(7, [Block(0, 5)], 0, [Block(5, 2)]), 16).0
         == State(7, [Block(0, 3)], 0, [Block(5, 2), Block(3, 2)])
  {
    assert FirstFit(State(7, [Block(0, 5)], 0, [Block(5, 2)]), 2, 1) == 1;
  }

  lemma OneFree()
    ensures Free(State(7, [Block(0, 3)], 0, [Block(5, 2), Block(3, 2)]), 0)
         == State(7, [Block(0, 3), Block(5, 2)], 0, [Block(3, 2)])
  {
    var free := [Block(0, 3)];
    assert free[1..] == [] && Rank(free, 5) == 1;
    assert !TouchesLower(free, 1, Block(5, 2)) && !TouchesUpper(free, 1, Block(5, 2));
    assert Inserted(free, 1, Block(5, 2)) == [Block(0, 3), Block(5, 2)];
  }

  lemma ThirdRequest()
    ensures Malloc(State(7, [Block(0, 3), Block(5, 2)], 0, [Block(3, 2)]), 32).0
         == State(7, [Block(5, 2)], 0, [Block(3, 2), Block(0, 3)])
  {
    var s := State(7, [Block(0, 3), Block(5, 2)], 0, [Block(3, 2)]);
    assert FirstFit(s, 3, 2) == 2;
    assert FirstFit(s, 3, 1) == 2;
    assert Without(s.free, 0) == [Block(5, 2)];
  }

  // A run that has freed everything has one free block again, the whole arena.
  lemma EverythingFreed(heapSize: nat, calls: seq<Call>, r: State)
    requires Run(Initial(heapSize), calls, r) && r.used == []
    ensures r == Initial(heapSize)
  {
    InitialInv(heapSize);
    RunKeepsInv(Initial(heapSize), calls, r);
    if |r.free| == 1 {
      assert r.free == [r.free[0]];
      TotalFew(r.free[0], r.free[0]);
    } else {
      GapsLoseUnits(r.free, r.total);
    }
  }

  lemma {:induction false} GapsLoseUnits(free: seq<Block>, total: nat)
    requires Apart(free) && Within(free, total) && free != []
    ensures free[0].at + Total(free) <= total
    ensures |free| > 1 ==> free[0].at + Total(free) < total
  {
    if |free| > 1 {
      assert free[0].End() < free[1].at;
      GapsLoseUnits(free[1..], total);
    }
  }
}
