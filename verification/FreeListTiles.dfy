// The free blocks are what the blocks in use leave over, and nothing else.
module FreeListTiles {
  import opened Sequences
  import opened FreeListState

  ghost function Range(a: nat, b: nat): (r: set<nat>)
    ensures forall x :: x in r <==> a <= x < b
    decreases b
  {
    if a < b then Range(a, b - 1) + {b - 1} else {}
  }

  lemma {:induction false} RangeSize(a: nat, b: nat)
    requires a <= b
    ensures |Range(a, b)| == b - a
    decreases b
  {
    if a < b {
      RangeSize(a, b - 1);
    }
  }

  // The units that these blocks cover.
  ghost function Cells(bs: seq<Block>): set<nat>
  {
    if bs == [] then {} else Range(bs[0].at, bs[0].End()) + Cells(bs[1..])
  }

  lemma {:induction false} CellsAre(bs: seq<Block>, x: nat)
    ensures x in Cells(bs) <==> exists i :: 0 <= i < |bs| && bs[i].at <= x < bs[i].End()
  {
    if bs != [] {
      CellsAre(bs[1..], x);
      if x in Cells(bs[1..]) {
        var i :| 0 <= i < |bs[1..]| && bs[1..][i].at <= x < bs[1..][i].End();
        assert bs[i + 1] == bs[1..][i];
      }
      if i :| 0 <= i < |bs| && bs[i].at <= x < bs[i].End() {
        assert i > 0 ==> bs[1..][i - 1] == bs[i];
      }
    }
  }

  lemma {:induction false} CellsCount(bs: seq<Block>)
    requires UsedApart(bs) && forall i :: 0 <= i < |bs| ==> bs[i].size > 0
    ensures |Cells(bs)| == Total(bs)
  {
    if bs != [] {
      var b, rest := bs[0], bs[1..];
      assert forall i :: 0 <= i < |rest| ==> rest[i] == bs[i + 1];
      CellsCount(rest);
      RangeSize(b.at, b.End());
      forall x | x in Range(b.at, b.End())
        ensures x !in Cells(rest)
      {
        CellsAre(rest, x);
      }
      assert Range(b.at, b.End()) !! Cells(rest);
    }
  }

  lemma {:induction false} SubsetOfSize(a: set<nat>, b: set<nat>)
    requires a <= b && |a| == |b|
    ensures a == b
  {
    if x :| x in b && x !in a {
      SubsetIsSmaller(a, b - {x});
    }
  }

  lemma FreeIsApart(free: seq<Block>)
    requires Apart(free)
    ensures UsedApart(free)
  {
  }

  // Free and used blocks tile the arena.
  lemma Tiles(s: State)
    requires Inv(s)
    ensures Cells(s.free) !! Cells(s.used) && Cells(s.free) + Cells(s.used) == Range(0, s.total)
  {
    FreeIsApart(s.free);
    CellsCount(s.free);
    CellsCount(s.used);
    RangeSize(0, s.total);
    forall x: nat
      ensures !(x in Cells(s.free) && x in Cells(s.used))
      ensures x in Cells(s.free) || x in Cells(s.used) ==> x < s.total
    {
      CellsAre(s.free, x);
      CellsAre(s.used, x);
      hide Apart, UsedApart, Total;
    }
    hide Inv, Cells, Total;
    assert |Cells(s.free) + Cells(s.used)| == |Cells(s.free)| + |Cells(s.used)|;
    SubsetOfSize(Cells(s.free) + Cells(s.used), Range(0, s.total));
  }

  // ----- the list is what it covers -----

  lemma FirstCells(free: seq<Block>)
    requires Apart(free) && free != [] && forall i :: 0 <= i < |free| ==> free[i].size > 0
    ensures free[0].at in Cells(free) && forall x :: x in Cells(free) ==> free[0].at <= x
    ensures free[0].End() !in Cells(free) && Range(free[0].at, free[0].End()) <= Cells(free)
    ensures Cells(free[1..]) == Cells(free) - Range(free[0].at, free[0].End())
  {
    forall x | x in Cells(free)
      ensures free[0].at <= x && x != free[0].End()
    {
      CellsAre(free, x);
    }
    forall x | x in Cells(free[1..])
      ensures x > free[0].End()
    {
      CellsAre(free[1..], x);
    }
  }

  // Lists that cover the same start with the same block.
  lemma SameFirst(a: seq<Block>, b: seq<Block>)
    requires Apart(a) && a != [] && forall i :: 0 <= i < |a| ==> a[i].size > 0
    requires Apart(b) && b != [] && forall i :: 0 <= i < |b| ==> b[i].size > 0
    requires Cells(a) == Cells(b)
    ensures a[0] == b[0] && Cells(a[1..]) == Cells(b[1..])
  {
    FirstCells(a);
    FirstCells(b);
    hide Cells, Apart;
    assert a[0].at == b[0].at;
    var x, y := a[0].End(), b[0].End();
    assert x in Range(b[0].at, y) <==> x < y;
    assert y in Range(a[0].at, x) <==> y < x;
  }

  lemma TailApart(a: seq<Block>)
    requires Apart(a) && a != [] && forall i :: 0 <= i < |a| ==> a[i].size > 0
    ensures Apart(a[1..]) && forall i :: 0 <= i < |a[1..]| ==> a[1..][i].size > 0
  {
  }

  lemma {:induction false} SameCells(a: seq<Block>, b: seq<Block>)
    requires Apart(a) && forall i :: 0 <= i < |a| ==> a[i].size > 0
    requires Apart(b) && forall i :: 0 <= i < |b| ==> b[i].size > 0
    requires Cells(a) == Cells(b)
    ensures a == b
  {
    if a == [] || b == [] {
      if a != [] {
        FirstCells(a);
      }
      if b != [] {
        FirstCells(b);
      }
    } else {
      SameFirst(a, b);
      TailApart(a);
      TailApart(b);
      hide Cells, Apart;
      SameCells(a[1..], b[1..]);
      assert a == [a[0]] + a[1..] && b == [b[0]] + b[1..];
    }
  }

  lemma SameMembers(a: seq<Block>, b: seq<Block>)
    requires forall c :: c in a ==> c in b
    ensures Cells(a) <= Cells(b)
  {
    forall x | x in Cells(a)
      ensures x in Cells(b)
    {
      CellsAre(a, x);
      CellsAre(b, x);
      var i :| 0 <= i < |a| && a[i].at <= x < a[i].End();
      assert a[i] in b;
    }
  }

  // The canonical form: the blocks in use decide the free list, however it came about.
  lemma UsedDecidesFree(s: State, r: State)
    requires Inv(s) && Inv(r) && s.total == r.total && forall b :: b in s.used <==> b in r.used
    ensures s.free == r.free
  {
    Tiles(s);
    Tiles(r);
    SameMembers(s.used, r.used);
    SameMembers(r.used, s.used);
    hide Cells, Total, UsedApart, NoneShared;
    assert Cells(s.free) == Range(0, s.total) - Cells(s.used);
    assert Cells(r.free) == Range(0, r.total) - Cells(r.used);
    SameCells(s.free, r.free);
  }

  // Freeing, as it is meant, what malloc has just answered gives the free list back.
  lemma FreeUndoesMalloc(s: State, nbytes: nat)
    requires Inv(s) && 0 < nbytes < WORD && Malloc(s, nbytes).1 != Null
    ensures var r := Malloc(s, nbytes).0;
            |r.used| == |s.used| + 1 && Free(r, |s.used|).free == s.free && Free(r, |s.used|).used == s.used
  {
    MallocEffect(s, nbytes);
    var r := Malloc(s, nbytes).0;
    FreeInv(r, |s.used|);
    hide Inv, Malloc, Free;
    assert Without(r.used, |s.used|) == s.used;
    UsedDecidesFree(s, Free(r, |s.used|));
  }
}
