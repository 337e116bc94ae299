// Where BMFS puts a new file: block placement over the sorted copy of the
// directory.
module BmfsPlacement {

  const WORD := 0x1_0000_0000_0000_0000

  // A name without characters ends the directory, and a deleted entry keeps
  // everything but the first character of its name.
  datatype Entry = Entry(name: string, start: nat, blocks: nat, size: nat)
  {
    predicate Ends()
    {
      name == ""
    }

    predicate Deleted()
    {
      name != "" && name[0] == '\U{0001}'
    }

    function After(): nat
    {
      start + blocks
    }
  }

  function Minus(a: nat, b: nat): (r: nat)
    ensures b <= a < WORD ==> r == a - b
  {
    (a - b) % WORD
  }

  // The search of create from entry t on.  0 says there is no room.
  function Place(s: seq<Entry>, t: nat, previous: nat, blocks: nat, requested: nat): (r: nat)
    requires t <= |s| && blocks > 0
    decreases |s| - t
  {
    var next := if t == |s| || s[t].Deleted() then blocks - 1 else s[t].start;
    if Minus(next, previous) >= requested then previous
    else if t < |s| then Place(s, t + 1, s[t].After(), blocks, requested)
    else 0
  }

  // Every extent is inside the data blocks, that of a deleted entry too.
  ghost predicate InRange(s: seq<Entry>, blocks: nat)
  {
    2 <= blocks < WORD
    && forall i :: 0 <= i < |s| ==> s[i].start >= 1 && s[i].blocks >= 1 && s[i].After() <= blocks - 1
  }

  // Files by their blocks, without overlap, then the deleted entries.
  ghost predicate Arranged(s: seq<Entry>, blocks: nat)
  {
    && InRange(s, blocks)
    && (forall i, j :: 0 <= i < j < |s| && s[i].Deleted() ==> s[j].Deleted())
    && (forall i, j :: 0 <= i < j < |s| && !s[j].Deleted() ==> s[i].After() <= s[j].start)
  }

  // The blocks from x on are free, and enough.
  ghost predicate Fits(s: seq<Entry>, blocks: nat, requested: nat, x: nat)
  {
    && 1 <= x && x + requested <= blocks - 1
    && forall i :: 0 <= i < |s| && !s[i].Deleted() ==> x + requested <= s[i].start || s[i].After() <= x
  }

  // Nothing fits below x.
  ghost predicate NoneBelow(s: seq<Entry>, blocks: nat, requested: nat, x: nat)
  {
    forall y :: 0 <= y < x ==> !Fits(s, blocks, requested, y)
  }

  ghost predicate Anywhere(s: seq<Entry>, blocks: nat, requested: nat)
  {
    exists x :: Fits(s, blocks, requested, x)
  }

  // Some deleted entry ends where the rest of the disk would be large enough.
  predicate Stale(s: seq<Entry>, t: nat, blocks: nat, requested: nat)
  {
    exists i :: t <= i < |s| && s[i].Deleted() && s[i].After() + requested <= blocks - 1
  }

  lemma {:induction false} PlaceStale(s: seq<Entry>, t: nat, blocks: nat, requested: nat)
    requires Arranged(s, blocks) && 1 <= t <= |s| && s[t - 1].Deleted()
    ensures Place(s, t, s[t - 1].After(), blocks, requested) == 0 <==> !Stale(s, t - 1, blocks, requested)
    decreases |s| - t
  {
    assert s[t - 1].After() + requested <= blocks - 1 ==> Stale(s, t - 1, blocks, requested);
    if t < |s| {
      assert s[t].Deleted();
      PlaceStale(s, t + 1, blocks, requested);
    }
  }

  lemma {:induction false} PlaceFrom(s: seq<Entry>, t: nat, previous: nat, blocks: nat, requested: nat)
    requires Arranged(s, blocks) && t <= |s| && requested >= 1
    requires t > 0 ==> !s[t - 1].Deleted()
    requires previous == if t == 0 then 1 else s[t - 1].After()
    requires NoneBelow(s, blocks, requested, previous)
    ensures var r := Place(s, t, previous, blocks, requested);
            && (Anywhere(s, blocks, requested) ==> Fits(s, blocks, requested, r) && NoneBelow(s, blocks, requested, r))
            && (!Anywhere(s, blocks, requested) ==> (r == 0 <==> !Stale(s, t, blocks, requested)))
    decreases |s| - t
  {
    if t == |s| || s[t].Deleted() {
      Tail(s, t, previous, blocks, requested);
      if t < |s| && previous + requested > blocks - 1 {
        PlaceStale(s, t + 1, blocks, requested);
      }
    } else if s[t].start - previous >= requested {
      assert Fits(s, blocks, requested, previous);
    } else {
      GapTooSmall(s, t, previous, blocks, requested);
      PlaceFrom(s, t + 1, s[t].After(), blocks, requested);
      assert Stale(s, t, blocks, requested) == Stale(s, t + 1, blocks, requested);
    }
  }

  // Behind the last file.
  lemma Tail(s: seq<Entry>, t: nat, previous: nat, blocks: nat, requested: nat)
    requires Arranged(s, blocks) && t <= |s|
    requires (t < |s| ==> s[t].Deleted()) && (t > 0 ==> !s[t - 1].Deleted())
    requires previous == if t == 0 then 1 else s[t - 1].After()
    requires NoneBelow(s, blocks, requested, previous)
    ensures previous + requested <= blocks - 1 ==> Fits(s, blocks, requested, previous)
    ensures previous + requested > blocks - 1 ==> !Anywhere(s, blocks, requested)
  {
    forall i | 0 <= i < |s| && !s[i].Deleted()
      ensures s[i].After() <= previous
    {
      assert i < t;
    }
  }

  lemma GapTooSmall(s: seq<Entry>, t: nat, previous: nat, blocks: nat, requested: nat)
    requires Arranged(s, blocks) && t < |s| && !s[t].Deleted() && requested >= 1
    requires s[t].start < previous + requested && NoneBelow(s, blocks, requested, previous)
    ensures NoneBelow(s, blocks, requested, s[t].After())
  {
    forall y | previous <= y < s[t].After()
      ensures !Fits(s, blocks, requested, y)
    {
    }
  }

  // The search finds the lowest place where the file fits, if it fits anywhere.  If
  // not, it says so exactly when no deleted entry leads it astray.
  lemma PlaceIsLowest(s: seq<Entry>, blocks: nat, requested: nat)
    requires Arranged(s, blocks) && requested >= 1
    ensures var r := Place(s, 0, 1, blocks, requested);
            && (Anywhere(s, blocks, requested) ==> Fits(s, blocks, requested, r) && NoneBelow(s, blocks, requested, r))
            && (!Anywhere(s, blocks, requested) ==> (r == 0 <==> !Stale(s, 0, blocks, requested)))
  {
    PlaceFrom(s, 0, 1, blocks, requested);
  }
}
