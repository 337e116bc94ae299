// Where create goes wrong, how a directory gets there, and exactly when it does.
module BmfsFailures {
  import opened BmfsPlacement
  import opened Bmfs

  // A full directory has no end marker, and a deleted entry still has its old extent.

  // ----- a full directory -----

  // create then looks at no entry at all, and puts the file at block 1.  If the first
  // entry is free the end marker lands in the second one, and all other files are
  // gone.  Otherwise no harm is done if and only if the file fits at block 1.
  lemma FullDirectory(d: seq<Entry>, name: string, requested: nat, blocks: nat)
    requires Layout(d, blocks) && EndOf(d) == ENTRIES && FirstFree(d) < |d|
    requires GoodName(name) && !Named(d, name) && 1 <= requested <= blocks - 2
    ensures var f, (r, o) := FirstFree(d), Create(d, name, requested, blocks, []);
            && o == Created && |r| == |d| && r[f] == Entry(name, 1, requested, 0)
            && (f == 0 ==> EndOf(r) == 1)
            && (f > 0 ==> EndOf(r) == ENTRIES && (Layout(r, blocks) <==> Fits(d, blocks, requested, 1)))
  {
    var f, entry := FirstFree(d), Entry(name, 1, requested, 0);
    FullCreates(d, name, requested, blocks);
    hide Create, FirstFree, EndOf, Named;
    var r := Put(d, f, entry);
    if f == 0 {
      EndIs(r, 1);
    } else {
      assert r == d[f := entry];
      EndIs(r, ENTRIES);
      assert d[..ENTRIES] == d && r[..ENTRIES] == r;
      FullKeeps(d, r, f, entry, blocks);
    }
  }

  lemma FullCreates(d: seq<Entry>, name: string, requested: nat, blocks: nat)
    requires !Named(d, name) && FirstFree(d) < |d| && 1 <= requested <= blocks - 2 && blocks < WORD
    ensures Create(d, name, requested, blocks, []) == (Put(d, FirstFree(d), Entry(name, 1, requested, 0)), Created)
  {
    assert Minus(blocks - 1, 1) == blocks - 2;
    assert Place([], 0, 1, blocks, requested) == 1;
    hide Place, Put, FirstFree, Named;
  }

  lemma FullKeeps(d: seq<Entry>, r: seq<Entry>, f: nat, entry: Entry, blocks: nat)
    requires InRange(d, blocks) && FilesApart(d) && NamesDistinct(d) && f < |d| && d[f].Deleted() && r == d[f := entry]
    requires EndOf(d) == |d| && !Named(d, entry.name) && GoodName(entry.name)
    requires entry.start == 1 && 1 <= entry.blocks <= blocks - 2
    ensures InRange(r, blocks) && FilesApart(r) && NamesDistinct(r) <==> Fits(d, blocks, entry.blocks, 1)
  {
    if Fits(d, blocks, entry.blocks, 1) {
      assert forall i :: 0 <= i < |d| && !d[i].Deleted() ==> Live(d, i);
      ReplacesKeeps(d, r, f, entry, blocks);
    } else {
      var i :| 0 <= i < |d| && !d[i].Deleted() && d[i].start < 1 + entry.blocks && 1 < d[i].After();
      assert r[i] == d[i] && r[f] == entry && !r[f].Deleted();
      assert !FilesApart(r);
    }
  }

  // ----- an old extent -----

  // Wherever the search puts a file, right or wrong, it is inside the data blocks.
  lemma {:induction false} PlaceInRange(s: seq<Entry>, t: nat, previous: nat, blocks: nat, requested: nat)
    requires Arranged(s, blocks) && t <= |s| && 1 <= previous <= blocks - 1
    requires t < |s| && !s[t].Deleted() ==> previous <= s[t].start
    ensures var r := Place(s, t, previous, blocks, requested);
            r != 0 ==> 1 <= r && r + requested <= blocks - 1
    decreases |s| - t
  {
    if t < |s| {
      PlaceInRange(s, t + 1, s[t].After(), blocks, requested);
    }
  }

  // A file put where it does not fit shares a block with another.
  lemma MisplacedBreaks(d: seq<Entry>, entry: Entry, blocks: nat)
    requires Layout(d, blocks) && EndOf(d) < ENTRIES && GoodName(entry.name) && entry.blocks >= 1
    requires 1 <= entry.start && entry.After() <= blocks - 1
    requires !Fits(d[..EndOf(d)], blocks, entry.blocks, entry.start)
    ensures FirstFree(d) < |d| && !Layout(Put(d, FirstFree(d), entry), blocks)
  {
    var files, f := d[..EndOf(d)], FirstFree(d);
    FreeBeforeEnd(d);
    PutEnd(d, f, entry);
    var r := Put(d, f, entry);
    hide EndOf, FirstFree, Put, InRange, NamesDistinct;
    var i :| 0 <= i < |files| && !files[i].Deleted()
             && files[i].start < entry.start + entry.blocks && entry.start < files[i].After();
    var rf := r[..EndOf(r)];
    assert rf[i] == files[i] && rf[f] == entry;
    assert !FilesApart(rf);
  }

  // On a directory with an end marker create keeps the layout if and only if the file
  // fits somewhere or no deleted entry leaves room behind it.
  lemma CreateIsSafeIff(d: seq<Entry>, name: string, requested: nat, blocks: nat,
                        s: seq<Entry>, p: seq<nat>, q: seq<nat>)
    requires Layout(d, blocks) && EndOf(d) < ENTRIES && GoodName(name) && !Named(d, name) && requested >= 1
    requires SortedCopy(s, d[..EndOf(d)], p, q)
    ensures var files := d[..EndOf(d)];
            Layout(Create(d, name, requested, blocks, s).0, blocks)
            <==> Anywhere(files, blocks, requested) || !Stale(files, 0, blocks, requested)
  {
    var files := d[..EndOf(d)];
    SortedArranged(s, files, p, q, blocks);
    hide SortedCopy;
    if Anywhere(files, blocks, requested) || !Stale(files, 0, blocks, requested) {
      CreateKeepsLayout(d, name, requested, blocks, s, p, q);
    } else {
      SortedFits(s, files, p, q, blocks, requested);
      PlaceIsLowest(s, blocks, requested);
      PlaceInRange(s, 0, 1, blocks, requested);
      hide Arranged, Layout, Place, FirstFree, EndOf, Put;
      var start := Place(s, 0, 1, blocks, requested);
      assert !Anywhere(s, blocks, requested);
      assert !Fits(files, blocks, requested, start);
      MisplacedBreaks(d, Entry(name, start, requested, 0), blocks);
    }
  }

  // ----- filling a directory -----

  function Formatted(): seq<Entry>
  {
    seq(ENTRIES, i => Entry("", 0, 0, 0))
  }

  function Letter(i: nat): char
    requires i < ENTRIES
  {
    ('0' as int + i) as char
  }

  function NthFile(i: nat): (e: Entry)
    requires i < ENTRIES
    ensures !e.Ends() && !e.Deleted() && GoodName(e.name)
  {
    Entry([Letter(i)], i + 1, 1, 0)
  }

  // n files of one block each, side by side.
  function Filled(n: nat): (d: seq<Entry>)
    requires n <= ENTRIES
    ensures |d| == ENTRIES && forall i :: 0 <= i < ENTRIES ==> d[i] == if i < n then NthFile(i) else Entry("", 0, 0, 0)
  {
    seq(ENTRIES, i requires 0 <= i < ENTRIES => if i < n then NthFile(i) else Entry("", 0, 0, 0))
  }

  lemma FirstFreeIs(d: seq<Entry>, f: nat)
    requires f <= |d| && (forall i :: 0 <= i < f ==> !d[i].Ends() && !d[i].Deleted())
    requires f < |d| ==> d[f].Ends() || d[f].Deleted()
    ensures FirstFree(d) == f
  {
  }

  function Same(n: nat): (p: seq<nat>)
    ensures |p| == n && forall i :: 0 <= i < n ==> p[i] == i
  {
    seq(n, i => i)
  }

  lemma FilledEnds(n: nat)
    requires n <= ENTRIES
    ensures EndOf(Filled(n)) == n && FirstFree(Filled(n)) == n
  {
    EndIs(Filled(n), n);
    FirstFreeIs(Filled(n), n);
  }

  lemma FilledSorted(n: nat)
    requires n <= ENTRIES
    ensures SortedCopy(Filled(n)[..n], Filled(n)[..n], Same(n), Same(n))
  {
    var s := Filled(n)[..n];
    assert forall i :: 0 <= i < n ==> s[i] == NthFile(i);
    hide Filled;
  }

  lemma FilledLayout(n: nat, blocks: nat)
    requires n <= ENTRIES && n + 2 <= blocks < WORD
    ensures EndOf(Filled(n)) == n && Layout(Filled(n), blocks) && Arranged(Filled(n)[..n], blocks)
  {
    FilledEnds(n);
    var s := Filled(n)[..n];
    assert forall i :: 0 <= i < n ==> s[i] == NthFile(i);
    hide Filled, EndOf;
    assert InRange(s, blocks) && FilesApart(s) && Arranged(s, blocks);
    assert NamesDistinct(s) by {
      assert forall i :: 0 <= i < n ==> s[i].name[0] == Letter(i);
    }
  }

  // The next file goes behind the others.
  lemma NextPlace(n: nat, blocks: nat)
    requires n <= ENTRIES && n + 3 <= blocks < WORD
    ensures Place(Filled(n)[..n], 0, 1, blocks, 1) == n + 1 && Anywhere(Filled(n)[..n], blocks, 1)
  {
    var s := Filled(n)[..n];
    FilledLayout(n, blocks);
    hide Arranged, SortedCopy, Layout, Place;
    assert Fits(s, blocks, 1, n + 1);
    forall x | 0 <= x <= n
      ensures !Fits(s, blocks, 1, x)
    {
      if x > 0 {
        assert s[x - 1] == NthFile(x - 1);
      }
    }
    PlaceIsLowest(s, blocks, 1);
  }

  function NextCall(n: nat): Call
    requires n < ENTRIES
  {
    CallCreate([Letter(n)], 1, Filled(n)[..n], Same(n), Same(n))
  }

  lemma FillOne(n: nat, blocks: nat)
    requires n < ENTRIES && n + 3 <= blocks < WORD
    ensures Allowed(Filled(n), NextCall(n), blocks)
    ensures Create(Filled(n), [Letter(n)], 1, blocks, Filled(n)[..n]).0 == Filled(n + 1)
  {
    var d := Filled(n);
    FilledEnds(n);
    FilledSorted(n);
    NextPlace(n, blocks);
    hide Place, Arranged, SortedCopy, Layout, EndOf, FirstFree;
    assert !Named(d, [Letter(n)]);
    assert Put(d, n, NthFile(n)) == Filled(n + 1);
  }

  function After(d: seq<Entry>, c: Call, blocks: nat): seq<Entry>
    requires blocks > 0 && (c.CallDelete? ==> c.i < |d| && d[c.i].name != "")
  {
    match c
    case CallCreate(name, requested, s, _, _) => Create(d, name, requested, blocks, s).0
    case CallDelete(i) => Delete(d, i)
  }

  lemma {:induction false} RunLonger(d: seq<Entry>, calls: seq<Call>, m: seq<Entry>, c: Call, blocks: nat)
    requires blocks > 0 && Run(d, calls, blocks, m) && Allowed(m, c, blocks)
    ensures Run(d, calls + [c], blocks, After(m, c, blocks))
    decreases |calls|
  {
    hide Create, Delete;
    if calls == [] {
      assert ([] + [c])[1..] == [];
    } else {
      RunLonger(After(d, calls[0], blocks), calls[1..], m, c, blocks);
      assert (calls + [c])[1..] == calls[1..] + [c];
    }
  }

  lemma {:induction false} FilledReached(n: nat, blocks: nat) returns (calls: seq<Call>)
    requires n <= ENTRIES && n + 2 <= blocks < WORD
    ensures Run(Formatted(), calls, blocks, Filled(n))
  {
    if n == 0 {
      calls := [];
    } else {
      hide Create, Allowed, Run;
      var before := FilledReached(n - 1, blocks);
      FillOne(n - 1, blocks);
      RunLonger(Formatted(), before, Filled(n - 1), NextCall(n - 1), blocks);
      calls := before + [NextCall(n - 1)];
    }
  }

  // 64 creations and a deletion later.
  function FullButOne(i: nat): seq<Entry>
    requires i < ENTRIES
  {
    Delete(Filled(ENTRIES), i)
  }

  lemma FullButOneReached(i: nat, blocks: nat) returns (calls: seq<Call>)
    requires i < ENTRIES && ENTRIES + 2 <= blocks < WORD
    ensures Run(Formatted(), calls, blocks, FullButOne(i)) && Layout(FullButOne(i), blocks)
    ensures EndOf(FullButOne(i)) == ENTRIES && FirstFree(FullButOne(i)) == i
  {
    hide Create, Layout;
    var before := FilledReached(ENTRIES, blocks);
    FilledLayout(ENTRIES, blocks);
    assert Live(Filled(ENTRIES), i);
    RunLonger(Formatted(), before, Filled(ENTRIES), CallDelete(i), blocks);
    calls := before + [CallDelete(i)];
    DeleteKeepsLayout(Filled(ENTRIES), i, blocks);
    FirstFreeIs(FullButOne(i), i);
  }

  // On any disk with room for 64 one-block files a run reaches a full directory in
  // which the next creation goes wrong: if the first file was deleted, the other 63
  // are lost; if the second was, the new file is put on the first.
  lemma FullDirectoryReached(blocks: nat) returns (first: seq<Call>, second: seq<Call>)
    requires ENTRIES + 2 <= blocks < WORD
    ensures Run(Formatted(), first, blocks, FullButOne(0)) && Run(Formatted(), second, blocks, FullButOne(1))
    ensures EndOf(FullButOne(0)) == ENTRIES && EndOf(Create(FullButOne(0), "new", 1, blocks, []).0) == 1
    ensures Layout(FullButOne(1), blocks) && !Layout(Create(FullButOne(1), "new", 1, blocks, []).0, blocks)
  {
    hide Run, Create, Layout, FirstFree;
    first := FullButOneReached(0, blocks);
    second := FullButOneReached(1, blocks);
    NewIsNew(0);
    NewIsNew(1);
    FullDirectory(FullButOne(0), "new", 1, blocks);
    FullDirectory(FullButOne(1), "new", 1, blocks);
    assert FullButOne(1)[0] == NthFile(0);
    assert !Fits(FullButOne(1), blocks, 1, 1);
  }

  lemma NewIsNew(i: nat)
    requires i < ENTRIES
    ensures !Named(FullButOne(i), "new") && GoodName("new")
  {
    forall j | 0 <= j < ENTRIES
      ensures |FullButOne(i)[j].name| == 1
    {
    }
  }

  // ----- a run to a misleading directory -----

  // Two files of one block are created and deleted, ...
  function Emptied(): (d: seq<Entry>)
    ensures |d| == ENTRIES && d[0].Deleted() && d[1].Deleted() && d[2].Ends()
    ensures d[0].start == 1 && d[1].start == 2 && d[0].blocks == d[1].blocks == 1
  {
    Delete(Delete(Filled(2), 0), 1)
  }

  // ... and a file of five takes the first entry and both their blocks.
  function Misled(): (d: seq<Entry>)
    ensures |d| == ENTRIES && d[0] == Entry("a", 1, 5, 0) && d[1] == Emptied()[1] && d[2].Ends()
  {
    Emptied()[0 := Entry("a", 1, 5, 0)]
  }

  lemma EmptiedReached() returns (calls: seq<Call>)
    ensures Run(Formatted(), calls, 7, Emptied()) && Layout(Emptied(), 7) && EndOf(Emptied()) == 2
  {
    hide Create, Layout, Run;
    var before := FilledReached(2, 7);
    var d := Delete(Filled(2), 0);
    FilledLayout(2, 7);
    assert Live(Filled(2), 0) && Live(Filled(2), 1);
    DeleteKeepsLayout(Filled(2), 0, 7);
    assert Live(d, 1);
    DeleteKeepsLayout(d, 1, 7);
    RunLonger(Formatted(), before, Filled(2), CallDelete(0), 7);
    RunLonger(Formatted(), before + [CallDelete(0)], d, CallDelete(1), 7);
    calls := before + [CallDelete(0)] + [CallDelete(1)];
  }

  lemma EmptiedTaken()
    requires EndOf(Emptied()) == 2
    ensures var d := Emptied();
            Allowed(d, CallCreate("a", 5, d[..2], Same(2), Same(2)), 7) && Create(d, "a", 5, 7, d[..2]).0 == Misled()
  {
    var d := Emptied();
    FirstFreeIs(d, 0);
    assert Fits(d[..2], 7, 5, 1);
    assert Minus(6, 1) == 5;
    assert Place(d[..2], 0, 1, 7, 5) == 1;
    hide Place, FirstFree, EndOf;
  }

  lemma MisledPlaces()
    requires EndOf(Misled()) == 2
    ensures Place(Misled()[..2], 0, 1, 7, 2) == 3 && FirstFree(Misled()) == 1 && !Named(Misled(), "b")
  {
    var s := Misled()[..2];
    FirstFreeIs(Misled(), 1);
    assert Minus(6, 3) == 3 && Minus(6, 6) == 0 && Minus(1, 1) == 0;
    assert Place(s, 2, 3, 7, 2) == 3;
    assert Place(s, 1, 6, 7, 2) == Place(s, 2, 3, 7, 2);
    assert Place(s, 0, 1, 7, 2) == Place(s, 1, 6, 7, 2);
  }

  // On a disk of seven blocks a run reaches a directory in which the next creation
  // gives block 3, the file's own, to another one: the deleted entry points there.
  lemma StaleReached() returns (calls: seq<Call>)
    ensures Run(Formatted(), calls, 7, Misled()) && Layout(Misled(), 7) && EndOf(Misled()) == 2
    ensures SortedCopy(Misled()[..2], Misled()[..2], Same(2), Same(2))
    ensures var (r, o) := Create(Misled(), "b", 2, 7, Misled()[..2]);
            o == Created && r[1] == Entry("b", 3, 2, 0) && r[0] == Entry("a", 1, 5, 0) && !Layout(r, 7)
  {
    var d, s := Emptied(), Emptied()[..2];
    var c := CallCreate("a", 5, s, Same(2), Same(2));
    EndIs(Misled(), 2);
    hide Run, Place, FirstFree, EndOf;
    var before := EmptiedReached();
    EmptiedTaken();
    CreateKeepsLayout(d, "a", 5, 7, s, Same(2), Same(2));
    RunLonger(Formatted(), before, d, c, 7);
    calls := before + [c];
    MisledPlaces();
    OverlapBreaks();
  }

  lemma OverlapBreaks()
    ensures !Layout(Put(Misled(), 1, Entry("b", 3, 2, 0)), 7)
  {
    var r := Put(Misled(), 1, Entry("b", 3, 2, 0));
    EndIs(Misled(), 2);
    EndIs(r, 2);
    assert r[..2][0] == Entry("a", 1, 5, 0) && r[..2][1] == Entry("b", 3, 2, 0);
  }
}
