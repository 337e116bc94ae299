// Creating and deleting files in a BMFS directory.
module Bmfs {
  import opened BmfsPlacement

  const ENTRIES := 64

  datatype Outcome = Exists | NoEntry | NoRoom | Created

  predicate GoodName(name: string)
  {
    name != "" && name[0] != '\U{0001}'
  }

  // The first entry with the end marker.
  function EndOf(d: seq<Entry>): (e: nat)
    ensures e <= |d| && (e < |d| ==> d[e].Ends())
    ensures forall i :: 0 <= i < e ==> !d[i].Ends()
  {
    if d == [] || d[0].Ends() then 0 else 1 + EndOf(d[1..])
  }

  predicate Live(d: seq<Entry>, i: nat)
  {
    i < EndOf(d) && !d[i].Deleted()
  }

  predicate Named(d: seq<Entry>, name: string)
  {
    exists i :: 0 <= i < |d| && Live(d, i) && d[i].name == name
  }

  // The number of entries create looks at: none if the end marker is missing.
  function Used(d: seq<Entry>): (n: nat)
    ensures n <= |d|
  {
    if EndOf(d) < |d| then EndOf(d) else 0
  }

  // The entry a new file gets, the first deleted one or the end marker.
  function FirstFree(d: seq<Entry>): (f: nat)
    ensures f <= |d| && (f < |d| ==> d[f].Ends() || d[f].Deleted())
    ensures forall i :: 0 <= i < f ==> !d[i].Ends() && !d[i].Deleted()
  {
    if d == [] || d[0].Ends() || d[0].Deleted() then 0 else 1 + FirstFree(d[1..])
  }

  // The contract of qsort with StartingBlockCmp.  p says where an entry of the
  // copy was, and q where it went.
  ghost predicate SortedCopy(s: seq<Entry>, d: seq<Entry>, p: seq<nat>, q: seq<nat>)
  {
    && |s| == |d| == |p| == |q|
    && (forall i :: 0 <= i < |s| ==> p[i] < |d| && q[p[i]] == i && s[i] == d[p[i]])
    && (forall i :: 0 <= i < |d| ==> q[i] < |s| && p[q[i]] == i)
    && (forall i, j :: 0 <= i < j < |s| ==> StartingBlockCmp(s[i], s[j]) <= 0 || s[j].Deleted())
  }

  function StartingBlockCmp(a: Entry, b: Entry): int
  {
    if a.Deleted() then 1 else if b.Deleted() then -1 else a.start - b.start
  }

  ghost predicate FilesApart(d: seq<Entry>)
  {
    forall i, j :: 0 <= i < j < |d| && !d[i].Deleted() && !d[j].Deleted() ==>
      d[i].After() <= d[j].start || d[j].After() <= d[i].start
  }

  ghost predicate NamesDistinct(d: seq<Entry>)
  {
    forall i, j :: 0 <= i < j < |d| && !d[i].Deleted() && !d[j].Deleted() ==> d[i].name != d[j].name
  }

  // Extents in range, no two files in one block, no two of one name.
  ghost predicate Layout(d: seq<Entry>, blocks: nat)
  {
    var e := d[..EndOf(d)];
    |d| == ENTRIES && InRange(e, blocks) && FilesApart(e) && NamesDistinct(e)
  }

  function Put(d: seq<Entry>, f: nat, entry: Entry): (r: seq<Entry>)
    requires f < |d|
    ensures |r| == |d|
  {
    var r := d[f := entry];
    if f == Used(d) && f + 1 < |d| then r[f + 1 := r[f + 1].(name := "")] else r
  }

  function Create(d: seq<Entry>, name: string, requested: nat, blocks: nat, s: seq<Entry>): (seq<Entry>, Outcome)
    requires blocks > 0
  {
    var f := FirstFree(d);
    if Named(d, name) then (d, Exists)
    else if f == |d| then (d, NoEntry)
    else
      var start := Place(s, 0, 1, blocks, requested);
      if start == 0 then (d, NoRoom) else (Put(d, f, Entry(name, start, requested, 0)), Created)
  }

  // Without the file found or put in, the directory is as before: the name is taken, or
  // all entries are in use, or the search answers 0.
  lemma CreateOutcome(d: seq<Entry>, name: string, requested: nat, blocks: nat, s: seq<Entry>)
    requires blocks > 0
    ensures var (r, o) := Create(d, name, requested, blocks, s);
            && (o == Exists <==> Named(d, name))
            && (o == NoEntry <==> !Named(d, name) && forall i :: 0 <= i < |d| ==> !d[i].Ends() && !d[i].Deleted())
            && (o == Created ==> Place(s, 0, 1, blocks, requested) > 0)
            && (o != Created ==> r == d)
  {
  }

  // ----- what create keeps -----

  lemma SortedArranged(s: seq<Entry>, d: seq<Entry>, p: seq<nat>, q: seq<nat>, blocks: nat)
    requires SortedCopy(s, d, p, q) && InRange(d, blocks) && FilesApart(d)
    ensures Arranged(s, blocks)
  {
    forall i, j | 0 <= i < j < |s| && !s[j].Deleted()
      ensures s[i].After() <= s[j].start
    {
      assert StartingBlockCmp(s[i], s[j]) <= 0;
      assert p[i] != p[j];
    }
    forall i, j | 0 <= i < j < |s| && s[i].Deleted()
      ensures s[j].Deleted()
    {
      assert StartingBlockCmp(s[i], s[j]) == 1;
    }
  }

  lemma SortedFits(s: seq<Entry>, d: seq<Entry>, p: seq<nat>, q: seq<nat>, blocks: nat, requested: nat)
    requires SortedCopy(s, d, p, q)
    ensures forall x: nat :: Fits(s, blocks, requested, x) <==> Fits(d, blocks, requested, x)
    ensures Stale(s, 0, blocks, requested) <==> Stale(d, 0, blocks, requested)
  {
    forall i | 0 <= i < |d|
      ensures s[q[i]] == d[i]
    {
      assert p[q[i]] == i;
    }
    if Stale(d, 0, blocks, requested) {
      var i :| 0 <= i < |d| && d[i].Deleted() && d[i].After() + requested <= blocks - 1;
      assert s[q[i]] == d[i];
    }
  }

  // Where the end marker is after a file was put in.
  lemma PutEnd(d: seq<Entry>, f: nat, entry: Entry)
    requires f == FirstFree(d) && EndOf(d) < |d| && !entry.Ends() && !entry.Deleted()
    ensures f <= EndOf(d) && EndOf(Put(d, f, entry)) == if f == EndOf(d) then f + 1 else EndOf(d)
    ensures forall i :: 0 <= i < EndOf(Put(d, f, entry)) && i != f ==> Put(d, f, entry)[i] == d[i]
    ensures Put(d, f, entry)[f] == entry
  {
    hide FirstFree, EndOf, Put;
    FreeBeforeEnd(d);
    UsedWithEnd(d);
    PutAt(d, f, entry);
    EndIs(Put(d, f, entry), if f == EndOf(d) then f + 1 else EndOf(d));
  }

  lemma UsedWithEnd(d: seq<Entry>)
    requires EndOf(d) < |d|
    ensures Used(d) == EndOf(d)
  {
  }

  lemma PutAt(d: seq<Entry>, f: nat, entry: Entry)
    requires f < |d|
    ensures var r := Put(d, f, entry);
            && |r| == |d| && r[f] == entry
            && (forall i :: 0 <= i < |d| && i != f && !(f == Used(d) && i == f + 1) ==> r[i] == d[i])
            && (f == Used(d) && f + 1 < |d| ==> r[f + 1].Ends())
  {
    hide Used;
  }

  lemma EndIs(d: seq<Entry>, e: nat)
    requires e <= |d| && (forall i :: 0 <= i < e ==> !d[i].Ends()) && (e < |d| ==> d[e].Ends())
    ensures EndOf(d) == e
  {
  }

  // On a directory with an end marker, where the file fits somewhere or no deleted
  // entry leads the search astray, create succeeds exactly if the name is new and
  // the file fits.  It then goes to the lowest place where it fits, and nothing
  // else changes.
  lemma CreateKeepsLayout(d: seq<Entry>, name: string, requested: nat, blocks: nat,
                          s: seq<Entry>, p: seq<nat>, q: seq<nat>)
    requires Layout(d, blocks) && EndOf(d) < ENTRIES && GoodName(name) && requested >= 1
    requires SortedCopy(s, d[..EndOf(d)], p, q)
    requires Anywhere(d[..EndOf(d)], blocks, requested) || !Stale(d[..EndOf(d)], 0, blocks, requested)
    ensures var (r, o) := Create(d, name, requested, blocks, s);
            var files := d[..EndOf(d)];
            && Layout(r, blocks)
            && (o == Created <==> !Named(d, name) && Anywhere(files, blocks, requested))
            && (o != Created ==> r == d)
            && (o == Created ==>
                  var f := FirstFree(d);
                  && f < |d| && Live(r, f) && r[f].name == name && r[f].blocks == requested && r[f].size == 0
                  && Fits(files, blocks, requested, r[f].start) && NoneBelow(files, blocks, requested, r[f].start)
                  && forall i :: 0 <= i < |d| && i != f ==>
                       (Live(r, i) <==> Live(d, i)) && (Live(d, i) ==> r[i] == d[i]))
  {
    var files, f := d[..EndOf(d)], FirstFree(d);
    SortedArranged(s, files, p, q, blocks);
    SortedFits(s, files, p, q, blocks, requested);
    PlaceIsLowest(s, blocks, requested);
    hide Arranged, InRange, SortedCopy, FilesApart, NamesDistinct, Place, Stale, FirstFree, EndOf, Put;
    var start := Place(s, 0, 1, blocks, requested);
    if Anywhere(files, blocks, requested) {
      var x :| Fits(files, blocks, requested, x);
      assert Fits(s, blocks, requested, x);
      LowestAgrees(s, files, blocks, requested, start);
      if !Named(d, name) {
        PutLayout(d, Entry(name, start, requested, 0), blocks);
      }
    } else {
      assert !Anywhere(s, blocks, requested);
    }
    FreeBeforeEnd(d);
  }

  lemma FreeBeforeEnd(d: seq<Entry>)
    requires EndOf(d) < |d|
    ensures FirstFree(d) <= EndOf(d)
  {
  }

  lemma LowestAgrees(s: seq<Entry>, files: seq<Entry>, blocks: nat, requested: nat, x: nat)
    requires forall x: nat :: Fits(s, blocks, requested, x) <==> Fits(files, blocks, requested, x)
    requires Fits(s, blocks, requested, x) && NoneBelow(s, blocks, requested, x)
    ensures Fits(files, blocks, requested, x) && NoneBelow(files, blocks, requested, x) && x > 0
  {
  }

  ghost predicate Replaces(files: seq<Entry>, r: seq<Entry>, f: nat, entry: Entry)
  {
    && f <= |files| && |r| == (if f == |files| then f + 1 else |files|)
    && r[f] == entry && forall i :: 0 <= i < |r| && i != f ==> r[i] == files[i]
  }

  lemma ReplacesKeeps(files: seq<Entry>, r: seq<Entry>, f: nat, entry: Entry, blocks: nat)
    requires Replaces(files, r, f, entry) && InRange(files, blocks) && FilesApart(files) && NamesDistinct(files)
    requires entry.blocks >= 1 && Fits(files, blocks, entry.blocks, entry.start) && (f < |files| ==> files[f].Deleted())
    requires forall i :: 0 <= i < |files| && !files[i].Deleted() ==> files[i].name != entry.name
    ensures InRange(r, blocks) && FilesApart(r) && NamesDistinct(r)
  {
  }

  lemma PutLayout(d: seq<Entry>, entry: Entry, blocks: nat)
    requires Layout(d, blocks) && EndOf(d) < ENTRIES && GoodName(entry.name) && entry.blocks >= 1
    requires !Named(d, entry.name) && Fits(d[..EndOf(d)], blocks, entry.blocks, entry.start)
    ensures var f := FirstFree(d);
            f < |d| && var r := Put(d, f, entry);
            && Layout(r, blocks) && Live(r, f) && r[f] == entry
            && forall i :: 0 <= i < |d| && i != f ==> (Live(r, i) <==> Live(d, i)) && (Live(d, i) ==> r[i] == d[i])
  {
    hide InRange, FilesApart, NamesDistinct, Fits, EndOf, Put, FirstFree;
    var f := FirstFree(d);
    FreeBeforeEnd(d);
    var r := Put(d, f, entry);
    PutEnd(d, f, entry);
    assert forall i :: 0 <= i < EndOf(d) && !d[i].Deleted() ==> Live(d, i);
    ReplacesKeeps(d[..EndOf(d)], r[..EndOf(r)], f, entry, blocks);
  }

  // ----- delete -----

  function Delete(d: seq<Entry>, i: nat): seq<Entry>
    requires i < |d| && d[i].name != ""
  {
    d[i := d[i].(name := d[i].name[0 := '\U{0001}'])]
  }

  // delete takes one file away and nothing else; its entry keeps all but the first
  // character of the name.
  lemma DeleteKeepsLayout(d: seq<Entry>, i: nat, blocks: nat)
    requires Layout(d, blocks) && i < |d| && Live(d, i)
    ensures var r := Delete(d, i);
            && Layout(r, blocks) && !Live(r, i) && EndOf(r) == EndOf(d)
            && |r| == |d| && (forall j :: 0 <= j < |d| && j != i ==> r[j] == d[j])
            && r[i].Deleted() && r[i].name[1..] == d[i].name[1..] && r[i] == d[i].(name := r[i].name)
  {
    var r, e := Delete(d, i), EndOf(d);
    EndIs(r, e);
    assert r[..e] == d[..e][i := r[i]];
    hide EndOf, Delete;
    RetiredKeeps(d[..e], i, r[i], blocks);
  }

  lemma RetiredKeeps(files: seq<Entry>, i: nat, entry: Entry, blocks: nat)
    requires InRange(files, blocks) && FilesApart(files) && NamesDistinct(files) && i < |files|
    requires entry.Deleted() && entry.start == files[i].start && entry.blocks == files[i].blocks
    ensures InRange(files[i := entry], blocks) && FilesApart(files[i := entry]) && NamesDistinct(files[i := entry])
  {
  }

  // ----- runs -----

  datatype Call = CallCreate(name: string, requested: nat, s: seq<Entry>, p: seq<nat>, q: seq<nat>) | CallDelete(i: nat)

  ghost predicate Allowed(d: seq<Entry>, c: Call, blocks: nat)
  {
    var files := d[..EndOf(d)];
    match c
    case CallCreate(name, requested, s, p, q) =>
      && EndOf(d) < ENTRIES && GoodName(name) && requested >= 1 && SortedCopy(s, files, p, q)
      && (Anywhere(files, blocks, requested) || !Stale(files, 0, blocks, requested))
    case CallDelete(i) => i < |d| && Live(d, i)
  }

  ghost predicate Run(d: seq<Entry>, calls: seq<Call>, blocks: nat, r: seq<Entry>)
    requires blocks > 0
    decreases |calls|
  {
    if calls == [] then r == d
    else
      && Allowed(d, calls[0], blocks)
      && Run(match calls[0]
             case CallCreate(name, requested, s, _, _) => Create(d, name, requested, blocks, s).0
             case CallDelete(i) => Delete(d, i), calls[1..], blocks, r)
  }

  // However files come and go, no block has two owners and no name two files.
  lemma {:induction false} RunKeepsLayout(d: seq<Entry>, calls: seq<Call>, blocks: nat, r: seq<Entry>)
    requires blocks > 0 && Layout(d, blocks) && Run(d, calls, blocks, r)
    ensures Layout(r, blocks)
    decreases |calls|
  {
    hide Layout, Create, Delete;
    if calls != [] {
      match calls[0] {
        case CallCreate(name, requested, s, p, q) =>
          CreateKeepsLayout(d, name, requested, blocks, s, p, q);
          RunKeepsLayout(Create(d, name, requested, blocks, s).0, calls[1..], blocks, r);
        case CallDelete(i) =>
          DeleteKeepsLayout(d, i, blocks);
          RunKeepsLayout(Delete(d, i), calls[1..], blocks, r);
      }
    }
  }

  // ----- the loops -----

  method FindFile(directory: array<Entry>, filename: string) returns (found: bool, number: nat)
    ensures found <==> Named(directory[..], filename)
    ensures found ==> number < directory.Length && Live(directory[..], number) && directory[number].name == filename
  {
    ghost var d := directory[..];
    var t := 0;
    while t < directory.Length
      invariant t <= directory.Length + 1
      invariant if t <= directory.Length then t <= EndOf(d) else true
      invariant forall i :: 0 <= i < t && i < |d| ==> !(Live(d, i) && d[i].name == filename)
    {
      if directory[t].Ends() {
        assert EndOf(d) == t;
        break;
      } else if !directory[t].Deleted() && directory[t].name == filename {
        return true, t;
      }
      t := t + 1;
    }
    return false, 0;
  }

  method DeleteFile(directory: array<Entry>, filename: string)
    modifies directory
    ensures !Named(old(directory[..]), filename) ==> directory[..] == old(directory[..])
    ensures Named(old(directory[..]), filename) ==>
              exists i :: 0 <= i < directory.Length && Live(old(directory[..]), i)
                          && old(directory[..])[i].name == filename && directory[..] == Delete(old(directory[..]), i)
  {
    var found, slot := FindFile(directory, filename);
    if found {
      directory[slot] := directory[slot].(name := directory[slot].name[0 := '\U{0001}']);
    }
  }

  // num_used_entries and first_free_entry, or None.
  method CountEntries(directory: array<Entry>) returns (used: nat, free: int)
    ensures free == if FirstFree(directory[..]) < directory.Length then FirstFree(directory[..]) else -1
    ensures free != -1 ==> used == Used(directory[..])
  {
    ghost var d := directory[..];
    used, free := 0, -1;
    var t := 0;
    while t < directory.Length
      invariant t <= directory.Length && t <= EndOf(d) && used == 0
      invariant if free == -1 then t <= FirstFree(d) else free == FirstFree(d) < t
    {
      if directory[t].Ends() {
        used := t;
        if free == -1 { free := t; }
        break;
      } else if directory[t].Deleted() {
        if free == -1 { free := t; }
      }
      t := t + 1;
    }
  }

  // The search over the sorted copy.
  method Search(sorted: seq<Entry>, requested: nat, blocks: nat) returns (start: nat)
    requires blocks > 0
    ensures start == Place(sorted, 0, 1, blocks, requested)
  {
    start := 0;
    var previous, t := 1, 0;
    while t < |sorted| + 1
      invariant t <= |sorted| + 1 && start == 0
      invariant Place(sorted, 0, 1, blocks, requested)
             == if t <= |sorted| then Place(sorted, t, previous, blocks, requested) else 0
    {
      var next: nat;
      if t == |sorted| || sorted[t].Deleted() {
        next := blocks - 1;
      } else {
        next := sorted[t].start;
      }
      if Minus(next, previous) >= requested {
        start := previous;
        return;
      }
      if t < |sorted| {
        previous := sorted[t].After();
      }
      t := t + 1;
    }
  }

  // sorted is what qsort makes of the used entries.
  method CreateFile(directory: array<Entry>, filename: string, maxsize: nat, blocks: nat, sorted: seq<Entry>)
    returns (outcome: Outcome)
    requires blocks > 0
    modifies directory
    ensures (directory[..], outcome) == Create(old(directory[..]), filename, (maxsize + 1) / 2, blocks, sorted)
  {
    var size := if maxsize % 2 != 0 then maxsize + 1 else maxsize;
    var found, _ := FindFile(directory, filename);
    if found { return Exists; }
    var used, free := CountEntries(directory);
    if free == -1 { return NoEntry; }
    var start := Search(sorted, size / 2, blocks);
    if start == 0 { return NoRoom; }
    directory[free] := Entry(filename, start, size / 2, 0);
    if free == used && used + 1 < directory.Length {
      directory[used + 1] := directory[used + 1].(name := "");
    }
    outcome := Created;
  }
}
