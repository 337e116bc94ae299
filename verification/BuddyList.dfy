// The circular doubly linked lists of free blocks, one per bucket, threaded
// through the headers in memory.  A header is found by its address: either the
// list head of a bucket or an offset from the start of the arena.  The lemmas say
// what the link writes of a push and of a removal do to the ring concerned, to the
// other rings and to the headers' tags; the class Arena makes the writes.
module BuddyList {
  import opened Sequences
  import opened BuddyState

  datatype Ref = Nil | Head(i: nat) | At(off: nat)

  datatype Header = Header(bucket: int, free: bool, prev: Ref, next: Ref)

  type Memory = map<Ref, Header>

  // The node after, and before, the k-th element of a ring.
  function Succ(h: Ref, xs: seq<nat>, k: int): Ref
    requires -1 <= k < |xs|
  {
    if k + 1 < |xs| then At(xs[k + 1]) else h
  }

  function Pred(h: Ref, xs: seq<nat>, k: int): Ref
    requires 0 <= k <= |xs|
  {
    if k == 0 then h else At(xs[k - 1])
  }

  // Starting at head h the next pointers visit exactly xs and come back; the
  // prev pointers do the same backwards.
  predicate Ring(m: Memory, h: Ref, xs: seq<nat>)
  {
    && h in m && m[h].next == Succ(h, xs, -1) && m[h].prev == Pred(h, xs, |xs|)
    && forall k {:trigger m[At(xs[k])]} {:trigger At(xs[k]) in m} :: 0 <= k < |xs| ==>
         At(xs[k]) in m && m[At(xs[k])].next == Succ(h, xs, k) && m[At(xs[k])].prev == Pred(h, xs, k)
  }

  ghost predicate Listed(lists: seq<seq<nat>>, x: nat)
  {
    exists b :: 0 <= b < |lists| && x in lists[b]
  }

  // Bucket numbers and free flags, and which addresses hold a header.
  ghost predicate SameTags(m: Memory, n: Memory)
  {
    m.Keys == n.Keys && forall r :: r in m ==> m[r].bucket == n[r].bucket && m[r].free == n[r].free
  }

  lemma RingFrame(m: Memory, n: Memory, h: Ref, xs: seq<nat>)
    requires Ring(m, h, xs)
    requires h in n && n[h].next == m[h].next && n[h].prev == m[h].prev
    requires forall k :: 0 <= k < |xs| ==>
               At(xs[k]) in n && n[At(xs[k])].next == m[At(xs[k])].next && n[At(xs[k])].prev == m[At(xs[k])].prev
    ensures Ring(n, h, xs)
  {
  }

  // The memory after the four writes of listPush.
  function Pushed(m: Memory, h: Ref, e: nat): Memory
    requires h in m && m[h].prev in m && At(e) in m
  {
    var last := m[h].prev;
    var m1 := m[At(e) := m[At(e)].(prev := last)];
    var m2 := m1[At(e) := m1[At(e)].(next := h)];
    var m3 := m2[last := m2[last].(next := At(e))];
    m3[h := m3[h].(prev := At(e))]
  }

  lemma PushedLinks(m: Memory, h: Ref, e: nat, r: Ref)
    requires h in m && m[h].prev in m && At(e) in m && r in m && h != At(e) && m[h].prev != At(e)
    ensures r in Pushed(m, h, e)
    ensures Pushed(m, h, e)[r].next == if r == m[h].prev then At(e) else if r == At(e) then h else m[r].next
    ensures Pushed(m, h, e)[r].prev == if r == h then At(e) else if r == At(e) then m[h].prev else m[r].prev
  {
  }

  lemma PushedTags(m: Memory, h: Ref, e: nat)
    requires h in m && m[h].prev in m && At(e) in m
    ensures SameTags(m, Pushed(m, h, e))
  {
  }

  lemma PushOwn(m: Memory, h: Ref, xs: seq<nat>, e: nat)
    requires h.Head? && Ring(m, h, xs) && Distinct(xs) && At(e) in m && e !in xs
    ensures h in m && m[h].prev in m && Ring(Pushed(m, h, e), h, xs + [e])
  {
    assert xs != [] ==> xs[|xs| - 1] in xs;
    var n, ys := Pushed(m, h, e), xs + [e];
    forall k | 0 <= k < |ys|
      ensures At(ys[k]) in n && n[At(ys[k])].next == Succ(h, ys, k) && n[At(ys[k])].prev == Pred(h, ys, k)
    {
      if k < |xs| {
        assert ys[k] == xs[k] && xs[k] in xs;
        assert k + 1 < |xs| ==> xs[k] != xs[|xs| - 1];
      }
      PushedLinks(m, h, e, At(ys[k]));
    }
    PushedLinks(m, h, e, h);
  }

  lemma PushOther(m: Memory, h: Ref, xs: seq<nat>, e: nat, g: Ref, zs: seq<nat>)
    requires h.Head? && g.Head? && h != g && Ring(m, h, xs) && Ring(m, g, zs)
    requires At(e) in m && e !in xs && e !in zs && forall x :: x in xs ==> x !in zs
    ensures m[h].prev in m && Ring(Pushed(m, h, e), g, zs)
  {
    hide Pushed;
    assert xs != [] ==> xs[|xs| - 1] in xs;
    assert m[h].prev != At(e);
    PushedLinks(m, h, e, g);
    forall k | 0 <= k < |zs|
      ensures At(zs[k]) in Pushed(m, h, e)
      ensures Pushed(m, h, e)[At(zs[k])].next == m[At(zs[k])].next
      ensures Pushed(m, h, e)[At(zs[k])].prev == m[At(zs[k])].prev
    {
      assert zs[k] in zs;
      PushedLinks(m, h, e, At(zs[k]));
    }
    RingFrame(m, Pushed(m, h, e), g, zs);
  }

  // The memory after the two writes of listRemove.
  function Removed(m: Memory, e: nat): Memory
    requires At(e) in m && m[At(e)].prev in m && m[At(e)].next in m
  {
    var prev, next := m[At(e)].prev, m[At(e)].next;
    var m1 := m[prev := m[prev].(next := next)];
    m1[next := m1[next].(prev := prev)]
  }

  lemma RemovedLinks(m: Memory, e: nat, r: Ref)
    requires At(e) in m && m[At(e)].prev in m && m[At(e)].next in m && r in m
    ensures r in Removed(m, e)
    ensures Removed(m, e)[r].next == if r == m[At(e)].prev then m[At(e)].next else m[r].next
    ensures Removed(m, e)[r].prev == if r == m[At(e)].next then m[At(e)].prev else m[r].prev
  {
  }

  lemma DropAt(xs: seq<nat>, k: nat, j: nat)
    requires k < |xs| && j < |xs| - 1
    ensures (xs[..k] + xs[k + 1..])[j] == xs[if j < k then j else j + 1]
  {
  }

  lemma RemovedTags(m: Memory, e: nat)
    requires At(e) in m && m[At(e)].prev in m && m[At(e)].next in m
    ensures SameTags(m, Removed(m, e))
  {
  }

  // Dropping element k makes its two neighbours neighbours of each other.
  lemma DropNeighbours(h: Ref, xs: seq<nat>, k: nat, j: nat)
    requires k < |xs| && j < |xs| - 1
    ensures var ys := xs[..k] + xs[k + 1..];
            var i := if j < k then j else j + 1;
            && ys[j] == xs[i]
            && Succ(h, ys, j) == (if i + 1 == k then Succ(h, xs, k) else Succ(h, xs, i))
            && Pred(h, ys, j) == (if i == k + 1 then Pred(h, xs, k) else Pred(h, xs, i))
  {
    DropAt(xs, k, j);
    if j + 1 < |xs| - 1 {
      DropAt(xs, k, j + 1);
    }
    if j > 0 {
      DropAt(xs, k, j - 1);
    }
  }

  lemma DropEnds(h: Ref, xs: seq<nat>, k: nat)
    requires k < |xs|
    ensures var ys := xs[..k] + xs[k + 1..];
            && Succ(h, ys, -1) == (if k == 0 then Succ(h, xs, 0) else Succ(h, xs, -1))
            && Pred(h, ys, |ys|) == (if k == |xs| - 1 then Pred(h, xs, k) else Pred(h, xs, |xs|))
  {
    if |xs| > 1 {
      DropAt(xs, k, 0);
      DropAt(xs, k, |xs| - 2);
    }
  }

  // One surviving element after a removal at k, and its new neighbours.
  lemma RemoveOwnAt(m: Memory, h: Ref, xs: seq<nat>, k: nat, i: nat)
    requires h.Head? && Ring(m, h, xs) && Distinct(xs) && k < |xs| && i < |xs| && i != k
    requires m[At(xs[k])].prev in m && m[At(xs[k])].next in m
    ensures var n := Removed(m, xs[k]);
            && At(xs[i]) in n
            && n[At(xs[i])].next == (if i + 1 == k then Succ(h, xs, k) else Succ(h, xs, i))
            && n[At(xs[i])].prev == (if i == k + 1 then Pred(h, xs, k) else Pred(h, xs, i))
  {
    RemovedLinks(m, xs[k], At(xs[i]));
    assert k > 0 ==> (xs[i] == xs[k - 1] <==> i == k - 1);
    assert k + 1 < |xs| ==> (xs[i] == xs[k + 1] <==> i == k + 1);
  }

  lemma RemoveHead(m: Memory, h: Ref, xs: seq<nat>, k: nat)
    requires h.Head? && Ring(m, h, xs) && k < |xs|
    requires m[At(xs[k])].prev in m && m[At(xs[k])].next in m
    ensures var n := Removed(m, xs[k]);
            && h in n
            && n[h].next == (if k == 0 then Succ(h, xs, 0) else Succ(h, xs, -1))
            && n[h].prev == (if k == |xs| - 1 then Pred(h, xs, k) else Pred(h, xs, |xs|))
  {
    RemovedLinks(m, xs[k], h);
  }

  lemma NeighboursIn(m: Memory, h: Ref, xs: seq<nat>, k: nat)
    requires Ring(m, h, xs) && k < |xs|
    ensures At(xs[k]) in m && m[At(xs[k])].prev in m && m[At(xs[k])].next in m
  {
  }

  lemma RemoveOwn(m: Memory, h: Ref, xs: seq<nat>, k: nat)
    requires h.Head? && Ring(m, h, xs) && Distinct(xs) && k < |xs|
    ensures At(xs[k]) in m && m[At(xs[k])].prev in m && m[At(xs[k])].next in m
    ensures Ring(Removed(m, xs[k]), h, xs[..k] + xs[k + 1..])
  {
    hide Removed, Succ, Pred, Distinct;
    NeighboursIn(m, h, xs, k);
    RemoveHead(m, h, xs, k);
    DropEnds(h, xs, k);
    var n, ys := Removed(m, xs[k]), xs[..k] + xs[k + 1..];
    forall j | 0 <= j < |ys|
      ensures At(ys[j]) in n && n[At(ys[j])].next == Succ(h, ys, j) && n[At(ys[j])].prev == Pred(h, ys, j)
    {
      DropNeighbours(h, xs, k, j);
      RemoveOwnAt(m, h, xs, k, if j < k then j else j + 1);
    }
  }

  lemma RemoveOther(m: Memory, h: Ref, xs: seq<nat>, k: nat, g: Ref, zs: seq<nat>)
    requires h.Head? && g.Head? && h != g && Ring(m, h, xs) && Ring(m, g, zs)
    requires k < |xs| && forall x :: x in xs ==> x !in zs
    ensures m[At(xs[k])].prev in m && m[At(xs[k])].next in m
    ensures Ring(Removed(m, xs[k]), g, zs)
  {
    assert k > 0 ==> xs[k - 1] in xs;
    assert k + 1 < |xs| ==> xs[k + 1] in xs;
    hide Removed;
    var n := Removed(m, xs[k]);
    RemovedLinks(m, xs[k], g);
    forall j | 0 <= j < |zs|
      ensures At(zs[j]) in n && n[At(zs[j])].next == m[At(zs[j])].next && n[At(zs[j])].prev == m[At(zs[j])].prev
    {
      assert zs[j] in zs;
      RemovedLinks(m, xs[k], At(zs[j]));
    }
    RingFrame(m, n, g, zs);
  }

  ghost predicate Rings(m: Memory, lists: seq<seq<nat>>)
  {
    && (forall b :: 0 <= b < |lists| ==> Distinct(lists[b]) && Ring(m, Head(b), lists[b]))
    && forall b, c, x :: 0 <= b < |lists| && 0 <= c < |lists| && x in lists[b] && x in lists[c] ==> b == c
  }

  lemma PushRings(m: Memory, lists: seq<seq<nat>>, b: nat, e: nat)
    requires Rings(m, lists) && b < |lists| && At(e) in m && !Listed(lists, e)
    ensures Head(b) in m && m[Head(b)].prev in m
    ensures Rings(Pushed(m, Head(b), e), lists[b := lists[b] + [e]])
    ensures SameTags(m, Pushed(m, Head(b), e))
  {
    assert Ring(m, Head(b), lists[b]);
    hide Ring, Pushed, SameTags;
    assert e !in lists[b];
    PushOwn(m, Head(b), lists[b], e);
    PushedTags(m, Head(b), e);
    forall c | 0 <= c < |lists| && c != b
      ensures Ring(Pushed(m, Head(b), e), Head(c), lists[c]) && e !in lists[c]
    {
      PushOther(m, Head(b), lists[b], e, Head(c), lists[c]);
    }
  }

  lemma RemoveRings(m: Memory, lists: seq<seq<nat>>, b: nat, k: nat)
    requires Rings(m, lists) && b < |lists| && k < |lists[b]|
    ensures var e := lists[b][k];
            && At(e) in m && m[At(e)].prev in m && m[At(e)].next in m
            && Rings(Removed(m, e), lists[b := Without(lists[b], e)])
            && SameTags(m, Removed(m, e))
  {
    hide Ring, Removed, Without, SameTags;
    var xs := lists[b];
    RemoveOwn(m, Head(b), xs, k);
    RemovedTags(m, xs[k]);
    WithoutAt(xs, k);
    WithoutMembers(xs, xs[k]);
    forall c | 0 <= c < |lists| && c != b
      ensures Ring(Removed(m, xs[k]), Head(c), lists[c])
    {
      RemoveOther(m, Head(b), xs, k, Head(c), lists[c]);
    }
  }

  // Headers at places that no list holds; what is read there may change.
  ghost predicate Unlisted(lists: seq<seq<nat>>, junk: Memory)
  {
    forall r :: r in junk ==> r.At? && !Listed(lists, r.off)
  }

  lemma OverwriteRing(m: Memory, h: Ref, xs: seq<nat>, junk: Memory)
    requires h.Head? && Ring(m, h, xs) && forall r :: r in junk ==> r.At? && r.off !in xs
    ensures Ring(m + junk, h, xs)
  {
    forall k | 0 <= k < |xs| ensures At(xs[k]) !in junk {
      assert xs[k] in xs;
    }
    RingFrame(m, m + junk, h, xs);
  }

  lemma OverwriteRings(m: Memory, lists: seq<seq<nat>>, junk: Memory)
    requires Rings(m, lists) && Unlisted(lists, junk)
    ensures Rings(m + junk, lists)
  {
    hide Ring, Distinct;
    forall b | 0 <= b < |lists|
      ensures Ring(m + junk, Head(b), lists[b])
    {
      OverwriteRing(m, Head(b), lists[b], junk);
    }
  }

  // Rewriting bucket and free flag of a header, wherever it is.
  lemma SameLinksRings(m: Memory, n: Memory, lists: seq<seq<nat>>, r: Ref)
    requires Rings(m, lists)
    requires forall q :: q in m && q != r ==> q in n && n[q] == m[q]
    requires r in m ==> r in n && n[r].prev == m[r].prev && n[r].next == m[r].next
    ensures Rings(n, lists)
  {
    forall b | 0 <= b < |lists|
      ensures Ring(n, Head(b), lists[b])
    {
      RingFrame(m, n, Head(b), lists[b]);
    }
  }

  lemma InitializeRings(m: Memory, lists: seq<seq<nat>>, head: Header)
    requires Rings(m, lists) && head.prev == Head(|lists|) && head.next == Head(|lists|)
    ensures Rings(m[Head(|lists|) := head], lists + [[]])
  {
    var n := m[Head(|lists|) := head];
    assert Ring(n, Head(|lists|), []);
    forall b | 0 <= b < |lists|
      ensures Ring(n, Head(b), lists[b])
    {
      RingFrame(m, n, Head(b), lists[b]);
    }
    hide Ring;
  }

  class Arena {
    var mem: Memory
    ghost var lists: seq<seq<nat>>

    ghost predicate Valid()
      reads this
    {
      Rings(mem, lists)
    }

    constructor (mem: Memory)
      ensures this.mem == mem && lists == [] && Valid()
    {
      this.mem := mem;
      lists := [];
    }

    // node->bucket = bucket; node->free = free.  The links of a header never
    // written before are whatever was in memory.
    method SetTag(r: Ref, bucket: int, free: bool)
      requires Valid()
      modifies this`mem
      ensures Valid() && mem.Keys == old(mem).Keys + {r}
      ensures mem[r].bucket == bucket && mem[r].free == free
      ensures forall q :: q in old(mem) && q != r ==> mem[q] == old(mem)[q]
    {
      hide Rings;
      var links := if r in mem then mem[r] else Header(bucket, free, Nil, Nil);
      mem := mem[r := links.(bucket := bucket, free := free)];
      SameLinksRings(old(mem), mem, lists, r);
    }

    // A write to memory that belongs to no list.
    method Overwrite(junk: Memory)
      requires Valid() && Unlisted(lists, junk)
      modifies this`mem
      ensures Valid() && mem == old(mem) + junk
    {
      hide Rings;
      OverwriteRings(mem, lists, junk);
      mem := mem + junk;
    }

    // listInitialize on the head of the next bucket.
    method Initialize(b: nat)
      requires Valid() && b == |lists|
      modifies this
      ensures Valid() && lists == old(lists) + [[]]
      ensures mem.Keys == old(mem).Keys + {Head(b)}
      ensures forall q :: q in old(mem) && q != Head(b) ==> mem[q] == old(mem)[q]
    {
      hide Rings;
      var tag := if Head(b) in mem then mem[Head(b)] else Header(0, false, Nil, Nil);
      mem := mem[Head(b) := tag.(prev := Head(b), next := Head(b))];
      lists := lists + [[]];
      InitializeRings(old(mem), old(lists), mem[Head(b)]);
    }

    // listPush: the entry becomes the last of the list.
    method Push(b: nat, e: nat)
      requires Valid() && b < |lists| && At(e) in mem && !Listed(lists, e)
      modifies this
      ensures Valid() && lists == old(lists)[b := old(lists)[b] + [e]]
      ensures SameTags(old(mem), mem)
    {
      PushRings(mem, lists, b, e);
      hide Rings, Listed, SameTags;
      var list, entry := Head(b), At(e);
      var prev := mem[list].prev;
      mem := mem[entry := mem[entry].(prev := prev)];
      mem := mem[entry := mem[entry].(next := list)];
      mem := mem[prev := mem[prev].(next := entry)];
      mem := mem[list := mem[list].(prev := entry)];
      assert mem == Pushed(old(mem), Head(b), e);
      lists := lists[b := lists[b] + [e]];
    }

    // listRemove: prev and next of the entry are linked to each other.
    method Remove(e: nat, ghost b: nat)
      requires Valid() && b < |lists| && e in lists[b]
      modifies this
      ensures Valid() && lists == old(lists)[b := Without(old(lists)[b], e)]
      ensures SameTags(old(mem), mem)
    {
      ghost var k :| 0 <= k < |lists[b]| && lists[b][k] == e;
      RemoveRings(mem, lists, b, k);
      hide Rings, Without, SameTags;
      var prev := mem[At(e)].prev;
      var next := mem[At(e)].next;
      mem := mem[prev := mem[prev].(next := next)];
      mem := mem[next := mem[next].(prev := prev)];
      assert mem == Removed(old(mem), e);
      lists := lists[b := Without(lists[b], e)];
    }

    // listPop: the last of the list, removed; NULL when there is none.
    method Pop(b: nat) returns (r: Ref)
      requires Valid() && b < |lists|
      modifies this
      ensures Valid() && SameTags(old(mem), mem)
      ensures old(lists)[b] == [] ==> r == Nil && lists == old(lists)
      ensures var xs := old(lists)[b];
              xs != [] ==> r == At(xs[|xs| - 1]) && lists == old(lists)[b := xs[..|xs| - 1]]
    {
      var back := mem[Head(b)].prev;
      if back == Head(b) {
        return Nil;
      }
      ghost var n := |lists[b]| - 1;
      WithoutAt(lists[b], n);
      assert lists[b][..n] + lists[b][n + 1..] == lists[b][..n];
      assert lists[b][n] in lists[b];
      Remove(back.off, b);
      return back;
    }

    // listIsEmpty
    method IsEmpty(b: nat) returns (r: bool)
      requires Valid() && b < |lists|
      ensures r <==> lists[b] == []
    {
      r := mem[Head(b)].prev == Head(b);
    }
  }
}
