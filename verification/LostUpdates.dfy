// When updates can be lost: exactly if two processes with work, not both of them
// under the semaphore, share the variable and one of them changes it.
module LostUpdates {
  import opened Semaphore
  import opened SemaphoreTest

  ghost predicate AtStart(s: System)
  {
    s.sem.None? && forall p :: 0 <= p < |s.workers| ==> s.workers[p].phase.Start? && s.workers[p].i == 0
  }

  ghost predicate Finished(s: System)
  {
    forall p :: 0 <= p < |s.workers| ==> s.workers[p].phase.Done? || s.workers[p].phase.Refused?
  }

  // Some run lets everybody finish with the wrong sum.
  ghost predicate Loses(s: System)
  {
    exists moves, r :: Run(s, moves, r) && Finished(r) && r.global != s.global + Expected(r.workers)
  }

  predicate Races(v: Worker, w: Worker)
  {
    !(v.guarded && w.guarded) && v.n > 0 && w.n > 0 && (v.value != 0 || w.value != 0)
  }

  ghost predicate Racy(s: System)
  {
    exists p, q :: 0 <= p < |s.workers| && 0 <= q < |s.workers| && p != q && Races(s.workers[p], s.workers[q])
  }

  // ----- no race: nobody changes the variable -----

  ghost predicate Idle(s: System, start: int, p: nat)
    requires p < |s.workers|
  {
    var w := s.workers[p];
    && (w.n == 0 || w.value == 0) && (Inside(w) || w.phase.Asleep? ==> w.n > 0)
    && (w.phase.Between? ==> w.aux == start)
  }

  ghost predicate IdleInv(s: System, start: int)
  {
    && s.global == start && (forall p :: 0 <= p < |s.workers| ==> Idle(s, start, p))
    && (s.sem.Some? ==> forall x :: x in s.sem.value.waiting ==> x < |s.workers| && s.workers[x].n > 0)
  }

  lemma IdleWaitersExist(s: System, start: int)
    requires IdleInv(s, start)
    ensures WaitersExist(s)
  {
    if s.sem.Some? {
      assert forall i :: 0 <= i < |s.sem.value.waiting| ==> s.sem.value.waiting[i] in s.sem.value.waiting;
    }
  }

  lemma IdleWorker(s: System, p: nat, room: bool, start: int, q: nat)
    requires IdleInv(s, start) && Enabled(s, p) && WaitersExist(s) && q < |s.workers|
    ensures q < |Step(s, p, room).workers| && Idle(Step(s, p, room), start, q)
  {
    assert Idle(s, start, q) && Idle(s, start, p);
  }

  lemma IdleRest(s: System, p: nat, room: bool, start: int)
    requires IdleInv(s, start) && Enabled(s, p) && WaitersExist(s)
    ensures var r := Step(s, p, room);
            && r.global == start && |r.workers| == |s.workers|
            && (r.sem.Some? ==> forall x :: x in r.sem.value.waiting ==> x < |r.workers| && r.workers[x].n > 0)
  {
    assert Idle(s, start, p);
  }

  lemma IdleStep(s: System, p: nat, room: bool, start: int)
    requires IdleInv(s, start) && Enabled(s, p)
    ensures WaitersExist(s) && IdleInv(Step(s, p, room), start)
  {
    IdleWaitersExist(s, start);
    IdleRest(s, p, room, start);
    var r := Step(s, p, room);
    forall q | 0 <= q < |r.workers|
      ensures Idle(r, start, q)
    {
      IdleWorker(s, p, room, start, q);
    }
    hide Step, Idle;
  }

  lemma {:induction false} IdleRun(s: System, moves: seq<Move>, r: System, start: int)
    requires IdleInv(s, start) && Run(s, moves, r)
    ensures IdleInv(r, start)
    decreases |moves|
  {
    if moves != [] {
      IdleStep(s, moves[0].p, moves[0].room, start);
      IdleRun(Step(s, moves[0].p, moves[0].room), moves[1..], r, start);
    }
  }

  lemma {:induction false} NothingExpected(ws: seq<Worker>)
    requires forall p :: 0 <= p < |ws| ==> ws[p].n == 0 || ws[p].value == 0
    ensures Expected(ws) == 0
  {
    if ws != [] {
      NothingExpected(ws[1..]);
      assert ws[0].value * ws[0].n == 0;
    }
  }

  // ----- no race: one process alone has work -----

  // The one with work, which does not use the semaphore.
  predicate SoleWorker(w: Worker, global: int, start: int)
  {
    && !w.guarded && !w.phase.Asleep? && !w.phase.Refused? && w.i <= w.n && (Inside(w) ==> w.i < w.n)
    && (w.phase.Start? ==> w.i == 0) && (w.phase.Done? ==> w.i == w.n)
    && global == start + Share(w) && (w.phase.Between? ==> w.aux == global + w.value)
  }

  ghost predicate OthersIdle(s: System, u: nat)
  {
    && (s.sem.Some? ==> s.sem.value.waiting == [] && s.sem.value.value > 0)
    && (forall q :: 0 <= q < |s.workers| && q != u ==>
          s.workers[q].n == 0 && !Inside(s.workers[q]) && !s.workers[q].phase.Asleep?)
  }

  ghost predicate SoleInv(s: System, u: nat, start: int)
  {
    u < |s.workers| && OthersIdle(s, u) && SoleWorker(s.workers[u], s.global, start)
  }

  // Its own steps leave the semaphore and the others alone.
  lemma SoleStep(s: System, u: nat, room: bool, start: int)
    requires SoleInv(s, u, start) && Enabled(s, u) && WaitersExist(s)
    ensures SoleInv(Step(s, u, room), u, start)
  {
    var w, r := s.workers[u], Step(s, u, room);
    assert r.sem == s.sem && r.workers == s.workers[u := r.workers[u]];
    SoleAfter(w, s.global, start);
    hide SoleWorker, Share;
  }

  // What such a step makes of the process and the variable.
  lemma SoleAfter(w: Worker, global: int, start: int)
    requires SoleWorker(w, global, start)
    ensures w.phase.Start? ==> SoleWorker(w.(phase := Head), global, start)
    ensures w.phase.Head? ==> SoleWorker(w.(phase := if w.i < w.n then Before else Done), global, start)
    ensures w.phase.Before? ==> SoleWorker(w.(aux := global + w.value, phase := Between), global, start)
    ensures w.phase.Between? ==> SoleWorker(w.(phase := Behind), w.aux, start)
    ensures w.phase.Behind? ==> SoleWorker(w.(phase := Head, i := w.i + 1), global, start)
  {
    Distribute(w.value, w.i);
  }

  // The others only come and go.
  lemma OtherStep(s: System, u: nat, p: nat, room: bool, start: int)
    requires SoleInv(s, u, start) && Enabled(s, p) && WaitersExist(s) && p != u
    ensures SoleInv(Step(s, p, room), u, start)
  {
    var r := Step(s, p, room);
    assert r.global == s.global && r.workers == s.workers[p := r.workers[p]];
    hide SoleWorker;
  }

  lemma SoleKeeps(s: System, u: nat, p: nat, room: bool, start: int)
    requires SoleInv(s, u, start) && Enabled(s, p)
    ensures WaitersExist(s) && SoleInv(Step(s, p, room), u, start)
  {
    assert WaitersExist(s);
    hide SoleInv, Step;
    if p == u {
      SoleStep(s, u, room, start);
    } else {
      OtherStep(s, u, p, room, start);
    }
  }

  lemma {:induction false} SoleRun(s: System, moves: seq<Move>, r: System, u: nat, start: int)
    requires SoleInv(s, u, start) && Run(s, moves, r)
    ensures SoleInv(r, u, start)
    decreases |moves|
  {
    if moves != [] {
      SoleKeeps(s, u, moves[0].p, moves[0].room, start);
      SoleRun(Step(s, moves[0].p, moves[0].room), moves[1..], r, u, start);
    }
  }

  lemma {:induction false} SoleExpected(ws: seq<Worker>, u: nat)
    requires u < |ws| && !ws[u].phase.Refused? && forall q :: 0 <= q < |ws| && q != u ==> ws[q].n == 0
    ensures Expected(ws) == ws[u].value * ws[u].n
  {
    if u == 0 {
      NothingExpected(ws[1..]);
    } else {
      SoleExpected(ws[1..], u - 1);
      assert ws[0].value * ws[0].n == 0;
    }
  }

  // ----- without a race no run goes wrong -----

  lemma NoRaceNoLoss(s: System, moves: seq<Move>, r: System)
    requires AtStart(s) && !Racy(s) && Run(s, moves, r) && Finished(r)
    ensures r.global == s.global + Expected(r.workers)
  {
    if Fresh(s) {
      NoLostUpdates(s, moves, r);
    } else {
      var u :| 0 <= u < |s.workers| && !s.workers[u].guarded && s.workers[u].n > 0;
      forall q | 0 <= q < |s.workers| && q != u
        ensures s.workers[q].n == 0 || (s.workers[q].value == 0 && s.workers[u].value == 0)
      {
        assert !Races(s.workers[u], s.workers[q]);
      }
      if s.workers[u].value == 0 {
        IdleRun(s, moves, r, s.global);
        forall p | 0 <= p < |r.workers|
          ensures r.workers[p].n == 0 || r.workers[p].value == 0
        {
          assert Idle(r, s.global, p);
        }
        NothingExpected(r.workers);
      } else {
        SoleRun(s, moves, r, u, s.global);
        SoleExpected(r.workers, u);
      }
    }
  }

  // ----- pieces of a run -----

  lemma {:induction false} RunJoins(s: System, m: seq<Move>, t: System, n: seq<Move>, r: System)
    requires Run(s, m, t) && Run(t, n, r)
    ensures Run(s, m + n, r)
    decreases |m|
  {
    if m == [] {
      assert m + n == n;
    } else {
      RunJoins(Step(s, m[0].p, m[0].room), m[1..], t, n, r);
      assert (m + n)[1..] == m[1..] + n;
    }
  }

  lemma OneStep(s: System, p: nat)
    requires Enabled(s, p) && WaitersExist(s)
    ensures Run(s, [Move(p, true)], Step(s, p, true))
  {
    assert [Move(p, true)][1..] == [];
  }

  lemma TwoSteps(s: System, p: nat)
    requires Enabled(s, p) && WaitersExist(s)
    requires Enabled(Step(s, p, true), p) && WaitersExist(Step(s, p, true))
    ensures Run(s, [Move(p, true), Move(p, true)], Step(Step(s, p, true), p, true))
  {
    hide Step;
    var t := Step(s, p, true);
    OneStep(s, p);
    OneStep(t, p);
    RunJoins(s, [Move(p, true)], t, [Move(p, true)], Step(t, p, true));
    assert [Move(p, true)] + [Move(p, true)] == [Move(p, true), Move(p, true)];
  }

  // Nobody waits on the semaphore, and its token is there; or it is taken.
  predicate TokenIn(sem: Option<Sem>)
  {
    sem.Some? ==> sem.value.waiting == [] && sem.value.value == 1
  }

  predicate TokenOut(sem: Option<Sem>)
  {
    sem.Some? ==> sem.value.waiting == [] && sem.value.value == 0
  }

  predicate NobodyWaits(sem: Option<Sem>)
  {
    sem.Some? ==> sem.value.waiting == []
  }

  function WithToken(sem: Option<Sem>, value: nat): Option<Sem>
  {
    if sem.None? then None else Some(sem.value.(value := value))
  }

  // From the head of the loop to between reading and writing.
  lemma Enter(s: System, p: nat) returns (moves: seq<Move>, r: System)
    requires p < |s.workers| && s.workers[p].phase.Head? && s.workers[p].i < s.workers[p].n
    requires NobodyWaits(s.sem) && (s.workers[p].guarded ==> TokenIn(s.sem))
    ensures Run(s, moves, r) && r.global == s.global
    ensures r.workers == s.workers[p := s.workers[p].(aux := s.global + s.workers[p].value, phase := Between)]
    ensures r.sem == if s.workers[p].guarded then WithToken(s.sem, 0) else s.sem
  {
    TwoSteps(s, p);
    moves, r := [Move(p, true), Move(p, true)], Step(Step(s, p, true), p, true);
  }

  // From there, writing, back to the head of the loop.
  lemma Exit(s: System, p: nat) returns (moves: seq<Move>, r: System)
    requires p < |s.workers| && s.workers[p].phase.Between?
    requires NobodyWaits(s.sem) && (s.workers[p].guarded ==> TokenOut(s.sem))
    ensures Run(s, moves, r) && r.global == s.workers[p].aux
    ensures r.workers == s.workers[p := s.workers[p].(i := s.workers[p].i + 1, phase := Head)]
    ensures r.sem == if s.workers[p].guarded then WithToken(s.sem, 1) else s.sem
  {
    TwoSteps(s, p);
    moves, r := [Move(p, true), Move(p, true)], Step(Step(s, p, true), p, true);
  }

  // The semaphore after one listener more or less.
  function Opened(sem: Option<Sem>): Option<Sem>
  {
    var o := if sem.None? then Created(1) else sem.value;
    Some(o.(listening := o.listening + 1))
  }

  function Closed(sem: Option<Sem>): Option<Sem>
  {
    if sem.None? || sem.value.listening <= 1 then None
    else Some(sem.value.(listening := sem.value.listening - 1))
  }

  lemma Begin(s: System, p: nat) returns (moves: seq<Move>, r: System)
    requires p < |s.workers| && s.workers[p].phase.Start? && NobodyWaits(s.sem)
    requires s.sem.Some? ==> s.sem.value.listening < MAX_BLOCKED_PROCESSES
    ensures Run(s, moves, r) && r.global == s.global && r.workers == s.workers[p := s.workers[p].(phase := Head)]
    ensures r.sem == if s.workers[p].guarded then Opened(s.sem) else s.sem
  {
    OneStep(s, p);
    moves, r := [Move(p, true)], Step(s, p, true);
  }

  // p has finished, and otherwise r is like s.
  predicate Ended(s: System, r: System, p: nat)
    requires p < |s.workers|
  {
    && |r.workers| == |s.workers| && r.workers == s.workers[p := r.workers[p]]
    && r.workers[p].phase.Done? && r.workers[p].value == s.workers[p].value && r.workers[p].n == s.workers[p].n
  }

  // Undisturbed to the end.
  lemma {:induction false} RunAlone(s: System, p: nat) returns (moves: seq<Move>, r: System)
    requires p < |s.workers| && s.workers[p].phase.Head? && s.workers[p].i <= s.workers[p].n
    requires NobodyWaits(s.sem) && (s.workers[p].guarded ==> TokenIn(s.sem))
    ensures Run(s, moves, r) && Ended(s, r, p)
    ensures r.global == s.global + s.workers[p].value * (s.workers[p].n - s.workers[p].i)
    ensures r.sem == if s.workers[p].guarded then Closed(s.sem) else s.sem
    decreases s.workers[p].n - s.workers[p].i
  {
    var w := s.workers[p];
    if w.i == w.n {
      OneStep(s, p);
      moves, r := [Move(p, true)], Step(s, p, true);
    } else {
      hide Run;
      var m1, t := Enter(s, p);
      var m2, t2 := Exit(t, p);
      assert t2.sem == s.sem;
      var m3, t3 := RunAlone(t2, p);
      RunJoins(s, m1, t, m2, t2);
      RunJoins(s, m1 + m2, t2, m3, t3);
      moves, r := m1 + m2 + m3, t3;
      OneRoundLess(w.value, w.n, w.i);
    }
  }

  lemma OneRoundLess(v: int, n: nat, i: nat)
    ensures v + v * (n - (i + 1)) == v * (n - i)
  {
  }

  // From the start, undisturbed to the end.
  lemma RunWhole(s: System, p: nat) returns (moves: seq<Move>, r: System)
    requires p < |s.workers| && s.workers[p].phase.Start? && s.workers[p].i == 0 && s.sem.None?
    ensures Run(s, moves, r) && Ended(s, r, p) && r.sem.None?
    ensures r.global == s.global + s.workers[p].value * s.workers[p].n
  {
    var m1, t := Begin(s, p);
    var m2, t2 := RunAlone(t, p);
    RunJoins(s, m1, t, m2, t2);
    moves, r := m1 + m2, t2;
  }

  // What those that have not started are going to add.
  function Owed(ws: seq<Worker>): int
  {
    if ws == [] then 0 else (if ws[0].phase.Start? then ws[0].value * ws[0].n else 0) + Owed(ws[1..])
  }

  lemma {:induction false} OwedUpdate(ws: seq<Worker>, p: nat, w: Worker)
    requires p < |ws| && !w.phase.Start?
    ensures Owed(ws[p := w]) == Owed(ws) - (if ws[p].phase.Start? then ws[p].value * ws[p].n else 0)
  {
    if p > 0 {
      OwedUpdate(ws[1..], p - 1, w);
      assert ws[p := w][1..] == ws[1..][p - 1 := w];
    } else {
      assert ws[p := w][1..] == ws[1..];
    }
  }

  lemma {:induction false} NothingOwed(ws: seq<Worker>)
    requires forall p :: 0 <= p < |ws| ==> !ws[p].phase.Start?
    ensures Owed(ws) == 0
  {
    if ws != [] {
      NothingOwed(ws[1..]);
    }
  }

  predicate SameWork(ws: seq<Worker>, rs: seq<Worker>)
  {
    |ws| == |rs| && forall p :: 0 <= p < |ws| ==> ws[p].value == rs[p].value && ws[p].n == rs[p].n
  }

  lemma {:induction false} AllOwed(ws: seq<Worker>, rs: seq<Worker>)
    requires SameWork(ws, rs) && forall p :: 0 <= p < |ws| ==> ws[p].phase.Start? && rs[p].phase.Done?
    ensures Owed(ws) == Expected(rs)
  {
    if ws != [] {
      AllOwed(ws[1..], rs[1..]);
    }
  }

  // The rest, one after the other.
  lemma {:induction false} RunRest(s: System, k: nat) returns (moves: seq<Move>, r: System)
    requires s.sem.None? && k <= |s.workers|
    requires forall p :: 0 <= p < |s.workers| ==>
               s.workers[p].phase.Done? || (k <= p && s.workers[p].phase.Start? && s.workers[p].i == 0)
    ensures Run(s, moves, r) && SameWork(s.workers, r.workers) && r.global == s.global + Owed(s.workers)
    ensures forall p :: 0 <= p < |r.workers| ==> r.workers[p].phase.Done?
    decreases |s.workers| - k
  {
    if k == |s.workers| {
      moves, r := [], s;
      NothingOwed(s.workers);
    } else if s.workers[k].phase.Done? {
      moves, r := RunRest(s, k + 1);
    } else {
      hide Run, Owed;
      var m1, t := RunWhole(s, k);
      OwedUpdate(s.workers, k, t.workers[k]);
      var m2, t2 := RunRest(t, k + 1);
      RunJoins(s, m1, t, m2, t2);
      moves, r := m1 + m2, t2;
    }
  }

  // ----- the losing run -----

  // a and b have done one round each, with the effect of a's only.
  ghost predicate Overlapped(s: System, r: System, a: nat, b: nat)
    requires a < |s.workers| && b < |s.workers| && a != b
  {
    && |r.workers| == |s.workers| && r.global == s.global + s.workers[a].value
    && (forall p :: 0 <= p < |s.workers| && p != a && p != b ==> r.workers[p] == s.workers[p])
    && r.workers[a].phase.Head? && r.workers[b].phase.Head? && r.workers[a].i == 1 == r.workers[b].i
    && r.workers[a].guarded == s.workers[a].guarded && r.workers[b].guarded == s.workers[b].guarded
    && SameWork(s.workers, r.workers)
    && r.sem == if s.workers[a].guarded || s.workers[b].guarded then Opened(None) else None
  }

  // a is suspended between reading and writing while b does a whole round.
  lemma Overlap(s: System, a: nat, b: nat) returns (moves: seq<Move>, r: System)
    requires AtStart(s) && a < |s.workers| && b < |s.workers| && a != b
    requires !(s.workers[a].guarded && s.workers[b].guarded) && s.workers[a].n > 0 && s.workers[b].n > 0
    ensures Run(s, moves, r) && Overlapped(s, r, a, b)
  {
    hide Run;
    var m1, s1 := Begin(s, a);
    var m2, s2 := Enter(s1, a);
    var m3, s3 := Begin(s2, b);
    var m4, s4 := Enter(s3, b);
    var m5, s5 := Exit(s4, b);
    var m6, s6 := Exit(s5, a);
    RunJoins(s, m1, s1, m2, s2);
    RunJoins(s, m1 + m2, s2, m3, s3);
    RunJoins(s, m1 + m2 + m3, s3, m4, s4);
    RunJoins(s, m1 + m2 + m3 + m4, s4, m5, s5);
    RunJoins(s, m1 + m2 + m3 + m4 + m5, s5, m6, s6);
    moves, r := m1 + m2 + m3 + m4 + m5 + m6, s6;
  }

  lemma RaceLoses(s: System, a: nat, b: nat)
    requires AtStart(s) && a < |s.workers| && b < |s.workers| && a != b
    requires Races(s.workers[a], s.workers[b]) && s.workers[b].value != 0
    ensures Loses(s)
  {
    hide Run, Owed, Expected;
    var m1, s1 := Overlap(s, a, b);
    var m2, s2 := RunAlone(s1, a);
    var m3, s3 := RunAlone(s2, b);
    var m4, r := RunRest(s3, 0);
    RunJoins(s, m1, s1, m2, s2);
    RunJoins(s, m1 + m2, s2, m3, s3);
    RunJoins(s, m1 + m2 + m3, s3, m4, r);
    OwedUpdate(s.workers, a, s3.workers[a]);
    OwedUpdate(s.workers[a := s3.workers[a]], b, s3.workers[b]);
    assert s3.workers == s.workers[a := s3.workers[a]][b := s3.workers[b]];
    AllOwed(s.workers, r.workers);
    OneRoundLess(s.workers[a].value, s.workers[a].n, 0);
    OneRoundLess(s.workers[b].value, s.workers[b].n, 0);
    assert r.global == s.global + Expected(r.workers) - s.workers[b].value;
    assert Finished(r);
  }

  // When all start together, some run loses an update if and only if two processes
  // race: not both use the semaphore, both have work, and not both add zero.
  lemma LosesIffRacy(s: System)
    requires AtStart(s)
    ensures Loses(s) <==> Racy(s)
  {
    if Racy(s) {
      var p, q :| 0 <= p < |s.workers| && 0 <= q < |s.workers| && p != q && Races(s.workers[p], s.workers[q]);
      if s.workers[q].value != 0 {
        RaceLoses(s, p, q);
      } else {
        RaceLoses(s, q, p);
      }
    } else {
      forall moves, r | Run(s, moves, r) && Finished(r)
        ensures r.global == s.global + Expected(r.workers)
      {
        NoRaceNoLoss(s, moves, r);
      }
    }
  }

  // testSync and testNoSync: two pairs that add 1 and -1, ten thousand times each.
  function Pairs(guarded: bool): System
  {
    var up, down := Worker(guarded, 1, 10000, 0, 0, Start), Worker(guarded, -1, 10000, 0, 0, Start);
    System(0, None, [up, down, up, down])
  }

  lemma PairsLose(guarded: bool)
    ensures Loses(Pairs(guarded)) <==> !guarded
  {
    var s := Pairs(guarded);
    assert Races(s.workers[0], s.workers[1]) <==> !guarded;
    assert forall p :: 0 <= p < |s.workers| ==> s.workers[p].guarded == guarded;
    LosesIffRacy(s);
  }
}
