// Every run of the processes that share a variable comes to an end.
module RunsEnd {
  import opened Sequences
  import opened Semaphore
  import opened SemaphoreTest
  import opened LostUpdates

  // ----- a measure -----

  // Five steps a round at most, and what the place in the round leaves of them.
  function Left(w: Worker): int
  {
    5 * (w.n - w.i) + match w.phase
                      case Start => 2
                      case Head => 1
                      case Asleep => 0
                      case Before => -1
                      case Between => -2
                      case Behind => -3
                      case Done => -5 * (w.n - w.i)
                      case Refused => -5 * (w.n - w.i)
  }

  function AllLeft(ws: seq<Worker>): int
  {
    if ws == [] then 0 else Left(ws[0]) + AllLeft(ws[1..])
  }

  lemma {:induction false} LeftUpdate(ws: seq<Worker>, p: nat, w: Worker)
    requires p < |ws|
    ensures AllLeft(ws[p := w]) == AllLeft(ws) - Left(ws[p]) + Left(w)
  {
    if p > 0 {
      LeftUpdate(ws[1..], p - 1, w);
      assert ws[p := w][1..] == ws[1..][p - 1 := w];
    } else {
      assert ws[p := w][1..] == ws[1..];
    }
  }

  predicate InBounds(w: Worker)
  {
    w.i <= w.n && (Inside(w) || w.phase.Asleep? ==> w.i < w.n)
  }

  lemma {:induction false} LeftPositive(ws: seq<Worker>)
    requires forall p :: 0 <= p < |ws| ==> InBounds(ws[p])
    ensures AllLeft(ws) >= 0
  {
    if ws != [] {
      assert InBounds(ws[0]);
      LeftPositive(ws[1..]);
    }
  }

  // Whoever is in the array of waiters sleeps, and is there once.
  ghost predicate Sleepers(s: System)
  {
    s.sem.Some? ==>
      && Distinct(s.sem.value.waiting)
      && forall x :: x in s.sem.value.waiting ==> x < |s.workers| && s.workers[x].phase.Asleep?
  }

  ghost predicate Sound(s: System)
  {
    Sleepers(s) && forall p :: 0 <= p < |s.workers| ==> InBounds(s.workers[p])
  }

  lemma SoundWaitersExist(s: System)
    requires Sound(s)
    ensures WaitersExist(s)
  {
    if s.sem.Some? {
      assert forall i :: 0 <= i < |s.sem.value.waiting| ==> s.sem.value.waiting[i] in s.sem.value.waiting;
    }
  }

  // ----- every step costs something -----

  // A step in which nobody is woken.
  lemma OwnStep(s: System, p: nat, room: bool)
    requires Sound(s) && Enabled(s, p) && WaitersExist(s)
    requires !(s.workers[p].phase.Behind? && s.workers[p].guarded && s.sem.Some? && PostWakes(s.sem.value))
    ensures Sound(Step(s, p, room)) && AllLeft(Step(s, p, room).workers) < AllLeft(s.workers)
  {
    var r := Step(s, p, room);
    assert r.workers == s.workers[p := r.workers[p]];
    LeftUpdate(s.workers, p, r.workers[p]);
    hide AllLeft;
    OwnStepSleepers(s, p, room);
  }

  lemma OwnStepSleepers(s: System, p: nat, room: bool)
    requires Sound(s) && Enabled(s, p) && WaitersExist(s)
    requires !(s.workers[p].phase.Behind? && s.workers[p].guarded && s.sem.Some? && PostWakes(s.sem.value))
    ensures Sleepers(Step(s, p, room))
  {
  }

  // A post that wakes takes a step off the one and brings the other further too.
  lemma WakingStep(s: System, p: nat, room: bool)
    requires Sound(s) && Enabled(s, p) && WaitersExist(s)
    requires s.workers[p].phase.Behind? && s.workers[p].guarded && s.sem.Some? && PostWakes(s.sem.value)
    ensures Sound(Step(s, p, room)) && AllLeft(Step(s, p, room).workers) < AllLeft(s.workers)
  {
    var q := s.sem.value.waiting[0];
    assert q in s.sem.value.waiting;
    var w, v := s.workers[p].(phase := Head, i := s.workers[p].i + 1), s.workers[q].(phase := Before);
    LeftUpdate(s.workers, p, w);
    LeftUpdate(s.workers[p := w], q, v);
    LeaveWaiters(s.sem.value);
    hide AllLeft;
    assert Step(s, p, room).workers == s.workers[p := w][q := v];
  }

  lemma StepCosts(s: System, p: nat, room: bool)
    requires Sound(s) && Enabled(s, p)
    ensures WaitersExist(s) && Sound(Step(s, p, room))
    ensures 0 <= AllLeft(Step(s, p, room).workers) < AllLeft(s.workers)
  {
    SoundWaitersExist(s);
    hide Step, AllLeft, Sleepers;
    if s.workers[p].phase.Behind? && s.workers[p].guarded && s.sem.Some? && PostWakes(s.sem.value) {
      WakingStep(s, p, room);
    } else {
      OwnStep(s, p, room);
    }
    LeftPositive(Step(s, p, room).workers);
  }

  // ----- runs -----

  lemma {:induction false} RunCosts(s: System, moves: seq<Move>, r: System)
    requires Sound(s) && Run(s, moves, r)
    ensures Sound(r) && |moves| + AllLeft(r.workers) <= AllLeft(s.workers)
    decreases |moves|
  {
    hide Step, AllLeft, Sound, Enabled;
    if moves != [] {
      StepCosts(s, moves[0].p, moves[0].room);
      RunCosts(Step(s, moves[0].p, moves[0].room), moves[1..], r);
    }
  }

  // The rounds all the processes are to do.
  function Rounds(ws: seq<Worker>): nat
  {
    if ws == [] then 0 else ws[0].n + Rounds(ws[1..])
  }

  lemma {:induction false} StartLeft(ws: seq<Worker>)
    requires forall p :: 0 <= p < |ws| ==> ws[p].phase.Start? && ws[p].i == 0
    ensures AllLeft(ws) == 5 * Rounds(ws) + 2 * |ws|
  {
    if ws != [] {
      StartLeft(ws[1..]);
    }
  }

  // No run is longer than five steps a round and two a process, whether they use the
  // semaphore or not.
  lemma RunsAreBounded(s: System, moves: seq<Move>, r: System)
    requires AtStart(s) && Run(s, moves, r)
    ensures |moves| <= 5 * Rounds(s.workers) + 2 * |s.workers|
  {
    RunCosts(s, moves, r);
    StartLeft(s.workers);
    LeftPositive(r.workers);
  }

  // If every process with work uses the semaphore, a run that cannot go on has come to
  // its end with everybody finished and nothing lost.
  lemma StoppedIsFinished(s: System, moves: seq<Move>, r: System)
    requires Fresh(s) && Run(s, moves, r) && forall p :: !Enabled(r, p)
    ensures Finished(r) && r.global == s.global + Expected(r.workers)
  {
    FreshInv(s);
    RunKeepsInv(s, moves, r, s.global);
    forall p | 0 <= p < |r.workers|
      ensures r.workers[p].phase.Done? || r.workers[p].phase.Refused?
    {
      if !r.workers[p].phase.Done? && !r.workers[p].phase.Refused? {
        SomebodyMoves(r, s.global, p);
      }
    }
    NoLostUpdates(s, moves, r);
  }

  // And every run can be brought to that end.
  lemma {:induction false} RunFinishes(s: System, start: int) returns (moves: seq<Move>, r: System)
    requires Inv(s, start) && Sound(s)
    ensures Run(s, moves, r) && Finished(r)
    decreases AllLeft(s.workers)
  {
    hide Inv, Sound, Step;
    if Finished(s) {
      moves, r := [], s;
    } else {
      var p :| 0 <= p < |s.workers| && !s.workers[p].phase.Done? && !s.workers[p].phase.Refused?;
      SomebodyMoves(s, start, p);
      var q :| Enabled(s, q);
      StepCosts(s, q, true);
      StepKeepsInv(s, q, true, start);
      var rest, end := RunFinishes(Step(s, q, true), start);
      moves, r := [Move(q, true)] + rest, end;
      assert moves[1..] == rest;
    }
  }

  lemma EveryRunEnds(s: System, moves: seq<Move>, r: System) returns (more: seq<Move>, end: System)
    requires Fresh(s) && Run(s, moves, r)
    ensures Run(s, moves + more, end) && Finished(end) && end.global == s.global + Expected(end.workers)
  {
    FreshInv(s);
    RunKeepsInv(s, moves, r, s.global);
    RunCosts(s, moves, r);
    more, end := RunFinishes(r, s.global);
    RunJoins(s, moves, r, more, end);
    NoLostUpdates(s, moves + more, end);
  }
}
