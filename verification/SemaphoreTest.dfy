// The lost-update test: any number of processes add to a shared variable, with a
// yield between reading and writing it, under one shared semaphore.
module SemaphoreTest {
  import opened Sequences
  import opened Semaphore

  // The processes run in user space and can be interrupted between any two steps.

  datatype Option<T> = None | Some(value: T)

  // Where a process is in inc: before semOpen; at the head of its loop; asleep in
  // semWait; in slowInc before the read, between read and write, and after the
  // write, before semPost; past semClose; turned away by semOpen.
  datatype Phase = Start | Head | Asleep | Before | Between | Behind | Done | Refused

  // The arguments of inc - whether it uses the semaphore, what it adds and how
  // often - its loop counter, and slowInc's local copy.
  datatype Worker = Worker(guarded: bool, value: int, n: nat, i: nat, aux: int, phase: Phase)

  datatype System = System(global: int, sem: Option<Sem>, workers: seq<Worker>)

  predicate Inside(w: Worker)
  {
    w.phase.Before? || w.phase.Between? || w.phase.Behind?
  }

  predicate Attached(w: Worker)
  {
    w.guarded && (w.phase.Head? || w.phase.Asleep? || Inside(w))
  }

  function Set(s: System, p: nat, w: Worker): System
    requires p < |s.workers|
  {
    s.(workers := s.workers[p := w])
  }

  // semOpen(SEM_ID, 1); room says whether a new semaphore can be allocated.
  function Open(s: System, p: nat, room: bool): System
    requires p < |s.workers|
  {
    var w := s.workers[p];
    if !w.guarded then Set(s, p, w.(phase := Head))
    else if s.sem.None? && !room then Set(s, p, w.(phase := Refused))
    else
      var sem := if s.sem.None? then Created(1) else s.sem.value;
      if sem.listening >= MAX_BLOCKED_PROCESSES then Set(s, p, w.(phase := Refused))
      else Set(s, p, w.(phase := Head)).(sem := Some(sem.(listening := sem.listening + 1)))
  }

  // The loop test, then semWait or, at the end, semClose.  Without a semaphore
  // the code complains and goes on.
  function Loop(s: System, p: nat): System
    requires p < |s.workers|
  {
    var w := s.workers[p];
    if w.i < w.n then
      if !w.guarded || s.sem.None? then Set(s, p, w.(phase := Before))
      else
        Set(s, p, w.(phase := if WaitBlocks(s.sem.value) then Asleep else Before)).(sem := Some(Wait(s.sem.value, p)))
    else
      var r := Set(s, p, w.(phase := Done));
      if !w.guarded || s.sem.None? then r
      else
        var left := if s.sem.value.listening > 0 then s.sem.value.listening - 1 else 0;
        r.(sem := if left == 0 then None else Some(s.sem.value.(listening := left)))
  }

  // semPost; the one that is woken returns from its semWait.
  function Leave(s: System, p: nat): System
    requires p < |s.workers|
    requires WaitersExist(s)
  {
    var w := s.workers[p];
    var r := Set(s, p, w.(phase := Head, i := w.i + 1));
    if !w.guarded || s.sem.None? then r
    else
      var r1 := if PostWakes(s.sem.value)
                then Set(r, s.sem.value.waiting[0], r.workers[s.sem.value.waiting[0]].(phase := Before)) else r;
      r1.(sem := Some(Post(s.sem.value)))
  }

  predicate WaitersExist(s: System)
  {
    s.sem.Some? ==> forall i :: 0 <= i < |s.sem.value.waiting| ==> s.sem.value.waiting[i] < |s.workers|
  }

  // A process can take a step unless it sleeps or has finished.  That going to sleep
  // finds room in the array of waiters is proved (RoomToSleep).
  predicate Enabled(s: System, p: nat)
  {
    p < |s.workers| && !s.workers[p].phase.Asleep? && !s.workers[p].phase.Done? && !s.workers[p].phase.Refused?
  }

  function Step(s: System, p: nat, room: bool): System
    requires Enabled(s, p) && WaitersExist(s)
  {
    var w := s.workers[p];
    match w.phase
    case Start => Open(s, p, room)
    case Head => Loop(s, p)
    case Before => Set(s, p, w.(aux := s.global + w.value, phase := Between))
    case Between => Set(s, p, w.(phase := Behind)).(global := w.aux)
    case Behind => Leave(s, p)
    case _ => s
  }

  // ----- sums over the processes -----

  // What a process has added so far.
  function Share(w: Worker): int
  {
    w.value * (w.i + if w.phase.Behind? then 1 else 0)
  }

  function Shares(ws: seq<Worker>): int
  {
    if ws == [] then 0 else Share(ws[0]) + Shares(ws[1..])
  }

  function Listeners(ws: seq<Worker>): nat
  {
    if ws == [] then 0 else (if Attached(ws[0]) then 1 else 0) + Listeners(ws[1..])
  }

  lemma {:induction false} SharesUpdate(ws: seq<Worker>, p: nat, w: Worker)
    requires p < |ws|
    ensures Shares(ws[p := w]) == Shares(ws) - Share(ws[p]) + Share(w)
  {
    if p > 0 {
      SharesUpdate(ws[1..], p - 1, w);
      assert ws[p := w][1..] == ws[1..][p - 1 := w];
    } else {
      assert ws[p := w][1..] == ws[1..];
    }
  }

  lemma {:induction false} ListenersUpdate(ws: seq<Worker>, p: nat, w: Worker)
    requires p < |ws|
    ensures Listeners(ws[p := w]) ==
            Listeners(ws) - (if Attached(ws[p]) then 1 else 0) + (if Attached(w) then 1 else 0)
  {
    if p > 0 {
      ListenersUpdate(ws[1..], p - 1, w);
      assert ws[p := w][1..] == ws[1..][p - 1 := w];
    } else {
      assert ws[p := w][1..] == ws[1..];
    }
  }

  lemma {:induction false} ListenersPositive(ws: seq<Worker>, p: nat)
    requires p < |ws| && Attached(ws[p])
    ensures Listeners(ws) > 0
  {
    if p > 0 {
      ListenersPositive(ws[1..], p - 1);
    }
  }

  lemma {:induction false} NoListeners(ws: seq<Worker>, p: nat)
    requires Listeners(ws) == 0 && p < |ws|
    ensures !Attached(ws[p])
  {
    if p > 0 {
      NoListeners(ws[1..], p - 1);
    }
  }

  // ----- the invariant, when every process with work uses the semaphore -----

  // The sleepers are the ones in the array of waiters, each once.
  ghost predicate Waiters(s: System, sem: Sem)
  {
    && Distinct(sem.waiting)
    && (forall p: nat :: p in sem.waiting <==> p < |s.workers| && s.workers[p].phase.Asleep?)
  }

  // The one token is in the semaphore, or one process is inside with it.
  ghost predicate OneToken(s: System, sem: Sem)
  {
    && sem.value <= 1
    && (sem.value == 1 ==> sem.waiting == [] && forall p :: 0 <= p < |s.workers| ==> !Inside(s.workers[p]))
    && (sem.value == 0 ==> exists p :: 0 <= p < |s.workers| && Inside(s.workers[p]))
  }

  ghost predicate Exclusive(s: System)
  {
    forall p, q ::
      0 <= p < |s.workers| && 0 <= q < |s.workers| && Inside(s.workers[p]) && Inside(s.workers[q]) ==> p == q
  }

  // The semaphore exists while somebody has it open.
  ghost predicate SemOk(s: System)
  {
    match s.sem
    case None => Listeners(s.workers) == 0
    case Some(sem) =>
      sem.listening == Listeners(s.workers) && 0 < sem.listening <= MAX_BLOCKED_PROCESSES
      && Waiters(s, sem) && OneToken(s, sem)
  }

  // A copy taken inside is up to date, and every completed addition is in global.
  ghost predicate Sums(s: System, start: int)
  {
    && s.global == start + Shares(s.workers)
    && (forall p :: 0 <= p < |s.workers| && s.workers[p].phase.Between? ==>
          s.workers[p].aux == s.global + s.workers[p].value)
  }

  ghost predicate Bounds(s: System)
  {
    forall p :: 0 <= p < |s.workers| ==>
      var w := s.workers[p];
      (w.guarded || w.n == 0) && w.i <= w.n && (Inside(w) || w.phase.Asleep? ==> w.i < w.n)
      && (w.phase.Start? || w.phase.Refused? ==> w.i == 0) && (w.phase.Done? ==> w.i == w.n)
  }

  ghost predicate Inv(s: System, start: int)
  {
    Bounds(s) && Exclusive(s) && SemOk(s) && Sums(s, start)
  }

  ghost predicate Fresh(s: System)
  {
    s.sem.None? && forall p :: 0 <= p < |s.workers| ==>
      (s.workers[p].guarded || s.workers[p].n == 0) && s.workers[p].phase.Start? && s.workers[p].i == 0
  }

  lemma {:induction false} FreshSums(ws: seq<Worker>)
    requires forall p :: 0 <= p < |ws| ==> ws[p].phase.Start? && ws[p].i == 0
    ensures Shares(ws) == 0 && Listeners(ws) == 0
  {
    if ws != [] {
      FreshSums(ws[1..]);
    }
  }

  lemma FreshInv(s: System)
    requires Fresh(s)
    ensures Inv(s, s.global)
  {
    FreshSums(s.workers);
  }

  lemma InvWaitersExist(s: System, start: int)
    requires Inv(s, start)
    ensures WaitersExist(s)
  {
    if s.sem.Some? {
      forall i | 0 <= i < |s.sem.value.waiting|
        ensures s.sem.value.waiting[i] < |s.workers|
      {
        assert s.sem.value.waiting[i] in s.sem.value.waiting;
      }
    }
  }

  // ----- each step keeps the invariant -----

  // A step of one process that touches neither the semaphore nor its own claim to
  // it: who is inside, asleep and attached stays the same.
  lemma SameClaims(s: System, r: System, p: nat)
    requires SemOk(s) && Exclusive(s) && p < |s.workers| && |r.workers| == |s.workers| && r.sem == s.sem
    requires r.workers == s.workers[p := r.workers[p]]
    requires Inside(s.workers[p]) && Inside(r.workers[p]) && s.workers[p].guarded && r.workers[p].guarded
    ensures SemOk(r) && Exclusive(r)
  {
    ListenersUpdate(s.workers, p, r.workers[p]);
    ListenersPositive(s.workers, p);
    forall q | 0 <= q < |s.workers|
      ensures Inside(r.workers[q]) == Inside(s.workers[q]) && r.workers[q].phase.Asleep? == s.workers[q].phase.Asleep?
    {
    }
  }

  lemma ReadKeeps(s: System, p: nat, start: int)
    requires Inv(s, start) && p < |s.workers| && s.workers[p].phase.Before?
    ensures Inv(Set(s, p, s.workers[p].(aux := s.global + s.workers[p].value, phase := Between)), start)
  {
    var w := s.workers[p].(aux := s.global + s.workers[p].value, phase := Between);
    var r := Set(s, p, w);
    SharesUpdate(s.workers, p, w);
    SameClaims(s, r, p);
  }

  lemma WriteKeeps(s: System, p: nat, start: int)
    requires Inv(s, start) && p < |s.workers| && s.workers[p].phase.Between?
    ensures Inv(Set(s, p, s.workers[p].(phase := Behind)).(global := s.workers[p].aux), start)
  {
    var w := s.workers[p].(phase := Behind);
    var r := Set(s, p, w).(global := s.workers[p].aux);
    SharesUpdate(s.workers, p, w);
    assert Share(w) == Share(s.workers[p]) + w.value by {
      Distribute(w.value, w.i);
    }
    SameClaims(s, r, p);
    assert forall q :: 0 <= q < |s.workers| && q != p ==> !Inside(s.workers[q]);
  }

  lemma Distribute(v: int, i: nat)
    ensures v * (i + 1) == v * i + v && v * (i + 0) == v * i
  {
  }

  lemma OpenKeeps(s: System, p: nat, room: bool, start: int)
    requires Inv(s, start) && p < |s.workers| && s.workers[p].phase.Start?
    ensures Inv(Open(s, p, room), start)
  {
    var r := Open(s, p, room);
    var w := r.workers[p];
    SharesUpdate(s.workers, p, w);
    ListenersUpdate(s.workers, p, w);
    hide Shares;
    if s.sem.None? {
      forall q | 0 <= q < |s.workers|
        ensures !Attached(s.workers[q])
      {
        NoListeners(s.workers, q);
      }
    }
    ClaimsElsewhere(s, r, p);
  }

  // Whoever else is inside or asleep is so before and after.
  lemma ClaimsElsewhere(s: System, r: System, p: nat)
    requires p < |s.workers| && |r.workers| == |s.workers| && r.workers == s.workers[p := r.workers[p]]
    ensures forall q :: 0 <= q < |s.workers| && q != p ==> r.workers[q] == s.workers[q]
  {
  }

  // A process that does not use the semaphore has no work, and is done at once.
  lemma IdleLoopKeeps(s: System, p: nat, start: int)
    requires Inv(s, start) && p < |s.workers| && s.workers[p].phase.Head? && !s.workers[p].guarded
    ensures Inv(Loop(s, p), start)
  {
    var r := Loop(s, p);
    var w := r.workers[p];
    SharesUpdate(s.workers, p, w);
    ListenersUpdate(s.workers, p, w);
    ClaimsElsewhere(s, r, p);
    hide Shares, Listeners;
  }

  lemma LoopKeeps(s: System, p: nat, start: int)
    requires Inv(s, start) && p < |s.workers| && s.workers[p].phase.Head? && s.workers[p].guarded
    ensures Inv(Loop(s, p), start)
  {
    var r := Loop(s, p);
    var w := r.workers[p];
    SharesUpdate(s.workers, p, w);
    ListenersUpdate(s.workers, p, w);
    ListenersPositive(s.workers, p);
    ClaimsElsewhere(s, r, p);
    hide Shares, Listeners;
    assert s.sem.Some?;
    var sem := s.sem.value;
    assert p !in sem.waiting;
    if s.workers[p].i < s.workers[p].n {
      LoopWaiters(s, r, p);
    } else if r.sem.None? {
      forall q | 0 <= q < |r.workers|
        ensures !Attached(r.workers[q])
      {
        NoListeners(r.workers, q);
      }
    }
  }

  lemma LoopWaiters(s: System, r: System, p: nat)
    requires p < |s.workers| && s.sem.Some? && Waiters(s, s.sem.value) && s.workers[p].phase.Head?
    requires |r.workers| == |s.workers| && forall q :: 0 <= q < |s.workers| && q != p ==> r.workers[q] == s.workers[q]
    requires r.sem == Some(Wait(s.sem.value, p))
    requires r.workers[p].phase == if WaitBlocks(s.sem.value) then Asleep else Before
    ensures Waiters(r, r.sem.value)
  {
  }

  // Nobody waits: the token goes back.
  lemma LeaveRaises(s: System, p: nat, start: int)
    requires Inv(s, start) && p < |s.workers| && s.workers[p].phase.Behind?
    requires s.sem.Some? && !PostWakes(s.sem.value)
    ensures WaitersExist(s) && Inv(Leave(s, p), start)
  {
    InvWaitersExist(s, start);
    var w := s.workers[p].(phase := Head, i := s.workers[p].i + 1);
    SharesUpdate(s.workers, p, w);
    ListenersUpdate(s.workers, p, w);
    assert Share(w) == Share(s.workers[p]);
    hide Shares, Listeners, Share;
  }

  // p is back at the head of its loop, and q, who has waited longest, has the token.
  ghost predicate Handed(s: System, r: System, p: nat, q: nat)
    requires p < |s.workers| && s.sem.Some? && PostWakes(s.sem.value)
  {
    && q < |s.workers| && q != p && q == s.sem.value.waiting[0] && s.workers[q].phase.Asleep?
    && r.global == s.global && r.sem == Some(Post(s.sem.value))
    && var (w, v) := (s.workers[p].(phase := Head, i := s.workers[p].i + 1), s.workers[q].(phase := Before));
    && r.workers == s.workers[p := w][q := v] && r.workers[p] == w && r.workers[q] == v
    && forall o :: 0 <= o < |s.workers| && o != p && o != q ==> r.workers[o] == s.workers[o]
  }

  lemma LeaveHands(s: System, p: nat, start: int)
    requires Inv(s, start) && p < |s.workers| && s.workers[p].phase.Behind?
    requires s.sem.Some? && PostWakes(s.sem.value)
    ensures WaitersExist(s) && Handed(s, Leave(s, p), p, s.sem.value.waiting[0])
  {
    InvWaitersExist(s, start);
    assert s.sem.value.waiting[0] in s.sem.value.waiting;
    hide Shares, Listeners;
  }

  lemma HandedSums(s: System, r: System, p: nat, q: nat, start: int)
    requires p < |s.workers| && s.sem.Some? && PostWakes(s.sem.value) && Handed(s, r, p, q)
    requires s.workers[p].phase.Behind? && Sums(s, start)
    ensures Sums(r, start) && Listeners(r.workers) == Listeners(s.workers)
  {
    var w, v := r.workers[p], r.workers[q];
    SharesUpdate(s.workers, p, w);
    ListenersUpdate(s.workers, p, w);
    SharesUpdate(s.workers[p := w], q, v);
    ListenersUpdate(s.workers[p := w], q, v);
    assert Share(w) == Share(s.workers[p]) && Share(v) == Share(s.workers[q]);
    hide Shares, Listeners, Share;
  }

  lemma HandedWaiters(s: System, r: System, p: nat, q: nat)
    requires p < |s.workers| && s.sem.Some? && PostWakes(s.sem.value) && Handed(s, r, p, q)
    requires s.workers[p].phase.Behind? && Waiters(s, s.sem.value)
    ensures Waiters(r, Post(s.sem.value))
  {
    LeaveWaiters(s.sem.value);
  }

  lemma HandedToken(s: System, r: System, p: nat, q: nat)
    requires p < |s.workers| && s.sem.Some? && PostWakes(s.sem.value) && Handed(s, r, p, q)
    requires s.workers[p].phase.Behind? && OneToken(s, s.sem.value) && Exclusive(s)
    ensures OneToken(r, Post(s.sem.value)) && Exclusive(r)
  {
    assert Inside(r.workers[q]);
    assert forall o :: 0 <= o < |s.workers| && o != p ==> !Inside(s.workers[o]);
  }

  lemma HandedBounds(s: System, r: System, p: nat, q: nat)
    requires p < |s.workers| && s.sem.Some? && PostWakes(s.sem.value) && Handed(s, r, p, q)
    requires s.workers[p].phase.Behind? && Bounds(s)
    ensures Bounds(r)
  {
    forall o | 0 <= o < |r.workers|
      ensures o == p || o == q || r.workers[o] == s.workers[o]
    {
    }
  }

  // The token goes to the one that has waited longest.
  lemma LeaveWakes(s: System, p: nat, start: int)
    requires Inv(s, start) && p < |s.workers| && s.workers[p].phase.Behind?
    requires s.sem.Some? && PostWakes(s.sem.value)
    ensures WaitersExist(s) && Inv(Leave(s, p), start)
  {
    hide Exclusive, Bounds, Sums, Waiters, OneToken, Leave, Listeners;
    LeaveHands(s, p, start);
    var r, q := Leave(s, p), s.sem.value.waiting[0];
    HandedSums(s, r, p, q, start);
    HandedWaiters(s, r, p, q);
    HandedToken(s, r, p, q);
    HandedBounds(s, r, p, q);
  }

  lemma LeaveKeeps(s: System, p: nat, start: int)
    requires Inv(s, start) && p < |s.workers| && s.workers[p].phase.Behind?
    ensures WaitersExist(s) && Inv(Leave(s, p), start)
  {
    ListenersPositive(s.workers, p);
    hide Shares, Listeners;
    assert s.sem.Some?;
    if PostWakes(s.sem.value) {
      LeaveWakes(s, p, start);
    } else {
      LeaveRaises(s, p, start);
    }
  }

  lemma LeaveWaiters(sem: Sem)
    requires sem.waiting != [] && Distinct(sem.waiting)
    ensures Distinct(sem.waiting[1..]) && sem.waiting[0] !in sem.waiting[1..]
    ensures forall p :: p in sem.waiting <==> p == sem.waiting[0] || p in sem.waiting[1..]
  {
    assert sem.waiting == [sem.waiting[0]] + sem.waiting[1..];
  }

  // ----- room in the array of waiters -----

  // Different processes that have the semaphore open are no more than its listeners.
  lemma {:induction false} ListenersCount(ws: seq<Worker>, xs: seq<nat>)
    requires Distinct(xs) && forall x :: x in xs ==> x < |ws| && Attached(ws[x])
    ensures |xs| <= Listeners(ws)
    decreases |xs|
  {
    if xs != [] {
      assert xs[0] in xs && forall x :: x in xs[1..] ==> x in xs && x != xs[0];
      var gone := ws[xs[0]].(phase := Done);
      ListenersUpdate(ws, xs[0], gone);
      ListenersCount(ws[xs[0] := gone], xs[1..]);
    }
  }

  // A process that is about to wait finds fewer waiters than the array has places:
  // semOpen has turned away the 21st.
  lemma RoomToSleep(s: System, p: nat, start: int)
    requires Inv(s, start) && p < |s.workers| && s.workers[p].phase.Head? && s.workers[p].guarded
    ensures s.sem.Some? && |s.sem.value.waiting| < MAX_BLOCKED_PROCESSES
  {
    ListenersPositive(s.workers, p);
    assert s.sem.Some?;
    var waiting := s.sem.value.waiting;
    assert p !in waiting;
    ListenersCount(s.workers, waiting + [p]);
  }

  // semOpen turns a process away exactly if 20 have the semaphore open, or if there is
  // none and no room for it.
  lemma TurnedAwayIff(s: System, p: nat, room: bool, start: int)
    requires Inv(s, start) && p < |s.workers| && s.workers[p].phase.Start?
    ensures WaitersExist(s)
    ensures Step(s, p, room).workers[p].phase.Refused? <==>
              s.workers[p].guarded && if s.sem.Some? then Listeners(s.workers) == 20 else !room
    ensures s.sem.Some? <==> Listeners(s.workers) > 0
  {
    InvWaitersExist(s, start);
  }

  // The invariant is kept, and whoever goes to sleep has a place in the array.
  lemma StepKeepsInv(s: System, p: nat, room: bool, start: int)
    requires Inv(s, start) && Enabled(s, p)
    ensures WaitersExist(s) && Inv(Step(s, p, room), start)
    ensures Step(s, p, room).workers[p].phase.Asleep? ==>
              s.sem.Some? && |s.sem.value.waiting| < MAX_BLOCKED_PROCESSES
  {
    hide Inv, Loop, Open, Leave;
    InvWaitersExist(s, start);
    match s.workers[p].phase
    case Start =>
      OpenKeeps(s, p, room, start);
      OpenAwake(s, p, room);
    case Head =>
      if s.workers[p].guarded {
        LoopKeeps(s, p, start);
        RoomToSleep(s, p, start);
      } else {
        IdleLoopKeeps(s, p, start);
        LoopAwake(s, p);
      }
    case Before => ReadKeeps(s, p, start);
    case Between => WriteKeeps(s, p, start);
    case Behind =>
      LeaveKeeps(s, p, start);
      LeaveAwake(s, p);
  }

  // Only the wait of one that uses the semaphore puts a process to sleep.
  lemma OpenAwake(s: System, p: nat, room: bool)
    requires p < |s.workers|
    ensures !Open(s, p, room).workers[p].phase.Asleep?
  {
  }

  lemma LoopAwake(s: System, p: nat)
    requires p < |s.workers| && !s.workers[p].guarded
    ensures !Loop(s, p).workers[p].phase.Asleep?
  {
  }

  lemma LeaveAwake(s: System, p: nat)
    requires p < |s.workers| && WaitersExist(s)
    ensures !Leave(s, p).workers[p].phase.Asleep?
  {
  }

  // ----- runs -----

  // One step of process p; room is what the allocator would answer semOpen.
  datatype Move = Move(p: nat, room: bool)

  // s leads to r by the given steps, in any interleaving.
  ghost predicate Run(s: System, moves: seq<Move>, r: System)
    decreases |moves|
  {
    if moves == [] then r == s
    else
      Enabled(s, moves[0].p) && WaitersExist(s)
      && Run(Step(s, moves[0].p, moves[0].room), moves[1..], r)
  }

  lemma StepArguments(s: System, p: nat, room: bool)
    requires Enabled(s, p) && WaitersExist(s)
    ensures var r := Step(s, p, room);
            |r.workers| == |s.workers|
            && forall q :: 0 <= q < |s.workers| ==>
                 r.workers[q].value == s.workers[q].value && r.workers[q].n == s.workers[q].n
  {
  }

  lemma {:induction false} RunKeepsInv(s: System, moves: seq<Move>, r: System, start: int)
    requires Inv(s, start) && Run(s, moves, r)
    ensures Inv(r, start) && |r.workers| == |s.workers|
    ensures forall q :: 0 <= q < |s.workers| ==>
              r.workers[q].value == s.workers[q].value && r.workers[q].n == s.workers[q].n
    decreases |moves|
  {
    if moves != [] {
      StepKeepsInv(s, moves[0].p, moves[0].room, start);
      StepArguments(s, moves[0].p, moves[0].room);
      RunKeepsInv(Step(s, moves[0].p, moves[0].room), moves[1..], r, start);
    }
  }

  // Mutual exclusion: in every reachable state at most one process is between
  // its semWait and its semPost.
  lemma MutualExclusion(s: System, moves: seq<Move>, r: System)
    requires Fresh(s) && Run(s, moves, r)
    ensures forall p, q :: 0 <= p < |r.workers| && 0 <= q < |r.workers| && Inside(r.workers[p]) && Inside(r.workers[q])
              ==> p == q
  {
    FreshInv(s);
    RunKeepsInv(s, moves, r, s.global);
  }

  // What the processes that were let in are to add.
  function Expected(ws: seq<Worker>): int
  {
    if ws == [] then 0 else (if ws[0].phase.Refused? then 0 else ws[0].value * ws[0].n) + Expected(ws[1..])
  }

  lemma {:induction false} AllShares(ws: seq<Worker>)
    requires forall p :: 0 <= p < |ws| ==>
               (ws[p].phase.Done? && ws[p].i == ws[p].n) || (ws[p].phase.Refused? && ws[p].i == 0)
    ensures Shares(ws) == Expected(ws)
  {
    if ws != [] {
      AllShares(ws[1..]);
      assert ws[0].phase.Refused? ==> Share(ws[0]) == 0;
      assert ws[0].phase.Done? ==> Share(ws[0]) == ws[0].value * ws[0].n;
    }
  }

  // No lost updates: when every process has finished, global is its start value
  // plus value times N for each process that semOpen admitted.
  lemma NoLostUpdates(s: System, moves: seq<Move>, r: System)
    requires Fresh(s) && Run(s, moves, r)
    requires forall p :: 0 <= p < |r.workers| ==> r.workers[p].phase.Done? || r.workers[p].phase.Refused?
    ensures r.global == s.global + Expected(r.workers) && r.sem.None?
    ensures |r.workers| == |s.workers|
    ensures forall p :: 0 <= p < |s.workers| ==>
              r.workers[p].value == s.workers[p].value && r.workers[p].n == s.workers[p].n
  {
    FreshInv(s);
    RunKeepsInv(s, moves, r, s.global);
    AllShares(r.workers);
    NoneAttached(r.workers);
  }

  lemma {:induction false} NoneAttached(ws: seq<Worker>)
    requires forall p :: 0 <= p < |ws| ==> !Attached(ws[p])
    ensures Listeners(ws) == 0
  {
    if ws != [] {
      NoneAttached(ws[1..]);
    }
  }

  // Nobody is stuck: while some process has not finished, some process can move.
  lemma SomebodyMoves(s: System, start: int, p: nat)
    requires Inv(s, start) && p < |s.workers| && !s.workers[p].phase.Done? && !s.workers[p].phase.Refused?
    ensures exists q :: Enabled(s, q)
  {
    if s.workers[p].phase.Asleep? {
      ListenersPositive(s.workers, p);
      assert p in s.sem.value.waiting;
      var q :| 0 <= q < |s.workers| && Inside(s.workers[q]);
      assert Enabled(s, q);
    } else {
      assert Enabled(s, p);
    }
  }
}
