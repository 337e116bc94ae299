// Who has a semaphore open.  If processes only wait on and close semaphores they have
// opened, the fixed array of waiters is always large enough.
module KernelOpeners {
  import opened Sequences
  import opened Scheduler
  import opened SchedulerTheorems
  import opened Semaphore
  import opened KernelSync

  // For each semaphore the pids that opened it, as often as they did.
  type Openers = map<nat, multiset<nat>>

  ghost function OpenersOf(o: Openers, id: nat): multiset<nat>
  {
    if id in o then o[id] else multiset{}
  }

  // semOpen does not answer -1.
  predicate OpenSucceeds(sems: map<nat, Sem>, id: nat, room: bool)
  {
    if id in sems then sems[id].listening < MAX_BLOCKED_PROCESSES else room
  }

  // The openers after a call of the running process.
  ghost function OpenersAfter(k: Kernel, o: Openers, c: KCall): Openers
    requires c.KTick? || !k.sched.current.Nobody?
  {
    match c
    case KOpen(id, _, room) =>
      if OpenSucceeds(k.sems, id, room) then o[id := OpenersOf(o, id) + multiset{k.sched.Cur().pid}] else o
    case KClose(id) => if id in k.sems then o[id := OpenersOf(o, id) - multiset{k.sched.Cur().pid}] else o
    case _ => o
  }

  // A process waits on and closes only what it has open.
  ghost predicate Owned(k: Kernel, o: Openers, c: KCall)
  {
    && (c.KTick? || k.sched.current.Running?)
    && (c.KWait? && c.id in k.sems ==> k.sched.Cur().pid in OpenersOf(o, c.id))
    && (c.KClose? && c.id in k.sems ==> k.sched.Cur().pid in OpenersOf(o, c.id))
  }

  // The openers are as many as the semaphore counts and not more than the array has
  // places, and whoever waits is one of them.
  ghost predicate Counted(sem: Sem, openers: multiset<nat>)
  {
    && |openers| == sem.listening && 0 < sem.listening <= MAX_BLOCKED_PROCESSES
    && forall p :: p in sem.waiting ==> p in openers
  }

  ghost predicate OpenersInv(sems: map<nat, Sem>, o: Openers)
  {
    forall id: nat :: if id in sems then Counted(sems[id], OpenersOf(o, id)) else OpenersOf(o, id) == multiset{}
  }

  lemma {:induction false} PartIsSmaller(a: multiset<nat>, b: multiset<nat>)
    requires a <= b
    ensures |a| <= |b|
  {
    assert b == a + (b - a);
  }

  // One who has it open and does not wait finds that fewer wait than have it open.
  lemma FewerWait(sem: Sem, openers: multiset<nat>, pid: nat)
    requires Distinct(sem.waiting) && pid !in sem.waiting && pid in openers
    requires forall p :: p in sem.waiting ==> p in openers
    ensures |sem.waiting| < |openers|
  {
    var all := sem.waiting + [pid];
    DistinctOnce(sem.waiting);
    assert multiset(all) == multiset(sem.waiting) + multiset{pid};
    PartIsSmaller(multiset(all), openers);
  }

  lemma {:induction false} DistinctOnce(xs: seq<nat>)
    requires Distinct(xs)
    ensures forall x :: multiset(xs)[x] <= 1
  {
    if xs != [] {
      DistinctOnce(xs[1..]);
      assert xs == [xs[0]] + xs[1..];
    }
  }

  lemma RunningDoesNotWait(k: Kernel, id: nat)
    requires KInv(k) && k.sched.current.Running?
    ensures !WaitsOn(k.sems, id, k.sched.Cur().pid)
  {
    var pid := k.sched.Cur().pid;
    assert WaitsOn(k.sems, id, pid) ==> Blocked(k.sched, pid);
  }

  // So a wait always finds room in the array, and the last one to close a semaphore
  // leaves nobody behind.
  lemma OwnedIsEnabled(k: Kernel, o: Openers, c: KCall)
    requires KInv(k) && OpenersInv(k.sems, o) && Owned(k, o, c)
    ensures KEnabled(k, c)
    ensures c.KWait? && c.id in k.sems ==> |k.sems[c.id].waiting| < MAX_BLOCKED_PROCESSES
  {
    if (c.KWait? || c.KClose?) && c.id in k.sems {
      var sem := k.sems[c.id];
      RunningDoesNotWait(k, c.id);
      assert Counted(sem, OpenersOf(o, c.id));
      FewerWait(sem, OpenersOf(o, c.id), k.sched.Cur().pid);
    }
  }

  lemma OpenKeeps(sems: map<nat, Sem>, o: Openers, id: nat, value: nat, room: bool, pid: nat)
    requires OpenersInv(sems, o)
    ensures var o' := if OpenSucceeds(sems, id, room) then o[id := OpenersOf(o, id) + multiset{pid}] else o;
            OpenersInv(SemOpen(sems, id, value, room), o')
  {
    var r := SemOpen(sems, id, value, room);
    if OpenSucceeds(sems, id, room) {
      assert id in sems ==> Counted(sems[id], OpenersOf(o, id));
      assert Counted(r[id], OpenersOf(o, id) + multiset{pid});
    } else {
      assert r == sems;
    }
    hide Counted;
  }

  // The one who closes does not wait, so the waiters still have it open.
  lemma CloseKeeps(sems: map<nat, Sem>, o: Openers, id: nat, pid: nat)
    requires OpenersInv(sems, o) && id in sems && pid in OpenersOf(o, id) && !WaitsOn(sems, id, pid)
    ensures OpenersInv(SemClose(sems, id), o[id := OpenersOf(o, id) - multiset{pid}])
  {
    var r, left := SemClose(sems, id), OpenersOf(o, id) - multiset{pid};
    assert Counted(sems[id], OpenersOf(o, id));
    assert |left| == sems[id].listening - 1;
    assert id in r ==> Counted(r[id], left);
    hide Counted;
  }

  // Waiting and posting by those who have it open.
  lemma TokensKeep(sems: map<nat, Sem>, o: Openers, id: nat, sem: Sem, pid: nat)
    requires OpenersInv(sems, o) && id in sems && sem.listening == sems[id].listening
    requires forall p :: p in sem.waiting ==> p in sems[id].waiting || p == pid
    requires pid in sem.waiting ==> pid in OpenersOf(o, id)
    ensures OpenersInv(sems[id := sem], o)
  {
    assert Counted(sems[id], OpenersOf(o, id));
    assert Counted(sem, OpenersOf(o, id));
    hide Counted;
  }

  // The number of openers is the semaphore's own count, and never above the size of
  // the array.
  lemma StepKeepsOpeners(k: Kernel, o: Openers, c: KCall)
    requires KInv(k) && OpenersInv(k.sems, o) && Owned(k, o, c)
    ensures KEnabled(k, c) && OpenersInv(KStep(k, c).sems, OpenersAfter(k, o, c))
  {
    OwnedIsEnabled(k, o, c);
    match c {
      case KOpen(id, value, room) =>
        OpenKeeps(k.sems, o, id, value, room, k.sched.Cur().pid);
      case KClose(id) =>
        RunningDoesNotWait(k, id);
        if id in k.sems {
          CloseKeeps(k.sems, o, id, k.sched.Cur().pid);
        }
      case KWait(id) =>
        if id in k.sems {
          TokensKeep(k.sems, o, id, Semaphore.Wait(k.sems[id], k.sched.Cur().pid), k.sched.Cur().pid);
        }
      case KPost(id) =>
        if id in k.sems {
          TokensKeep(k.sems, o, id, Post(k.sems[id]), k.sched.Cur().pid);
        }
      case _ =>
    }
  }

  // A run of calls of that kind; nothing is assumed about room.
  ghost predicate OwnedRun(k: Kernel, o: Openers, calls: seq<KCall>, r: Kernel, o': Openers)
    decreases |calls|
  {
    if calls == [] then r == k && o' == o
    else Owned(k, o, calls[0]) && OwnedRun(KStep(k, calls[0]), OpenersAfter(k, o, calls[0]), calls[1..], r, o')
  }

  // Every such run is one in which each wait finds room and each last close leaves
  // nobody behind, and so keeps all the invariants.
  lemma {:induction false} OwnedRunKeeps(k: Kernel, o: Openers, calls: seq<KCall>, r: Kernel, o': Openers)
    requires KInv(k) && OpenersInv(k.sems, o) && OwnedRun(k, o, calls, r, o')
    ensures KRun(k, calls, r) && KInv(r) && OpenersInv(r.sems, o')
    decreases |calls|
  {
    hide KInv, OpenersInv, Owned, KStep;
    if calls != [] {
      StepKeepsOpeners(k, o, calls[0]);
      StepKeepsKInv(k, calls[0]);
      OwnedRunKeeps(KStep(k, calls[0]), OpenersAfter(k, o, calls[0]), calls[1..], r, o');
    }
  }

  // From the start of the kernel on.
  lemma RoomForOpeners(calls: seq<KCall>, r: Kernel, o: Openers, id: nat)
    requires OwnedRun(Kernel(Booted(), map[]), map[], calls, r, o)
    ensures KInv(r) && (id in r.sems ==> |OpenersOf(o, id)| == r.sems[id].listening <= MAX_BLOCKED_PROCESSES)
    ensures Owned(r, o, KWait(id)) && id in r.sems ==> |r.sems[id].waiting| < MAX_BLOCKED_PROCESSES
  {
    BootInv();
    OwnedRunKeeps(Kernel(Booted(), map[]), map[], calls, r, o);
    if id in r.sems {
      assert Counted(r.sems[id], OpenersOf(o, id));
    }
    if Owned(r, o, KWait(id)) {
      OwnedIsEnabled(r, o, KWait(id));
    }
  }

  // ----- without owning: the 21st waiter -----

  // One process runs, n wait on semaphore 0, and nobody else is ready.
  ghost predicate Crowd(k: Kernel, n: nat)
  {
    && KInv(k) && k.sched.current.Running? && 0 in k.sems && WaitBlocks(k.sems[0]) && |k.sems[0].waiting| == n
    && k.sems[0].listening == 1
    && forall i :: 0 <= i < |k.sched.queue| ==> k.sched.queue[i].status == BLOCKED
  }

  // The running one starts another in the background and waits; it need not have
  // opened the semaphore.
  lemma CrowdGrows(k: Kernel, n: nat)
    requires Crowd(k, n) && n < MAX_BLOCKED_PROCESSES
    ensures var k1 := KStep(k, KNew(0, Enough));
            KEnabled(k, KNew(0, Enough)) && KEnabled(k1, KWait(0)) && Crowd(KStep(k1, KWait(0)), n + 1)
  {
    var k1 := KStep(k, KNew(0, Enough));
    StepKeepsKInv(k, KNew(0, Enough));
    StepKeepsKInv(k1, KWait(0));
    NextIsDispatched(k.sched);
    hide KInv;
  }

  lemma NextIsDispatched(s: Sched)
    requires s.current.Running? && s.current.pcb.status != TERMINATED
    requires forall i :: 0 <= i < |s.queue| ==> s.queue[i].status == BLOCKED
    ensures var r := Block(NewProcess(s, 0, Enough), s.current.pcb.pid);
            r.current.Running? && forall i :: 0 <= i < |r.queue| ==> r.queue[i].status == BLOCKED
  {
    var child := Child(s, 0);
    var s1 := NewProcess(s, 0, Enough);
    var me := s.current.pcb.(status := BLOCKED);
    var q := s.queue + [child] + [me];
    FirstReadyIs(q, |s.queue|);
    assert Park(SetState(s1, me.pid, BLOCKED)).queue == q;
    assert q[..|s.queue|] == s.queue && q[|s.queue| + 1..] == [me];
    forall i | 0 <= i < |OnlyBlocked(s.queue)|
      ensures OnlyBlocked(s.queue)[i].status == BLOCKED
    {
      OnlyBlockedIn(s.queue, i);
    }
  }

  lemma {:induction false} RunLonger(k: Kernel, calls: seq<KCall>, m: Kernel, c: KCall)
    requires KRun(k, calls, m) && KEnabled(m, c)
    ensures KRun(k, calls + [c], KStep(m, c))
    decreases |calls|
  {
    if calls == [] {
      assert ([] + [c])[1..] == [];
    } else {
      RunLonger(KStep(k, calls[0]), calls[1..], m, c);
      assert (calls + [c])[1..] == calls[1..] + [c];
    }
  }

  lemma {:induction false} CrowdReached(n: nat) returns (calls: seq<KCall>, r: Kernel)
    requires n <= MAX_BLOCKED_PROCESSES
    ensures KRun(Kernel(Booted(), map[]), calls, r) && Crowd(r, n)
  {
    hide Booted;
    var k := Kernel(Booted(), map[]);
    if n == 0 {
      BootCrowd();
      calls, r := [KOpen(0, 0, true)], KStep(k, KOpen(0, 0, true));
      assert calls[1..] == [];
    } else {
      var before, m := CrowdReached(n - 1);
      hide Crowd;
      CrowdGrows(m, n - 1);
      var m1 := KStep(m, KNew(0, Enough));
      RunLonger(k, before, m, KNew(0, Enough));
      RunLonger(k, before + [KNew(0, Enough)], m1, KWait(0));
      calls, r := before + [KNew(0, Enough)] + [KWait(0)], KStep(m1, KWait(0));
    }
  }

  lemma BootCrowd()
    ensures var k := Kernel(Booted(), map[]);
            KEnabled(k, KOpen(0, 0, true)) && Crowd(KStep(k, KOpen(0, 0, true)), 0)
  {
    var k := Kernel(Booted(), map[]);
    BootInv();
    BootIsAlone();
    StepKeepsKInv(k, KOpen(0, 0, true));
  }

  // Processes that wait without having opened the semaphore fill the array: 20 of
  // them wait, and the 21st is about to be written behind its end.
  lemma TwentyFirstWaiter() returns (calls: seq<KCall>, r: Kernel)
    ensures KRun(Kernel(Booted(), map[]), calls, r) && r.sched.current.Running? && 0 in r.sems
    ensures |r.sems[0].waiting| == MAX_BLOCKED_PROCESSES && WaitBlocks(r.sems[0]) && !KEnabled(r, KWait(0))
    ensures |KStep(r, KWait(0)).sems[0].waiting| == MAX_BLOCKED_PROCESSES + 1
  {
    calls, r := CrowdReached(MAX_BLOCKED_PROCESSES);
  }

  // Both ways to lose a waiter are within reach of the running process: it kills the
  // one that waits, and then posts; or it closes the semaphore, which only the other
  // has opened.
  lemma WaiterLost() returns (calls: seq<KCall>, k: Kernel)
    ensures KRun(Kernel(Booted(), map[]), calls, k) && KInv(k) && k.sched.current.Running?
    ensures 0 in k.sems && |k.sems[0].waiting| == 1
    ensures var w := k.sems[0].waiting[0];
            var r := k.(sched := Kill(k.sched, w));
            && r.sched.current.Running?
            && KStep(r, KPost(0)) == r.(sems := r.sems[0 := Sem(0, [], 1)])
    ensures var r := k.(sems := SemClose(k.sems, 0));
            !KInv(r) && Blocked(r.sched, k.sems[0].waiting[0]) && KStep(r, KPost(0)) == r
  {
    calls, k := CrowdReached(1);
    KilledWaiterTakesToken(k, 0);
    LastCloseLosesWaiters(k, 0, 0);
    assert k.sems[0].(waiting := k.sems[0].waiting[1..]) == Sem(0, [], 1);
    hide KInv, KRun, Booted, Kill, Blocked;
  }
}
