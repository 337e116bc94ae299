// How long a process has the CPU: exactly as many ticks as its priority said when it
// was dispatched, and one more that takes it away.
module SchedulerSlices {
  import opened Scheduler
  import opened SchedulerTheorems

  // Calls after which the running process pid may go on: it is not blocked or killed,
  // gives nothing up, waits for nobody and starts no foreground child.
  predicate LetsRun(c: Call, pid: nat)
  {
    match c
    case CallYield => false
    case CallWait(_) => false
    case CallNew(foreground, _) => foreground != 1
    case _ => Spares(c, pid)
  }

  // pid runs, the base process included, and has this many cycles left.
  ghost predicate Runs(s: Sched, pid: nat, cycles: int)
  {
    s.IsCur(pid) && s.Cur().status == READY && s.cyclesLeft == cycles
  }

  lemma StepRuns(s: Sched, c: Call, pid: nat)
    requires Runs(s, pid, s.cyclesLeft) && LetsRun(c, pid) && (c.CallTick? ==> s.cyclesLeft > 0)
    ensures Runs(Step(s, c), pid, s.cyclesLeft - if c.CallTick? then 1 else 0)
  {
    hide Find, Dispatch, Park;
  }

  // Whatever happens to others meanwhile, each tick takes one cycle of it, and while
  // there are any the process stays on the CPU.
  lemma {:induction false} KeepsCpu(s: Sched, calls: seq<Call>, pid: nat)
    requires Runs(s, pid, s.cyclesLeft) && Ticks(calls) <= s.cyclesLeft
    requires forall i :: 0 <= i < |calls| ==> LetsRun(calls[i], pid)
    ensures Runs(After(s, calls), pid, s.cyclesLeft - Ticks(calls))
    decreases |calls|
  {
    hide Step;
    if calls != [] {
      StepRuns(s, calls[0], pid);
      KeepsCpu(Step(s, calls[0]), calls[1..], pid);
    }
  }

  lemma {:induction false} TicksOfPart(calls: seq<Call>, n: nat)
    requires n <= |calls|
    ensures Ticks(calls[..n]) <= Ticks(calls)
  {
    if n > 0 {
      TicksOfPart(calls[1..], n - 1);
      assert calls[..n][1..] == calls[1..][..n - 1];
    }
  }

  lemma KeepsCpuSoFar(s: Sched, calls: seq<Call>, pid: nat, n: nat)
    requires Runs(s, pid, s.cyclesLeft) && Ticks(calls) <= s.cyclesLeft && n <= |calls|
    requires forall i :: 0 <= i < |calls| ==> LetsRun(calls[i], pid)
    ensures After(s, calls[..n]).IsCur(pid)
  {
    hide Ticks, After, LetsRun;
    TicksOfPart(calls, n);
    KeepsCpu(s, calls[..n], pid);
  }

  // What a tick does to the queue of a process that has no cycle left.
  lemma Parks(s: Sched)
    requires !s.current.Nobody? && s.Cur().status == READY && s.cyclesLeft == 0
    ensures Tick(s) == Dispatch(s.(queue := s.queue + if s.current.Running? then [s.current.pcb] else []))
  {
    assert s.queue + [] == s.queue;
  }

  // Without a cycle left the process gives way to the first ready one in the queue.
  lemma GivesWay(s: Sched, pid: nat, k: nat)
    requires Inv(s) && Runs(s, pid, 0) && k < |s.queue| && s.queue[k].status == READY
    requires forall i :: 0 <= i < k ==> s.queue[i].status != READY
    ensures Tick(s).current == Running(s.queue[k]) && Tick(s).cyclesLeft == s.queue[k].priority
    ensures s.queue[k].pid != pid
  {
    Parks(s);
    var q := s.queue + if s.current.Running? then [s.current.pcb] else [];
    FirstReadyIs(q, k);
    QueuedOnce(s.queue, k);
    assert Places(s, s.queue[k].pid) <= 1;
  }

  // If nobody in the queue is ready it starts again, for as many cycles as its
  // priority is now.
  lemma StartsAgain(s: Sched, pid: nat)
    requires Runs(s, pid, 0) && forall i :: 0 <= i < |s.queue| ==> s.queue[i].status != READY
    ensures Tick(s).current == s.current && Tick(s).Cur() == s.Cur() && Tick(s).cyclesLeft == s.Cur().priority
  {
    Parks(s);
    if s.current.Running? {
      FirstReadyIs(s.queue + [s.current.pcb], |s.queue|);
    }
  }

  // A process that a dispatch puts on the CPU has it for exactly as many ticks as its
  // priority: until then it runs, and the next tick takes the CPU away if anybody
  // else is ready.
  lemma ExactSlice(s: Sched, calls: seq<Call>, pid: nat)
    requires Inv(Dispatch(s)) && Dispatch(s).IsCur(pid) && Dispatch(s).Cur().status == READY
    requires Ticks(calls) == Dispatch(s).Cur().priority
    requires forall i :: 0 <= i < |calls| ==> LetsRun(calls[i], pid)
    ensures forall n :: 0 <= n <= |calls| ==> After(Dispatch(s), calls[..n]).IsCur(pid)
    ensures var r := After(Dispatch(s), calls);
            Tick(r).IsCur(pid) <==> forall i :: 0 <= i < |r.queue| ==> r.queue[i].status != READY
  {
    hide Step, Tick, Inv, Ticks, After, LetsRun, FirstReady, OnlyBlocked, TerminatedPids;
    var d := Dispatch(s);
    assert Runs(d, pid, d.Cur().priority);
    forall n | 0 <= n <= |calls|
      ensures After(d, calls[..n]).IsCur(pid)
    {
      KeepsCpuSoFar(d, calls, pid, n);
    }
    KeepsCpu(d, calls, pid);
    RunKeepsInv(d, calls);
    var r := After(d, calls);
    if HasReady(r.queue) {
      GivesWay(r, pid, FirstReady(r.queue));
    } else {
      StartsAgain(r, pid);
    }
  }
}
