// What the calls that name a process do to it, and that they do it to no other: by
// position in the queue for the ones that change a field, by pid for the ones that also
// change who runs.
module KernelCalls {
  import opened Scheduler
  import opened SchedulerTheorems
  import opened SchedulerView
  import opened KernelSync

  // The control block with this pid: the current process, or a queued one.
  function Known(s: Sched, pid: nat): Found
  {
    if s.IsCur(pid) then Found(s.Cur()) else Proc(s, pid)
  }

  // From s to r the control block of pid has become p, wherever it is; queue, CPU and
  // counters are as they were.
  ghost predicate OnlyThis(s: Sched, r: Sched, pid: nat, p: Pcb)
  {
    && r.cyclesLeft == s.cyclesLeft && r.nextPid == s.nextPid && r.freed == s.freed
    && |r.queue| == |s.queue|
    && (forall i :: 0 <= i < |s.queue| ==> r.queue[i] == if s.queue[i].pid == pid then p else s.queue[i])
    && r.current == (if s.current.Running? && s.current.pcb.pid == pid then Running(p) else s.current)
    && r.base == (if s.current.Base? && s.base.pid == pid then p else s.base)
  }

  // Elsewhere than at its one place no control block has this pid.
  lemma NowhereElse(s: Sched, pid: nat)
    requires Inv(s)
    ensures s.IsCur(pid) ==> forall i :: 0 <= i < |s.queue| ==> s.queue[i].pid != pid
    ensures Known(s, pid) == NotFound ==> forall i :: 0 <= i < |s.queue| ==> s.queue[i].pid != pid
    ensures forall i :: 0 <= i < |s.queue| && s.queue[i].pid == pid ==> i == Find(s.queue, pid)
  {
    BaseIsApart(s);
    if s.current.Running? {
      CurrentNotQueued(s);
    }
    assert Places(s, pid) <= 1;
    forall i | 0 <= i < |s.queue| && s.queue[i].pid == pid
      ensures i == Find(s.queue, pid)
    {
      if Find(s.queue, pid) < i {
        QueuedTwice(s.queue, Find(s.queue, pid), i);
      }
    }
  }

  // setState, and so kill, block and ready as far as they concern the target: a
  // process that is there and not terminated changes its state, otherwise nothing does.
  lemma SetStateEffect(s: Sched, pid: nat, status: Status)
    requires Inv(s)
    ensures var k, r := Known(s, pid), SetState(s, pid, status);
            if k.Found? && k.pcb.status != TERMINATED then OnlyThis(s, r, pid, k.pcb.(status := status)) else r == s
  {
    NowhereElse(s, pid);
    hide Inv;
  }

  // kill and block: the target changes its state, and exactly if it runs a tick follows.
  lemma KillAndBlock(s: Sched, pid: nat)
    requires Inv(s) && Known(s, pid).Found? && Known(s, pid).pcb.status != TERMINATED
    ensures exists m :: OnlyThis(s, m, pid, Known(s, pid).pcb.(status := TERMINATED))
                        && Kill(s, pid) == if s.IsCur(pid) then Tick(m) else m
    ensures exists m :: OnlyThis(s, m, pid, Known(s, pid).pcb.(status := BLOCKED))
                        && Block(s, pid) == if s.IsCur(pid) then Tick(m) else m
  {
    SetStateEffect(s, pid, TERMINATED);
    SetStateEffect(s, pid, BLOCKED);
    hide Inv, OnlyThis, Tick, SetState;
    assert OnlyThis(s, SetState(s, pid, TERMINATED), pid, Known(s, pid).pcb.(status := TERMINATED));
    assert OnlyThis(s, SetState(s, pid, BLOCKED), pid, Known(s, pid).pcb.(status := BLOCKED));
  }

  function Distance(a: int, b: int): nat
  {
    if a < b then b - a else a - b
  }

  // setPriority: the process gets the priority from 0 to 50 that is nearest to the one
  // asked for.
  lemma SetPriorityEffect(s: Sched, pid: nat, priority: int) returns (v: nat)
    requires Inv(s)
    ensures v <= 50 && forall w: nat :: w <= 50 ==> Distance(v, priority) <= Distance(w, priority)
    ensures var k, r := Known(s, pid), SetPriority(s, pid, priority);
            if k.Found? then OnlyThis(s, r, pid, k.pcb.(priority := v)) else r == s
  {
    v := Clamp(priority);
    NowhereElse(s, pid);
    hide Inv;
  }

  // ----- newProcess -----

  // The new process is ready and a child of the caller.  It is a foreground one exactly
  // if that was asked for by a foreground process, which is then blocked; its priority
  // is 2 or 1 accordingly.  Nobody else changes.
  lemma NewChild(s: Sched, foreground: nat)
    requires SchedInv(s) && foreground <= 1
    ensures var r, me := NewProcess(s, foreground, Enough), s.Cur();
            && SchedInv(r) && r.nextPid == s.nextPid + 1
            && Proc(s, s.nextPid) == NotFound && Proc(r, s.nextPid).Found?
            && var child := Proc(r, s.nextPid).pcb;
            && child.pid == s.nextPid && child.ppid == me.pid && child.status == READY
            && (child.foreground <==> foreground == 1 && me.foreground)
            && child.priority == (if child.foreground then 2 else 1)
            && (child.foreground ==> Blocked(r, me.pid))
            && forall pid: nat :: pid != s.nextPid && (pid == me.pid ==> !child.foreground) ==>
                 Proc(r, pid) == Proc(s, pid)
  {
    var me := s.Cur();
    if s.current.Running? {
      NewView(s, foreground);
      assert Proc(s, me.pid) == Found(me);
    } else {
      NextIsNew(s);
      var child := Child(s, foreground);
      JoinInv(s, child);
      forall pid: nat
        ensures Proc(NewProcess(s, foreground, Enough), pid) == if pid == child.pid then Found(child) else Proc(s, pid)
      {
        JoinView(s, child, pid);
      }
    }
  }

  // Without a caller, as at the start of the kernel, the child has parent 0.
  lemma FirstChild(foreground: nat)
    requires foreground <= 1
    ensures NewProcess(Initial(), foreground, Enough) ==
            Initial().(nextPid := 2, queue := [Pcb(1, 0, foreground == 1, READY, if foreground == 1 then 2 else 1)])
  {
  }

  // The base process is what newProcess makes of an idle process in an empty system,
  // once it is taken off the queue.
  lemma IdleIsFirst(nobody: Pcb)
    ensures var s := NewProcess(Sched(nobody, Nobody, 0, [], 0, []), 0, Enough);
            Initial() == s.(base := s.queue[0], queue := [])
  {
  }

  // When newProcess fails it has at most used up a pid.
  lemma NewFails(s: Sched, foreground: nat, memory: Memory)
    requires foreground > 1 || !memory.Enough?
    ensures NewProcess(s, foreground, memory) == s.(nextPid := if memory.NoNode? then s.nextPid else s.nextPid + 1)
  {
  }

  // ----- wait -----

  function InForeground(f: Found): Found
  {
    if f.Found? then Found(f.pcb.(foreground := true)) else f
  }

  lemma ForegroundView(s: Sched, target: nat)
    requires SchedInv(s) && s.current.Running? && Known(s, target).Found?
    ensures var k := Find(s.queue, target);
            var m := if s.IsCur(target) then s.WithCur(s.Cur().(foreground := true))
                     else s.(queue := s.queue[k := s.queue[k].(foreground := true)]);
            && SchedInv(m) && m.current.Running? && m.Cur().pid == s.Cur().pid
            && forall pid: nat :: Proc(m, pid) == if pid == target then InForeground(Proc(s, pid)) else Proc(s, pid)
  {
    var k := Find(s.queue, target);
    ForegroundInv(s, target);
    if !s.IsCur(target) {
      forall pid: nat
        ensures Find(s.queue[k := s.queue[k].(foreground := true)], pid) == Find(s.queue, pid)
      {
        FindUpdate(s.queue, k, s.queue[k].(foreground := true), pid);
      }
    }
    hide Inv;
  }

  // wait: the process named becomes a foreground one and the caller is blocked; if
  // there is no such process nothing changes.
  lemma WaitView(s: Sched, target: nat)
    requires SchedInv(s) && s.current.Running?
    ensures Known(s, target) == NotFound ==> Wait(s, target) == s
    ensures Known(s, target).Found? ==>
              && SchedInv(Wait(s, target))
              && forall pid: nat :: Proc(Wait(s, target), pid) ==
                   var f := if pid == target then InForeground(Proc(s, pid)) else Proc(s, pid);
                   if pid == s.Cur().pid then WithStatus(f, BLOCKED) else f
  {
    if Known(s, target).Found? {
      ForegroundView(s, target);
      var k := Find(s.queue, target);
      var m := if s.IsCur(target) then s.WithCur(s.Cur().(foreground := true))
               else s.(queue := s.queue[k := s.queue[k].(foreground := true)]);
      hide SchedInv, Block;
      BlockCurrent(m);
      assert Wait(s, target) == Block(m, m.Cur().pid);
    }
  }
}
