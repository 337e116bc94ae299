// The process manager as it runs, on linked nodes.  Each entry point is proved to do
// what Scheduler says; newProcess, dispatch loop and list walks are the code's own.
module ProcessManager {
  import opened Scheduler
  import opened SchedulerTheorems
  import opened ProcessQueue

  // A step of the dispatch loop: the head of the queue is not ready.
  function Skip(s: Sched): Sched
    requires s.queue != []
  {
    var p := s.queue[0];
    s.(queue := s.queue[1..] + (if p.status == BLOCKED then [p] else []),
       freed := s.freed + (if p.status == TERMINATED then [p.pid] else []))
  }

  // Skipping a process that is not ready does not change what is dispatched.
  lemma SkipKeepsDispatch(s: Sched)
    requires HasReady(s.queue) && s.queue[0].status != READY
    ensures HasReady(Skip(s).queue) && FirstReady(Skip(s).queue) == FirstReady(s.queue) - 1
    ensures Dispatch(Skip(s)) == Dispatch(s)
  {
    var q, k := s.queue, FirstReady(s.queue);
    var back := if q[0].status == BLOCKED then [q[0]] else [];
    SkipFindsTheSame(q, back, k);
    SkipSplits(q, back, k);
    hide FirstReady, HasReady, OnlyBlocked, TerminatedPids;
  }

  lemma SkipFindsTheSame(q: seq<Pcb>, back: seq<Pcb>, k: nat)
    requires 0 < k < |q| && q[k].status == READY && forall i :: 0 <= i < k ==> q[i].status != READY
    ensures HasReady(q[1..] + back) && FirstReady(q[1..] + back) == k - 1 && (q[1..] + back)[k - 1] == q[k]
  {
    FirstReadyIs(q[1..] + back, k - 1);
  }

  lemma SkipSplits(q: seq<Pcb>, back: seq<Pcb>, k: nat)
    requires 0 < k < |q| && back == if q[0].status == BLOCKED then [q[0]] else []
    ensures var r := q[1..] + back;
            r[k..] + OnlyBlocked(r[..k - 1]) == q[k + 1..] + OnlyBlocked(q[..k])
    ensures var dead := if q[0].status == TERMINATED then [q[0].pid] else [];
            forall freed: seq<nat> ::
              (freed + dead) + TerminatedPids((q[1..] + back)[..k - 1]) == freed + TerminatedPids(q[..k])
  {
    var r := q[1..] + back;
    assert r[..k - 1] == q[..k][1..];
    assert r[k..] == q[k + 1..] + back;
    assert OnlyBlocked(q[..k]) == back + OnlyBlocked(q[..k][1..]);
  }

  // Whether setState finds a process it may change.
  predicate Changeable(s: Sched, pid: nat)
  {
    if s.IsCur(pid) then s.Cur().status != TERMINATED
    else Find(s.queue, pid) < |s.queue| && s.queue[Find(s.queue, pid)].status != TERMINATED
  }

  // That is, whether a process with this pid is there, and not terminated.
  lemma ChangeableIff(s: Sched, pid: nat)
    requires Inv(s)
    ensures Changeable(s, pid) <==>
            || (!s.current.Nobody? && s.Cur().pid == pid && s.Cur().status != TERMINATED)
            || exists i :: 0 <= i < |s.queue| && s.queue[i].pid == pid && s.queue[i].status != TERMINATED
  {
    assert Places(s, pid) <= 1;
    forall i | 0 <= i < |s.queue| && s.queue[i].pid == pid
      ensures i == Find(s.queue, pid) && !s.IsCur(pid)
    {
      QueuedOnce(s.queue, i);
      if Find(s.queue, pid) < i {
        QueuedTwice(s.queue, Find(s.queue, pid), i);
      }
    }
  }

  class Manager {
    const processes: ProcessList
    const baseProcess: ProcessNode
    var currentProcess: ProcessNode?
    var cyclesLeft: nat
    var currentPID: nat
    ghost var freedNodes: set<ProcessNode>
    ghost var repr: set<ProcessNode>
    ghost var state: Sched

    // The linked queue holds nodes of ours that are alive; the base process is
    // alive and not queued.
    ghost predicate NodesInOrder()
      reads `repr, `freedNodes, processes, repr
    {
      && (forall n :: n in processes.nodes ==> n in repr && n !in freedNodes)
      && processes.Valid()
      && baseProcess in repr && baseProcess !in freedNodes && baseProcess !in processes.nodes
    }

    // Queue and counters are what the abstract state says.
    ghost predicate QueueShape()
      reads this, processes, repr
    {
      && NodesInOrder() && baseProcess.Value() == state.base
      && processes.contents == state.queue && state.cyclesLeft == cyclesLeft && state.nextPid == currentPID
    }

    // The node p is off the queue and alive; if the queue is empty it points nowhere.
    ghost predicate OffQueue(p: ProcessNode)
      reads `repr, `freedNodes, processes, p
    {
      && p in repr && p !in processes.nodes && p !in freedNodes
      && (processes.nodes == [] && p != baseProcess ==> p.next == null)
    }

    ghost function CurrentOf(): Current
      reads this, currentProcess
    {
      if currentProcess == null then Nobody
      else if currentProcess == baseProcess then Base
      else Running(currentProcess.Value())
    }

    ghost predicate Shape()
      reads this, processes, repr, currentProcess
    {
      QueueShape() && state.current == CurrentOf() && (currentProcess != null ==> OffQueue(currentProcess))
    }

    ghost predicate Valid()
      reads this, processes, repr, currentProcess
      ensures Valid() ==> Shape() && Inv(state)
      ensures Valid() ==> (currentProcess == null <==> state.current.Nobody?)
      ensures Valid() && currentProcess != null ==> currentProcess.pid == state.Cur().pid
    {
      Shape() && Inv(state)
    }

    // initializeProcessManager: the idle process is made, queued and taken off again.
    constructor ()
      ensures Valid() && state == Initial() && fresh(processes) && fresh(repr)
    {
      hide ReadyCount, Inv, Chain;
      InitialInv();
      var list := new ProcessList();
      var idle := new ProcessNode(Pcb(0, 0, false, READY, BACKGROUND_PRIORITY_DEFAULT));
      list.QueueProcess(idle);
      var b := list.DequeueProcess();
      processes := list;
      baseProcess := b;
      currentProcess, cyclesLeft, currentPID := null, 0, 1;
      freedNodes, repr := {}, {b};
      state := Initial();
    }

    // getProcess: the current process, or else the first queued one with that pid.
    method GetProcess(pid: nat) returns (r: ProcessNode?)
      requires Shape()
      ensures var k := Find(state.queue, pid);
              r == if state.IsCur(pid) then currentProcess
                   else if k < |processes.nodes| then processes.nodes[k] else null
    {
      if currentProcess != null && currentProcess.pid == pid {
        return currentProcess;
      }
      r := FindQueued(pid);
    }

    method FindQueued(pid: nat) returns (r: ProcessNode?)
      requires processes.Valid()
      ensures var k := Find(processes.contents, pid);
              r == if k < |processes.nodes| then processes.nodes[k] else null
    {
      hide ReadyCount;
      var process := processes.first;
      ghost var k := 0;
      while process != null
        invariant 0 <= k <= |processes.nodes|
        invariant process == if k < |processes.nodes| then processes.nodes[k] else null
        invariant k <= Find(processes.contents, pid)
        decreases |processes.nodes| - k
      {
        if process.pid == pid {
          return process;
        }
        assert process.next == NextOf(processes.nodes, k);
        process := process.next;
        k := k + 1;
      }
      return null;
    }

    // setState: readySize follows a queued process in and out of READY; the
    // current process is not queued and not counted.
    method SetState(pid: nat, newState: Status) returns (r: int)
      requires Shape()
      modifies `state, processes, repr
      ensures Shape() && state == Scheduler.SetState(old(state), pid, newState)
      ensures r == if Changeable(old(state), pid) then pid else -1
    {
      hide Find, ReadyCount, Chain;
      var process := GetProcess(pid);
      if process == null || process.status == TERMINATED {
        return -1;
      }
      if process == currentProcess {
        SetCurrentStatus(newState);
        return process.pid;
      }
      SetQueuedStatus(process, newState, Find(state.queue, pid));
      return process.pid;
    }

    method SetCurrentStatus(newState: Status)
      requires Shape() && currentProcess != null
      modifies `state, currentProcess`status
      ensures Shape() && state == old(state).WithCur(old(state).Cur().(status := newState))
    {
      hide ReadyCount, Chain;
      currentProcess.status := newState;
      state := state.WithCur(state.Cur().(status := newState));
    }

    method SetQueuedStatus(process: ProcessNode, newState: Status, ghost k: nat)
      requires Shape() && k < |processes.nodes| && process == processes.nodes[k]
      modifies `state, processes`readySize, processes`contents, process`status
      ensures Shape()
      ensures state == old(state).(queue := old(state).queue[k := old(state).queue[k].(status := newState)])
    {
      processes.Restate(process, newState, k);
      state := state.(queue := processes.contents);
    }

    // freeProcess gives back the memory of the node; it must not be given back
    // already, nor be in use.
    method FreeProcess(p: ProcessNode)
      requires NodesInOrder() && OffQueue(p) && p != baseProcess
      modifies `freedNodes
      ensures NodesInOrder() && freedNodes == old(freedNodes) + {p}
    {
      hide ReadyCount, Chain;
      freedNodes := freedNodes + {p};
    }

    method Enqueue(p: ProcessNode)
      requires NodesInOrder() && OffQueue(p) && p != baseProcess
      modifies processes, repr
      ensures NodesInOrder() && processes.contents == old(processes.contents) + [old(p.Value())]
      ensures forall n :: n in repr ==> n.Value() == old(n.Value())
      ensures processes.nodes == old(processes.nodes) + [p]
    {
      hide ReadyCount, Chain;
      processes.QueueProcess(p);
    }

    method TakeHead()
      requires NodesInOrder() && processes.contents != []
      modifies `currentProcess, processes
      ensures NodesInOrder() && currentProcess != null && currentProcess != baseProcess && OffQueue(currentProcess)
      ensures [currentProcess.Value()] + processes.contents == old(processes.contents)
    {
      hide ReadyCount, Chain;
      currentProcess := processes.DequeueProcess();
    }

    // processManager, the tick: one cycle less for a process that has any left,
    // otherwise a change of process.
    method Tick()
      requires Valid()
      modifies this, processes, repr
      ensures Valid() && state == Scheduler.Tick(old(state))
      ensures currentProcess != null && repr == old(repr)
    {
      hide Inv, ReadyCount, Chain, Find;
      StepKeepsInv(state, CallTick);
      if currentProcess != null {
        if currentProcess.status == READY && cyclesLeft > 0 {
          cyclesLeft := cyclesLeft - 1;
          state := state.(cyclesLeft := cyclesLeft);
          return;
        }
        BaseByPid(state);
        if currentProcess.pid != baseProcess.pid {
          Park();
        }
      }
      DispatchNext();
    }

    // The current process leaves the CPU.
    method Park()
      requires Shape() && currentProcess != null && currentProcess != baseProcess
      modifies `state, `freedNodes, processes, repr
      ensures QueueShape() && state == Scheduler.Park(old(state))
    {
      hide NodesInOrder, OffQueue, Find, Scheduler.SetState;
      if currentProcess.status == TERMINATED {
        WakeParent();
        FreeProcess(currentProcess);
        state := state.(freed := state.freed + [currentProcess.pid]);
      } else {
        Enqueue(currentProcess);
        state := state.(queue := processes.contents);
      }
    }

    // A terminated foreground process wakes the parent that is blocked on it.
    method WakeParent()
      requires Shape() && currentProcess != null && currentProcess != baseProcess && currentProcess.status == TERMINATED
      modifies `state, processes, repr
      ensures Shape()
      ensures state.(freed := state.freed + [currentProcess.pid]) == Scheduler.Park(old(state))
    {
      hide ReadyCount, Chain;
      var parent := GetProcess(currentProcess.ppid);
      if parent != null && currentProcess.foreground && parent.status == BLOCKED {
        var r := SetState(parent.pid, READY);
      }
    }

    // The next process: the first ready one, else the base process.
    method DispatchNext()
      requires QueueShape()
      modifies this, processes, repr
      ensures Shape() && state == Scheduler.Dispatch(old(state))
      ensures currentProcess != null && repr == old(repr)
    {
      hide ReadyCount, Chain, FirstReady;
      ReadyCountPositive(state.queue);
      if processes.readySize > 0 {
        PickReady();
      } else {
        currentProcess := baseProcess;
      }
      cyclesLeft := currentProcess.priority;
      state := Scheduler.Dispatch(state);
    }

    // The dispatch loop.
    method PickReady()
      requires QueueShape() && HasReady(state.queue)
      modifies `currentProcess, `freedNodes, processes, repr
      ensures currentProcess != null && OffQueue(currentProcess) && currentProcess != baseProcess && NodesInOrder()
      ensures Running(currentProcess.Value()) == Scheduler.Dispatch(state).current
      ensures processes.contents == Scheduler.Dispatch(state).queue && baseProcess.Value() == old(baseProcess.Value())
    {
      hide NodesInOrder, OffQueue, FirstReady, Scheduler.Dispatch;
      ghost var s := state;
      TakeHead();
      while currentProcess.status != READY
        invariant NodesInOrder() && Holding(s) && baseProcess.Value() == old(baseProcess.Value())
        invariant HasReady(s.queue) && Scheduler.Dispatch(s) == Scheduler.Dispatch(state)
        decreases FirstReady(s.queue)
      {
        SkipKeepsDispatch(s);
        SkipOne(s);
        s := Skip(s);
      }
      HeadIsDispatched(s);
    }

    // In the dispatch loop: the current process is the head of s's queue, already
    // taken off; the linked queue holds the others.
    ghost predicate Holding(s: Sched)
      reads this, processes, currentProcess
    {
      && currentProcess != null && currentProcess != baseProcess && OffQueue(currentProcess)
      && s.queue == [currentProcess.Value()] + processes.contents
    }

    // The body of the dispatch loop.  A freed node is not looked at again.
    method SkipOne(ghost s: Sched)
      requires NodesInOrder() && Holding(s) && currentProcess.status != READY && HasReady(s.queue)
      modifies `currentProcess, `freedNodes, processes, repr
      ensures NodesInOrder() && Holding(Skip(s)) && baseProcess.Value() == old(baseProcess.Value())
    {
      hide NodesInOrder, OffQueue;
      SkipKeepsDispatch(s);
      assert s.queue[0] == currentProcess.Value() && s.queue[1..] == processes.contents;
      if currentProcess.status == TERMINATED {
        FreeProcess(currentProcess);
      }
      if currentProcess.status == BLOCKED {
        Enqueue(currentProcess);
      }
      assert processes.contents == Skip(s).queue;
      TakeHead();
    }

    // killProcess and blockProcess give up the CPU when the target is current.
    method KillProcess(pid: nat) returns (r: int)
      requires Valid() && currentProcess != null
      modifies this, processes, repr
      ensures Valid() && state == Scheduler.Kill(old(state), pid) && currentProcess != null && repr == old(repr)
      ensures r == if Changeable(old(state), pid) then pid else -1
    {
      r := ChangeAndYield(pid, TERMINATED);
    }

    method BlockProcess(pid: nat) returns (r: int)
      requires Valid() && currentProcess != null
      modifies this, processes, repr
      ensures Valid() && state == Scheduler.Block(old(state), pid) && currentProcess != null && repr == old(repr)
      ensures r == if Changeable(old(state), pid) then pid else -1
    {
      r := ChangeAndYield(pid, BLOCKED);
    }

    method ChangeAndYield(pid: nat, newState: Status) returns (r: int)
      requires Valid() && currentProcess != null
      modifies this, processes, repr
      ensures Valid() && currentProcess != null && repr == old(repr)
      ensures var s := Scheduler.SetState(old(state), pid, newState);
              state == if old(state).IsCur(pid) then Scheduler.Tick(s) else s
      ensures r == if Changeable(old(state), pid) then pid else -1
    {
      hide NodesInOrder, OffQueue, Inv, Scheduler.Tick;
      StepKeepsInv(state, CallSetState(pid, newState));
      CurStays(state, pid, newState);
      r := SetState(pid, newState);
      if pid == currentProcess.pid {
        Tick();
      }
    }

    method ReadyProcess(pid: nat) returns (r: int)
      requires Valid()
      modifies `state, processes, repr
      ensures Valid() && state == Scheduler.SetState(old(state), pid, READY)
      ensures r == if Changeable(old(state), pid) then pid else -1
    {
      hide NodesInOrder, OffQueue, Inv, Scheduler.SetState;
      StepKeepsInv(state, CallSetState(pid, READY));
      r := SetState(pid, READY);
    }

    method Yield()
      requires Valid()
      modifies this, processes, repr
      ensures Valid() && state == Scheduler.Yield(old(state)) && currentProcess != null && repr == old(repr)
    {
      hide NodesInOrder, OffQueue, Scheduler.Tick;
      SliceInv(state);
      hide Inv;
      cyclesLeft := 0;
      state := state.(cyclesLeft := 0);
      Tick();
    }

    method SetPriority(pid: nat, newPriority: int)
      requires Valid()
      modifies `state, processes, repr
      ensures Valid() && state == Scheduler.SetPriority(old(state), pid, newPriority)
    {
      hide Inv, ReadyCount, Chain, Find;
      StepKeepsInv(state, CallSetPriority(pid, newPriority));
      var clamped := newPriority;
      if clamped < 0 {
        clamped := 0;
      }
      if clamped > MAX_PRIORITY {
        clamped := MAX_PRIORITY;
      }
      var p := GetProcess(pid);
      if p != null {
        Reprioritise(p, clamped, Find(state.queue, pid));
      }
    }

    method Reprioritise(p: ProcessNode, priority: nat, ghost k: nat)
      requires Shape() && (p == currentProcess || (k < |processes.nodes| && p == processes.nodes[k]))
      modifies `state, processes`contents, p`priority
      ensures Shape()
      ensures state == if p == currentProcess then old(state).WithCur(old(state).Cur().(priority := priority))
                       else old(state).(queue := old(state).queue[k := old(state).queue[k].(priority := priority)])
    {
      hide ReadyCount, Chain;
      if p == currentProcess {
        p.priority := priority;
        state := state.WithCur(state.Cur().(priority := priority));
      } else {
        processes.Reprioritise(p, priority, k);
        state := state.(queue := processes.contents);
      }
    }

    // wait: the child is made a foreground one, so that its end wakes the caller.
    method Wait(pid: nat)
      requires Valid() && currentProcess != null
      modifies this, processes, repr
      ensures Valid() && state == Scheduler.Wait(old(state), pid) && currentProcess != null && repr == old(repr)
    {
      var process := GetProcess(pid);
      if process != null {
        ForegroundInv(state, pid);
        hide Inv, ReadyCount, Chain, Find, Scheduler.Block;
        MakeForeground(process, Find(state.queue, pid));
        var r := BlockProcess(currentProcess.pid);
      }
    }

    method MakeForeground(p: ProcessNode, ghost k: nat)
      requires Shape() && (p == currentProcess || (k < |processes.nodes| && p == processes.nodes[k]))
      modifies `state, processes`contents, p`foreground
      ensures Shape()
      ensures state == if p == currentProcess then old(state).WithCur(old(state).Cur().(foreground := true))
                       else old(state).(queue := old(state).queue[k := old(state).queue[k].(foreground := true)])
    {
      hide ReadyCount, Chain;
      if p == currentProcess {
        p.foreground := true;
        state := state.WithCur(state.Cur().(foreground := true));
      } else {
        processes.Foreground(p, k);
        state := state.(queue := processes.contents);
      }
    }

    // newProcess.  The pid is taken before anything that can still fail.
    method NewProcess(foreground: nat, memory: Memory) returns (r: int)
      requires Valid()
      modifies this, processes, repr
      ensures Valid() && state == Scheduler.NewProcess(old(state), foreground, memory)
      ensures old(repr) <= repr && fresh(repr - old(repr))
      ensures r == if Born(CallNew(foreground, memory)) then old(currentPID) else -1
    {
      hide NodesInOrder, OffQueue, Inv, Scheduler.Block;
      if memory.NoNode? {
        return -1;
      }
      StepKeepsInv(state, CallNew(foreground, NoStack));
      if foreground > 1 || !memory.Enough? {
        currentPID := currentPID + 1;
        state := state.(nextPid := currentPID);
        return -1;
      }
      EnqueueInv(state, Child(state, foreground));
      var child := AddNode(foreground);
      r := child.pid;
      if child.foreground && child.ppid != 0 {
        var b := BlockProcess(child.ppid);
      }
    }

    // newProcess once everything is allocated: the control block is filled in and
    // the node queued.
    method AddNode(foreground: nat) returns (p: ProcessNode)
      requires Shape() && foreground <= 1
      modifies this, processes, repr
      ensures Shape()
      ensures state == old(state).(nextPid := old(state).nextPid + 1,
                                   queue := old(state).queue + [Child(old(state), foreground)])
      ensures p.Value() == Child(old(state), foreground)
      ensures old(repr) <= repr && fresh(repr - old(repr)) && currentProcess == old(currentProcess)
    {
      hide NodesInOrder, OffQueue;
      p := MakeNode(foreground);
      Join(p);
    }

    method MakeNode(foreground: nat) returns (p: ProcessNode)
      requires Shape() && foreground <= 1
      modifies `currentPID, `repr, `state
      ensures Shape() && state == old(state).(nextPid := old(state).nextPid + 1)
      ensures p.Value() == Child(old(state), foreground)
      ensures OffQueue(p) && p != baseProcess && p != currentProcess
      ensures repr == old(repr) + {p} && fresh(p)
    {
      hide ReadyCount, Chain;
      var fg := if currentProcess == null then foreground == 1
                else currentProcess.foreground && foreground == 1;
      p := new ProcessNode(Pcb(currentPID, if currentProcess == null then 0 else currentProcess.pid, fg, READY,
        if fg then FOREGROUND_PRIORITY_DEFAULT else BACKGROUND_PRIORITY_DEFAULT));
      currentPID := currentPID + 1;
      repr := repr + {p};
      state := state.(nextPid := currentPID);
    }

    method Join(p: ProcessNode)
      requires Shape() && OffQueue(p) && p != baseProcess && p != currentProcess
      modifies `state, processes, repr
      ensures Shape() && state == old(state).(queue := old(state).queue + [old(p.Value())])
      ensures p.Value() == old(p.Value())
    {
      hide ReadyCount, Chain;
      Enqueue(p);
      state := state.(queue := processes.contents);
    }
  }

  lemma SliceInv(s: Sched)
    requires Inv(s)
    ensures Inv(s.(cyclesLeft := 0))
  {
    forall p: nat ensures Places(s.(cyclesLeft := 0), p) == Places(s, p) {
    }
  }

  lemma CurStays(s: Sched, pid: nat, status: Status)
    requires !s.current.Nobody?
    ensures var r := SetState(s, pid, status);
            !r.current.Nobody? && r.Cur().pid == s.Cur().pid
  {
  }

  // A process with a new pid and a bounded priority may join the queue.
  lemma EnqueueInv(s: Sched, p: Pcb)
    requires Inv(s) && p.pid == s.nextPid && p.priority <= MAX_PRIORITY
    ensures Inv(s.(nextPid := s.nextPid + 1, queue := s.queue + [p]))
  {
    hide Places;
    var r := s.(nextPid := s.nextPid + 1, queue := s.queue + [p]);
    forall pid: nat ensures Places(r, pid) <= (if pid < r.nextPid then 1 else 0) {
      EnqueuePlaces(s, p, pid);
      assert Places(s, pid) <= (if pid < s.nextPid then 1 else 0);
    }
  }

  lemma HeadIsDispatched(s: Sched)
    requires s.queue != [] && s.queue[0].status == READY
    ensures Dispatch(s).current == Running(s.queue[0]) && Dispatch(s).queue == s.queue[1..]
  {
    FirstReadyIs(s.queue, 0);
  }

  // The pid tells the base process from all others.
  lemma BaseByPid(s: Sched)
    requires Inv(s)
    ensures s.current.Running? ==> s.current.pcb.pid != s.base.pid
  {
    assert Places(s, s.base.pid) <= 1;
  }
}
