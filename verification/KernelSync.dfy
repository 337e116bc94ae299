// Semaphores and scheduler together, in runs made of system calls of the running
// process - each atomic up to the point where it blocks - and timer ticks.
module KernelSync {
  import opened Sequences
  import opened Scheduler
  import opened SchedulerTheorems
  import opened SchedulerView
  import opened Semaphore

  datatype Kernel = Kernel(sched: Sched, sems: map<nat, Sem>)

  datatype KCall =
    | KTick
    | KYield
    | KNew(foreground: nat, memory: Memory)
    | KEnd
    | KPriority(pid: nat, priority: int)
    | KOpen(id: nat, value: nat, room: bool)
    | KClose(id: nat)
    | KWait(id: nat)
    | KPost(id: nat)

  // The base process only idles.  A wait finds room in the array of waiters; the
  // last listener does not close a semaphore that others wait on.
  predicate KEnabled(k: Kernel, c: KCall)
  {
    match c
    case KTick => true
    case KWait(id) =>
      && k.sched.current.Running?
      && (id in k.sems && WaitBlocks(k.sems[id]) ==> |k.sems[id].waiting| < MAX_BLOCKED_PROCESSES)
    case KClose(id) =>
      && k.sched.current.Running?
      && (id in k.sems && k.sems[id].listening <= 1 ==> k.sems[id].waiting == [])
    case _ => k.sched.current.Running?
  }

  function SemOpen(sems: map<nat, Sem>, id: nat, value: nat, room: bool): map<nat, Sem>
  {
    if id !in sems && !room then sems
    else
      var s := if id in sems then sems[id] else Created(value);
      if s.listening >= MAX_BLOCKED_PROCESSES then sems[id := s] else sems[id := s.(listening := s.listening + 1)]
  }

  function SemClose(sems: map<nat, Sem>, id: nat): map<nat, Sem>
  {
    if id !in sems then sems
    else
      var s := sems[id].(listening := if sems[id].listening > 0 then sems[id].listening - 1 else 0);
      if s.listening == 0 then sems - {id} else sems[id := s]
  }

  function KStep(k: Kernel, c: KCall): Kernel
    requires c.KTick? || !k.sched.current.Nobody?
  {
    match c
    case KTick => k.(sched := Tick(k.sched))
    case KYield => k.(sched := Yield(k.sched))
    case KNew(f, m) => k.(sched := NewProcess(k.sched, f, m))
    case KEnd => k.(sched := Kill(k.sched, k.sched.Cur().pid))
    case KPriority(pid, p) => k.(sched := SetPriority(k.sched, pid, p))
    case KOpen(id, value, room) => k.(sems := SemOpen(k.sems, id, value, room))
    case KClose(id) => k.(sems := SemClose(k.sems, id))
    case KWait(id) =>
      if id !in k.sems then k
      else
        var pid := k.sched.Cur().pid;
        var sems := k.sems[id := Semaphore.Wait(k.sems[id], pid)];
        Kernel(if WaitBlocks(k.sems[id]) then Block(k.sched, pid) else k.sched, sems)
    case KPost(id) =>
      if id !in k.sems then k
      else
        var sems := k.sems[id := Post(k.sems[id])];
        Kernel(if PostWakes(k.sems[id]) then SetState(k.sched, k.sems[id].waiting[0], READY) else k.sched, sems)
  }

  // ----- the invariant -----

  ghost predicate Blocked(s: Sched, pid: nat)
  {
    Proc(s, pid).Found? && Proc(s, pid).pcb.status == BLOCKED
  }

  ghost predicate WaitsOn(sems: map<nat, Sem>, id: nat, pid: nat)
  {
    id in sems && pid in sems[id].waiting
  }

  // Process p cannot go on before its foreground child c ends.
  ghost predicate WaitsForChild(s: Sched, p: nat, c: nat)
  {
    Proc(s, c).Found? && Proc(s, c).pcb.foreground && Proc(s, c).pcb.ppid == p && p != 0
  }

  ghost predicate SchedInv(s: Sched)
  {
    Inv(s) && RunsReady(s) && NoneTerminatedQueued(s) && s.base.pid == 0 && !s.base.foreground
  }

  ghost predicate SemsInv(sems: map<nat, Sem>)
  {
    && (forall id :: id in sems ==>
          Distinct(sems[id].waiting) && Coherent(sems[id]) && |sems[id].waiting| <= MAX_BLOCKED_PROCESSES)
    && forall i, j, pid :: WaitsOn(sems, i, pid) && WaitsOn(sems, j, pid) ==> i == j
  }

  // Whoever is in an array of waiters, or is the parent of a live foreground
  // process, is blocked, for that one reason; and whoever is blocked is so for
  // one of the two reasons.
  ghost predicate ReasonsInv(s: Sched, sems: map<nat, Sem>)
  {
    && (forall id, pid :: WaitsOn(sems, id, pid) ==> Blocked(s, pid))
    && (forall p, c :: WaitsForChild(s, p, c) ==> Blocked(s, p))
    && (forall id, p, c :: WaitsOn(sems, id, p) && WaitsForChild(s, p, c) ==> false)
    && (forall p, c, d :: WaitsForChild(s, p, c) && WaitsForChild(s, p, d) ==> c == d)
    && (forall p :: Blocked(s, p) ==> (exists id :: WaitsOn(sems, id, p)) || exists c :: WaitsForChild(s, p, c))
  }

  ghost predicate KInv(k: Kernel)
  {
    SchedInv(k.sched) && SemsInv(k.sems) && ReasonsInv(k.sched, k.sems)
  }

  // ----- calls that change nothing by pid -----

  // The same processes with the same status and parent; priorities may differ.
  ghost predicate SameView(s: Sched, r: Sched)
  {
    forall pid: nat :: SameProc(Proc(s, pid), Proc(r, pid))
  }

  predicate SameProc(f: Found, g: Found)
  {
    f.Found? == g.Found? && (f.Found? ==> g.pcb == f.pcb.(priority := g.pcb.priority))
  }

  lemma SameViewReasons(s: Sched, r: Sched, sems: map<nat, Sem>)
    requires SameView(s, r) && ReasonsInv(s, sems)
    ensures ReasonsInv(r, sems)
  {
    forall p: nat ensures Blocked(r, p) == Blocked(s, p) {
      assert SameProc(Proc(s, p), Proc(r, p));
    }
    forall p: nat, c: nat ensures WaitsForChild(r, p, c) == WaitsForChild(s, p, c) {
      assert SameProc(Proc(s, c), Proc(r, c));
    }
  }

  lemma TickSame(s: Sched)
    requires SchedInv(s)
    ensures SchedInv(Tick(s)) && SameView(s, Tick(s))
  {
    StepKeepsInv(s, CallTick);
    forall pid: nat ensures Proc(Tick(s), pid) == Proc(s, pid) {
      TickView(s, pid);
    }
    TickView(s, 0);
    TickBase(s);
  }

  lemma TickBase(s: Sched)
    ensures Tick(s).base == s.base
  {
  }

  lemma PrioritySame(s: Sched, target: nat, priority: int)
    requires SchedInv(s)
    ensures SchedInv(SetPriority(s, target, priority)) && SameView(s, SetPriority(s, target, priority))
  {
    StepKeepsInv(s, CallSetPriority(target, priority));
    var r := SetPriority(s, target, priority);
    var k := Find(s.queue, target);
    forall pid: nat ensures SameProc(Proc(s, pid), Proc(r, pid)) {
      if !s.IsCur(target) && k < |s.queue| {
        FindUpdate(s.queue, k, s.queue[k].(priority := Clamp(priority)), pid);
      }
    }
  }

  // ----- calls that block, wake, create or end a process -----

  // The current process goes from ready to blocked; by pid, nothing else changes.
  ghost predicate OneChanged(s: Sched, r: Sched, target: nat, status: Status)
  {
    forall pid: nat :: Proc(r, pid) == if pid == target then WithStatus(Proc(s, pid), status) else Proc(s, pid)
  }

  lemma BlockCurrent(s: Sched)
    requires SchedInv(s) && s.current.Running?
    ensures var r := Block(s, s.Cur().pid);
            SchedInv(r) && OneChanged(s, r, s.Cur().pid, BLOCKED)
  {
    var me := s.Cur().pid;
    BaseIsApart(s);
    StepKeepsInv(s, CallBlock(me));
    var s1 := SetState(s, me, BLOCKED);
    StepKeepsInv(s, CallSetState(me, BLOCKED));
    hide Inv, Tick, NoneTerminatedQueued;
    NoneTerminatedBlock(s);
    forall pid: nat
      ensures Proc(Tick(s1), pid) == if pid == me then WithStatus(Proc(s, pid), BLOCKED) else Proc(s, pid)
    {
      SetStateView(s, me, BLOCKED, pid);
      TickView(s1, pid);
    }
    TickView(s1, 0);
    TickBase(s1);
  }

  lemma NoneTerminatedBlock(s: Sched)
    requires NoneTerminatedQueued(s) && s.current.Running? && s.Cur().status == READY
    ensures var s1 := SetState(s, s.Cur().pid, BLOCKED);
            NoneTerminatedQueued(s1) && s1.base == s.base && s1.current.Running?
            && s1.current.pcb == s.current.pcb.(status := BLOCKED)
  {
  }

  // semWait that blocks.
  lemma WaitReasons(s: Sched, r: Sched, sems: map<nat, Sem>, id: nat)
    requires SchedInv(s) && s.current.Running? && SemsInv(sems) && ReasonsInv(s, sems)
    requires id in sems && WaitBlocks(sems[id]) && |sems[id].waiting| < MAX_BLOCKED_PROCESSES
    requires OneChanged(s, r, s.Cur().pid, BLOCKED)
    ensures var sems' := sems[id := Semaphore.Wait(sems[id], s.Cur().pid)];
            SemsInv(sems') && ReasonsInv(r, sems')
  {
    var me := s.Cur().pid;
    var sems' := sems[id := Semaphore.Wait(sems[id], me)];
    assert !Blocked(s, me);
    forall i, p: nat ensures WaitsOn(sems', i, p) <==> WaitsOn(sems, i, p) || (i == id && p == me) {
    }
    forall p: nat ensures Blocked(r, p) <==> Blocked(s, p) || p == me {
      assert Proc(s, me).Found?;
    }
    forall p: nat, c: nat ensures WaitsForChild(r, p, c) == WaitsForChild(s, p, c) {
    }
    assert SemsInv(sems') by {
      assert !WaitsOn(sems, id, me);
    }
    forall p: nat | Blocked(r, p)
      ensures (exists i :: WaitsOn(sems', i, p)) || exists c :: WaitsForChild(r, p, c)
    {
      if p == me {
        assert WaitsOn(sems', id, me);
      } else if i :| WaitsOn(sems, i, p) {
        assert WaitsOn(sems', i, p);
      } else {
        var c :| WaitsForChild(s, p, c);
        assert WaitsForChild(r, p, c);
      }
    }
  }

  // semPost that wakes: only the longest waiter changes, from blocked to ready.
  lemma WakeReasons(s: Sched, r: Sched, sems: map<nat, Sem>, id: nat)
    requires SchedInv(s) && SemsInv(sems) && ReasonsInv(s, sems)
    requires id in sems && PostWakes(sems[id])
    requires OneChanged(s, r, sems[id].waiting[0], READY)
    ensures var sems' := sems[id := Post(sems[id])];
            SemsInv(sems') && ReasonsInv(r, sems')
  {
    var w := sems[id].waiting[0];
    var rest := sems[id].waiting[1..];
    var sems' := sems[id := Post(sems[id])];
    assert WaitsOn(sems, id, w);
    assert Distinct(sems[id].waiting);
    assert sems[id].waiting == [w] + rest;
    forall i, p: nat ensures WaitsOn(sems', i, p) <==> WaitsOn(sems, i, p) && p != w {
      assert WaitsOn(sems, i, w) ==> i == id;
    }
    assert SemsInv(sems');
    forall p: nat ensures Blocked(r, p) <==> Blocked(s, p) && p != w {
    }
    forall p: nat, c: nat ensures WaitsForChild(r, p, c) == WaitsForChild(s, p, c) {
    }
    forall p: nat | Blocked(r, p)
      ensures (exists i :: WaitsOn(sems', i, p)) || exists c :: WaitsForChild(r, p, c)
    {
      if i :| WaitsOn(sems, i, p) {
        assert WaitsOn(sems', i, p);
      } else {
        var c :| WaitsForChild(s, p, c);
        assert WaitsForChild(r, p, c);
      }
    }
  }

  lemma WakeView(s: Sched, target: nat)
    requires SchedInv(s) && Blocked(s, target)
    ensures var r := SetState(s, target, READY);
            SchedInv(r) && OneChanged(s, r, target, READY)
  {
    AliveIsOld(s, target);
    StepKeepsInv(s, CallSetState(target, READY));
    forall pid: nat
      ensures Proc(SetState(s, target, READY), pid) ==
              if pid == target then WithStatus(Proc(s, pid), READY) else Proc(s, pid)
    {
      SetStateView(s, target, READY, pid);
    }
  }

  // ----- a process ends -----

  lemma EndView(s: Sched)
    requires SchedInv(s) && s.current.Running?
    ensures var me := s.current.pcb;
            var r := Kill(s, me.pid);
            && SchedInv(r)
            && forall pid: nat :: Proc(r, pid) ==
                 if pid == me.pid then NotFound
                 else if pid == me.ppid && me.foreground && Blocked(s, pid) then WithStatus(Proc(s, pid), READY)
                 else Proc(s, pid)
  {
    var me := s.current.pcb;
    BaseIsApart(s);
    StepKeepsInv(s, CallKill(me.pid));
    StepKeepsInv(s, CallSetState(me.pid, TERMINATED));
    var s1 := SetState(s, me.pid, TERMINATED);
    EndStatus(s);
    hide Inv, Tick, NoneTerminatedQueued;
    forall pid: nat
      ensures Proc(Tick(s1), pid) ==
              if pid == me.pid then NotFound
              else if pid == me.ppid && me.foreground && Blocked(s, pid) then WithStatus(Proc(s, pid), READY)
              else Proc(s, pid)
    {
      SetStateView(s, me.pid, TERMINATED, pid);
      TickView(s1, pid);
    }
    TickView(s1, 0);
    TickBase(s1);
  }

  lemma EndStatus(s: Sched)
    requires NoneTerminatedQueued(s) && s.current.Running? && s.Cur().status == READY
    ensures var s1 := SetState(s, s.Cur().pid, TERMINATED);
            NoneTerminatedQueued(s1) && s1.base == s.base && s1.current.Running?
            && s1.current.pcb == s.current.pcb.(status := TERMINATED)
  {
  }

  lemma EndReasons(s: Sched, r: Sched, sems: map<nat, Sem>)
    requires SchedInv(s) && s.current.Running? && ReasonsInv(s, sems)
    requires var me := s.current.pcb;
             forall pid: nat :: Proc(r, pid) ==
               if pid == me.pid then NotFound
               else if pid == me.ppid && me.foreground && Blocked(s, pid) then WithStatus(Proc(s, pid), READY)
               else Proc(s, pid)
    ensures ReasonsInv(r, sems)
  {
    var me := s.current.pcb;
    assert Proc(s, me.pid) == Found(me);
    assert !Blocked(s, me.pid);
    BaseIsApart(s);
    var freed := me.foreground && me.ppid != 0;
    assert freed ==> WaitsForChild(s, me.ppid, me.pid);
    assert me.ppid == 0 ==> Proc(s, me.ppid) == NotFound;
    forall p: nat ensures Blocked(r, p) <==> Blocked(s, p) && !(freed && p == me.ppid) {
    }
    forall p: nat, c: nat ensures WaitsForChild(r, p, c) <==> WaitsForChild(s, p, c) && c != me.pid {
    }
    forall p: nat | Blocked(r, p)
      ensures (exists i :: WaitsOn(sems, i, p)) || exists c :: WaitsForChild(r, p, c)
    {
      if !(exists i :: WaitsOn(sems, i, p)) {
        var c :| WaitsForChild(s, p, c);
        assert WaitsForChild(r, p, c);
      }
    }
  }

  // ----- a process is created -----

  lemma NewView(s: Sched, foreground: nat)
    requires SchedInv(s) && s.current.Running? && foreground <= 1
    ensures var r := NewProcess(s, foreground, Enough);
            var child := Child(s, foreground);
            && SchedInv(r) && Proc(s, child.pid) == NotFound
            && forall pid: nat :: Proc(r, pid) ==
                 if pid == child.pid then Found(child)
                 else if pid == s.Cur().pid && child.foreground then WithStatus(Proc(s, pid), BLOCKED)
                 else Proc(s, pid)
  {
    var child := Child(s, foreground);
    var s1 := s.(nextPid := s.nextPid + 1, queue := s.queue + [child]);
    NextIsNew(s);
    BaseIsApart(s);
    StepKeepsInv(s, CallNew(foreground, Enough));
    JoinInv(s, child);
    hide Inv, Block, NoneTerminatedQueued, Find;
    forall pid: nat ensures Proc(s1, pid) == if pid == child.pid then Found(child) else Proc(s, pid) {
      JoinView(s, child, pid);
    }
    if child.foreground {
      BlockCurrent(s1);
    }
  }

  lemma JoinInv(s: Sched, p: Pcb)
    requires SchedInv(s) && p.pid == s.nextPid && p.priority <= MAX_PRIORITY && p.status == READY
    ensures SchedInv(s.(nextPid := s.nextPid + 1, queue := s.queue + [p]))
  {
    var r := s.(nextPid := s.nextPid + 1, queue := s.queue + [p]);
    forall pid: nat ensures Places(r, pid) <= (if pid < r.nextPid then 1 else 0) {
      EnqueuePlaces(s, p, pid);
      assert Places(s, pid) <= (if pid < s.nextPid then 1 else 0);
    }
  }

  lemma JoinView(s: Sched, p: Pcb, pid: nat)
    requires Proc(s, p.pid) == NotFound
    ensures Proc(s.(nextPid := s.nextPid + 1, queue := s.queue + [p]), pid) ==
            if pid == p.pid then Found(p) else Proc(s, pid)
  {
    FindAppend(s.queue, [p], pid);
  }

  lemma NewReasons(s: Sched, r: Sched, child: Pcb, sems: map<nat, Sem>)
    requires SchedInv(s) && s.current.Running? && ReasonsInv(s, sems)
    requires Proc(s, child.pid) == NotFound && child.status == READY && child.ppid == s.Cur().pid
    requires forall pid: nat :: Proc(r, pid) ==
               if pid == child.pid then Found(child)
               else if pid == s.Cur().pid && child.foreground then WithStatus(Proc(s, pid), BLOCKED)
               else Proc(s, pid)
    ensures ReasonsInv(r, sems)
  {
    var me := s.current.pcb;
    assert Proc(s, me.pid) == Found(me);
    assert !Blocked(s, me.pid);
    BaseIsApart(s);
    forall p: nat ensures Blocked(r, p) <==> Blocked(s, p) || (child.foreground && p == me.pid) {
    }
    forall p: nat, c: nat
      ensures WaitsForChild(r, p, c) <==>
              WaitsForChild(s, p, c) || (child.foreground && p == me.pid && c == child.pid)
    {
    }
    forall p: nat | Blocked(r, p)
      ensures (exists i :: WaitsOn(sems, i, p)) || exists c :: WaitsForChild(r, p, c)
    {
      if p == me.pid {
        assert WaitsForChild(r, p, child.pid);
      } else if !(exists i :: WaitsOn(sems, i, p)) {
        var c :| WaitsForChild(s, p, c);
        assert WaitsForChild(r, p, c);
      }
    }
  }

  // ----- every call -----

  lemma OpenCloseReasons(k: Kernel, c: KCall)
    requires KInv(k) && KEnabled(k, c) && (c.KOpen? || c.KClose?)
    ensures KInv(KStep(k, c))
  {
    var sems, sems' := k.sems, KStep(k, c).sems;
    forall id, p: nat ensures WaitsOn(sems', id, p) <==> WaitsOn(sems, id, p) {
    }
  }

  lemma TokenReasons(k: Kernel, id: nat, sem: Sem)
    requires KInv(k) && id in k.sems && sem.waiting == k.sems[id].waiting && Coherent(sem)
    ensures KInv(k.(sems := k.sems[id := sem]))
  {
    var sems, sems' := k.sems, k.sems[id := sem];
    forall i, p: nat ensures WaitsOn(sems', i, p) <==> WaitsOn(sems, i, p) {
    }
  }

  lemma SameViewCall(k: Kernel, r: Sched)
    requires KInv(k) && SchedInv(r) && SameView(k.sched, r)
    ensures KInv(k.(sched := r))
  {
    SameViewReasons(k.sched, r, k.sems);
  }

  lemma WaitKeepsKInv(k: Kernel, id: nat)
    requires KInv(k) && KEnabled(k, KWait(id))
    ensures KInv(KStep(k, KWait(id)))
  {
    if id in k.sems {
      if WaitBlocks(k.sems[id]) {
        BlockCurrent(k.sched);
        WaitReasons(k.sched, Block(k.sched, k.sched.Cur().pid), k.sems, id);
      } else {
        TokenReasons(k, id, Semaphore.Wait(k.sems[id], k.sched.Cur().pid));
      }
    }
  }

  lemma PostKeepsKInv(k: Kernel, id: nat)
    requires KInv(k) && KEnabled(k, KPost(id))
    ensures KInv(KStep(k, KPost(id)))
  {
    if id in k.sems {
      if PostWakes(k.sems[id]) {
        var w := k.sems[id].waiting[0];
        assert WaitsOn(k.sems, id, w);
        WakeView(k.sched, w);
        WakeReasons(k.sched, SetState(k.sched, w, READY), k.sems, id);
      } else {
        TokenReasons(k, id, Post(k.sems[id]));
      }
    }
  }

  lemma NewKeepsKInv(k: Kernel, foreground: nat, memory: Memory)
    requires KInv(k) && k.sched.current.Running?
    ensures KInv(k.(sched := NewProcess(k.sched, foreground, memory)))
  {
    if foreground <= 1 && memory.Enough? {
      NewView(k.sched, foreground);
      NewReasons(k.sched, NewProcess(k.sched, foreground, memory), Child(k.sched, foreground), k.sems);
    } else {
      StepKeepsInv(k.sched, CallNew(foreground, memory));
      var r := NewProcess(k.sched, foreground, memory);
      assert forall pid: nat :: Proc(r, pid) == Proc(k.sched, pid);
      SameViewCall(k, r);
    }
  }

  lemma EndKeepsKInv(k: Kernel)
    requires KInv(k) && k.sched.current.Running?
    ensures KInv(k.(sched := Kill(k.sched, k.sched.Cur().pid)))
  {
    EndView(k.sched);
    EndReasons(k.sched, Kill(k.sched, k.sched.Cur().pid), k.sems);
  }

  lemma YieldSame(s: Sched)
    requires SchedInv(s)
    ensures SchedInv(Yield(s)) && SameView(s, Yield(s))
  {
    var s0 := s.(cyclesLeft := 0);
    forall p: nat ensures Places(s0, p) == Places(s, p) {
    }
    TickSame(s0);
    forall pid: nat ensures SameProc(Proc(s, pid), Proc(Yield(s), pid)) {
      assert SameProc(Proc(s0, pid), Proc(Tick(s0), pid));
    }
  }

  // Every process in an array of waiters is a queued, blocked process that waits
  // on that one semaphore only, whatever the calls.
  lemma StepKeepsKInv(k: Kernel, c: KCall)
    requires KInv(k) && KEnabled(k, c)
    ensures KInv(KStep(k, c))
  {
    hide SchedInv, SemsInv, ReasonsInv, Tick, Yield, NewProcess, Kill, SetPriority, Block, SetState;
    match c
    case KTick =>
      TickSame(k.sched);
      SameViewCall(k, Tick(k.sched));
    case KYield =>
      YieldSame(k.sched);
      SameViewCall(k, Yield(k.sched));
    case KNew(f, m) => NewKeepsKInv(k, f, m);
    case KEnd => EndKeepsKInv(k);
    case KPriority(pid, p) =>
      PrioritySame(k.sched, pid, p);
      SameViewCall(k, SetPriority(k.sched, pid, p));
    case KOpen(id, value, room) => OpenCloseReasons(k, c);
    case KClose(id) => OpenCloseReasons(k, c);
    case KWait(id) => WaitKeepsKInv(k, id);
    case KPost(id) => PostKeepsKInv(k, id);
  }

  ghost predicate KRun(k: Kernel, calls: seq<KCall>, r: Kernel)
    decreases |calls|
  {
    if calls == [] then r == k else KEnabled(k, calls[0]) && KRun(KStep(k, calls[0]), calls[1..], r)
  }

  lemma {:induction false} RunKeepsKInv(k: Kernel, calls: seq<KCall>, r: Kernel)
    requires KInv(k) && KRun(k, calls, r)
    ensures KInv(r)
    decreases |calls|
  {
    if calls != [] {
      StepKeepsKInv(k, calls[0]);
      RunKeepsKInv(KStep(k, calls[0]), calls[1..], r);
    }
  }

  // The kernel starts the first user process in the foreground; the first tick
  // puts it on the CPU.
  ghost function Booted(): Sched
  {
    Tick(NewProcess(Initial(), 1, Enough))
  }

  lemma BootIsAlone()
    ensures var r := Booted();
            r.current == Running(Pcb(1, 0, true, READY, FOREGROUND_PRIORITY_DEFAULT)) && r.queue == [] && r.freed == []
  {
    var s := NewProcess(Initial(), 1, Enough);
    assert s.queue == [Pcb(1, 0, true, READY, FOREGROUND_PRIORITY_DEFAULT)];
    FirstReadyIs(s.queue, 0);
  }

  lemma BootInv()
    ensures KInv(Kernel(Booted(), map[]))
  {
    var r := Booted();
    BootIsAlone();
    var p := r.current.pcb;
    assert r.base.pid == 0 && !r.base.foreground && r.base.status == READY && r.nextPid == 2;
    hide Booted;
    assert forall pid: nat :: Proc(r, pid) == if pid == 1 then Found(p) else NotFound;
  }

  // No lost wake-up.  A post on a semaphore that has waiters makes exactly the
  // longest waiter ready: it is in the queue, one more process there is ready,
  // it waits on nothing any more, and no other process changes.
  lemma PostWakesLongest(k: Kernel, id: nat)
    requires KInv(k) && KEnabled(k, KPost(id)) && id in k.sems && k.sems[id].waiting != []
    ensures var r := KStep(k, KPost(id));
            var w := k.sems[id].waiting[0];
            && r.sems[id].waiting == k.sems[id].waiting[1..] && r.sems[id].value == 0
            && (forall i :: !WaitsOn(r.sems, i, w))
            && Find(r.sched.queue, w) < |r.sched.queue| && r.sched.queue[Find(r.sched.queue, w)].status == READY
            && ReadyCount(r.sched.queue) == ReadyCount(k.sched.queue) + 1
            && forall pid: nat :: pid != w ==> Proc(r.sched, pid) == Proc(k.sched, pid)
  {
    var w := k.sems[id].waiting[0];
    var r := KStep(k, KPost(id));
    assert WaitsOn(k.sems, id, w);
    assert Blocked(k.sched, w);
    WakeView(k.sched, w);
    BlockedIsQueued(k.sched, w);
    var f := Find(k.sched.queue, w);
    ReadyCountUpdate(k.sched.queue, f, k.sched.queue[f].(status := READY));
    FindUpdate(k.sched.queue, f, k.sched.queue[f].(status := READY), w);
    forall i ensures !WaitsOn(r.sems, i, w) {
      assert WaitsOn(k.sems, i, w) ==> i == id;
      assert Distinct(k.sems[id].waiting);
    }
  }

  lemma BlockedIsQueued(s: Sched, pid: nat)
    requires SchedInv(s) && Blocked(s, pid)
    ensures !s.IsCur(pid) && Find(s.queue, pid) < |s.queue| && s.queue[Find(s.queue, pid)].status == BLOCKED
  {
    AliveIsOld(s, pid);
  }

  // ----- beyond the runs above -----

  // In any scheduler state, and so also after somebody killed a waiter, a post wakes
  // a process exactly if the longest waiter is still queued and not terminated.
  // Otherwise its pid is taken out of the array, and nobody gets the token.
  lemma PostWakesTheLiving(k: Kernel, id: nat)
    requires Inv(k.sched) && id in k.sems && k.sems[id].waiting != [] && KEnabled(k, KPost(id))
    ensures var w := k.sems[id].waiting[0];
            var q, r := k.sched.queue, KStep(k, KPost(id));
            && r.sems[id].waiting == k.sems[id].waiting[1..] && r.sems[id].value == k.sems[id].value
            && ((exists i :: 0 <= i < |r.sched.queue| && r.sched.queue[i].pid == w && r.sched.queue[i].status == READY)
                <==> exists i :: 0 <= i < |q| && q[i].pid == w && q[i].status != TERMINATED)
  {
    var w := k.sems[id].waiting[0];
    var q, r := k.sched.queue, KStep(k, KPost(id)).sched.queue;
    var f := Find(q, w);
    forall i, j | 0 <= i < j < |q|
      ensures q[i].pid != q[j].pid
    {
      assert Places(k.sched, q[i].pid) <= 1;
      if q[i].pid == q[j].pid {
        QueuedTwice(q, i, j);
      }
    }
    assert Places(k.sched, w) <= 1;
    QueuedFound(q, w);
    if f < |q| && q[f].status != TERMINATED {
      assert r[f].pid == w && r[f].status == READY;
    }
  }

  // So once a waiter that is next was killed, a post gives its token to nobody.
  lemma KilledWaiterTakesToken(k: Kernel, id: nat)
    requires KInv(k) && KEnabled(k, KPost(id)) && id in k.sems && k.sems[id].waiting != []
    ensures var w := k.sems[id].waiting[0];
            var r := k.(sched := Kill(k.sched, w));
            && r.sched.current.Running?
            && KStep(r, KPost(id)) == r.(sems := r.sems[id := k.sems[id].(waiting := k.sems[id].waiting[1..])])
  {
    var w := k.sems[id].waiting[0];
    assert WaitsOn(k.sems, id, w);
    BlockedIsQueued(k.sched, w);
    var f, q := Find(k.sched.queue, w), k.sched.queue;
    FindUpdate(q, f, q[f].(status := TERMINATED), w);
  }

  // When the last listener closes a semaphore that others wait on, they stay blocked
  // for no reason any more.  No later post on that id finds the semaphore, unless it is
  // opened anew, and then without them.
  lemma LastCloseLosesWaiters(k: Kernel, id: nat, value: nat)
    requires KInv(k) && id in k.sems && k.sems[id].listening <= 1 && k.sems[id].waiting != []
    ensures var r := k.(sems := SemClose(k.sems, id));
            && !KInv(r) && Blocked(r.sched, k.sems[id].waiting[0])
            && (KEnabled(r, KPost(id)) ==> KStep(r, KPost(id)) == r)
            && (forall p :: !WaitsOn(SemOpen(r.sems, id, value, true), id, p))
  {
    var r := k.(sems := SemClose(k.sems, id));
    var w := k.sems[id].waiting[0];
    assert WaitsOn(k.sems, id, w);
    assert Blocked(r.sched, w);
    assert forall i :: WaitsOn(r.sems, i, w) ==> WaitsOn(k.sems, i, w);
    assert !(exists i :: WaitsOn(r.sems, i, w));
    assert !(exists c :: WaitsForChild(r.sched, w, c));
  }
}
