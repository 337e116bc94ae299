// What holds of every run of the scheduler.
module SchedulerTheorems {
  import opened Scheduler

  // ----- accounting: where every pid is -----

  // How often pid occurs in the queue, and among the freed ones.
  function Queued(q: seq<Pcb>, pid: nat): nat
  {
    if q == [] then 0 else (if q[0].pid == pid then 1 else 0) + Queued(q[1..], pid)
  }

  function Count(xs: seq<nat>, x: nat): nat
  {
    if xs == [] then 0 else (if xs[0] == x then 1 else 0) + Count(xs[1..], x)
  }

  // In how many places pid is: as the base process, on the CPU, queued, freed.
  function Places(s: Sched, pid: nat): nat
  {
    (if s.base.pid == pid then 1 else 0)
    + (if s.current.Running? && s.current.pcb.pid == pid then 1 else 0)
    + Queued(s.queue, pid) + Count(s.freed, pid)
  }

  ghost predicate Bounded(s: Sched)
  {
    && (forall i :: 0 <= i < |s.queue| ==> s.queue[i].priority <= MAX_PRIORITY)
    && (s.current.Running? ==> s.current.pcb.priority <= MAX_PRIORITY)
    && s.base.priority <= MAX_PRIORITY && s.cyclesLeft <= MAX_PRIORITY
  }

  // No pid is in two places and pids come from the counter.
  ghost predicate Unique(s: Sched)
  {
    forall p: nat :: Places(s, p) <= (if p < s.nextPid then 1 else 0)
  }

  ghost predicate Inv(s: Sched)
  {
    Unique(s) && Bounded(s)
  }

  lemma {:induction false} QueuedAppend(a: seq<Pcb>, b: seq<Pcb>, pid: nat)
    ensures Queued(a + b, pid) == Queued(a, pid) + Queued(b, pid)
  {
    if a == [] {
      assert a + b == b;
    } else {
      QueuedAppend(a[1..], b, pid);
      assert (a + b)[1..] == a[1..] + b;
    }
  }

  lemma {:induction false} CountAppend(a: seq<nat>, b: seq<nat>, x: nat)
    ensures Count(a + b, x) == Count(a, x) + Count(b, x)
  {
    if a == [] {
      assert a + b == b;
    } else {
      CountAppend(a[1..], b, x);
      assert (a + b)[1..] == a[1..] + b;
    }
  }

  lemma {:induction false} QueuedUpdate(q: seq<Pcb>, k: nat, p: Pcb, pid: nat)
    requires k < |q| && p.pid == q[k].pid
    ensures Queued(q[k := p], pid) == Queued(q, pid)
  {
    if k > 0 {
      QueuedUpdate(q[1..], k - 1, p, pid);
      assert q[k := p][1..] == q[1..][k - 1 := p];
    } else {
      assert q[k := p][1..] == q[1..];
    }
  }

  lemma {:induction false} QueuedFound(q: seq<Pcb>, pid: nat)
    ensures Queued(q, pid) > 0 <==> Find(q, pid) < |q|
  {
    if q != [] {
      QueuedFound(q[1..], pid);
    }
  }

  // What is skipped by a dispatch is either requeued or freed.
  lemma {:induction false} SkippedPids(q: seq<Pcb>, pid: nat)
    requires forall i :: 0 <= i < |q| ==> q[i].status != READY
    ensures Queued(q, pid) == Queued(OnlyBlocked(q), pid) + Count(TerminatedPids(q), pid)
  {
    if q != [] {
      assert q[0].status != READY;
      SkippedPids(q[1..], pid);
      QueuedAppend(if q[0].status == BLOCKED then [q[0]] else [], OnlyBlocked(q[1..]), pid);
      CountAppend(if q[0].status == TERMINATED then [q[0].pid] else [], TerminatedPids(q[1..]), pid);
    }
  }

  lemma SetStatePlaces(s: Sched, pid: nat, status: Status, p: nat)
    ensures Places(SetState(s, pid, status), p) == Places(s, p)
  {
    var k := Find(s.queue, pid);
    if !s.IsCur(pid) && k < |s.queue| {
      QueuedUpdate(s.queue, k, s.queue[k].(status := status), p);
    }
  }

  lemma ParkPlaces(s: Sched, p: nat)
    ensures Places(Park(s).(current := Base), p) == Places(s, p)
  {
    if s.current.Running? {
      var c := s.current.pcb;
      if c.status != TERMINATED {
        QueuedAppend(s.queue, [c], p);
      } else {
        SetStatePlaces(s, c.ppid, READY, p);
        CountAppend(s.freed, [c.pid], p);
      }
    }
  }

  lemma SplitAt(q: seq<Pcb>, k: nat, pid: nat)
    requires k < |q|
    ensures Queued(q, pid) == Queued(q[..k], pid) + (if q[k].pid == pid then 1 else 0) + Queued(q[k + 1..], pid)
  {
    assert q == q[..k] + ([q[k]] + q[k + 1..]);
    QueuedAppend(q[..k], [q[k]] + q[k + 1..], pid);
    QueuedAppend([q[k]], q[k + 1..], pid);
  }

  lemma DispatchPlaces(s: Sched, p: nat)
    ensures Places(Dispatch(s), p) == Places(s.(current := Base), p)
  {
    hide FirstReady, HasReady, OnlyBlocked, TerminatedPids, Queued, Count;
    if HasReady(s.queue) {
      var k := FirstReady(s.queue);
      SplitAt(s.queue, k, p);
      SkippedPids(s.queue[..k], p);
      QueuedAppend(s.queue[k + 1..], OnlyBlocked(s.queue[..k]), p);
      CountAppend(s.freed, TerminatedPids(s.queue[..k]), p);
    }
  }

  lemma TickPlaces(s: Sched, p: nat)
    ensures Places(Tick(s), p) == Places(s, p)
  {
    ParkPlaces(s, p);
    DispatchPlaces(Park(s), p);
  }

  lemma BlockPlaces(s: Sched, pid: nat, p: nat)
    ensures Places(Block(s, pid), p) == Places(s, p)
  {
    hide Tick, Places, SetState;
    SetStatePlaces(s, pid, BLOCKED, p);
    TickPlaces(SetState(s, pid, BLOCKED), p);
  }

  lemma PriorityPlaces(s: Sched, pid: nat, priority: int, p: nat)
    ensures Places(SetPriority(s, pid, priority), p) == Places(s, p)
  {
    var k := Find(s.queue, pid);
    if !s.IsCur(pid) && k < |s.queue| {
      QueuedUpdate(s.queue, k, s.queue[k].(priority := Clamp(priority)), p);
    }
  }

  // Whether a call brings a new process into being.
  predicate Born(c: Call)
  {
    c.CallNew? && c.foreground <= 1 && c.memory.Enough?
  }

  lemma EnqueuePlaces(s: Sched, c: Pcb, p: nat)
    ensures Places(s.(nextPid := s.nextPid + 1, queue := s.queue + [c]), p) ==
            Places(s, p) + if c.pid == p then 1 else 0
    ensures Places(s.(nextPid := s.nextPid + 1), p) == Places(s, p)
  {
    QueuedAppend(s.queue, [c], p);
  }

  lemma NewPlaces(s: Sched, foreground: nat, memory: Memory, p: nat)
    ensures Places(NewProcess(s, foreground, memory), p) ==
            Places(s, p) + if Born(CallNew(foreground, memory)) && p == s.nextPid then 1 else 0
  {
    hide Block, Places;
    if Born(CallNew(foreground, memory)) {
      var c := Child(s, foreground);
      EnqueuePlaces(s, c, p);
      BlockPlaces(s.(nextPid := s.nextPid + 1, queue := s.queue + [c]), c.ppid, p);
    } else {
      EnqueuePlaces(s, s.base, p);
    }
  }

  lemma WaitPlaces(s: Sched, pid: nat, p: nat)
    requires !s.current.Nobody?
    ensures Places(Wait(s, pid), p) == Places(s, p)
  {
    hide Block;
    var me := s.Cur().pid;
    var k := Find(s.queue, pid);
    if s.IsCur(pid) {
      BlockPlaces(s.WithCur(s.Cur().(foreground := true)), me, p);
    } else if k < |s.queue| {
      QueuedUpdate(s.queue, k, s.queue[k].(foreground := true), p);
      BlockPlaces(s.(queue := s.queue[k := s.queue[k].(foreground := true)]), me, p);
    }
  }

  // A call that creates a process puts the next pid in one place; no call loses,
  // duplicates or moves out any other.
  lemma StepPlaces(s: Sched, c: Call, p: nat)
    requires Enabled(s, c)
    ensures Places(Step(s, c), p) == Places(s, p) + if Born(c) && p == s.nextPid then 1 else 0
  {
    hide Tick, SetState, NewProcess, Wait, SetPriority, Block;
    match c
    case CallTick => TickPlaces(s, p);
    case CallYield => TickPlaces(s.(cyclesLeft := 0), p);
    case CallNew(f, m) => NewPlaces(s, f, m, p);
    case CallKill(pid) =>
      SetStatePlaces(s, pid, TERMINATED, p);
      TickPlaces(SetState(s, pid, TERMINATED), p);
    case CallBlock(pid) => BlockPlaces(s, pid, p);
    case CallSetState(pid, status) => SetStatePlaces(s, pid, status, p);
    case CallSetPriority(pid, priority) => PriorityPlaces(s, pid, priority, p);
    case CallWait(pid) => WaitPlaces(s, pid, p);
  }

  // The pid counter moves exactly when a process control block is begun.
  lemma StepCounter(s: Sched, c: Call)
    requires Enabled(s, c)
    ensures Step(s, c).nextPid == s.nextPid + if c.CallNew? && !c.memory.NoNode? then 1 else 0
    ensures Step(s, c).base.pid == s.base.pid
  {
    hide SetState, Tick, Block, Wait, SetPriority;
  }

  // The scheduler right after initialisation: only the base process exists.
  ghost function Initial(): Sched
  {
    Sched(Pcb(0, 0, false, READY, BACKGROUND_PRIORITY_DEFAULT), Nobody, 0, [], 1, [])
  }

  lemma InitialInv()
    ensures Inv(Initial())
  {
  }

  // ----- bounds on priorities -----

  lemma {:induction false} OnlyBlockedIn(q: seq<Pcb>, i: nat)
    requires i < |OnlyBlocked(q)|
    ensures exists j :: 0 <= j < |q| && q[j] == OnlyBlocked(q)[i]
  {
    if q[0].status == BLOCKED && i == 0 {
    } else {
      var d := if q[0].status == BLOCKED then 1 else 0;
      OnlyBlockedIn(q[1..], i - d);
      var j :| 0 <= j < |q[1..]| && q[1..][j] == OnlyBlocked(q[1..])[i - d];
      assert q[j + 1] == OnlyBlocked(q)[i];
    }
  }

  lemma TickBounded(s: Sched)
    requires Bounded(s)
    ensures Bounded(Tick(s))
  {
    var p := Park(s);
    if HasReady(p.queue) {
      var k := FirstReady(p.queue);
      forall i | 0 <= i < |OnlyBlocked(p.queue[..k])|
        ensures OnlyBlocked(p.queue[..k])[i].priority <= MAX_PRIORITY
      {
        OnlyBlockedIn(p.queue[..k], i);
      }
    }
  }

  lemma SetStateBounded(s: Sched, pid: nat, status: Status)
    requires Bounded(s)
    ensures Bounded(SetState(s, pid, status))
  {
  }

  lemma BlockBounded(s: Sched, pid: nat)
    requires Bounded(s)
    ensures Bounded(Block(s, pid))
  {
    hide Tick;
    SetStateBounded(s, pid, BLOCKED);
    TickBounded(SetState(s, pid, BLOCKED));
  }

  lemma WaitBounded(s: Sched, pid: nat)
    requires Bounded(s) && !s.current.Nobody?
    ensures Bounded(Wait(s, pid))
  {
    hide Block;
    var me := s.Cur().pid;
    var k := Find(s.queue, pid);
    if s.IsCur(pid) {
      BlockBounded(s.WithCur(s.Cur().(foreground := true)), me);
    } else if k < |s.queue| {
      BlockBounded(s.(queue := s.queue[k := s.queue[k].(foreground := true)]), me);
    }
  }

  lemma NewBounded(s: Sched, foreground: nat, memory: Memory)
    requires Bounded(s)
    ensures Bounded(NewProcess(s, foreground, memory))
  {
    hide Block;
    if foreground <= 1 {
      var p := Child(s, foreground);
      BlockBounded(s.(nextPid := s.nextPid + 1, queue := s.queue + [p]), p.ppid);
    }
  }

  lemma StepBounded(s: Sched, c: Call)
    requires Enabled(s, c) && Bounded(s)
    ensures Bounded(Step(s, c))
  {
    hide Tick, SetState, NewProcess, Wait;
    match c
    case CallTick => TickBounded(s);
    case CallYield => TickBounded(s.(cyclesLeft := 0));
    case CallNew(f, m) => NewBounded(s, f, m);
    case CallKill(pid) =>
      SetStateBounded(s, pid, TERMINATED);
      TickBounded(SetState(s, pid, TERMINATED));
    case CallBlock(pid) => BlockBounded(s, pid);
    case CallSetState(pid, status) => SetStateBounded(s, pid, status);
    case CallSetPriority(pid, p) =>
    case CallWait(pid) => WaitBounded(s, pid);
  }

  // Every call keeps the invariant: no pid is ever in two places or reused.
  lemma StepKeepsInv(s: Sched, c: Call)
    requires Enabled(s, c) && Inv(s)
    ensures Inv(Step(s, c))
  {
    StepBounded(s, c);
    StepCounter(s, c);
    forall p: nat ensures Places(Step(s, c), p) <= (if p < Step(s, c).nextPid then 1 else 0) {
      StepPlaces(s, c, p);
    }
  }

  // What wait changes about the process it names keeps the invariant.
  lemma ForegroundInv(s: Sched, pid: nat)
    requires Inv(s)
    ensures s.IsCur(pid) ==> Inv(s.WithCur(s.Cur().(foreground := true)))
    ensures var k := Find(s.queue, pid);
            !s.IsCur(pid) && k < |s.queue| ==> Inv(s.(queue := s.queue[k := s.queue[k].(foreground := true)]))
  {
    var k := Find(s.queue, pid);
    if s.IsCur(pid) {
      var r := s.WithCur(s.Cur().(foreground := true));
      forall p: nat ensures Places(r, p) == Places(s, p) {
      }
    } else if k < |s.queue| {
      var r := s.(queue := s.queue[k := s.queue[k].(foreground := true)]);
      forall p: nat ensures Places(r, p) == Places(s, p) {
        QueuedUpdate(s.queue, k, s.queue[k].(foreground := true), p);
      }
    }
  }

  // ----- who is dispatched -----

  // kept are the blocked ones of q, in order; f says where in q they are.
  ghost predicate BlockedOnes(q: seq<Pcb>, kept: seq<Pcb>, f: seq<nat>)
  {
    Picks(q, kept, f) && Rising(f) && PicksAll(q, 0, f)
  }

  ghost predicate Picks(q: seq<Pcb>, kept: seq<Pcb>, f: seq<nat>)
  {
    && |f| == |kept|
    && forall i :: 0 <= i < |f| ==> f[i] < |q| && kept[i] == q[f[i]] && q[f[i]].status == BLOCKED
  }

  ghost predicate Rising(f: seq<nat>)
  {
    forall i, j :: 0 <= i < j < |f| ==> f[i] < f[j]
  }

  ghost predicate PicksAll(q: seq<Pcb>, start: nat, f: seq<nat>)
  {
    forall m :: start <= m < |q| && q[m].status == BLOCKED ==> m in f
  }

  function MovedUp(g: seq<nat>): (f: seq<nat>)
    ensures |f| == |g| && forall i :: 0 <= i < |g| ==> f[i] == g[i] + 1
  {
    seq(|g|, i requires 0 <= i < |g| => g[i] + 1)
  }

  lemma MovedPicks(q: seq<Pcb>, kept: seq<Pcb>, g: seq<nat>)
    requires q != [] && Picks(q[1..], kept, g)
    ensures Picks(q, kept, MovedUp(g))
  {
    hide MovedUp;
  }

  lemma MovedRising(g: seq<nat>)
    requires Rising(g)
    ensures Rising(MovedUp(g))
  {
    hide MovedUp;
  }

  lemma MovedAll(q: seq<Pcb>, g: seq<nat>)
    requires q != [] && PicksAll(q[1..], 0, g)
    ensures PicksAll(q, 1, MovedUp(g))
  {
    var f := MovedUp(g);
    hide MovedUp;
    forall m | 1 <= m < |q| && q[m].status == BLOCKED
      ensures m in f
    {
      assert q[1..][m - 1] == q[m];
      var i :| 0 <= i < |g| && g[i] == m - 1;
      assert f[i] == m;
    }
  }

  lemma HeadPicks(q: seq<Pcb>, kept: seq<Pcb>, f: seq<nat>)
    requires q != [] && q[0].status == BLOCKED && Picks(q, kept, f)
    ensures Picks(q, [q[0]] + kept, [0] + f)
  {
  }

  lemma HeadRising(f: seq<nat>)
    requires Rising(f) && forall i :: 0 <= i < |f| ==> f[i] > 0
    ensures Rising([0] + f)
  {
  }

  lemma HeadAll(q: seq<Pcb>, f: seq<nat>)
    requires PicksAll(q, 1, f)
    ensures PicksAll(q, 0, [0] + f)
  {
    assert ([0] + f)[0] == 0;
  }

  lemma NothingToPick()
    ensures Picks([], [], []) && Rising([]) && PicksAll([], 0, [])
  {
  }

  lemma NotPicked(q: seq<Pcb>, f: seq<nat>)
    requires q != [] && q[0].status != BLOCKED && PicksAll(q, 1, f)
    ensures PicksAll(q, 0, f)
  {
  }

  lemma {:induction false} OnlyBlockedOnes(q: seq<Pcb>) returns (f: seq<nat>)
    ensures BlockedOnes(q, OnlyBlocked(q), f)
  {
    hide Picks, Rising, PicksAll, MovedUp;
    if q == [] {
      f := [];
      NothingToPick();
    } else {
      var g := OnlyBlockedOnes(q[1..]);
      MovedPicks(q, OnlyBlocked(q[1..]), g);
      MovedRising(g);
      MovedAll(q, g);
      f := MovedUp(g);
      if q[0].status == BLOCKED {
        HeadPicks(q, OnlyBlocked(q[1..]), f);
        HeadRising(f);
        HeadAll(q, f);
        f := [0] + f;
      } else {
        NotPicked(q, f);
        assert [] + OnlyBlocked(q[1..]) == OnlyBlocked(q[1..]);
      }
    }
  }

  // The base process is dispatched if and only if nobody in the queue is ready.
  // Otherwise it is the first ready one, for as many cycles as its priority; the
  // ones behind it move up, and the blocked ones before it follow in their order.
  lemma DispatchOutcome(s: Sched) returns (k: nat, f: seq<nat>)
    ensures var r := Dispatch(s);
            && !r.current.Nobody? && r.cyclesLeft == r.Cur().priority
            && (r.current.Base? <==> forall i :: 0 <= i < |s.queue| ==> s.queue[i].status != READY)
            && (r.current.Base? ==> r.queue == s.queue && r.freed == s.freed)
    ensures var r := Dispatch(s);
            r.current.Running? ==>
              && k < |s.queue| && r.current.pcb == s.queue[k] && s.queue[k].status == READY
              && (forall i :: 0 <= i < k ==> s.queue[i].status != READY)
              && var behind := |s.queue| - k - 1;
              behind <= |r.queue| && r.queue[..behind] == s.queue[k + 1..]
              && BlockedOnes(s.queue[..k], r.queue[behind..], f)
  {
    k, f := 0, [];
    if HasReady(s.queue) {
      k := FirstReady(s.queue);
      f := OnlyBlockedOnes(s.queue[..k]);
    }
  }

  // yield lets the first ready process of the queue go first; the caller queues up.
  lemma YieldLetsGo(s: Sched)
    requires s.current.Running? && s.current.pcb.status == READY && HasReady(s.queue)
    ensures var r := Yield(s);
            r.current == Running(s.queue[FirstReady(s.queue)]) && s.current.pcb in r.queue
  {
    var k := FirstReady(s.queue);
    var q := s.queue + [s.current.pcb];
    FirstReadyIs(q, k);
    assert q[|s.queue|] == s.current.pcb && q[k + 1..][|s.queue| - k - 1] == q[|s.queue|];
    assert Yield(s) == Dispatch(Park(s.(cyclesLeft := 0)));
    assert Park(s.(cyclesLeft := 0)).queue == q;
  }

  // ----- runs -----

  function After(s: Sched, calls: seq<Call>): (r: Sched)
    requires !s.current.Nobody?
    ensures !r.current.Nobody?
    decreases |calls|
  {
    if calls == [] then s else After(Step(s, calls[0]), calls[1..])
  }

  lemma {:induction false} RunKeepsInv(s: Sched, calls: seq<Call>)
    requires !s.current.Nobody? && Inv(s)
    ensures Inv(After(s, calls))
    decreases |calls|
  {
    if calls != [] {
      StepKeepsInv(s, calls[0]);
      RunKeepsInv(Step(s, calls[0]), calls[1..]);
    }
  }

  // ----- the end of a process -----

  // Terminated, in the queue or still on the CPU, or already freed.
  ghost predicate Dead(s: Sched, pid: nat)
  {
    || (s.current.Running? && s.current.pcb.pid == pid && s.current.pcb.status == TERMINATED)
    || (Find(s.queue, pid) < |s.queue| && s.queue[Find(s.queue, pid)].status == TERMINATED)
    || pid in s.freed
  }

  lemma {:induction false} CountIn(xs: seq<nat>, x: nat)
    ensures Count(xs, x) > 0 <==> x in xs
  {
    if xs != [] {
      CountIn(xs[1..], x);
    }
  }

  lemma {:induction false} FindAppend(a: seq<Pcb>, b: seq<Pcb>, pid: nat)
    ensures Find(a + b, pid) == if Find(a, pid) < |a| then Find(a, pid) else |a| + Find(b, pid)
  {
    if a == [] {
      assert a + b == b;
    } else {
      FindAppend(a[1..], b, pid);
      assert (a + b)[1..] == a[1..] + b;
    }
  }

  lemma FindUpdate(q: seq<Pcb>, k: nat, p: Pcb, pid: nat)
    requires k < |q| && p.pid == q[k].pid
    ensures Find(q[k := p], pid) == Find(q, pid)
  {
    var r := q[k := p];
    assert forall i :: 0 <= i < |q| ==> r[i].pid == q[i].pid;
  }

  // Where pid is found once the first k + 1 of the queue are gone.
  lemma FindDrop(q: seq<Pcb>, k: nat, pid: nat)
    requires k < Find(q, pid)
    ensures Find(q[k + 1..], pid) == Find(q, pid) - (k + 1)
  {
    assert q == q[..k + 1] + q[k + 1..];
    assert forall i :: 0 <= i < k + 1 ==> q[..k + 1][i] == q[i] && q[i].pid != pid;
    FindAppend(q[..k + 1], q[k + 1..], pid);
  }

  lemma {:induction false} TerminatedIn(q: seq<Pcb>, i: nat)
    requires i < |q| && q[i].status == TERMINATED
    ensures q[i].pid in TerminatedPids(q)
  {
    if i > 0 {
      TerminatedIn(q[1..], i - 1);
    }
  }

  lemma {:induction false} QueuedTwice(q: seq<Pcb>, i: nat, j: nat)
    requires i < j < |q| && q[i].pid == q[j].pid
    ensures Queued(q, q[i].pid) >= 2
  {
    if i > 0 {
      QueuedTwice(q[1..], i - 1, j - 1);
    } else {
      assert q[1..][j - 1] == q[j];
      QueuedOnce(q[1..], j - 1);
    }
  }

  lemma {:induction false} QueuedOnce(q: seq<Pcb>, j: nat)
    requires j < |q|
    ensures Queued(q, q[j].pid) >= 1
  {
    if j > 0 {
      QueuedOnce(q[1..], j - 1);
    }
  }

  lemma SetStateDead(s: Sched, target: nat, status: Status, pid: nat)
    requires Places(s, pid) <= 1 && Dead(s, pid)
    ensures Dead(SetState(s, target, status), pid)
    ensures !s.IsCur(pid) ==> !SetState(s, target, status).IsCur(pid)
  {
    var k := Find(s.queue, target);
    if !s.IsCur(target) && k < |s.queue| {
      FindUpdate(s.queue, k, s.queue[k].(status := status), pid);
    }
    QueuedFound(s.queue, pid);
    CountIn(s.freed, pid);
  }

  lemma ParkDead(s: Sched, pid: nat)
    requires Places(s, pid) <= 1 && Dead(s, pid)
    ensures Dead(Park(s).(current := Base), pid)
  {
    if s.current.Running? {
      var c := s.current.pcb;
      QueuedFound(s.queue, pid);
      if c.status != TERMINATED {
        FindAppend(s.queue, [c], pid);
      } else {
        SetStateDead(s, c.ppid, READY, pid);
      }
    }
  }

  // A terminated process before the first ready one is freed.
  lemma DeadBefore(q: seq<Pcb>, k: nat, pid: nat)
    requires Find(q, pid) < k <= |q| && q[Find(q, pid)].status == TERMINATED
    ensures pid in TerminatedPids(q[..k])
  {
    var f := Find(q, pid);
    assert q[..k][f] == q[f];
    TerminatedIn(q[..k], f);
  }

  lemma NotTheBase(s: Sched, pid: nat)
    requires Places(s.(current := Base), pid) <= 1 && Dead(s.(current := Base), pid)
    ensures s.base.pid != pid
  {
    QueuedFound(s.queue, pid);
    CountIn(s.freed, pid);
  }

  lemma NotTheReadyOne(s: Sched, pid: nat)
    requires Places(s.(current := Base), pid) <= 1 && Dead(s.(current := Base), pid) && HasReady(s.queue)
    ensures s.queue[FirstReady(s.queue)].pid != pid
  {
    var k, f := FirstReady(s.queue), Find(s.queue, pid);
    hide FirstReady;
    QueuedFound(s.queue, pid);
    CountIn(s.freed, pid);
    if s.queue[k].pid == pid && f < k {
      QueuedTwice(s.queue, f, k);
    }
  }

  lemma DispatchDead(s: Sched, pid: nat)
    requires Places(s.(current := Base), pid) <= 1 && Dead(s.(current := Base), pid)
    ensures Dead(Dispatch(s), pid) && !Dispatch(s).IsCur(pid)
  {
    NotTheBase(s, pid);
    hide Places;
    if HasReady(s.queue) {
      NotTheReadyOne(s, pid);
      var k, f := FirstReady(s.queue), Find(s.queue, pid);
      hide FirstReady, OnlyBlocked, TerminatedPids, Find;
      if pid !in s.freed {
        if f < k {
          DeadBefore(s.queue, k, pid);
        } else {
          MovesUp(s.queue, k, pid);
        }
      }
    }
    hide Find;
  }

  lemma TickDead(s: Sched, pid: nat)
    requires Places(s, pid) <= 1 && Dead(s, pid)
    ensures Dead(Tick(s), pid)
    ensures !s.IsCur(pid) ==> !Tick(s).IsCur(pid)
  {
    ParkPlaces(s, pid);
    ParkDead(s, pid);
    DispatchDead(Park(s), pid);
  }

  lemma BlockDead(s: Sched, target: nat, pid: nat)
    requires Places(s, pid) <= 1 && Dead(s, pid)
    ensures Dead(Block(s, target), pid)
    ensures !s.IsCur(pid) ==> !Block(s, target).IsCur(pid)
  {
    hide Tick, Dead, Places, SetState;
    SetStateDead(s, target, BLOCKED, pid);
    SetStatePlaces(s, target, BLOCKED, pid);
    TickDead(SetState(s, target, BLOCKED), pid);
  }

  // Changing anything but the status of one queued process.
  lemma QueueEditDead(s: Sched, k: nat, p: Pcb, pid: nat)
    requires k < |s.queue| && p.pid == s.queue[k].pid && p.status == s.queue[k].status && Dead(s, pid)
    ensures Dead(s.(queue := s.queue[k := p]), pid)
    ensures Places(s.(queue := s.queue[k := p]), pid) == Places(s, pid)
  {
    FindUpdate(s.queue, k, p, pid);
    QueuedUpdate(s.queue, k, p, pid);
  }

  lemma WaitDead(s: Sched, target: nat, pid: nat)
    requires !s.current.Nobody? && Places(s, pid) <= 1 && Dead(s, pid)
    ensures Dead(Wait(s, target), pid)
    ensures !s.IsCur(pid) ==> !Wait(s, target).IsCur(pid)
  {
    hide Block;
    var me := s.Cur().pid;
    var k := Find(s.queue, target);
    if s.IsCur(target) {
      BlockDead(s.WithCur(s.Cur().(foreground := true)), me, pid);
    } else if k < |s.queue| {
      QueueEditDead(s, k, s.queue[k].(foreground := true), pid);
      BlockDead(s.(queue := s.queue[k := s.queue[k].(foreground := true)]), me, pid);
    }
  }

  lemma PriorityDead(s: Sched, target: nat, priority: int, pid: nat)
    requires Dead(s, pid)
    ensures Dead(SetPriority(s, target, priority), pid)
    ensures !s.IsCur(pid) ==> !SetPriority(s, target, priority).IsCur(pid)
  {
    var k := Find(s.queue, target);
    if !s.IsCur(target) && k < |s.queue| {
      QueueEditDead(s, k, s.queue[k].(priority := Clamp(priority)), pid);
    }
  }

  lemma NewDead(s: Sched, foreground: nat, memory: Memory, pid: nat)
    requires Inv(s) && Dead(s, pid)
    ensures Dead(NewProcess(s, foreground, memory), pid)
    ensures !s.IsCur(pid) ==> !NewProcess(s, foreground, memory).IsCur(pid)
  {
    hide Block;
    if Born(CallNew(foreground, memory)) {
      var c := Child(s, foreground);
      DeadIsOld(s, pid);
      FindAppend(s.queue, [c], pid);
      EnqueuePlaces(s, c, pid);
      BlockDead(s.(nextPid := s.nextPid + 1, queue := s.queue + [c]), c.ppid, pid);
    }
  }

  lemma DeadIsOld(s: Sched, pid: nat)
    requires Inv(s) && Dead(s, pid)
    ensures pid < s.nextPid && Places(s, pid) == 1
  {
    QueuedFound(s.queue, pid);
    CountIn(s.freed, pid);
    assert Places(s, pid) <= (if pid < s.nextPid then 1 else 0);
  }

  // TERMINATED is never left: no call revives a dead process, and once it is off
  // the CPU no call puts it back there.
  lemma StepDead(s: Sched, c: Call, pid: nat)
    requires Enabled(s, c) && Inv(s) && Dead(s, pid)
    ensures Dead(Step(s, c), pid)
    ensures !s.IsCur(pid) ==> !Step(s, c).IsCur(pid)
  {
    DeadIsOld(s, pid);
    hide Tick, SetState, NewProcess, Wait, SetPriority, Block, Inv;
    match c
    case CallTick => TickDead(s, pid);
    case CallYield => TickDead(s.(cyclesLeft := 0), pid);
    case CallNew(f, m) => NewDead(s, f, m, pid);
    case CallKill(target) =>
      SetStateDead(s, target, TERMINATED, pid);
      SetStatePlaces(s, target, TERMINATED, pid);
      TickDead(SetState(s, target, TERMINATED), pid);
    case CallBlock(target) => BlockDead(s, target, pid);
    case CallSetState(target, status) => SetStateDead(s, target, status, pid);
    case CallSetPriority(target, priority) => PriorityDead(s, target, priority, pid);
    case CallWait(target) => WaitDead(s, target, pid);
  }

  // Over a whole run: a process that is dead and off the CPU is never dispatched
  // again, and its memory is given back at most once.
  lemma {:induction false} DeadForEver(s: Sched, calls: seq<Call>, pid: nat)
    requires !s.current.Nobody? && Inv(s) && Dead(s, pid) && !s.IsCur(pid)
    ensures var r := After(s, calls);
            Dead(r, pid) && !r.IsCur(pid) && Count(r.freed, pid) <= 1
    decreases |calls|
  {
    if calls == [] {
      DeadIsOld(s, pid);
    } else {
      StepDead(s, calls[0], pid);
      StepKeepsInv(s, calls[0]);
      DeadForEver(Step(s, calls[0]), calls[1..], pid);
    }
  }

  // ----- bounded waiting -----

  ghost predicate Waiting(s: Sched, pid: nat)
  {
    !s.IsCur(pid) && Find(s.queue, pid) < |s.queue| && s.queue[Find(s.queue, pid)].status == READY
  }

  // A full slice, and one tick to change over, for each process ahead in the
  // queue; and what is left of the running slice.
  function Wait51(s: Sched, pid: nat): nat
  {
    (MAX_PRIORITY + 1) * Find(s.queue, pid) + s.cyclesLeft
  }

  // Calls that leave the status of pid alone, or make it ready.
  predicate Spares(c: Call, pid: nat)
  {
    match c
    case CallKill(p) => p != pid
    case CallBlock(p) => p != pid
    case CallSetState(p, status) => p != pid || status == READY
    case _ => true
  }

  predicate IsTick(c: Call)
  {
    c.CallTick? || c.CallYield?
  }

  function Ticks(calls: seq<Call>): nat
  {
    if calls == [] then 0 else (if IsTick(calls[0]) then 1 else 0) + Ticks(calls[1..])
  }

  // pid runs, or it still waits and the bound has come down by at least d.
  ghost predicate Nearer(s: Sched, r: Sched, pid: nat, d: nat)
  {
    r.IsCur(pid) || (Waiting(r, pid) && Wait51(r, pid) + d <= Wait51(s, pid))
  }

  lemma SetStateNearer(s: Sched, target: nat, status: Status, pid: nat)
    requires Waiting(s, pid) && (target != pid || status == READY)
    ensures Waiting(SetState(s, target, status), pid) && Wait51(SetState(s, target, status), pid) == Wait51(s, pid)
  {
    var k := Find(s.queue, target);
    if !s.IsCur(target) && k < |s.queue| {
      FindUpdate(s.queue, k, s.queue[k].(status := status), pid);
    }
  }

  lemma ParkNearer(s: Sched, pid: nat)
    requires Waiting(s, pid)
    ensures var r := Park(s);
            Find(r.queue, pid) == Find(s.queue, pid) && Find(r.queue, pid) < |r.queue|
            && r.queue[Find(r.queue, pid)].status == READY
  {
    if s.current.Running? {
      var c := s.current.pcb;
      if c.status != TERMINATED {
        FindAppend(s.queue, [c], pid);
      } else {
        SetStateNearer(s, c.ppid, READY, pid);
      }
    }
  }

  lemma DispatchNearer(s: Sched, pid: nat)
    requires Bounded(s) && s.base.pid != pid
    requires var f := Find(s.queue, pid); f < |s.queue| && s.queue[f].status == READY
    ensures var r := Dispatch(s);
            r.IsCur(pid) || (Waiting(r, pid) && Wait51(r, pid) < (MAX_PRIORITY + 1) * Find(s.queue, pid))
  {
    var f := Find(s.queue, pid);
    var k := FirstReady(s.queue);
    hide OnlyBlocked, TerminatedPids, FirstReady, Find;
    if k < f {
      MovesUp(s.queue, k, pid);
    }
  }

  // Whoever is behind the dispatched one is that much further in front afterwards.
  lemma MovesUp(q: seq<Pcb>, k: nat, pid: nat)
    requires k < Find(q, pid) < |q|
    ensures var r := q[k + 1..] + OnlyBlocked(q[..k]);
            Find(r, pid) == Find(q, pid) - (k + 1) && Find(r, pid) < |r| && r[Find(r, pid)] == q[Find(q, pid)]
  {
    hide OnlyBlocked;
    FindDrop(q, k, pid);
    FindAppend(q[k + 1..], OnlyBlocked(q[..k]), pid);
  }

  lemma TickNearer(s: Sched, pid: nat)
    requires Bounded(s) && s.base.pid != pid && Waiting(s, pid)
    ensures Nearer(s, Tick(s), pid, 1)
  {
    if s.current.Nobody? || s.Cur().status != READY || s.cyclesLeft == 0 {
      ParkNearer(s, pid);
      DispatchNearer(Park(s), pid);
    }
  }

  lemma BlockNearer(s: Sched, target: nat, pid: nat)
    requires Bounded(s) && s.base.pid != pid && Waiting(s, pid) && target != pid
    ensures Nearer(s, Block(s, target), pid, 0)
  {
    hide Tick, SetState, Find;
    SetStateNearer(s, target, BLOCKED, pid);
    SetStateBounded(s, target, BLOCKED);
    TickNearer(SetState(s, target, BLOCKED), pid);
  }

  lemma QueueEditNearer(s: Sched, k: nat, p: Pcb, pid: nat)
    requires k < |s.queue| && p.pid == s.queue[k].pid && p.status == s.queue[k].status && Waiting(s, pid)
    ensures var r := s.(queue := s.queue[k := p]);
            Waiting(r, pid) && Wait51(r, pid) == Wait51(s, pid)
  {
    FindUpdate(s.queue, k, p, pid);
  }

  lemma WaitNearer(s: Sched, target: nat, pid: nat)
    requires !s.current.Nobody? && Bounded(s) && s.base.pid != pid && Waiting(s, pid)
    ensures Nearer(s, Wait(s, target), pid, 0)
  {
    hide Block, Wait51, Find;
    var me := s.Cur().pid;
    var k := Find(s.queue, target);
    if s.IsCur(target) {
      var s1 := s.WithCur(s.Cur().(foreground := true));
      assert Wait51(s1, pid) == Wait51(s, pid) by { SameWait(s, s1, pid); }
      BlockNearer(s1, me, pid);
    } else if k < |s.queue| {
      var p := s.queue[k].(foreground := true);
      FindHere(s.queue, target);
      QueueEditNearer(s, k, p, pid);
      BlockNearer(s.(queue := s.queue[k := p]), me, pid);
    }
  }

  lemma FindHere(q: seq<Pcb>, pid: nat)
    ensures Find(q, pid) < |q| ==> q[Find(q, pid)].pid == pid
  {
  }

  lemma SameWait(s: Sched, r: Sched, pid: nat)
    requires s.queue == r.queue && s.cyclesLeft == r.cyclesLeft
    ensures Wait51(s, pid) == Wait51(r, pid)
  {
  }

  lemma PriorityNearer(s: Sched, target: nat, priority: int, pid: nat)
    requires Waiting(s, pid)
    ensures Nearer(s, SetPriority(s, target, priority), pid, 0)
  {
    var k := Find(s.queue, target);
    if !s.IsCur(target) && k < |s.queue| {
      QueueEditNearer(s, k, s.queue[k].(priority := Clamp(priority)), pid);
    }
  }

  lemma NewNearer(s: Sched, foreground: nat, memory: Memory, pid: nat)
    requires Bounded(s) && s.base.pid != pid && Waiting(s, pid)
    ensures Nearer(s, NewProcess(s, foreground, memory), pid, 0)
  {
    hide Block;
    if Born(CallNew(foreground, memory)) {
      var c := Child(s, foreground);
      FindAppend(s.queue, [c], pid);
      if c.foreground && c.ppid != 0 {
        BlockNearer(s.(nextPid := s.nextPid + 1, queue := s.queue + [c]), c.ppid, pid);
      }
    }
  }

  // A tick brings a ready, waiting process at least one nearer to the CPU, and no
  // other call takes it further away, whoever it creates, blocks, kills or
  // re-prioritises - as long as it is not this process that is blocked or killed.
  lemma StepNearer(s: Sched, c: Call, pid: nat)
    requires Enabled(s, c) && Inv(s) && Waiting(s, pid) && Spares(c, pid)
    ensures Nearer(s, Step(s, c), pid, if IsTick(c) then 1 else 0)
  {
    QueuedFound(s.queue, pid);
    assert Places(s, pid) <= (if pid < s.nextPid then 1 else 0);
    assert s.base.pid != pid;
    hide Tick, SetState, NewProcess, Wait, SetPriority, Block, Unique, Places, Find;
    match c
    case CallTick => TickNearer(s, pid);
    case CallYield => TickNearer(s.(cyclesLeft := 0), pid);
    case CallNew(f, m) => NewNearer(s, f, m, pid);
    case CallKill(target) =>
      SetStateNearer(s, target, TERMINATED, pid);
      SetStateBounded(s, target, TERMINATED);
      TickNearer(SetState(s, target, TERMINATED), pid);
    case CallBlock(target) => BlockNearer(s, target, pid);
    case CallSetState(target, status) => SetStateNearer(s, target, status, pid);
    case CallSetPriority(target, priority) => PriorityNearer(s, target, priority, pid);
    case CallWait(target) => WaitNearer(s, target, pid);
  }

  ghost predicate RunsWithin(s: Sched, calls: seq<Call>, pid: nat)
    requires !s.current.Nobody?
  {
    exists i :: 0 <= i <= |calls| && After(s, calls[..i]).IsCur(pid)
  }

  lemma {:induction false} RunsBeforeBound(s: Sched, calls: seq<Call>, pid: nat)
    requires !s.current.Nobody? && Inv(s) && Waiting(s, pid)
    requires forall i :: 0 <= i < |calls| ==> Spares(calls[i], pid)
    requires Ticks(calls) > Wait51(s, pid)
    ensures RunsWithin(s, calls, pid)
    decreases |calls|
  {
    var c, rest := calls[0], calls[1..];
    var r := Step(s, c);
    StepNearer(s, c, pid);
    StepKeepsInv(s, c);
    if r.IsCur(pid) {
      assert calls[..1] == [c];
      assert After(r, []) == r;
      assert After(s, calls[..1]) == After(r, calls[..1][1..]);
    } else {
      RunsBeforeBound(r, rest, pid);
      var i :| 0 <= i <= |rest| && After(r, rest[..i]).IsCur(pid);
      assert calls[..i + 1][0] == c && calls[..i + 1][1..] == rest[..i];
    }
  }

  // Bounded waiting: a ready process with k ahead of it in the queue, that nobody
  // blocks or kills, has the CPU before 51 * (k + 1) ticks are over.
  lemma BoundedWait(s: Sched, calls: seq<Call>, pid: nat, k: nat)
    requires !s.current.Nobody? && Inv(s)
    requires k < |s.queue| && s.queue[k].pid == pid && s.queue[k].status == READY
    requires forall i :: 0 <= i < |calls| ==> Spares(calls[i], pid)
    requires Ticks(calls) >= (MAX_PRIORITY + 1) * (k + 1)
    ensures RunsWithin(s, calls, pid)
  {
    ReadyInQueue(s, k);
    RunsBeforeBound(s, calls, pid);
  }

  // With every pid in one place only, being in the queue means waiting there.
  lemma ReadyInQueue(s: Sched, k: nat)
    requires Inv(s) && k < |s.queue| && s.queue[k].status == READY
    ensures Find(s.queue, s.queue[k].pid) == k && Waiting(s, s.queue[k].pid)
  {
    var pid := s.queue[k].pid;
    QueuedOnce(s.queue, k);
    assert Places(s, pid) <= 1;
    var f := Find(s.queue, pid);
    if f < k {
      QueuedTwice(s.queue, f, k);
    }
  }
}
