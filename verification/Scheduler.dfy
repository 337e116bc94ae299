// The scheduler's state and what each kernel entry point does to it: one process
// runs, the others wait in a queue that mixes ready, blocked and terminated ones.
module Scheduler {

  const BACKGROUND_PRIORITY_DEFAULT := 1
  const FOREGROUND_PRIORITY_DEFAULT := 2
  const MAX_PRIORITY := 50

  datatype Status = READY | BLOCKED | TERMINATED

  datatype Pcb = Pcb(pid: nat, ppid: nat, foreground: bool, status: Status, priority: nat)

  // Before the first tick nothing runs; when no process is ready the base
  // process does.
  datatype Current = Nobody | Base | Running(pcb: Pcb)

  // freed lists the pids whose memory has been given back, in order.
  datatype Sched = Sched(base: Pcb, current: Current, cyclesLeft: nat, queue: seq<Pcb>, nextPid: nat, freed: seq<nat>)
  {
    function Cur(): Pcb
      requires !current.Nobody?
    {
      if current.Base? then base else current.pcb
    }

    predicate IsCur(pid: nat)
    {
      !current.Nobody? && Cur().pid == pid
    }

    function WithCur(p: Pcb): Sched
      requires !current.Nobody?
    {
      if current.Base? then this.(base := p) else this.(current := Running(p))
    }
  }

  // ----- the queue -----

  predicate HasReady(q: seq<Pcb>)
  {
    exists i :: 0 <= i < |q| && q[i].status == READY
  }

  function ReadyCount(q: seq<Pcb>): nat
  {
    if q == [] then 0 else (if q[0].status == READY then 1 else 0) + ReadyCount(q[1..])
  }

  lemma {:induction false} ReadyCountAppend(q: seq<Pcb>, p: Pcb)
    ensures ReadyCount(q + [p]) == ReadyCount(q) + if p.status == READY then 1 else 0
  {
    if q == [] {
    } else {
      ReadyCountAppend(q[1..], p);
      assert (q + [p])[1..] == q[1..] + [p];
    }
  }

  lemma {:induction false} ReadyCountPositive(q: seq<Pcb>)
    ensures ReadyCount(q) > 0 <==> HasReady(q)
  {
    if q != [] {
      ReadyCountPositive(q[1..]);
      assert forall i :: 1 <= i < |q| ==> q[i] == q[1..][i - 1];
    }
  }

  // Changing one element changes the count by what that element contributes.
  lemma {:induction false} ReadyCountUpdate(q: seq<Pcb>, k: nat, p: Pcb)
    requires k < |q|
    ensures ReadyCount(q[k := p]) ==
            ReadyCount(q) - (if q[k].status == READY then 1 else 0) + (if p.status == READY then 1 else 0)
  {
    if k > 0 {
      ReadyCountUpdate(q[1..], k - 1, p);
      assert q[k := p][1..] == q[1..][k - 1 := p];
    } else {
      assert q[k := p][1..] == q[1..];
    }
  }

  function FirstReady(q: seq<Pcb>): (k: nat)
    requires HasReady(q)
    ensures k < |q| && q[k].status == READY && forall i :: 0 <= i < k ==> q[i].status != READY
  {
    if q[0].status == READY then 0 else
      assert exists i :: 0 <= i < |q[1..]| && q[1..][i].status == READY by {
        var i :| 0 <= i < |q| && q[i].status == READY;
        assert q[1..][i - 1] == q[i];
      }
      1 + FirstReady(q[1..])
  }

  lemma FirstReadyIs(q: seq<Pcb>, k: nat)
    requires k < |q| && q[k].status == READY && forall i :: 0 <= i < k ==> q[i].status != READY
    ensures HasReady(q) && FirstReady(q) == k
  {
  }

  function OnlyBlocked(q: seq<Pcb>): seq<Pcb>
  {
    if q == [] then [] else (if q[0].status == BLOCKED then [q[0]] else []) + OnlyBlocked(q[1..])
  }

  function TerminatedPids(q: seq<Pcb>): seq<nat>
  {
    if q == [] then [] else (if q[0].status == TERMINATED then [q[0].pid] else []) + TerminatedPids(q[1..])
  }

  // The position of pid in the queue, or the length of the queue.
  function Find(q: seq<Pcb>, pid: nat): (k: nat)
    ensures k <= |q| && (forall i :: 0 <= i < k ==> q[i].pid != pid) && (k < |q| ==> q[k].pid == pid)
  {
    if q == [] || q[0].pid == pid then 0 else 1 + Find(q[1..], pid)
  }

  // ----- the entry points -----

  // setState: a terminated process stays so; anything else changes as asked.
  function SetState(s: Sched, pid: nat, status: Status): (r: Sched)
    ensures r.nextPid == s.nextPid && r.base.pid == s.base.pid
  {
    if s.IsCur(pid) then
      if s.Cur().status == TERMINATED then s else s.WithCur(s.Cur().(status := status))
    else
      var k := Find(s.queue, pid);
      if k == |s.queue| || s.queue[k].status == TERMINATED then s
      else s.(queue := s.queue[k := s.queue[k].(status := status)])
  }

  // The first part of a dispatch: the current process leaves the CPU.  A
  // terminated one is freed, after waking the parent that waits for it.
  function Park(s: Sched): (r: Sched)
    ensures r.nextPid == s.nextPid && r.base.pid == s.base.pid
  {
    if !s.current.Running? then s
    else
      var p := s.current.pcb;
      if p.status != TERMINATED then s.(queue := s.queue + [p])
      else
        var k := Find(s.queue, p.ppid);
        var woken := p.foreground && p.pid != p.ppid && k < |s.queue| && s.queue[k].status == BLOCKED;
        (if woken then SetState(s, p.ppid, READY) else s).(freed := s.freed + [p.pid])
  }

  // The second part: the first ready process gets the CPU.  The blocked ones
  // before it go to the back, the terminated ones before it are freed.
  function Dispatch(s: Sched): (r: Sched)
    ensures r.nextPid == s.nextPid && r.base.pid == s.base.pid
  {
    if HasReady(s.queue) then
      var k := FirstReady(s.queue);
      s.(current := Running(s.queue[k]),
         queue := s.queue[k + 1..] + OnlyBlocked(s.queue[..k]),
         freed := s.freed + TerminatedPids(s.queue[..k]),
         cyclesLeft := s.queue[k].priority)
    else s.(current := Base, cyclesLeft := s.base.priority)
  }

  // processManager, run at every timer interrupt.
  function Tick(s: Sched): (r: Sched)
    ensures r.nextPid == s.nextPid && r.base.pid == s.base.pid
  {
    if !s.current.Nobody? && s.Cur().status == READY && s.cyclesLeft > 0 then s.(cyclesLeft := s.cyclesLeft - 1)
    else Dispatch(Park(s))
  }

  // What newProcess manages to allocate.
  datatype Memory = NoNode | NoStack | NoArguments | Enough

  function Child(s: Sched, foreground: nat): Pcb
    requires foreground <= 1
  {
    var fg := foreground == 1 && (s.current.Nobody? || s.Cur().foreground);
    Pcb(s.nextPid, if s.current.Nobody? then 0 else s.Cur().pid, fg, READY,
        if fg then FOREGROUND_PRIORITY_DEFAULT else BACKGROUND_PRIORITY_DEFAULT)
  }

  // newProcess: a failure after the process control block was begun still uses
  // up a pid; a foreground child blocks its parent.
  function NewProcess(s: Sched, foreground: nat, memory: Memory): Sched
  {
    if memory.NoNode? then s
    else if foreground > 1 || !memory.Enough? then s.(nextPid := s.nextPid + 1)
    else
      var p := Child(s, foreground);
      var s1 := s.(nextPid := s.nextPid + 1, queue := s.queue + [p]);
      if p.foreground && p.ppid != 0 then Block(s1, p.ppid) else s1
  }

  // killProcess and blockProcess: the CPU is given up when the target is current.
  function Kill(s: Sched, pid: nat): (r: Sched)
    ensures r.nextPid == s.nextPid && r.base.pid == s.base.pid
  {
    var s1 := SetState(s, pid, TERMINATED);
    if s.IsCur(pid) then Tick(s1) else s1
  }

  function Block(s: Sched, pid: nat): (r: Sched)
    ensures r.nextPid == s.nextPid && r.base.pid == s.base.pid
  {
    var s1 := SetState(s, pid, BLOCKED);
    if s.IsCur(pid) then Tick(s1) else s1
  }

  function Yield(s: Sched): (r: Sched)
    ensures r.nextPid == s.nextPid && r.base.pid == s.base.pid
  {
    Tick(s.(cyclesLeft := 0))
  }

  function Clamp(priority: int): nat
  {
    if priority < 0 then 0 else if priority > MAX_PRIORITY then MAX_PRIORITY else priority
  }

  function SetPriority(s: Sched, pid: nat, priority: int): (r: Sched)
    ensures r.nextPid == s.nextPid && r.base.pid == s.base.pid
  {
    if s.IsCur(pid) then s.WithCur(s.Cur().(priority := Clamp(priority)))
    else
      var k := Find(s.queue, pid);
      if k == |s.queue| then s else s.(queue := s.queue[k := s.queue[k].(priority := Clamp(priority))])
  }

  // wait: the process becomes a foreground one and the caller blocks.
  function Wait(s: Sched, pid: nat): (r: Sched)
    requires !s.current.Nobody?
    ensures r.nextPid == s.nextPid && r.base.pid == s.base.pid
  {
    if s.IsCur(pid) then
      var s1 := s.WithCur(s.Cur().(foreground := true));
      Block(s1, s.Cur().pid)
    else
      var k := Find(s.queue, pid);
      if k == |s.queue| then s
      else Block(s.(queue := s.queue[k := s.queue[k].(foreground := true)]), s.Cur().pid)
  }

  datatype Call =
    | CallTick
    | CallYield
    | CallNew(foreground: nat, memory: Memory)
    | CallKill(pid: nat)
    | CallBlock(pid: nat)
    | CallSetState(pid: nat, status: Status)
    | CallSetPriority(pid: nat, priority: int)
    | CallWait(pid: nat)

  // wait blocks its caller, so somebody must run; all else may come at any time.
  predicate Enabled(s: Sched, c: Call)
  {
    c.CallWait? ==> !s.current.Nobody?
  }

  function Step(s: Sched, c: Call): (r: Sched)
    requires Enabled(s, c)
    ensures !s.current.Nobody? ==> !r.current.Nobody?
  {
    match c
    case CallTick => Tick(s)
    case CallYield => Yield(s)
    case CallNew(f, m) => NewProcess(s, f, m)
    case CallKill(pid) => Kill(s, pid)
    case CallBlock(pid) => Block(s, pid)
    case CallSetState(pid, status) => SetState(s, pid, status)
    case CallSetPriority(pid, p) => SetPriority(s, pid, p)
    case CallWait(pid) => Wait(s, pid)
  }
}
