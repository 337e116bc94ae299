// The scheduler seen by pid only: which process control block a pid has, if it is
// alive, wherever in the queue it stands.  Between two processes of the same pid there
// is nothing to choose, since the invariant says that there are none.  Seen this way
// most calls change nothing, a change of state changes one process, and a tick makes
// the one that has ended disappear.
module SchedulerView {
  import opened Scheduler
  import opened SchedulerTheorems

  datatype Found = NotFound | Found(pcb: Pcb)

  // The live process with this pid, on the CPU or queued; the base process is not counted.
  function Proc(s: Sched, pid: nat): Found
  {
    if s.current.Running? && s.current.pcb.pid == pid then Found(s.current.pcb)
    else if Find(s.queue, pid) < |s.queue| then Found(s.queue[Find(s.queue, pid)])
    else NotFound
  }

  // Only the current process may be terminated, and the one that goes on running is ready.
  ghost predicate NoneTerminatedQueued(s: Sched)
  {
    forall i :: 0 <= i < |s.queue| ==> s.queue[i].status != TERMINATED
  }

  ghost predicate RunsReady(s: Sched)
  {
    !s.current.Nobody? && s.Cur().status == READY && s.base.status == READY
  }

  // The pid of the base process is nobody else's.
  lemma BaseIsApart(s: Sched)
    requires Inv(s)
    ensures Proc(s, s.base.pid) == NotFound
    ensures s.current.Running? ==> s.current.pcb.pid != s.base.pid
  {
    QueuedFound(s.queue, s.base.pid);
    assert Places(s, s.base.pid) <= 1;
  }

  lemma CurrentNotQueued(s: Sched)
    requires Inv(s) && s.current.Running?
    ensures Find(s.queue, s.current.pcb.pid) == |s.queue|
  {
    QueuedFound(s.queue, s.current.pcb.pid);
    assert Places(s, s.current.pcb.pid) <= 1;
  }

  lemma NextIsNew(s: Sched)
    requires Inv(s)
    ensures Proc(s, s.nextPid) == NotFound
  {
    QueuedFound(s.queue, s.nextPid);
    assert Places(s, s.nextPid) <= 0;
  }

  lemma AliveIsOld(s: Sched, pid: nat)
    requires Inv(s) && Proc(s, pid).Found?
    ensures pid < s.nextPid && pid != s.base.pid
  {
    QueuedFound(s.queue, pid);
    assert Places(s, pid) <= (if pid < s.nextPid then 1 else 0);
  }

  function WithStatus(f: Found, status: Status): Found
  {
    if f.Found? && f.pcb.status != TERMINATED then Found(f.pcb.(status := status)) else f
  }

  lemma SetStateView(s: Sched, target: nat, status: Status, pid: nat)
    requires Inv(s) && target != s.base.pid
    ensures Proc(SetState(s, target, status), pid) ==
            if pid == target then WithStatus(Proc(s, pid), status) else Proc(s, pid)
  {
    var k := Find(s.queue, target);
    if !s.IsCur(target) && k < |s.queue| {
      FindUpdate(s.queue, k, s.queue[k].(status := status), pid);
    }
  }

  // ----- a change of process, by pid -----

  lemma {:induction false} OnlyBlockedFind(q: seq<Pcb>)
    requires forall i :: 0 <= i < |q| ==> q[i].status == BLOCKED
    ensures OnlyBlocked(q) == q && TerminatedPids(q) == []
  {
    if q != [] {
      OnlyBlockedFind(q[1..]);
    }
  }

  // With no terminated process queued, a dispatch only rotates the queue.
  lemma DispatchRotates(s: Sched)
    requires NoneTerminatedQueued(s) && HasReady(s.queue)
    ensures var k := FirstReady(s.queue);
            Dispatch(s).queue == s.queue[k + 1..] + s.queue[..k] && Dispatch(s).freed == s.freed
  {
    var k := FirstReady(s.queue);
    assert forall i :: 0 <= i < k ==> s.queue[i].status != READY && s.queue[i].status != TERMINATED;
    OnlyBlockedFind(s.queue[..k]);
  }

  // Where a pid other than the k-th one's is found, before and after.
  lemma FindAround(q: seq<Pcb>, k: nat, pid: nat)
    requires k < |q| && pid != q[k].pid
    ensures Find(q, pid) == if Find(q[..k], pid) < k then Find(q[..k], pid) else k + 1 + Find(q[k + 1..], pid)
  {
    var a, b := q[..k], q[k + 1..];
    assert q == a + ([q[k]] + b);
    FindAppend(a, [q[k]] + b, pid);
    FindAppend([q[k]], b, pid);
  }

  lemma QueuedAround(q: seq<Pcb>, k: nat, pid: nat)
    requires k < |q| && pid != q[k].pid
    ensures Queued(q, pid) == Queued(q[..k], pid) + Queued(q[k + 1..], pid)
  {
    var a, b := q[..k], q[k + 1..];
    assert q == a + ([q[k]] + b);
    QueuedAppend(a, [q[k]] + b, pid);
    QueuedAppend([q[k]], b, pid);
  }

  lemma FindRotated(q: seq<Pcb>, k: nat, pid: nat)
    requires k < |q| && pid != q[k].pid
    ensures var r := q[k + 1..] + q[..k];
            (Find(q, pid) == |q| <==> Find(r, pid) == |r|)
    ensures var r := q[k + 1..] + q[..k];
            Find(q, pid) < |q| && Queued(q, pid) <= 1 ==> r[Find(r, pid)] == q[Find(q, pid)]
  {
    FindAround(q, k, pid);
    QueuedAround(q, k, pid);
    FindAppend(q[k + 1..], q[..k], pid);
    QueuedFound(q[..k], pid);
    QueuedFound(q[k + 1..], pid);
    hide Find, Queued;
  }

  lemma DispatchView(s: Sched, pid: nat)
    requires NoneTerminatedQueued(s) && Queued(s.queue, pid) <= 1
    ensures Proc(Dispatch(s), pid) == Proc(s.(current := Base), pid)
  {
    if HasReady(s.queue) {
      DispatchRotates(s);
      var k := FirstReady(s.queue);
      if s.queue[k].pid == pid {
        var f := Find(s.queue, pid);
        if f < k {
          QueuedTwice(s.queue, f, k);
        }
      } else {
        FindRotated(s.queue, k, pid);
      }
    }
  }

  // What becomes of pid when the current process leaves the CPU.
  function Parked(s: Sched, pid: nat): Found
  {
    if !s.current.Running? || s.current.pcb.status != TERMINATED then Proc(s, pid)
    else if pid == s.current.pcb.pid then NotFound
    else if pid == s.current.pcb.ppid && s.current.pcb.foreground
            && Proc(s, pid).Found? && Proc(s, pid).pcb.status == BLOCKED
    then WithStatus(Proc(s, pid), READY)
    else Proc(s, pid)
  }

  lemma ParkLiveView(s: Sched, pid: nat)
    requires Inv(s) && NoneTerminatedQueued(s) && s.current.Running? && s.current.pcb.status != TERMINATED
    ensures Proc(Park(s).(current := Base), pid) == Proc(s, pid)
    ensures NoneTerminatedQueued(Park(s))
  {
    var c := s.current.pcb;
    CurrentNotQueued(s);
    hide Inv;
    FindAppend(s.queue, [c], pid);
  }

  // The parent a terminated process wakes, if it does.
  lemma WokenView(s: Sched, pid: nat)
    requires s.current.Running? && Find(s.queue, s.current.pcb.ppid) < |s.queue|
    ensures var k := Find(s.queue, s.current.pcb.ppid);
            var q := s.queue[k := s.queue[k].(status := READY)];
            Find(q, pid) == Find(s.queue, pid)
    ensures var k, f := Find(s.queue, s.current.pcb.ppid), Find(s.queue, pid);
            f < |s.queue| ==> (f == k <==> pid == s.current.pcb.ppid)
  {
    var k := Find(s.queue, s.current.pcb.ppid);
    FindUpdate(s.queue, k, s.queue[k].(status := READY), pid);
  }

  lemma ParkDeadView(s: Sched, pid: nat)
    requires Inv(s) && NoneTerminatedQueued(s) && s.current.Running? && s.current.pcb.status == TERMINATED
    ensures Proc(Park(s).(current := Base), pid) == Parked(s, pid)
    ensures NoneTerminatedQueued(Park(s))
  {
    CurrentNotQueued(s);
    ParkWakes(s);
    hide Inv, Park;
    if Find(s.queue, s.current.pcb.ppid) < |s.queue| {
      WokenView(s, pid);
    }
    hide Find;
  }

  // What a terminated process leaves of the queue.
  lemma ParkWakes(s: Sched)
    requires NoneTerminatedQueued(s) && s.current.Running? && s.current.pcb.status == TERMINATED
    requires Find(s.queue, s.current.pcb.pid) == |s.queue|
    ensures var c, q, k := s.current.pcb, s.queue, Find(s.queue, s.current.pcb.ppid);
            && Park(s).current == s.current
            && Park(s).queue == if c.foreground && k < |q| && q[k].status == BLOCKED
                                then q[k := q[k].(status := READY)] else q
    ensures NoneTerminatedQueued(Park(s))
  {
    hide Find;
  }

  lemma ParkView(s: Sched, pid: nat)
    requires Inv(s) && NoneTerminatedQueued(s)
    ensures Proc(Park(s).(current := Base), pid) == Parked(s, pid)
    ensures NoneTerminatedQueued(Park(s))
  {
    hide Inv, NoneTerminatedQueued;
    if s.current.Running? {
      if s.current.pcb.status != TERMINATED {
        ParkLiveView(s, pid);
      } else {
        ParkDeadView(s, pid);
      }
    }
  }

  lemma DispatchReady(s: Sched)
    requires NoneTerminatedQueued(s) && s.base.status == READY
    ensures NoneTerminatedQueued(Dispatch(s)) && RunsReady(Dispatch(s))
  {
    if HasReady(s.queue) {
      DispatchRotates(s);
    }
  }

  predicate Changes(s: Sched)
  {
    s.current.Nobody? || s.Cur().status != READY || s.cyclesLeft == 0
  }

  // A tick moves processes about, but by pid nothing changes except that a
  // terminated current process disappears and its waiting parent becomes ready.
  lemma TickView(s: Sched, pid: nat)
    requires Inv(s) && NoneTerminatedQueued(s) && s.base.status == READY
    ensures Proc(Tick(s), pid) == if Changes(s) then Parked(s, pid) else Proc(s, pid)
    ensures NoneTerminatedQueued(Tick(s)) && RunsReady(Tick(s))
  {
    if Changes(s) {
      ParkView(s, pid);
      ParkPlaces(s, pid);
      assert Places(s, pid) <= 1;
      QueuedWithin(Park(s), pid);
      hide Inv, NoneTerminatedQueued, Places, Park, Dispatch, Parked;
      DispatchView(Park(s), pid);
      ParkBase(s);
      DispatchReady(Park(s));
    }
  }

  lemma QueuedWithin(s: Sched, pid: nat)
    ensures Queued(s.queue, pid) <= Places(s.(current := Base), pid)
  {
  }

  lemma ParkBase(s: Sched)
    ensures Park(s).base == s.base
  {
  }
}
