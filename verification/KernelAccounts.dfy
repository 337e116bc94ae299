// The tokens of a semaphore over runs of the kernel: what holds of one semaphore on its
// own holds of each one in the kernel for as long as it is open.
module KernelAccounts {
  import opened Scheduler
  import opened SchedulerView
  import opened Semaphore
  import opened KernelSync

  // A run in which the semaphore is there all the time.
  ghost predicate OpenRun(k: Kernel, calls: seq<KCall>, r: Kernel, id: nat)
    decreases |calls|
  {
    id in k.sems
    && if calls == [] then r == k else KEnabled(k, calls[0]) && OpenRun(KStep(k, calls[0]), calls[1..], r, id)
  }

  function PostCount(calls: seq<KCall>, id: nat): nat
  {
    if calls == [] then 0 else (if calls[0] == KPost(id) then 1 else 0) + PostCount(calls[1..], id)
  }

  function WaitCount(calls: seq<KCall>, id: nat): nat
  {
    if calls == [] then 0 else (if calls[0] == KWait(id) then 1 else 0) + WaitCount(calls[1..], id)
  }

  // Every token is accounted for: those in the semaphore less those owed to waiters are
  // what there was at first, plus the posts, less the waits.
  lemma {:induction false} TokensBalance(k: Kernel, calls: seq<KCall>, r: Kernel, id: nat)
    requires OpenRun(k, calls, r, id)
    ensures id in r.sems
    ensures r.sems[id].value - |r.sems[id].waiting|
         == k.sems[id].value - |k.sems[id].waiting| + PostCount(calls, id) - WaitCount(calls, id)
    ensures Coherent(k.sems[id]) ==> Coherent(r.sems[id])
    decreases |calls|
  {
    hide Tick, Yield, NewProcess, Kill, SetPriority, Block, SetState;
    if calls != [] {
      TokensBalance(KStep(k, calls[0]), calls[1..], r, id);
    }
  }

  // Counted from the call that opened it: as many tokens as it was opened with, plus the
  // posts, less the waits - in the value, or if that is less than nothing, as processes
  // that wait.
  lemma SinceOpened(k: Kernel, id: nat, value: nat, calls: seq<KCall>, r: Kernel)
    requires k.sched.current.Running? && id !in k.sems
    requires OpenRun(KStep(k, KOpen(id, value, true)), calls, r, id)
    ensures id in r.sems
    ensures var balance := value + PostCount(calls, id) - WaitCount(calls, id);
            if balance >= 0 then r.sems[id].value == balance && r.sems[id].waiting == []
            else r.sems[id].value == 0 && |r.sems[id].waiting| == -balance
  {
    hide OpenRun, PostCount, WaitCount;
    TokensBalance(KStep(k, KOpen(id, value, true)), calls, r, id);
  }

  // A call on one semaphore, or on none, leaves the others as they are.
  lemma OthersUntouched(k: Kernel, c: KCall, id: nat)
    requires KEnabled(k, c)
    requires c.KOpen? || c.KClose? || c.KWait? || c.KPost? ==> c.id != id
    ensures id in KStep(k, c).sems <==> id in k.sems
    ensures id in k.sems ==> KStep(k, c).sems[id] == k.sems[id]
  {
    hide Tick, Yield, NewProcess, Kill, SetPriority, Block, SetState;
  }

  // ----- order -----

  // What a call does to one semaphore, if anything but being counted as a listener.
  ghost function OpOf(k: Kernel, c: KCall, id: nat): seq<Op>
    requires KEnabled(k, c)
  {
    if c == KWait(id) then [OpWait(k.sched.Cur().pid)] else if c == KPost(id) then [OpPost] else []
  }

  ghost function OpsOf(k: Kernel, calls: seq<KCall>, r: Kernel, id: nat): seq<Op>
    requires OpenRun(k, calls, r, id)
    decreases |calls|
  {
    if calls == [] then [] else OpOf(k, calls[0], id) + OpsOf(KStep(k, calls[0]), calls[1..], r, id)
  }

  // The same tokens and the same waiters.
  predicate SameTokens(a: Sem, b: Sem)
  {
    a.value == b.value && a.waiting == b.waiting
  }

  lemma StepIsOp(k: Kernel, c: KCall, id: nat)
    requires KEnabled(k, c) && id in k.sems && id in KStep(k, c).sems
    ensures SameTokens(KStep(k, c).sems[id], RunOps(k.sems[id], OpOf(k, c, id)))
  {
    hide Tick, Yield, NewProcess, Kill, SetPriority, Block, SetState;
    var ops := OpOf(k, c, id);
    if ops != [] {
      assert ops[1..] == [];
      assert RunOps(k.sems[id], ops) == Do(k.sems[id], ops[0]);
    }
  }

  lemma {:induction false} SameTokensRun(a: Sem, b: Sem, ops: seq<Op>)
    requires SameTokens(a, b)
    ensures SameTokens(RunOps(a, ops), RunOps(b, ops))
    ensures Woken(a, ops) == Woken(b, ops) && Arrivals(a, ops) == Arrivals(b, ops)
    decreases |ops|
  {
    if ops != [] {
      SameTokensRun(Do(a, ops[0]), Do(b, ops[0]), ops[1..]);
    }
  }

  lemma {:induction false} RunOpsAppend(s: Sem, a: seq<Op>, b: seq<Op>)
    ensures RunOps(s, a + b) == RunOps(RunOps(s, a), b)
    decreases |a|
  {
    if a == [] {
      assert a + b == b;
    } else {
      RunOpsAppend(Do(s, a[0]), a[1..], b);
      assert (a + b)[1..] == a[1..] + b;
    }
  }

  // In a run of the kernel each semaphore goes through a run of its own waits and posts.
  lemma {:induction false} RunsOnItsOwn(k: Kernel, calls: seq<KCall>, r: Kernel, id: nat)
    requires OpenRun(k, calls, r, id)
    ensures id in r.sems && SameTokens(r.sems[id], RunOps(k.sems[id], OpsOf(k, calls, r, id)))
    decreases |calls|
  {
    hide KStep, OpOf;
    if calls != [] {
      var m := KStep(k, calls[0]);
      var op, ops := OpOf(k, calls[0], id), OpsOf(m, calls[1..], r, id);
      StepIsOp(k, calls[0], id);
      RunsOnItsOwn(m, calls[1..], r, id);
      RunOpsAppend(k.sems[id], op, ops);
      SameTokensRun(m.sems[id], RunOps(k.sems[id], op), ops);
    }
  }

  // So its waiters are woken in the order in which they began to wait.
  lemma FirstComeFirstServed(k: Kernel, calls: seq<KCall>, r: Kernel, id: nat)
    requires OpenRun(k, calls, r, id)
    ensures var ops := OpsOf(k, calls, r, id);
            id in r.sems
            && Woken(k.sems[id], ops) + r.sems[id].waiting == k.sems[id].waiting + Arrivals(k.sems[id], ops)
  {
    RunsOnItsOwn(k, calls, r, id);
    ArrivalOrder(k.sems[id], OpsOf(k, calls, r, id));
  }

  // ----- the caller -----

  // A wait takes a token if there is one, and then the caller goes on; otherwise the
  // caller is blocked, and is the last of those that wait.
  lemma WaitTakesOrBlocks(k: Kernel, id: nat)
    requires KInv(k) && KEnabled(k, KWait(id)) && id in k.sems
    ensures var r, s, me := KStep(k, KWait(id)), k.sems[id], k.sched.Cur().pid;
            if s.value > 0 then r == k.(sems := k.sems[id := s.(value := s.value - 1)])
            else
              && r.sems == k.sems[id := s.(waiting := s.waiting + [me])] && Blocked(r.sched, me)
              && forall pid: nat :: pid != me ==> Proc(r.sched, pid) == Proc(k.sched, pid)
  {
    var me := k.sched.Cur().pid;
    assert Proc(k.sched, me).Found?;
    BlockCurrent(k.sched);
    hide SchedInv, SemsInv, ReasonsInv, Block;
  }

  // A post that finds nobody waiting adds a token and wakes nobody.
  lemma PostAdds(k: Kernel, id: nat)
    requires KEnabled(k, KPost(id)) && id in k.sems && k.sems[id].waiting == []
    ensures var s := k.sems[id];
            KStep(k, KPost(id)) == k.(sems := k.sems[id := s.(value := s.value + 1)])
  {
  }
}
