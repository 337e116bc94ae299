// One counting semaphore with direct hand-over: a post either wakes the longest
// waiter, who then owns the token, or raises the value.
module Semaphore {
  import opened Sequences

  const MAX_BLOCKED_PROCESSES := 20

  datatype Sem = Sem(value: nat, waiting: seq<nat>, listening: nat)

  function Created(value: nat): Sem
  {
    Sem(value, [], 0)
  }

  predicate WaitBlocks(s: Sem)
  {
    s.value == 0
  }

  // semWait by process pid.
  function Wait(s: Sem, pid: nat): Sem
  {
    if WaitBlocks(s) then s.(waiting := s.waiting + [pid]) else s.(value := s.value - 1)
  }

  predicate PostWakes(s: Sem)
  {
    s.waiting != []
  }

  // semPost; when it wakes, the one woken is s.waiting[0].
  function Post(s: Sem): Sem
  {
    if PostWakes(s) then s.(waiting := s.waiting[1..]) else s.(value := s.value + 1)
  }

  // A token is in the value or somebody waits, never both.
  predicate Coherent(s: Sem)
  {
    s.value == 0 || s.waiting == []
  }

  // ----- runs of one semaphore -----

  datatype Op = OpWait(pid: nat) | OpPost

  function Do(s: Sem, op: Op): Sem
  {
    match op
    case OpWait(pid) => Wait(s, pid)
    case OpPost => Post(s)
  }

  function RunOps(s: Sem, ops: seq<Op>): Sem
    decreases |ops|
  {
    if ops == [] then s else RunOps(Do(s, ops[0]), ops[1..])
  }

  function Posts(ops: seq<Op>): nat
  {
    if ops == [] then 0 else (if ops[0].OpPost? then 1 else 0) + Posts(ops[1..])
  }

  function Waits(ops: seq<Op>): nat
  {
    if ops == [] then 0 else (if ops[0].OpWait? then 1 else 0) + Waits(ops[1..])
  }

  // The processes that had to queue up, in order of arrival.
  function Arrivals(s: Sem, ops: seq<Op>): seq<nat>
    decreases |ops|
  {
    if ops == [] then []
    else (if ops[0].OpWait? && WaitBlocks(s) then [ops[0].pid] else []) + Arrivals(Do(s, ops[0]), ops[1..])
  }

  // The processes that were woken, in order.
  function Woken(s: Sem, ops: seq<Op>): seq<nat>
    decreases |ops|
  {
    if ops == [] then []
    else (if ops[0].OpPost? && PostWakes(s) then [s.waiting[0]] else []) + Woken(Do(s, ops[0]), ops[1..])
  }

  // Value minus waiters is the initial balance plus posts minus waits, and value
  // and waiters are never both positive.
  lemma {:induction false} Accounting(s: Sem, ops: seq<Op>)
    requires Coherent(s)
    ensures var r := RunOps(s, ops);
            && Coherent(r)
            && r.value - |r.waiting| == s.value - |s.waiting| + Posts(ops) - Waits(ops)
    decreases |ops|
  {
    if ops != [] {
      Accounting(Do(s, ops[0]), ops[1..]);
    }
  }

  lemma Regroup(w: seq<nat>, x: seq<nat>, y: seq<nat>, z: seq<nat>, v: seq<nat>, s: seq<nat>, a: seq<nat>)
    requires x + y == z + v && s + a == w + z
    ensures (w + x) + y == s + (a + v)
  {
    assert (w + x) + y == w + (x + y);
    assert w + (z + v) == (w + z) + v;
    assert (s + a) + v == s + (a + v);
  }

  // Waiters are woken in the order they arrived: the woken ones followed by the
  // ones still waiting are the first waiters followed by the arrivals.
  lemma {:induction false} ArrivalOrder(s: Sem, ops: seq<Op>)
    ensures Woken(s, ops) + RunOps(s, ops).waiting == s.waiting + Arrivals(s, ops)
    decreases |ops|
  {
    if ops != [] {
      var r := Do(s, ops[0]);
      ArrivalOrder(r, ops[1..]);
      var w := if ops[0].OpPost? && PostWakes(s) then [s.waiting[0]] else [];
      var a := if ops[0].OpWait? && WaitBlocks(s) then [ops[0].pid] else [];
      assert s.waiting + a == w + r.waiting;
      Regroup(w, Woken(r, ops[1..]), RunOps(s, ops).waiting, r.waiting, Arrivals(r, ops[1..]), s.waiting, a);
    }
  }

  // If at most MAX_BLOCKED_PROCESSES processes use a semaphore, and each waits at
  // most once, the array of waiters has room for one more that is not waiting yet.
  lemma UsersFit(s: Sem, users: set<nat>, pid: nat)
    requires |users| <= MAX_BLOCKED_PROCESSES
    requires Distinct(s.waiting)
    requires forall p :: p in s.waiting ==> p in users
    requires pid in users && pid !in s.waiting
    ensures |s.waiting| < MAX_BLOCKED_PROCESSES
  {
    DistinctCount(s.waiting);
    SubsetIsSmaller(Elements(s.waiting), users - {pid});
  }

  function Elements(xs: seq<nat>): set<nat>
  {
    set x | x in xs
  }

  lemma {:induction false} DistinctCount(xs: seq<nat>)
    requires Distinct(xs)
    ensures |Elements(xs)| == |xs|
  {
    if xs != [] {
      DistinctCount(xs[1..]);
      assert Elements(xs) == Elements(xs[1..]) + {xs[0]};
    }
  }
}
