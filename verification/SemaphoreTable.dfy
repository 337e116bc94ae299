// The kernel's semaphores as they run: a linked list of semaphores, each with a fixed
// array of waiting pids, calling into the process manager.  The class keeps, for the
// proof only, the list as a sequence and what each node stands for; the lemmas behind
// the class say how they change when a node comes or goes.
module SemaphoreTable {
  import opened SchedulerTheorems
  import opened ProcessManager
  import opened Semaphore
  import opened KernelSync
  import opened SemaphoreNode

  function NextSem(nodes: seq<SemNode>, i: nat): SemNode?
    requires i < |nodes|
  {
    if i + 1 < |nodes| then nodes[i + 1] else null
  }

  ghost predicate Linked(nodes: seq<SemNode>)
    reads nodes`next
  {
    forall i {:trigger nodes[i].next} :: 0 <= i < |nodes| ==> nodes[i].next == NextSem(nodes, i)
  }

  // No two semaphores share an id or an array.
  ghost predicate Separate(nodes: seq<SemNode>)
  {
    forall i, j :: 0 <= i < j < |nodes| ==>
      nodes[i] != nodes[j] && nodes[i].id != nodes[j].id && nodes[i].blockedProcesses != nodes[j].blockedProcesses
  }

  // The nodes with their arrays of waiters hold exactly the semaphores.
  ghost predicate HoldAll(nodes: seq<SemNode>, arrays: seq<array<nat>>, sems: map<nat, Sem>)
    reads nodes`value, nodes`blockedProcessesAmount, nodes`listeningProcesses, arrays
  {
    && |arrays| == |nodes|
    && (forall i :: 0 <= i < |nodes| ==>
          arrays[i] == nodes[i].blockedProcesses && nodes[i].id in sems && nodes[i].Holds(sems[nodes[i].id]))
    && (forall id :: id in sems ==> exists i :: 0 <= i < |nodes| && nodes[i].id == id)
  }

  class Table {
    const manager: Manager
    var semaphores: SemNode?
    ghost var nodes: seq<SemNode>
    ghost var arrays: seq<array<nat>>
    ghost var sems: map<nat, Sem>

    ghost predicate Shape()
      reads this, nodes, arrays
    {
      && semaphores == (if nodes == [] then null else nodes[0])
      && Linked(nodes) && Separate(nodes) && HoldAll(nodes, arrays, sems)
    }

    constructor (manager: Manager)
      ensures this.manager == manager && Shape() && sems == map[]
    {
      this.manager := manager;
      semaphores := null;
      nodes, arrays, sems := [], [], map[];
    }

    method GetSemaphore(id: nat) returns (result: SemNode?, ghost k: nat)
      requires Shape()
      ensures Shape() && (result == null <==> id !in sems)
      ensures result != null ==>
                k < |nodes| && result == nodes[k] && result.id == id && result.blockedProcesses in arrays
    {
      hide HoldAll, Separate;
      result := semaphores;
      k := 0;
      while result != null
        invariant k <= |nodes| && result == if k < |nodes| then nodes[k] else null
        invariant forall i :: 0 <= i < k ==> nodes[i].id != id
        decreases |nodes| - k
      {
        if result.id == id {
          IdsMatch(nodes, arrays, sems, id);
          return;
        }
        result := result.next;
        k := k + 1;
      }
      IdsMatch(nodes, arrays, sems, id);
    }

    // The kernel state that manager and semaphores stand for.
    ghost function State(): Kernel
      reads this, manager
    {
      Kernel(manager.state, sems)
    }

    ghost predicate Valid()
      reads this, nodes, arrays, manager, manager.processes, manager.repr, manager.currentProcess
    {
      Shape() && manager.Valid()
    }

    // semWait
    method SemWait(id: nat) returns (r: int)
      requires Valid() && KEnabled(State(), KWait(id))
      modifies this, nodes, arrays, manager, manager.processes, manager.repr
      ensures Valid() && State() == KStep(old(State()), KWait(id)) && nodes == old(nodes)
      ensures r == if id in old(sems) then 0 else -1
    {
      hide Linked, Separate, HoldAll, Manager.Valid, Scheduler.Block, Inv, WaitBlocks, Semaphore.Wait;
      var sem, k := GetSemaphore(id);
      if sem == null {
        return -1;
      }
      var currentPID := manager.currentProcess.pid;
      var blocks := WaitOn(sem, currentPID, k);
      if blocks {
        var b := manager.BlockProcess(currentPID);
      }
      return 0;
    }

    method WaitOn(sem: SemNode, pid: nat, ghost k: nat) returns (blocks: bool)
      requires Shape() && k < |nodes| && sem == nodes[k] && sem.id in sems
      requires WaitBlocks(sems[sem.id]) ==> |sems[sem.id].waiting| < MAX_BLOCKED_PROCESSES
      modifies `sems, sem`value, sem`blockedProcessesAmount, sem.blockedProcesses
      ensures Shape() && sems == old(sems)[sem.id := Semaphore.Wait(old(sems)[sem.id], pid)]
      ensures blocks == WaitBlocks(old(sems)[sem.id])
    {
      hide Linked, SemNode.Holds;
      Apart(nodes, k);
      hide Separate;
      blocks := sem.TakeOrQueue(pid, sems[sem.id]);
      sems := sems[sem.id := Semaphore.Wait(sems[sem.id], pid)];
    }

    // semPost
    method SemPost(id: nat) returns (r: int)
      requires Valid() && KEnabled(State(), KPost(id))
      modifies this, nodes, arrays, manager, manager.processes, manager.repr
      ensures Valid() && State() == KStep(old(State()), KPost(id)) && nodes == old(nodes)
      ensures r == if id in old(sems) then 0 else -1
    {
      hide Linked, Separate, HoldAll, Manager.Valid, Scheduler.SetState, Inv;
      var sem, k := GetSemaphore(id);
      if sem == null {
        return -1;
      }
      var wakes, pid := PostOn(sem, k);
      if wakes {
        var b := manager.ReadyProcess(pid);
      }
      return 0;
    }

    method PostOn(sem: SemNode, ghost k: nat) returns (wakes: bool, pid: nat)
      requires Shape() && k < |nodes| && sem == nodes[k] && sem.id in sems
      modifies `sems, sem`value, sem`blockedProcessesAmount, sem.blockedProcesses
      ensures Shape() && sems == old(sems)[sem.id := Post(old(sems)[sem.id])]
      ensures wakes == PostWakes(old(sems)[sem.id]) && (wakes ==> pid == old(sems)[sem.id].waiting[0])
    {
      hide Linked, SemNode.Holds;
      Apart(nodes, k);
      hide Separate;
      wakes, pid := sem.GiveOrRelease(sems[sem.id]);
      sems := sems[sem.id := Post(sems[sem.id])];
    }

    // semOpen; room says whether a new semaphore can be allocated.
    method SemOpen(id: nat, initialValue: nat, room: bool) returns (r: int)
      requires Shape()
      modifies this, nodes
      ensures Shape() && sems == KernelSync.SemOpen(old(sems), id, initialValue, room)
      ensures r == if id in old(sems) then (if old(sems)[id].listening >= MAX_BLOCKED_PROCESSES then -1 else id)
                   else if room then id else -1
      ensures forall n :: n in nodes ==> n in old(nodes) || fresh(n)
      ensures forall a :: a in arrays ==> a in old(arrays) || fresh(a)
    {
      hide Linked, Separate, HoldAll;
      var semaphore, k := GetSemaphore(id);
      if semaphore == null {
        if !room {
          return -1;
        }
        semaphore := CreateSemaphore(id, initialValue);
        k := |nodes| - 1;
      }
      var listening := Listening(semaphore, k);
      if listening >= MAX_BLOCKED_PROCESSES {
        return -1;
      }
      SetListening(semaphore, listening + 1, k);
      return id;
    }

    method CreateSemaphore(id: nat, initialValue: nat) returns (newSem: SemNode)
      requires Shape() && id !in sems
      modifies this, nodes`next
      ensures Shape() && fresh(newSem)
      ensures nodes == old(nodes) + [newSem] && arrays == old(arrays) + [newSem.blockedProcesses]
      ensures newSem.id == id && sems == old(sems)[id := Created(initialValue)]
      ensures fresh(newSem.blockedProcesses)
    {
      newSem := new SemNode(id, initialValue);
      AddSemaphore(newSem, Created(initialValue));
    }

    method Listening(sem: SemNode, ghost k: nat) returns (n: nat)
      requires Shape() && k < |nodes| && sem == nodes[k]
      ensures Shape() && sem.id in sems && n == sems[sem.id].listening
    {
      n := sem.listeningProcesses;
    }

    method SetListening(sem: SemNode, n: nat, ghost k: nat)
      requires Shape() && k < |nodes| && sem == nodes[k] && sem.id in sems
      modifies `sems, sem`listeningProcesses
      ensures Shape() && sems == old(sems)[sem.id := old(sems)[sem.id].(listening := n)]
    {
      hide Linked;
      Apart(nodes, k);
      hide Separate;
      assert sem.Holds(sems[sem.id]);
      sem.listeningProcesses := n;
      sems := sems[sem.id := sems[sem.id].(listening := n)];
      assert sem.Holds(sems[sem.id]);
      hide SemNode.Holds;
    }

    // addSemaphoreToList: after the last one.
    method AddSemaphore(newSem: SemNode, ghost s: Sem)
      requires Shape() && newSem !in nodes && newSem.next == null && newSem.id !in sems
      requires newSem.Holds(s) && newSem.blockedProcesses !in arrays
      modifies this, nodes`next
      ensures Shape() && nodes == old(nodes) + [newSem] && sems == old(sems)[newSem.id := s]
      ensures arrays == old(arrays) + [newSem.blockedProcesses]
    {
      hide SemNode.Holds, Separate, HoldAll, Linked;
      SeparateAppend(nodes, arrays, sems, newSem);
      LinkLast(newSem);
      HoldAllAppend(nodes, arrays, sems, newSem, s);
      nodes, arrays, sems := nodes + [newSem], arrays + [newSem.blockedProcesses], sems[newSem.id := s];
    }

    method LinkLast(newSem: SemNode)
      requires Shape() && newSem !in nodes && newSem.next == null
      modifies `semaphores, nodes`next
      ensures HoldAll(nodes, arrays, sems) && Linked(nodes + [newSem]) && semaphores == (nodes + [newSem])[0]
    {
      hide Separate, Linked, SemNode.Holds;
      if semaphores == null {
        semaphores := newSem;
      } else {
        var tailSem := LastSemaphore();
        SetNext(tailSem, newSem);
      }
      LinkedAppend(nodes, newSem);
    }

    // semClose: the last listener takes the semaphore away.
    method SemClose(id: nat) returns (r: int)
      requires Shape()
      modifies this, nodes
      ensures Shape() && sems == KernelSync.SemClose(old(sems), id)
      ensures r == if id in old(sems) then 0 else -1
    {
      hide Linked, Separate, HoldAll;
      var sem, k := GetSemaphore(id);
      if sem == null {
        return -1;
      }
      var listening := Listening(sem, k);
      if listening > 0 {
        listening := listening - 1;
        SetListening(sem, listening, k);
      }
      if listening == 0 {
        RemoveSemaphore(sem, k);
      }
      return 0;
    }

    // removeSemaphore: unlinked from the node before it, or from the head.
    method RemoveSemaphore(sem: SemNode, ghost k: nat)
      requires Shape() && k < |nodes| && sem == nodes[k]
      modifies this, nodes`next
      ensures Shape() && sems == old(sems) - {sem.id} && nodes == old(nodes)[..k] + old(nodes)[k + 1..]
    {
      hide Linked, Separate, HoldAll, SemNode.Holds;
      RemoveSeparate(nodes, arrays, sems, k);
      Unlink(sem, k);
      RemoveHoldAll(nodes, arrays, sems, k);
      nodes, arrays, sems := nodes[..k] + nodes[k + 1..], arrays[..k] + arrays[k + 1..], sems - {sem.id};
    }

    method Unlink(sem: SemNode, ghost k: nat)
      requires Shape() && k < |nodes| && sem == nodes[k]
      modifies `semaphores, nodes`next
      ensures HoldAll(nodes, arrays, sems) && Linked(nodes[..k] + nodes[k + 1..])
      ensures semaphores == var r := nodes[..k] + nodes[k + 1..]; if r == [] then null else r[0]
    {
      hide HoldAll, SemNode.Holds;
      if sem == semaphores {
        assert k == 0;
        semaphores := sem.next;
        assert forall i :: 0 <= i < |nodes| - 1 ==> nodes[1..][i] == nodes[i + 1];
        assert nodes[..k] + nodes[k + 1..] == nodes[1..];
      } else {
        var before := Before(sem, k);
        Bypass(before, sem, k);
      }
    }

    method Before(sem: SemNode, ghost k: nat) returns (semListAux: SemNode)
      requires Shape() && 0 < k < |nodes| && sem == nodes[k]
      ensures Shape() && semListAux == nodes[k - 1]
    {
      hide HoldAll, SemNode.Holds;
      semListAux := semaphores;
      ghost var j := 0;
      while semListAux.next != sem
        invariant j < k && semListAux == nodes[j]
        decreases k - j
      {
        assert nodes[j].next == NextSem(nodes, j);
        semListAux := semListAux.next;
        j := j + 1;
      }
      assert nodes[j].next == NextSem(nodes, j);
      assert nodes[j + 1] == nodes[k];
    }

    method Bypass(before: SemNode, sem: SemNode, ghost k: nat)
      requires Shape() && 0 < k < |nodes| && sem == nodes[k] && before == nodes[k - 1]
      modifies before`next
      ensures HoldAll(nodes, arrays, sems) && Linked(nodes[..k] + nodes[k + 1..])
    {
      hide HoldAll, SemNode.Holds;
      ghost var r := nodes[..k] + nodes[k + 1..];
      assert forall i :: 0 <= i < |nodes| && i != k - 1 ==> nodes[i] != before;
      before.next := sem.next;
      forall i | 0 <= i < |r|
        ensures r[i].next == NextSem(r, i)
      {
        var o := if i < k then i else i + 1;
        assert r[i] == nodes[o];
        assert i + 1 < |r| ==> r[i + 1] == nodes[if i + 1 < k then i + 1 else i + 2];
      }
    }

    method SetNext(tailSem: SemNode, newSem: SemNode)
      requires Linked(nodes) && nodes != [] && tailSem == nodes[|nodes| - 1] && HoldAll(nodes, arrays, sems)
      requires forall i :: 0 <= i < |nodes| - 1 ==> nodes[i] != tailSem
      modifies tailSem`next
      ensures HoldAll(nodes, arrays, sems)
      ensures forall i :: 0 <= i < |nodes| ==> nodes[i].next == NextSem(nodes + [newSem], i)
    {
      hide HoldAll;
      tailSem.next := newSem;
    }

    method LastSemaphore() returns (tailSem: SemNode)
      requires Shape() && nodes != []
      ensures Shape() && tailSem == nodes[|nodes| - 1]
      ensures forall i :: 0 <= i < |nodes| - 1 ==> nodes[i] != tailSem
    {
      hide HoldAll;
      tailSem := semaphores;
      ghost var k := 0;
      while tailSem.next != null
        invariant k < |nodes| && tailSem == nodes[k]
        decreases |nodes| - k
      {
        tailSem := tailSem.next;
        k := k + 1;
      }
    }
  }

  lemma LinkedAppend(nodes: seq<SemNode>, n: SemNode)
    requires forall i :: 0 <= i < |nodes| ==> nodes[i].next == NextSem(nodes + [n], i)
    requires n.next == null
    ensures Linked(nodes + [n])
  {
    var r := nodes + [n];
    forall i | 0 <= i < |r|
      ensures r[i].next == NextSem(r, i)
    {
      if i < |nodes| {
        assert r[i] == nodes[i];
      }
    }
  }

  lemma SeparateAppend(nodes: seq<SemNode>, arrays: seq<array<nat>>, sems: map<nat, Sem>, n: SemNode)
    requires Separate(nodes) && HoldAll(nodes, arrays, sems)
    requires n !in nodes && n.id !in sems && n.blockedProcesses !in arrays
    ensures Separate(nodes + [n])
  {
    forall i | 0 <= i < |nodes|
      ensures nodes[i].id != n.id && nodes[i].blockedProcesses != n.blockedProcesses
    {
      assert arrays[i] in arrays;
    }
  }

  lemma HoldAllAppend(nodes: seq<SemNode>, arrays: seq<array<nat>>, sems: map<nat, Sem>, n: SemNode, s: Sem)
    requires HoldAll(nodes, arrays, sems) && n.Holds(s) && n.id !in sems
    ensures HoldAll(nodes + [n], arrays + [n.blockedProcesses], sems[n.id := s])
  {
    hide SemNode.Holds;
    var r := nodes + [n];
    assert r[|nodes|] == n;
    forall id: nat | id in sems || id == n.id
      ensures exists i :: 0 <= i < |r| && r[i].id == id
    {
      if id in sems {
        var i :| 0 <= i < |nodes| && nodes[i].id == id;
        assert r[i].id == id;
      }
    }
  }

  lemma RemoveSeparate(nodes: seq<SemNode>, arrays: seq<array<nat>>, sems: map<nat, Sem>, k: nat)
    requires Separate(nodes) && k < |nodes|
    ensures Separate(nodes[..k] + nodes[k + 1..])
  {
    var r := nodes[..k] + nodes[k + 1..];
    forall i, j | 0 <= i < j < |r|
      ensures r[i] != r[j] && r[i].id != r[j].id && r[i].blockedProcesses != r[j].blockedProcesses
    {
      var i', j' := if i < k then i else i + 1, if j < k then j else j + 1;
      assert r[i] == nodes[i'] && r[j] == nodes[j'];
    }
  }

  lemma RemoveHoldAll(nodes: seq<SemNode>, arrays: seq<array<nat>>, sems: map<nat, Sem>, k: nat)
    requires HoldAll(nodes, arrays, sems) && Separate(nodes) && k < |nodes|
    ensures |arrays| == |nodes|
    ensures HoldAll(nodes[..k] + nodes[k + 1..], arrays[..k] + arrays[k + 1..], sems - {nodes[k].id})
  {
    hide SemNode.Holds;
    var r, a := nodes[..k] + nodes[k + 1..], arrays[..k] + arrays[k + 1..];
    var rest := sems - {nodes[k].id};
    forall i | 0 <= i < |r|
      ensures a[i] == r[i].blockedProcesses && r[i].id in rest && r[i].Holds(rest[r[i].id])
    {
      var o := if i < k then i else i + 1;
      assert r[i] == nodes[o] && a[i] == arrays[o] && nodes[o].id != nodes[k].id;
    }
    forall id: nat | id in sems && id != nodes[k].id
      ensures exists i :: 0 <= i < |r| && r[i].id == id
    {
      var o :| 0 <= o < |nodes| && nodes[o].id == id;
      assert r[if o < k then o else o - 1] == nodes[o];
    }
  }

  lemma Apart(nodes: seq<SemNode>, k: nat)
    requires Separate(nodes) && k < |nodes|
    ensures forall i :: 0 <= i < |nodes| && i != k ==>
              && nodes[i] != nodes[k] && nodes[i].id != nodes[k].id
              && nodes[i].blockedProcesses != nodes[k].blockedProcesses
  {
  }

  lemma IdsMatch(nodes: seq<SemNode>, arrays: seq<array<nat>>, sems: map<nat, Sem>, id: nat)
    requires HoldAll(nodes, arrays, sems)
    ensures id in sems <==> exists i :: 0 <= i < |nodes| && nodes[i].id == id
    ensures forall i :: 0 <= i < |nodes| ==> nodes[i].blockedProcesses in arrays
  {
  }
}