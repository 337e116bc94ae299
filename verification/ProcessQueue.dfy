// The linked queue of processes with its two cached counters.
module ProcessQueue {
  import opened Scheduler

  class ProcessNode {
    const pid: nat
    const ppid: nat
    var foreground: bool
    var status: Status
    var priority: nat
    var next: ProcessNode?

    // A node as newProcess fills it in; next is null in fresh memory.
    constructor (p: Pcb)
      ensures Value() == p && next == null
    {
      pid, ppid, foreground, status, priority := p.pid, p.ppid, p.foreground, p.status, p.priority;
      next := null;
    }

    function Value(): Pcb
      reads this
    {
      Pcb(pid, ppid, foreground, status, priority)
    }
  }

  ghost predicate Represents(nodes: seq<ProcessNode>, contents: seq<Pcb>)
    reads nodes
  {
    |nodes| == |contents| && forall i :: 0 <= i < |nodes| ==> nodes[i].Value() == contents[i]
  }

  function NextOf(nodes: seq<ProcessNode>, i: nat): ProcessNode?
    requires i < |nodes|
  {
    if i + 1 < |nodes| then nodes[i + 1] else null
  }

  // The next pointers visit exactly the nodes, no node twice.
  ghost predicate Chain(nodes: seq<ProcessNode>)
    reads nodes`next
  {
    && (forall i, j :: 0 <= i < j < |nodes| ==> nodes[i] != nodes[j])
    && forall i {:trigger nodes[i].next} :: 0 <= i < |nodes| ==> nodes[i].next == NextOf(nodes, i)
  }

  lemma ChainTail(nodes: seq<ProcessNode>)
    requires Chain(nodes) && nodes != []
    ensures Chain(nodes[1..]) && nodes[0] !in nodes[1..] && nodes[0].next == NextOf(nodes, 0)
  {
    var rest := nodes[1..];
    forall i | 0 <= i < |rest|
      ensures rest[i].next == NextOf(rest, i)
    {
      assert rest[i] == nodes[i + 1];
    }
  }

  lemma RepresentsTail(nodes: seq<ProcessNode>, contents: seq<Pcb>)
    requires Represents(nodes, contents) && nodes != []
    ensures Represents(nodes[1..], contents[1..]) && contents == [contents[0]] + contents[1..]
    ensures nodes[0].Value() == contents[0] && |nodes| == |contents|
  {
  }

  lemma ChainAppend(nodes: seq<ProcessNode>, p: ProcessNode)
    requires forall i, j :: 0 <= i < j < |nodes| ==> nodes[i] != nodes[j]
    requires forall i :: 0 <= i < |nodes| ==> nodes[i].next == if i + 1 == |nodes| then p else NextOf(nodes, i)
    requires p !in nodes
    ensures Chain(nodes + [p]) <==> p.next == null
  {
    var r := nodes + [p];
    forall i | 0 <= i < |nodes|
      ensures r[i].next == NextOf(r, i)
    {
      assert r[i] == nodes[i];
    }
    assert r[|nodes|] == p && NextOf(r, |nodes|) == null;
    assert r[|nodes|].next == p.next;
  }

  class ProcessList {
    var size: nat
    var readySize: nat
    var first: ProcessNode?
    var last: ProcessNode?
    ghost var nodes: seq<ProcessNode>
    ghost var contents: seq<Pcb>

    // The list is a chain from first to last; size and readySize are exact.
    ghost predicate Valid()
      reads this, nodes
    {
      && Chain(nodes) && Represents(nodes, contents)
      && size == |nodes|
      && readySize == ReadyCount(contents)
      && first == (if nodes == [] then null else nodes[0])
      && (nodes != [] ==> last == nodes[|nodes| - 1])
    }

    constructor ()
      ensures Valid() && nodes == []
    {
      size, readySize, first, last := 0, 0, null, null;
      nodes, contents := [], [];
    }

    // queueProcess.  Enqueuing onto an empty queue leaves next as it was; if that is
    // not null already, the list goes on where it should end.
    method QueueProcess(process: ProcessNode)
      requires Valid() && process !in nodes
      modifies this, process`next, if nodes == [] then {} else {nodes[|nodes| - 1]}`next
      ensures nodes == old(nodes) + [process] && contents == old(contents) + [process.Value()]
      ensures Valid() <==> old(nodes) != [] || old(process.next) == null
    {
      hide ReadyCount, Chain;
      Link(process);
      if process.status == READY {
        readySize := readySize + 1;
      }
      size := size + 1;
      ReadyCountAppend(contents, process.Value());
      nodes, contents := nodes + [process], contents + [process.Value()];
    }

    // The first half of queueProcess.
    method Link(process: ProcessNode)
      requires Valid() && process !in nodes
      modifies `first, `last, process`next, if nodes == [] then {} else {nodes[|nodes| - 1]}`next
      ensures Chain(nodes + [process]) <==> nodes != [] || old(process.next) == null
      ensures Represents(nodes, contents)
      ensures first == (nodes + [process])[0] && last == process
    {
      if QueueIsEmpty() {
        first := process;
        last := first;
      } else {
        last.next := process;
        process.next := null;
        last := process;
      }
      ChainAppend(nodes, process);
    }

    // dequeueProcess.  The node handed out still points at its old successor,
    // which is null when it was the only one.
    method DequeueProcess() returns (r: ProcessNode?)
      requires Valid()
      modifies this
      ensures Valid()
      ensures old(nodes) == [] ==> r == null && nodes == [] && contents == []
      ensures old(nodes) != [] ==>
                && r == old(nodes)[0] && nodes == old(nodes)[1..] && contents == old(contents)[1..]
                && r !in nodes && (nodes == [] ==> r.next == null) && [r.Value()] + contents == old(contents)
    {
      if QueueIsEmpty() {
        return null;
      }
      r := TakeFirst();
    }

    // dequeueProcess on a queue that is not empty.
    method TakeFirst() returns (r: ProcessNode)
      requires Valid() && nodes != []
      modifies this
      ensures Valid()
      ensures r == old(nodes)[0] && nodes == old(nodes)[1..] && contents == old(contents)[1..]
      ensures r !in nodes && (nodes == [] ==> r.next == null) && [r.Value()] + contents == old(contents)
    {
      ChainTail(nodes);
      RepresentsTail(nodes, contents);
      hide Chain, Represents;
      r := first;
      first := first.next;
      Uncount(r);
      nodes, contents := nodes[1..], contents[1..];
    }

    method Uncount(r: ProcessNode)
      requires contents != [] && r.Value() == contents[0] && size == |contents| && readySize == ReadyCount(contents)
      modifies `size, `readySize
      ensures size == |contents[1..]| && readySize == ReadyCount(contents[1..])
    {
      size := size - 1;
      if r.status == READY {
        readySize := readySize - 1;
      }
    }

    // The part of setState that touches a queued process.
    method Restate(process: ProcessNode, newState: Status, ghost k: nat)
      requires Valid() && k < |nodes| && process == nodes[k]
      modifies `readySize, `contents, process`status
      ensures Valid() && contents == old(contents)[k := old(contents)[k].(status := newState)]
    {
      hide Chain, ReadyCount;
      ReadyCountUpdate(contents, k, contents[k].(status := newState));
      Recount(process, newState, k);
      ChangeStatus(process, newState, k);
    }

    // The part of setPriority that touches a queued process, and that of wait.
    method Reprioritise(process: ProcessNode, priority: nat, ghost k: nat)
      requires Valid() && k < |nodes| && process == nodes[k]
      modifies `contents, process`priority
      ensures Valid() && contents == old(contents)[k := old(contents)[k].(priority := priority)]
    {
      assert forall i :: 0 <= i < |nodes| && i != k ==> nodes[i] != process;
      ReadyCountUpdate(contents, k, contents[k].(priority := priority));
      hide Chain, ReadyCount;
      process.priority := priority;
      contents := contents[k := contents[k].(priority := priority)];
    }

    method Foreground(process: ProcessNode, ghost k: nat)
      requires Valid() && k < |nodes| && process == nodes[k]
      modifies `contents, process`foreground
      ensures Valid() && contents == old(contents)[k := old(contents)[k].(foreground := true)]
    {
      assert forall i :: 0 <= i < |nodes| && i != k ==> nodes[i] != process;
      ReadyCountUpdate(contents, k, contents[k].(foreground := true));
      hide Chain, ReadyCount;
      process.foreground := true;
      contents := contents[k := contents[k].(foreground := true)];
    }

    method Recount(process: ProcessNode, newState: Status, ghost k: nat)
      requires Valid() && k < |nodes| && process == nodes[k]
      modifies `readySize
      ensures readySize == ReadyCount(contents[k := contents[k].(status := newState)])
    {
      hide Chain, ReadyCount;
      ReadyCountUpdate(contents, k, contents[k].(status := newState));
      if process.status != READY && newState == READY {
        readySize := readySize + 1;
      }
      if process.status == READY && newState != READY {
        readySize := readySize - 1;
      }
    }

    method ChangeStatus(process: ProcessNode, newState: Status, ghost k: nat)
      requires Chain(nodes) && Represents(nodes, contents) && k < |nodes| && process == nodes[k]
      modifies `contents, process`status
      ensures Represents(nodes, contents) && contents == old(contents)[k := old(contents)[k].(status := newState)]
    {
      assert forall i :: 0 <= i < |nodes| && i != k ==> nodes[i] != process;
      hide Chain;
      process.status := newState;
      contents := contents[k := contents[k].(status := newState)];
    }

    predicate QueueIsEmpty()
      reads this
    {
      size == 0
    }
  }
}
