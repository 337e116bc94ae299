// A semaphore as the kernel keeps it: a value and a fixed array of waiting pids.
module SemaphoreNode {
  import opened Semaphore

  class SemNode {
    const id: nat
    var value: nat
    const blockedProcesses: array<nat>
    var blockedProcessesAmount: nat
    var listeningProcesses: nat
    var next: SemNode?

    // createSemaphore's new node.
    constructor (id: nat, initialValue: nat)
      ensures this.id == id && next == null && fresh(blockedProcesses) && Holds(Created(initialValue))
    {
      this.id := id;
      value := initialValue;
      blockedProcesses := new nat[MAX_BLOCKED_PROCESSES];
      blockedProcessesAmount, listeningProcesses := 0, 0;
      next := null;
    }

    ghost predicate Holds(s: Sem)
      reads `value, `blockedProcessesAmount, `listeningProcesses, blockedProcesses
    {
      && blockedProcesses.Length == MAX_BLOCKED_PROCESSES
      && value == s.value && listeningProcesses == s.listening
      && blockedProcessesAmount == |s.waiting| <= MAX_BLOCKED_PROCESSES
      && s.waiting == blockedProcesses[..blockedProcessesAmount]
    }

    // The semaphore's part of semWait: a token is taken, or the pid is written
    // down among the waiting ones.
    method TakeOrQueue(pid: nat, ghost s: Sem) returns (blocks: bool)
      requires Holds(s) && (WaitBlocks(s) ==> |s.waiting| < MAX_BLOCKED_PROCESSES)
      modifies `value, `blockedProcessesAmount, blockedProcesses
      ensures Holds(Semaphore.Wait(s, pid)) && blocks == WaitBlocks(s)
    {
      blocks := value == 0;
      if !blocks {
        value := value - 1;
      } else {
        Append(pid, s);
      }
    }

    // The semaphore's part of semPost.
    method GiveOrRelease(ghost s: Sem) returns (wakes: bool, pid: nat)
      requires Holds(s)
      modifies `value, `blockedProcessesAmount, blockedProcesses
      ensures Holds(Post(s)) && wakes == PostWakes(s) && (wakes ==> pid == s.waiting[0])
    {
      pid := 0;
      wakes := blockedProcessesAmount > 0;
      if wakes {
        pid := Shift(s);
      } else {
        value := value + 1;
      }
    }

    // The array part of semWait.
    method Append(pid: nat, ghost s: Sem)
      requires Holds(s) && |s.waiting| < MAX_BLOCKED_PROCESSES
      modifies `blockedProcessesAmount, blockedProcesses
      ensures Holds(s.(waiting := s.waiting + [pid]))
    {
      blockedProcesses[blockedProcessesAmount] := pid;
      blockedProcessesAmount := blockedProcessesAmount + 1;
    }

    // The array part of unblockSemProcess: everybody moves up by one.
    method Shift(ghost s: Sem) returns (readyPID: nat)
      requires Holds(s) && s.waiting != []
      modifies `blockedProcessesAmount, blockedProcesses
      ensures readyPID == s.waiting[0] && Holds(s.(waiting := s.waiting[1..]))
    {
      readyPID := blockedProcesses[0];
      var i := 0;
      while i < blockedProcessesAmount - 1
        invariant 0 <= i <= blockedProcessesAmount - 1
        invariant blockedProcessesAmount == |s.waiting| <= blockedProcesses.Length
        invariant forall j :: 0 <= j < i ==> blockedProcesses[j] == s.waiting[j + 1]
        invariant forall j :: i <= j < blockedProcessesAmount ==> blockedProcesses[j] == s.waiting[j]
      {
        blockedProcesses[i] := blockedProcesses[i + 1];
        i := i + 1;
      }
      blockedProcessesAmount := blockedProcessesAmount - 1;
      assert blockedProcesses[..blockedProcessesAmount] == s.waiting[1..];
    }
  }
}
