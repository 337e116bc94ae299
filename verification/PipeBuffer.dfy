// A pipe as it runs: a fixed buffer with two indices and two semaphores.  Each
// call is cut where it may block; the second half runs when the process is woken.
module PipeBuffer {
  import opened Semaphore
  import opened SemaphoreNode
  import opened Pipes

  class PipeObject {
    const buffer: array<char>
    var readIndex: nat
    var writeIndex: nat
    const readLock: SemNode
    const writeLock: SemNode
    ghost var state: Pipe

    ghost predicate Shape()
      reads this, buffer, readLock, writeLock, readLock.blockedProcesses, writeLock.blockedProcesses
    {
      && buffer.Length == PIPE_BUFFER_SIZE && state.buffer == buffer[..]
      && state.readIndex == readIndex && state.writeIndex == writeIndex
      && readLock != writeLock && readLock.blockedProcesses != writeLock.blockedProcesses
      && readLock.Holds(state.readLock) && writeLock.Holds(state.writeLock)
    }

    ghost predicate Valid()
      reads this, buffer, readLock, writeLock, readLock.blockedProcesses, writeLock.blockedProcesses
    {
      Shape() && Inv(state)
    }

    // createPipe and the first pipeOpen: two new semaphores, an empty ring.
    constructor (readId: nat, writeId: nat)
      ensures Valid() && state == Opened(state.buffer)
    {
      var r := new SemNode(readId, 0);
      var w := new SemNode(writeId, PIPE_BUFFER_SIZE);
      r.listeningProcesses := 1;
      w.listeningProcesses := 1;
      var b := new char[PIPE_BUFFER_SIZE];
      buffer := b;
      readIndex, writeIndex := 0, 0;
      readLock, writeLock := r, w;
      state := Opened(b[..]);
      OpenedInv(b[..]);
    }

    // pipeWriter up to semWait: the caller blocks, or writes on.
    method StartWrite(pid: nat, c: char) returns (blocks: bool)
      requires Valid() && Enabled(state, BeginWrite(pid, c))
      modifies this, buffer, readLock, writeLock, readLock.blockedProcesses, writeLock.blockedProcesses
      ensures Valid() && state == Step(old(state), BeginWrite(pid, c)) && blocks == WaitBlocks(old(state.writeLock))
    {
      StepKeepsInv(state, BeginWrite(pid, c));
      WriteIndexInRange(state);
      hide Inv, SemNode.Holds, Store, Semaphore.Wait;
      blocks := AskToWrite(pid, c);
      if !blocks {
        var wakes, reader := Put(pid, c);
      }
    }

    method AskToWrite(pid: nat, c: char) returns (blocks: bool)
      requires Shape() && (WaitBlocks(state.writeLock) ==> |state.writeLock.waiting| < MAX_BLOCKED_PROCESSES)
      modifies `state, writeLock, writeLock.blockedProcesses
      ensures Shape() && state == WaitWrite(old(state), pid, c) && blocks == WaitBlocks(old(state.writeLock))
    {
      hide SemNode.Holds, Semaphore.Wait;
      blocks := writeLock.TakeOrQueue(pid, state.writeLock);
      state := WaitWrite(state, pid, c);
    }

    method AskToRead(pid: nat) returns (blocks: bool)
      requires Shape() && (WaitBlocks(state.readLock) ==> |state.readLock.waiting| < MAX_BLOCKED_PROCESSES)
      modifies `state, readLock, readLock.blockedProcesses
      ensures Shape() && state == WaitRead(old(state), pid) && blocks == WaitBlocks(old(state.readLock))
    {
      hide SemNode.Holds, Semaphore.Wait;
      blocks := readLock.TakeOrQueue(pid, state.readLock);
      state := WaitRead(state, pid);
    }

    // pipeWriter after a semWait that blocked.
    method ResumeWrite(pid: nat, c: char)
      requires Valid() && Enabled(state, FinishWrite(pid)) && state.held[pid] == c
      modifies this, buffer, readLock, readLock.blockedProcesses
      ensures Valid() && state == Step(old(state), FinishWrite(pid))
    {
      StepKeepsInv(state, FinishWrite(pid));
      WriteIndexInRange(state);
      hide Inv, SemNode.Holds, Store;
      state := state.(hasWrite := state.hasWrite - {pid}, held := state.held - {pid});
      var wakes, reader := Put(pid, c);
    }

    // The byte goes into the ring and a reader is let in.
    method Put(pid: nat, c: char) returns (wakes: bool, reader: nat)
      requires Shape() && writeIndex < PIPE_BUFFER_SIZE
      modifies this, buffer, readLock, readLock.blockedProcesses
      ensures Shape() && old(state).writeIndex < |old(state).buffer| && state == Store(old(state), pid, c)
    {
      hide SemNode.Holds;
      ghost var next := Store(state, pid, c);
      buffer[writeIndex] := c;
      writeIndex := (writeIndex + 1) % PIPE_BUFFER_SIZE;
      wakes, reader := readLock.GiveOrRelease(state.readLock);
      state := next;
    }

    // pipeRead up to semWait, and its result if it does not block.
    method StartRead(pid: nat) returns (blocks: bool, c: char)
      requires Valid() && Enabled(state, BeginRead(pid))
      modifies this, readLock, writeLock, readLock.blockedProcesses, writeLock.blockedProcesses
      ensures Valid() && state == Step(old(state), BeginRead(pid)) && blocks == WaitBlocks(old(state.readLock))
      ensures !blocks ==> state.taken == old(state).taken + [c]
    {
      StepKeepsInv(state, BeginRead(pid));
      WriteIndexInRange(state);
      hide Inv, SemNode.Holds, Fetch, Semaphore.Wait;
      blocks := AskToRead(pid);
      c := '\0';
      if !blocks {
        c := Get();
      }
    }

    // pipeRead after a semWait that blocked.
    method ResumeRead(pid: nat) returns (c: char)
      requires Valid() && Enabled(state, FinishRead(pid))
      modifies this, writeLock, writeLock.blockedProcesses
      ensures Valid() && state == Step(old(state), FinishRead(pid)) && state.taken == old(state).taken + [c]
    {
      StepKeepsInv(state, FinishRead(pid));
      WriteIndexInRange(state);
      hide Inv, SemNode.Holds, Fetch;
      state := state.(hasRead := state.hasRead - {pid});
      c := Get();
    }

    // The oldest byte leaves the ring and a writer is let in.
    method Get() returns (c: char)
      requires Shape() && readIndex < PIPE_BUFFER_SIZE
      modifies this, writeLock, writeLock.blockedProcesses
      ensures Shape() && old(state).readIndex < |old(state).buffer| && state == Fetch(old(state))
      ensures state.taken == old(state).taken + [c]
    {
      hide SemNode.Holds;
      c := buffer[readIndex];
      readIndex := (readIndex + 1) % PIPE_BUFFER_SIZE;
      var wakes, writer := writeLock.GiveOrRelease(state.writeLock);
      state := Fetch(state);
    }
  }
}
