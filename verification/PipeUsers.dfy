// How many processes may share a pipe.
module PipeUsers {
  import opened Sequences
  import opened Semaphore
  import opened Pipes

  // The two semaphores of a pipe are opened once, by whoever creates it, so nothing
  // keeps a 21st process from waiting on one.

  ghost predicate WaitersAmong(p: Pipe, users: set<nat>)
  {
    && (forall pid :: pid in p.readLock.waiting ==> pid in users)
    && (forall pid :: pid in p.writeLock.waiting ==> pid in users)
  }

  lemma StepAmong(p: Pipe, users: set<nat>, call: Call)
    requires Inv(p) && Enabled(p, call) && WaitersAmong(p, users) && call.pid in users
    ensures WaitersAmong(Step(p, call), users)
  {
    assert forall xs: seq<nat>, x: nat :: xs != [] && x in xs[1..] ==> x in xs;
  }

  // Calls of these processes only.
  ghost predicate Among(calls: seq<Call>, users: set<nat>)
  {
    forall i :: 0 <= i < |calls| ==> calls[i].pid in users
  }

  lemma {:induction false} RunAmong(p: Pipe, users: set<nat>, calls: seq<Call>, r: Pipe)
    requires Inv(p) && Run(p, calls, r) && WaitersAmong(p, users) && Among(calls, users)
    ensures Inv(r) && WaitersAmong(r, users)
    decreases |calls|
  {
    if calls != [] {
      StepKeepsInv(p, calls[0]);
      StepAmong(p, users, calls[0]);
      RunAmong(Step(p, calls[0]), users, calls[1..], r);
    }
  }

  // In every run of these processes every call of theirs finds room.
  ghost predicate AlwaysRoom(buffer: seq<char>, users: set<nat>)
    requires |buffer| == PIPE_BUFFER_SIZE && Inv(Opened(buffer))
  {
    forall calls, r, call: Call ::
      Run(Opened(buffer), calls, r) && Among(calls, users) && call.pid in users && Legal(r, call) ==> FindsRoom(r, call)
  }

  lemma FewUsersFindRoom(buffer: seq<char>, users: set<nat>, calls: seq<Call>, r: Pipe, call: Call)
    requires |buffer| == PIPE_BUFFER_SIZE && Inv(Opened(buffer)) && |users| <= MAX_BLOCKED_PROCESSES
    requires Run(Opened(buffer), calls, r) && Among(calls, users) && call.pid in users && Legal(r, call)
    ensures FindsRoom(r, call)
  {
    RunAmong(Opened(buffer), users, calls, r);
    if call.BeginWrite? {
      UsersFit(r.writeLock, users, call.pid);
    } else if call.BeginRead? {
      UsersFit(r.readLock, users, call.pid);
    }
  }

  // ----- one process too many -----

  lemma {:induction false} RunLonger(p: Pipe, calls: seq<Call>, m: Pipe, call: Call)
    requires Inv(p) && Run(p, calls, m) && Inv(m) && Enabled(m, call)
    ensures Run(p, calls + [call], Step(m, call))
    decreases |calls|
  {
    hide Inv, Enabled, Step;
    if calls == [] {
      StepKeepsInv(p, call);
      assert ([] + [call])[1..] == [];
    } else {
      StepKeepsInv(p, calls[0]);
      RunLonger(Step(p, calls[0]), calls[1..], m, call);
      assert (calls + [call])[1..] == calls[1..] + [call];
    }
  }

  // These processes have all tried to read from the empty pipe.
  ghost predicate AllRead(p: Pipe, pids: seq<nat>)
  {
    && Inv(p) && p.readLock.value == 0 && p.readLock.waiting == pids && p.writeLock.waiting == []
    && p.hasRead == {} && p.hasWrite == {}
  }

  lemma OneMoreReads(m: Pipe, pids: seq<nat>, n: nat)
    requires Distinct(pids) && 0 < n <= |pids| && n <= MAX_BLOCKED_PROCESSES && AllRead(m, pids[..n - 1])
    ensures Inv(m) && Enabled(m, BeginRead(pids[n - 1])) && AllRead(Step(m, BeginRead(pids[n - 1])), pids[..n])
  {
    assert pids[n - 1] !in pids[..n - 1];
    assert pids[..n] == pids[..n - 1] + [pids[n - 1]];
    assert Enabled(m, BeginRead(pids[n - 1]));
    StepKeepsInv(m, BeginRead(pids[n - 1]));
    hide Inv;
  }

  lemma {:induction false} ReadersWait(buffer: seq<char>, pids: seq<nat>, n: nat) returns (calls: seq<Call>, r: Pipe)
    requires |buffer| == PIPE_BUFFER_SIZE && Inv(Opened(buffer))
    requires Distinct(pids) && n <= |pids| && n <= MAX_BLOCKED_PROCESSES
    ensures Run(Opened(buffer), calls, r) && AllRead(r, pids[..n])
    ensures |calls| == n && forall i :: 0 <= i < n ==> calls[i] == BeginRead(pids[i])
  {
    if n == 0 {
      calls, r := [], Opened(buffer);
    } else {
      hide AllRead, Inv, Run, Enabled, Opened, Step;
      var before, m := ReadersWait(buffer, pids, n - 1);
      var call := BeginRead(pids[n - 1]);
      OneMoreReads(m, pids, n);
      RunLonger(Opened(buffer), before, m, call);
      calls, r := before + [call], Step(m, call);
    }
  }

  lemma {:induction false} SomeOf(users: set<nat>, n: nat) returns (xs: seq<nat>)
    requires n <= |users|
    ensures |xs| == n && Distinct(xs) && forall x :: x in xs ==> x in users
  {
    xs := [];
    if n > 0 {
      var u :| u in users;
      var rest := SomeOf(users - {u}, n - 1);
      xs := [u] + rest;
    }
  }

  lemma ManyUsersDoNot(buffer: seq<char>, users: set<nat>)
    requires |buffer| == PIPE_BUFFER_SIZE && Inv(Opened(buffer)) && |users| > MAX_BLOCKED_PROCESSES
    ensures !AlwaysRoom(buffer, users)
  {
    var pids := SomeOf(users, MAX_BLOCKED_PROCESSES + 1);
    var last := pids[MAX_BLOCKED_PROCESSES];
    var calls, r := ReadersWait(buffer, pids, MAX_BLOCKED_PROCESSES);
    assert last !in pids[..MAX_BLOCKED_PROCESSES] && last in pids;
    assert forall i :: 0 <= i < |calls| ==> calls[i].pid == pids[i] && pids[i] in pids;
    hide Run, Inv, Opened;
    assert Legal(r, BeginRead(last)) && !FindsRoom(r, BeginRead(last));
    hide Legal, FindsRoom, AllRead;
  }

  // The array of waiters is large enough for whatever the processes that share a pipe
  // do if and only if they are at most 20.
  lemma RoomIffTwenty(buffer: seq<char>, users: set<nat>)
    requires |buffer| == PIPE_BUFFER_SIZE
    ensures Inv(Opened(buffer)) && (AlwaysRoom(buffer, users) <==> |users| <= MAX_BLOCKED_PROCESSES)
  {
    OpenedInv(buffer);
    if |users| <= MAX_BLOCKED_PROCESSES {
      forall calls, r, call: Call |
        Run(Opened(buffer), calls, r) && Among(calls, users) && call.pid in users && Legal(r, call)
        ensures FindsRoom(r, call)
      {
        FewUsersFindRoom(buffer, users, calls, r, call);
      }
    } else {
      ManyUsersDoNot(buffer, users);
    }
  }
}
