// The pipe protocol: a ring of bytes between any number of writers and readers,
// guarded by two semaphores.
module Pipes {
  import opened Sequences
  import opened Semaphore

  // A call runs without interruption until it blocks in semWait; a process woken by
  // semPost holds a token and finishes its call later, when it gets the CPU - others
  // may run in between.

  const PIPE_BUFFER_SIZE := 1024

  datatype Byte = Byte(writer: nat, c: char)

  // hasRead and hasWrite are the woken processes that have not run yet; held are
  // the bytes of writers that wait or are woken.  sent, stored and taken are the
  // histories: bytes handed to a write call, put into the ring, read from it.
  datatype Pipe = Pipe(
    readLock: Sem, writeLock: Sem, buffer: seq<char>, readIndex: nat, writeIndex: nat,
    hasRead: set<nat>, hasWrite: set<nat>, held: map<nat, char>,
    sent: seq<Byte>, stored: seq<Byte>, taken: seq<char>)
  {
    function Unread(): int
    {
      |stored| - |taken|
    }
  }

  // A pipe just opened, with whatever is in its buffer.
  function Opened(buffer: seq<char>): Pipe
  {
    Pipe(Created(0).(listening := 1), Created(PIPE_BUFFER_SIZE).(listening := 1), buffer, 0, 0,
         {}, {}, map[], [], [], [])
  }

  ghost predicate Busy(p: Pipe, pid: nat)
  {
    pid in p.readLock.waiting || pid in p.writeLock.waiting || pid in p.hasRead || pid in p.hasWrite
  }

  // The rest of pipeWriter, once the token is there.
  function Store(p: Pipe, pid: nat, c: char): Pipe
    requires p.writeIndex < |p.buffer|
  {
    p.(buffer := p.buffer[p.writeIndex := c],
       writeIndex := (p.writeIndex + 1) % PIPE_BUFFER_SIZE,
       stored := p.stored + [Byte(pid, c)],
       hasRead := if PostWakes(p.readLock) then p.hasRead + {p.readLock.waiting[0]} else p.hasRead,
       readLock := Post(p.readLock))
  }

  // The rest of pipeRead, once the token is there.
  function Fetch(p: Pipe): Pipe
    requires p.readIndex < |p.buffer|
  {
    p.(taken := p.taken + [p.buffer[p.readIndex]],
       readIndex := (p.readIndex + 1) % PIPE_BUFFER_SIZE,
       hasWrite := if PostWakes(p.writeLock) then p.hasWrite + {p.writeLock.waiting[0]} else p.hasWrite,
       writeLock := Post(p.writeLock))
  }

  datatype Call =
    | BeginWrite(pid: nat, c: char)
    | FinishWrite(pid: nat)
    | BeginRead(pid: nat)
    | FinishRead(pid: nat)

  // A process begins a call when it is in none; it finishes one when it was woken.
  ghost predicate Legal(p: Pipe, call: Call)
  {
    match call
    case BeginWrite(pid, c) => !Busy(p, pid)
    case FinishWrite(pid) => pid in p.hasWrite
    case BeginRead(pid) => !Busy(p, pid)
    case FinishRead(pid) => pid in p.hasRead
  }

  // A call that blocks finds room in the array of waiters.
  predicate FindsRoom(p: Pipe, call: Call)
  {
    && (call.BeginWrite? && WaitBlocks(p.writeLock) ==> |p.writeLock.waiting| < MAX_BLOCKED_PROCESSES)
    && (call.BeginRead? && WaitBlocks(p.readLock) ==> |p.readLock.waiting| < MAX_BLOCKED_PROCESSES)
  }

  ghost predicate Enabled(p: Pipe, call: Call)
  {
    Legal(p, call) && FindsRoom(p, call)
  }

  function WaitWrite(p: Pipe, pid: nat, c: char): Pipe
  {
    p.(sent := p.sent + [Byte(pid, c)],
       held := if WaitBlocks(p.writeLock) then p.held[pid := c] else p.held,
       writeLock := Semaphore.Wait(p.writeLock, pid))
  }

  function WaitRead(p: Pipe, pid: nat): Pipe
  {
    p.(readLock := Semaphore.Wait(p.readLock, pid))
  }

  ghost function Step(p: Pipe, call: Call): Pipe
    requires Inv(p) && Enabled(p, call)
  {
    match call
    case BeginWrite(pid, c) =>
      if WaitBlocks(p.writeLock) then WaitWrite(p, pid, c) else Store(WaitWrite(p, pid, c), pid, c)
    case FinishWrite(pid) =>
      Store(p.(hasWrite := p.hasWrite - {pid}, held := p.held - {pid}), pid, p.held[pid])
    case BeginRead(pid) =>
      if WaitBlocks(p.readLock) then WaitRead(p, pid) else Fetch(WaitRead(p, pid))
    case FinishRead(pid) =>
      Fetch(p.(hasRead := p.hasRead - {pid}))
  }

  // ----- the invariant -----

  // Tokens: every unread byte is matched by a read token, in the semaphore, in
  // the hands of a woken reader or of the reader at work; every free place by a
  // write token.
  ghost predicate TokensBut(p: Pipe, reading: nat, writing: nat)
  {
    && Coherent(p.readLock) && Coherent(p.writeLock)
    && p.readLock.value + |p.hasRead| + reading == p.Unread()
    && p.writeLock.value + |p.hasWrite| + writing + p.Unread() == PIPE_BUFFER_SIZE
  }

  ghost predicate Tokens(p: Pipe)
  {
    TokensBut(p, 0, 0)
  }

  // The ring holds exactly the unread bytes, and what was read is what was stored.
  ghost predicate Ring(p: Pipe)
  {
    && |p.buffer| == PIPE_BUFFER_SIZE && 0 <= p.Unread() <= PIPE_BUFFER_SIZE
    && p.readIndex == |p.taken| % PIPE_BUFFER_SIZE
    && p.writeIndex == |p.stored| % PIPE_BUFFER_SIZE
    && (forall j :: |p.taken| <= j < |p.stored| ==> p.buffer[j % PIPE_BUFFER_SIZE] == p.stored[j].c)
    && (forall j :: 0 <= j < |p.taken| ==> p.taken[j] == p.stored[j].c)
  }

  // A process is in at most one call.
  ghost predicate OneCall(p: Pipe)
  {
    && Distinct(p.readLock.waiting) && Distinct(p.writeLock.waiting)
    && (forall pid :: pid in p.readLock.waiting ==>
          pid !in p.writeLock.waiting && pid !in p.hasRead && pid !in p.hasWrite)
    && (forall pid :: pid in p.writeLock.waiting ==> pid !in p.hasRead && pid !in p.hasWrite)
    && p.hasRead !! p.hasWrite
    && (forall pid :: pid in p.held <==> pid in p.writeLock.waiting || pid in p.hasWrite)
  }

  // What process pid contributed to a history, in order.
  function By(bytes: seq<Byte>, pid: nat): seq<char>
  {
    if bytes == [] then []
    else By(bytes[..|bytes| - 1], pid) +
         if bytes[|bytes| - 1].writer == pid then [bytes[|bytes| - 1].c] else []
  }

  // Each writer's bytes are stored in the order it wrote them; the one it still
  // holds comes last.
  ghost predicate WritersInOrder(p: Pipe)
  {
    forall pid: nat :: By(p.sent, pid) == By(p.stored, pid) + if pid in p.held then [p.held[pid]] else []
  }

  ghost predicate Inv(p: Pipe)
  {
    Tokens(p) && Ring(p) && OneCall(p) && WritersInOrder(p)
  }

  lemma OpenedInv(buffer: seq<char>)
    requires |buffer| == PIPE_BUFFER_SIZE
    ensures Inv(Opened(buffer))
  {
  }

  lemma ByAppend(bytes: seq<Byte>, b: Byte, pid: nat)
    ensures By(bytes + [b], pid) == By(bytes, pid) + if b.writer == pid then [b.c] else []
  {
    assert (bytes + [b])[..|bytes|] == bytes;
  }

  // Places of the ring less than a full turn apart are different places.
  lemma DifferentPlaces(i: nat, j: nat)
    requires i < j < i + PIPE_BUFFER_SIZE
    ensures i % PIPE_BUFFER_SIZE != j % PIPE_BUFFER_SIZE
  {
  }

  lemma NextPlace(i: nat)
    ensures (i % PIPE_BUFFER_SIZE + 1) % PIPE_BUFFER_SIZE == (i + 1) % PIPE_BUFFER_SIZE
  {
  }

  // ----- storing and fetching -----

  // Storing is safe when a place is free: it overwrites no unread byte.
  lemma StoreRing(p: Pipe, pid: nat, c: char)
    requires Ring(p) && p.Unread() < PIPE_BUFFER_SIZE
    ensures Ring(Store(p, pid, c))
  {
    var r := Store(p, pid, c);
    NextPlace(|p.stored|);
    forall j | |r.taken| <= j < |r.stored|
      ensures r.buffer[j % PIPE_BUFFER_SIZE] == r.stored[j].c
    {
      if j < |p.stored| {
        DifferentPlaces(j, |p.stored|);
      }
    }
  }

  // Fetching gives the oldest unread byte.
  lemma FetchRing(p: Pipe)
    requires Ring(p) && p.Unread() > 0
    ensures Ring(Fetch(p)) && Fetch(p).taken == p.taken + [p.stored[|p.taken|].c]
  {
    NextPlace(|p.taken|);
  }

  lemma StoreTokens(p: Pipe, pid: nat, c: char)
    requires TokensBut(p, 0, 1) && OneCall(p) && p.writeIndex < |p.buffer|
    ensures Tokens(Store(p, pid, c)) && OneCall(Store(p, pid, c))
  {
    if PostWakes(p.readLock) {
      HeadLeaves(p.readLock.waiting);
    }
  }

  lemma FetchTokens(p: Pipe)
    requires TokensBut(p, 1, 0) && OneCall(p) && p.readIndex < |p.buffer|
    ensures Tokens(Fetch(p)) && OneCall(Fetch(p))
  {
    if PostWakes(p.writeLock) {
      HeadLeaves(p.writeLock.waiting);
    }
  }

  lemma HeadLeaves(xs: seq<nat>)
    requires xs != [] && Distinct(xs)
    ensures Distinct(xs[1..]) && forall x :: x in xs <==> x == xs[0] || x in xs[1..]
    ensures xs[0] !in xs[1..]
  {
    assert xs == [xs[0]] + xs[1..];
  }

  // ----- every call -----

  lemma BeginWriteTokens(p: Pipe, pid: nat, c: char)
    requires Tokens(p) && Ring(p) && OneCall(p) && Enabled(p, BeginWrite(pid, c))
    ensures var w := WaitWrite(p, pid, c);
            if WaitBlocks(p.writeLock) then Tokens(w) && Ring(w) && OneCall(w)
            else
              w.writeIndex < |w.buffer|
              && var r := Store(w, pid, c);
              Tokens(r) && Ring(r) && OneCall(r)
  {
    var w := WaitWrite(p, pid, c);
    assert Ring(w);
    if !WaitBlocks(p.writeLock) {
      hide Ring;
      assert p.Unread() < PIPE_BUFFER_SIZE;
      WriteIndexInRange(w);
      StoreRing(w, pid, c);
      StoreTokens(w, pid, c);
    }
  }

  lemma WriteIndexInRange(p: Pipe)
    requires Ring(p)
    ensures p.writeIndex < |p.buffer| && p.readIndex < |p.buffer|
  {
  }

  lemma BeginWriteOrder(p: Pipe, pid: nat, c: char, q: nat)
    requires WritersInOrder(p) && OneCall(p) && !Busy(p, pid)
    ensures var h := if WaitBlocks(p.writeLock) then p.held[pid := c] else p.held;
            var t := if WaitBlocks(p.writeLock) then p.stored else p.stored + [Byte(pid, c)];
            By(p.sent + [Byte(pid, c)], q) == By(t, q) + if q in h then [h[q]] else []
  {
    ByAppend(p.sent, Byte(pid, c), q);
    ByAppend(p.stored, Byte(pid, c), q);
    assert By(p.sent, q) == By(p.stored, q) + if q in p.held then [p.held[q]] else [];
  }

  lemma BeginWriteKeeps(p: Pipe, pid: nat, c: char)
    requires Inv(p) && Enabled(p, BeginWrite(pid, c))
    ensures Inv(Step(p, BeginWrite(pid, c)))
  {
    BeginWriteTokens(p, pid, c);
    forall q: nat
      ensures var r := Step(p, BeginWrite(pid, c));
              By(r.sent, q) == By(r.stored, q) + if q in r.held then [r.held[q]] else []
    {
      BeginWriteOrder(p, pid, c, q);
    }
  }

  lemma FinishWriteKeeps(p: Pipe, pid: nat)
    requires Inv(p) && Enabled(p, FinishWrite(pid))
    ensures Inv(Step(p, FinishWrite(pid)))
  {
    var r := Step(p, FinishWrite(pid));
    FinishWriteTokens(p, pid);
    forall q: nat
      ensures By(r.sent, q) == By(r.stored, q) + if q in r.held then [r.held[q]] else []
    {
      FinishWriteOrder(p, pid, q);
    }
    hide Tokens, Ring, OneCall;
  }

  lemma FinishWriteOrder(p: Pipe, pid: nat, q: nat)
    requires WritersInOrder(p) && pid in p.held
    ensures var h, t := p.held - {pid}, p.stored + [Byte(pid, p.held[pid])];
            By(p.sent, q) == By(t, q) + if q in h then [h[q]] else []
  {
    ByAppend(p.stored, Byte(pid, p.held[pid]), q);
    assert By(p.sent, q) == By(p.stored, q) + if q in p.held then [p.held[q]] else [];
  }

  lemma FinishWriteTokens(p: Pipe, pid: nat)
    requires Tokens(p) && Ring(p) && OneCall(p) && pid in p.hasWrite
    ensures pid in p.held
    ensures var w := p.(hasWrite := p.hasWrite - {pid}, held := p.held - {pid});
            w.writeIndex < |w.buffer|
            && var r := Store(w, pid, p.held[pid]);
            Tokens(r) && Ring(r) && OneCall(r)
  {
    var w := p.(hasWrite := p.hasWrite - {pid}, held := p.held - {pid});
    assert |w.hasWrite| == |p.hasWrite| - 1;
    assert Ring(w);
    hide Ring;
    WriteIndexInRange(w);
    StoreRing(w, pid, p.held[pid]);
    StoreTokens(w, pid, p.held[pid]);
  }

  lemma BeginReadTokens(p: Pipe, pid: nat)
    requires Tokens(p) && Ring(p) && OneCall(p) && Enabled(p, BeginRead(pid))
    ensures var w := WaitRead(p, pid);
            if WaitBlocks(p.readLock) then Tokens(w) && Ring(w) && OneCall(w)
            else
              w.readIndex < |w.buffer|
              && var r := Fetch(w);
              Tokens(r) && Ring(r) && OneCall(r)
  {
    var w := WaitRead(p, pid);
    assert Ring(w);
    if !WaitBlocks(p.readLock) {
      hide Ring;
      WriteIndexInRange(w);
      FetchRing(w);
      FetchTokens(w);
    }
  }

  // Reading does not touch what was written.
  lemma SameWriters(p: Pipe, r: Pipe)
    requires WritersInOrder(p) && r.sent == p.sent && r.stored == p.stored && r.held == p.held
    ensures WritersInOrder(r)
  {
    forall q: nat
      ensures By(r.sent, q) == By(r.stored, q) + if q in r.held then [r.held[q]] else []
    {
      assert By(p.sent, q) == By(p.stored, q) + if q in p.held then [p.held[q]] else [];
    }
  }

  lemma BeginReadKeeps(p: Pipe, pid: nat)
    requires Inv(p) && Enabled(p, BeginRead(pid))
    ensures Inv(Step(p, BeginRead(pid)))
  {
    hide Tokens, Ring, OneCall, WritersInOrder;
    BeginReadTokens(p, pid);
    SameWriters(p, Step(p, BeginRead(pid)));
  }

  lemma FinishReadTokens(p: Pipe, pid: nat)
    requires Tokens(p) && Ring(p) && OneCall(p) && pid in p.hasRead
    ensures var w := p.(hasRead := p.hasRead - {pid});
            w.readIndex < |w.buffer|
            && var r := Fetch(w);
            Tokens(r) && Ring(r) && OneCall(r)
  {
    var w := p.(hasRead := p.hasRead - {pid});
    assert |w.hasRead| == |p.hasRead| - 1;
    assert Ring(w);
    hide Ring;
    WriteIndexInRange(w);
    FetchRing(w);
    FetchTokens(w);
  }

  lemma FinishReadKeeps(p: Pipe, pid: nat)
    requires Inv(p) && Enabled(p, FinishRead(pid))
    ensures Inv(Step(p, FinishRead(pid)))
  {
    hide Tokens, Ring, OneCall, WritersInOrder;
    FinishReadTokens(p, pid);
    SameWriters(p, Step(p, FinishRead(pid)));
  }

  lemma StepKeepsInv(p: Pipe, call: Call)
    requires Inv(p) && Enabled(p, call)
    ensures Inv(Step(p, call))
  {
    match call
    case BeginWrite(pid, c) => BeginWriteKeeps(p, pid, c);
    case FinishWrite(pid) => FinishWriteKeeps(p, pid);
    case BeginRead(pid) => BeginReadKeeps(p, pid);
    case FinishRead(pid) => FinishReadKeeps(p, pid);
  }

  // ----- runs -----

  ghost predicate Run(p: Pipe, calls: seq<Call>, r: Pipe)
    requires Inv(p)
    decreases |calls|
  {
    if calls == [] then r == p
    else
      Enabled(p, calls[0]) &&
      (StepKeepsInv(p, calls[0]); Run(Step(p, calls[0]), calls[1..], r))
  }

  lemma {:induction false} RunKeepsInv(p: Pipe, calls: seq<Call>, r: Pipe)
    requires Inv(p) && Run(p, calls, r)
    ensures Inv(r)
    decreases |calls|
  {
    if calls != [] {
      StepKeepsInv(p, calls[0]);
      RunKeepsInv(Step(p, calls[0]), calls[1..], r);
    }
  }

  // The bytes that write calls were begun with, in order.
  function Written(calls: seq<Call>): seq<Byte>
  {
    if calls == [] then []
    else (if calls[0].BeginWrite? then [Byte(calls[0].pid, calls[0].c)] else []) + Written(calls[1..])
  }

  lemma {:induction false} RunSends(p: Pipe, calls: seq<Call>, r: Pipe)
    requires Inv(p) && Run(p, calls, r)
    ensures r.sent == p.sent + Written(calls)
    decreases |calls|
  {
    hide Inv, Step, Enabled;
    if calls == [] {
      assert p.sent + [] == p.sent;
    } else {
      StepKeepsInv(p, calls[0]);
      StepSends(p, calls[0]);
      RunSends(Step(p, calls[0]), calls[1..], r);
      Associates(p.sent, if calls[0].BeginWrite? then [Byte(calls[0].pid, calls[0].c)] else [], Written(calls[1..]));
    }
  }

  lemma Associates(a: seq<Byte>, b: seq<Byte>, c: seq<Byte>)
    ensures (a + b) + c == a + (b + c)
  {
  }

  lemma StepSends(p: Pipe, call: Call)
    requires Inv(p) && Enabled(p, call)
    ensures Step(p, call).sent == p.sent + if call.BeginWrite? then [Byte(call.pid, call.c)] else []
  {
  }

  function Chars(bytes: seq<Byte>): seq<char>
  {
    seq(|bytes|, i requires 0 <= i < |bytes| => bytes[i].c)
  }

  // The i-th unread byte as the ring gives it.
  function InRing(p: Pipe, i: nat): char
    requires |p.buffer| == PIPE_BUFFER_SIZE
  {
    p.buffer[(p.readIndex + i) % PIPE_BUFFER_SIZE]
  }

  lemma RingHoldsUnread(p: Pipe, i: nat)
    requires Ring(p) && i <= p.Unread()
    ensures i < p.Unread() ==> InRing(p, i) == p.stored[|p.taken| + i].c
    ensures i == p.Unread() ==> (p.readIndex + i) % PIPE_BUFFER_SIZE == p.writeIndex
  {
    SamePlace(|p.taken|, i);
    if i < p.Unread() {
      assert p.buffer[(|p.taken| + i) % PIPE_BUFFER_SIZE] == p.stored[|p.taken| + i].c;
    }
  }

  // First in, first out, for any readers and writers and any interleaving: what
  // was read is a prefix of what was stored, the rest is at most a buffer full
  // and still in the ring in order, and the bytes a process wrote were stored in the
  // order it wrote them, all but the last one if that waits.
  lemma Fifo(buffer: seq<char>, calls: seq<Call>, r: Pipe)
    requires |buffer| == PIPE_BUFFER_SIZE && Inv(Opened(buffer)) && Run(Opened(buffer), calls, r)
    ensures r.taken <= Chars(r.stored)
    ensures 0 <= r.Unread() <= |r.buffer| == 1024
    ensures forall i: nat :: i < r.Unread() ==> InRing(r, i) == r.stored[|r.taken| + i].c
    ensures forall pid: nat ::
              By(Written(calls), pid) == By(r.stored, pid) + if pid in r.held then [r.held[pid]] else []
  {
    RunKeepsInv(Opened(buffer), calls, r);
    RunSends(Opened(buffer), calls, r);
    assert [] + Written(calls) == Written(calls);
    forall i: nat | i < r.Unread()
      ensures InRing(r, i) == r.stored[|r.taken| + i].c
    {
      RingHoldsUnread(r, i);
    }
    hide Tokens, OneCall, InRing;
  }

  lemma SamePlace(i: nat, d: nat)
    ensures (i % PIPE_BUFFER_SIZE + d) % PIPE_BUFFER_SIZE == (i + d) % PIPE_BUFFER_SIZE
  {
  }

  // A read call that does not block, or is finished, returns the oldest unread byte.
  lemma ReadsOldest(p: Pipe, call: Call)
    requires Inv(p) && Enabled(p, call)
    requires call.FinishRead? || (call.BeginRead? && !WaitBlocks(p.readLock))
    ensures p.Unread() > 0 && Step(p, call).taken == p.taken + [p.stored[|p.taken|].c]
  {
    if call.FinishRead? {
      var w := p.(hasRead := p.hasRead - {call.pid});
      assert |w.hasRead| == |p.hasRead| - 1;
      assert Ring(w);
      FetchRing(w);
    } else {
      var w := WaitRead(p, call.pid);
      assert Ring(w);
      FetchRing(w);
    }
  }

  // A read blocks exactly if every unread byte is granted to a reader already, a write
  // exactly if every free place is granted to a writer.
  lemma BlocksIffGranted(p: Pipe)
    requires Inv(p)
    ensures WaitBlocks(p.readLock) <==> |p.hasRead| == p.Unread()
    ensures WaitBlocks(p.writeLock) <==> |p.hasWrite| == PIPE_BUFFER_SIZE - p.Unread()
  {
  }

  // Nobody sleeps for nothing: if a reader waits then every unread byte has been
  // granted to a reader that is awake, if a writer waits then every free place
  // to a writer that is awake.
  lemma SleepersAreNeeded(p: Pipe)
    requires Inv(p)
    ensures p.readLock.waiting != [] ==> |p.hasRead| == p.Unread()
    ensures p.writeLock.waiting != [] ==> |p.hasWrite| == PIPE_BUFFER_SIZE - p.Unread()
  {
  }

  // Readers and writers never wait on each other for ever: when both kinds are
  // blocked, some woken process holds a token and can go on.
  lemma Progress(p: Pipe)
    requires Inv(p) && p.readLock.waiting != [] && p.writeLock.waiting != []
    ensures exists call: Call :: (call.FinishRead? || call.FinishWrite?) && Enabled(p, call)
    ensures |p.hasRead| + |p.hasWrite| == PIPE_BUFFER_SIZE
  {
    SleepersAreNeeded(p);
    if |p.hasRead| > 0 {
      var pid :| pid in p.hasRead;
      assert Enabled(p, FinishRead(pid));
    } else {
      assert |p.hasWrite| > 0;
      var pid :| pid in p.hasWrite;
      assert Enabled(p, FinishWrite(pid));
    }
  }
}
