/**
  What every driver call keeps true about commands, events, queues and buffers.
*/
module DriverInvariant {
  import opened Wrappers
  import opened BufferCommands
  import opened DrainOrder
  import opened DriverHeap

  ghost predicate IsQueued(h: Heap, k: nat) {
    k < |h.events| && h.events[k].status == Queued
  }

  ghost predicate IsComplete(h: Heap, k: nat) {
    k < |h.events| && h.events[k].status == Complete
  }

  // Profiling times of an event are in order, and nothing was submitted before its dependencies ended.
  ghost predicate TimesOk(h: Heap, g: History, k: nat)
    requires k < |h.events| && k < |g.deps| && |g.deps| <= |h.events| && WellFounded(g.deps)
  {
    var e := h.events[k];
    if e.status == Complete then
      && e.timeQueued <= e.timeSubmitted <= e.timeStart <= e.timeEnd <= h.clock
      && forall i :: 0 <= i < |g.deps[k]| ==> h.events[g.deps[k][i]].timeEnd <= e.timeSubmitted
    else e.timeQueued <= h.clock
  }

  ghost predicate CommandOk(h: Heap, g: History, k: nat)
    requires k < |h.commands| && |h.commands| == |h.events| == |g.deps| == |g.ops| && WellFounded(g.deps)
  {
    var c := h.commands[k];
    var e := h.events[k];
    && c.event == k && e.queue == c.queue && c.queue < |h.queues|
    && c.op == g.ops[k]
    && (e.status == Queued || e.status == Complete)
    // a queued event's command pointer is never dangling
    && (e.status == Queued ==> c.live && e.command == Some(k))
    && (e.command.Some? ==> e.command == Some(k) && c.live)
    && (c.live ==> Fits(c.op, h.memory))
    && (e.status == Complete ==> c.waitList == [])
    && (!h.queues[c.queue].outOfOrder ==> g.deps[k] == [])
    && (forall i :: 0 <= i < |g.deps[k]| ==> h.events[g.deps[k][i]].queue == c.queue)
    && TimesOk(h, g, k)
  }

  ghost predicate QueueOk(h: Heap, q: nat)
    requires q < |h.queues| && |h.commands| == |h.events|
  {
    var u := h.queues[q];
    && Distinct(u.deque)
    && (forall d :: d in u.deque ==> d < |h.commands| && h.commands[d].queue == q && h.commands[d].live)
    && (!u.flushInProcess ==>
          forall k :: 0 <= k < |h.commands| && h.commands[k].queue == q && h.commands[k].live ==> k in u.deque)
  }

  ghost predicate Shape(h: Heap, g: History) {
    && |h.commands| == |h.events| == |g.deps| == |g.ops| && WellFounded(g.deps)
    && (forall k :: 0 <= k < |h.commands| ==> CommandOk(h, g, k))
    && (forall q :: 0 <= q < |h.queues| ==> QueueOk(h, q))
    && Distinct(g.trace) && Ordered(g.deps, g.trace)
    && (forall k :: 0 <= k < |h.commands| ==> (k in g.trace <==> IsComplete(h, k)))
    && |h.buffers| == |h.memory.buffers|
    && (forall b :: 0 <= b < |h.buffers| ==> h.buffers[b].size == |h.memory.buffers[b]|)
  }

  ghost predicate Accounted(h: Heap, globalMemorySize: nat) {
    h.usedGlobalMemory == Sum(h.buffers, LiveSize()) <= globalMemorySize
  }

  ghost predicate Inv(h: Heap, g: History, globalMemorySize: nat) {
    Balanced(h, g.held) && Shape(h, g) && Accounted(h, globalMemorySize)
  }

  // What a queued command before n was enqueued to wait for and waits for no longer has run.
  ghost predicate Settled(h: Heap, g: History, n: nat) {
    forall k :: 0 <= k < n && k < |h.commands| && k < |g.deps| && IsQueued(h, k) ==>
                  WaitsFor(h.commands[k].waitList, g.deps[k], g.trace)
  }

  ghost predicate WaitsFor(waitList: seq<nat>, deps: seq<nat>, trace: seq<nat>) {
    waitList <= deps && forall i :: |waitList| <= i < |deps| ==> deps[i] in trace
  }

  // ---------------------------------------------------------------- frames

  ghost predicate SameQueue(u: Queue, v: Queue) {
    v == u.(referenceCount := v.referenceCount, live := v.live)
  }

  ghost predicate SameEvent(e: Event, f: Event) {
    f == e.(referenceCount := f.referenceCount, live := f.live)
  }

  ghost predicate SameBuffers(h: Heap, h': Heap) {
    && |h'.buffers| == |h.buffers|
    && forall b :: 0 <= b < |h.buffers| ==> h'.buffers[b].size == h.buffers[b].size
  }

  ghost predicate SameQueues(h: Heap, h': Heap) {
    && |h'.queues| == |h.queues|
    && forall q :: 0 <= q < |h.queues| ==> SameQueue(h.queues[q], h'.queues[q])
  }

  // Only counters and liveness of counted objects differ.
  ghost predicate SameCore(h: Heap, h': Heap) {
    && h'.commands == h.commands && h'.memory == h.memory && h'.clock == h.clock
    && |h'.contexts| == |h.contexts|
    && |h'.events| == |h.events|
    && (forall k :: 0 <= k < |h.events| ==> SameEvent(h.events[k], h'.events[k]))
    && SameQueues(h, h') && SameBuffers(h, h')
  }

  lemma SameCoreRefl(h: Heap)
    ensures SameCore(h, h)
  {
  }

  lemma SameCoreTrans(a: Heap, b: Heap, c: Heap)
    requires SameCore(a, b) && SameCore(b, c)
    ensures SameCore(a, c)
  {
    forall k | 0 <= k < |a.events| ensures SameEvent(a.events[k], c.events[k]) {
      assert SameEvent(a.events[k], b.events[k]) && SameEvent(b.events[k], c.events[k]);
    }
    forall q | 0 <= q < |a.queues| ensures SameQueue(a.queues[q], c.queues[q]) {
      assert SameQueue(a.queues[q], b.queues[q]) && SameQueue(b.queues[q], c.queues[q]);
    }
  }

  lemma {:induction false} SameCoreShape(h: Heap, h': Heap, g: History, g': History)
    requires Shape(h, g) && SameCore(h, h')
    requires g'.deps == g.deps && g'.ops == g.ops && g'.trace == g.trace
    ensures Shape(h', g')
    ensures forall n: nat :: Settled(h, g, n) ==> Settled(h', g', n)
  {
    forall k | 0 <= k < |h.events| ensures SameEvent(h.events[k], h'.events[k]) {}
    forall k | 0 <= k < |h.commands| ensures CommandOk(h', g', k) {
      assert CommandOk(h, g, k);
      assert SameEvent(h.events[k], h'.events[k]);
      assert SameQueue(h.queues[h.commands[k].queue], h'.queues[h.commands[k].queue]);
      assert TimesOk(h, g, k);
    }
    forall q | 0 <= q < |h'.queues| ensures QueueOk(h', q) {
      assert QueueOk(h, q) && SameQueue(h.queues[q], h'.queues[q]);
    }
  }

  // ---------------------------------------------------------------- memory along the trace

  ghost function RunOne(ops: seq<Operation>, k: nat, m: Memory): Memory {
    if k < |ops| && Fits(ops[k], m) then Apply(ops[k], m) else m
  }

  // The memory after the commands trace[from..] have run in order.
  ghost function Replay(ops: seq<Operation>, from: nat, trace: seq<nat>, m: Memory): Memory
    decreases |trace|
  {
    if |trace| <= from then m
    else RunOne(ops, trace[|trace| - 1], Replay(ops, from, trace[..|trace| - 1], m))
  }

  lemma {:induction false} ReplayChain(ops: seq<Operation>, from: nat, a: seq<nat>, b: seq<nat>, m: Memory)
    requires from <= |a| && a <= b
    ensures Replay(ops, from, b, m) == Replay(ops, |a|, b, Replay(ops, from, a, m))
    decreases |b|
  {
    if |a| == |b| {
      assert a == b;
    } else {
      ReplayChain(ops, from, a, b[..|b| - 1], m);
    }
  }

  // ---------------------------------------------------------------- progress of a flush

  // Command k either is as before, or it was queued and is now complete.
  ghost predicate Advanced(h: Heap, h': Heap, k: nat)
    requires k < |h.commands| == |h.events| == |h'.commands| == |h'.events|
  {
    if h'.events[k].status == h.events[k].status then
      h'.commands[k] == h.commands[k] && SameEvent(h.events[k], h'.events[k])
    else
      && h.events[k].status == Queued && h'.events[k].status == Complete
      && h'.commands[k] == h.commands[k].(waitList := [])
      && h'.events[k].queue == h.events[k].queue && h'.events[k].context == h.events[k].context
      && h'.events[k].command == h.events[k].command && h'.events[k].timeQueued == h.events[k].timeQueued
  }

  // What executing commands of a flushing queue may change: statuses, wait lists and times of
  // commands before n, counters of events, queues and contexts, memory and the clock.
  ghost predicate Executed(h: Heap, h': Heap, n: nat) {
    && |h.commands| == |h.events| == |h'.commands| == |h'.events|
    && |h'.contexts| == |h.contexts| && SameQueues(h, h')
    && h'.buffers == h.buffers && h'.usedGlobalMemory == h.usedGlobalMemory
    && Sizes(h'.memory) == Sizes(h.memory) && |h'.memory.host| == |h.memory.host|
    && h.clock <= h'.clock
    && (forall k :: 0 <= k < |h.commands| ==> Advanced(h, h', k))
    && (forall k :: n <= k < |h.commands| ==> h'.events[k].status == h.events[k].status)
  }

  lemma {:induction false} ExecutedTrans(a: Heap, b: Heap, c: Heap, n: nat)
    requires Executed(a, b, n) && Executed(b, c, n)
    ensures Executed(a, c, n)
  {
    forall k | 0 <= k < |a.commands| ensures Advanced(a, c, k) {
      assert Advanced(a, b, k) && Advanced(b, c, k);
    }
    forall q | 0 <= q < |a.queues| ensures SameQueue(a.queues[q], c.queues[q]) {
      assert SameQueue(a.queues[q], b.queues[q]) && SameQueue(b.queues[q], c.queues[q]);
    }
  }

  lemma {:induction false} SameCoreExecuted(h: Heap, h': Heap)
    requires SameCore(h, h') && |h.commands| == |h.events| && h'.buffers == h.buffers
    requires h'.usedGlobalMemory == h.usedGlobalMemory
    ensures Executed(h, h', 0)
  {
    forall k | 0 <= k < |h.commands| ensures Advanced(h, h', k) {
      assert SameEvent(h.events[k], h'.events[k]);
    }
  }

  ghost function IdleQueues(h: Heap): set<nat> {
    set q: nat | q < |h.queues| && !h.queues[q].flushInProcess
  }

  lemma SameQueuesIdle(h: Heap, h': Heap)
    requires SameQueues(h, h')
    ensures IdleQueues(h') == IdleQueues(h)
  {
    forall q: nat ensures q in IdleQueues(h') <==> q in IdleQueues(h) {
      if q < |h.queues| { assert SameQueue(h.queues[q], h'.queues[q]); }
    }
  }

  predicate Flushing(h: Heap, q: nat) {
    q < |h.queues| && h.queues[q].flushInProcess
  }

  // Only commands of queue q have run.
  ghost predicate OnlyQueue(h: Heap, h': Heap, q: nat)
    requires |h.commands| == |h.events| == |h'.events|
  {
    forall k :: 0 <= k < |h.commands| && h.commands[k].queue != q ==> h'.events[k].status == h.events[k].status
  }

  lemma {:induction false} ExecutedSettled(h: Heap, h': Heap, g: History, g': History, n: nat, m: nat)
    requires Executed(h, h', n) && Settled(h, g, m) && g'.deps == g.deps && g.trace <= g'.trace
    ensures Settled(h', g', m)
  {
    forall k | 0 <= k < m && k < |h'.commands| && k < |g'.deps| && IsQueued(h', k)
      ensures WaitsFor(h'.commands[k].waitList, g'.deps[k], g'.trace)
    {
      assert Advanced(h, h', k);
      assert WaitsFor(h.commands[k].waitList, g.deps[k], g.trace);
    }
  }

  lemma {:induction false} ExecutedWiden(h: Heap, h': Heap, n: nat, m: nat)
    requires Executed(h, h', n) && n <= m
    ensures Executed(h, h', m)
  {
  }

  // ---------------------------------------------------------------- what the invariant tells a caller

  // Everything a live command points to may be dereferenced.
  lemma {:induction false} CommandFacts(h: Heap, g: History, size: nat, c: nat)
    requires Inv(h, g, size) && c < |h.commands| && h.commands[c].live
    ensures |h.commands| == |h.events| == |g.deps| == |g.ops| && WellFounded(g.deps)
    ensures Live(h, QueueRef(h.commands[c].queue)) && Live(h, EventRef(c))
    ensures h.commands[c].event == c && h.events[c].queue == h.commands[c].queue
    ensures h.commands[c].op == g.ops[c] && Fits(h.commands[c].op, h.memory)
    ensures forall r :: r in OperationBuffers(h.commands[c].op) ==> Live(h, r)
    ensures IsQueued(h, c) || (IsComplete(h, c) && h.commands[c].waitList == [])
    ensures c in g.trace <==> IsComplete(h, c)
    ensures !h.queues[h.commands[c].queue].outOfOrder ==> g.deps[c] == []
  {
    assert CommandOk(h, g, c);
    var refs := OwnRefs(h.commands[c]) + WaitRefs(h.commands[c].waitList);
    forall r | r in refs ensures Live(h, r) {
      CommandTargetsLive(h, g.held, c, r);
    }
    assert QueueRef(h.commands[c].queue) in refs && EventRef(c) in refs;
    assert forall r :: r in OperationBuffers(h.commands[c].op) ==> r in refs;
  }

  // An event in the wait list of a live command is live and of the same queue; a queued one has a
  // command that is live too.
  lemma {:induction false} WaitedFacts(h: Heap, g: History, size: nat, c: nat, i: nat)
    requires Inv(h, g, size) && c < |h.commands| && h.commands[c].live
    requires |h.commands[c].waitList| <= |g.deps[c]| && h.commands[c].waitList <= g.deps[c]
    requires i < |h.commands[c].waitList|
    ensures var e := h.commands[c].waitList[i];
            && e < c && Live(h, EventRef(e)) && h.events[e].queue == h.commands[c].queue
            && h.commands[e].queue == h.commands[c].queue
            && (e in g.trace <==> !IsQueued(h, e))
            && (IsQueued(h, e) ==> h.events[e].command == Some(e) && h.commands[e].live)
  {
    var e := h.commands[c].waitList[i];
    assert CommandOk(h, g, c);
    assert e == g.deps[c][i];
    WaitRefsMember(h.commands[c].waitList, i);
    CommandTargetsLive(h, g.held, c, EventRef(e));
    assert CommandOk(h, g, e);
  }

  lemma {:induction false} EventFacts(h: Heap, g: History, size: nat, e: nat)
    requires Inv(h, g, size) && e < |h.events|
    ensures |h.commands| == |h.events| && h.events[e].queue < |h.queues|
    ensures h.commands[e].queue == h.events[e].queue
  {
    assert CommandOk(h, g, e);
  }

  // ---------------------------------------------------------------- the effect of a flush

  ghost predicate Flushed(h: Heap, g: History, h': Heap, g': History, q: nat) {
    && q < |h.queues| && WellFounded(g.deps) && Below(h.queues[q].deque, |g.deps|)
    && g'.deps == g.deps && g'.ops == g.ops
    && g'.trace == Drain(g.deps, h.queues[q].outOfOrder, h.queues[q].deque, g.trace)
    && h'.memory == Replay(g.ops, |g.trace|, g'.trace, h.memory)
    && h.clock <= h'.clock
    && |h'.contexts| == |h.contexts| && SameBuffers(h, h')
    && |h'.commands| == |h.commands| == |h'.events| == |h.events|
    && |h'.queues| == |h.queues| && SameQueue(h.queues[q].(deque := []), h'.queues[q])
    && (forall p :: 0 <= p < |h.queues| && p != q ==> SameQueue(h.queues[p], h'.queues[p]))
    && (forall k :: 0 <= k < |h.commands| ==> FlushedCommand(h, h', q, k))
  }

  ghost predicate FlushedCommand(h: Heap, h': Heap, q: nat, k: nat)
    requires k < |h'.commands| == |h.commands| == |h'.events| == |h.events|
  {
    if h.commands[k].queue == q && h.commands[k].live then
      && IsComplete(h', k) && h'.commands[k] == h.commands[k].(waitList := [], live := false)
      && h'.events[k].queue == h.events[k].queue && h'.events[k].context == h.events[k].context
      && h'.events[k].command == None
    else h'.commands[k] == h.commands[k] && SameEvent(h.events[k], h'.events[k])
  }

  lemma {:induction false} SameCoreFlushed(a: Heap, b: Heap, c: Heap, g: History, g': History, g'': History, q: nat)
    requires SameCore(a, b) && Flushed(b, g', c, g'', q)
    requires g'.deps == g.deps && g'.ops == g.ops && g'.trace == g.trace
    ensures Flushed(a, g, c, g'', q)
  {
    hide Drain;
    hide Replay;
    forall p | 0 <= p < |a.queues| ensures SameQueue(a.queues[p], b.queues[p]) {}
    assert SameQueue(a.queues[q], b.queues[q]);
    forall k | 0 <= k < |a.commands| ensures FlushedCommand(a, c, q, k) {
      assert FlushedCommand(b, c, q, k) && SameEvent(a.events[k], b.events[k]);
    }
  }

  lemma {:induction false} FlushedSameCore(a: Heap, b: Heap, c: Heap, g: History, g': History, g'': History, q: nat)
    requires Flushed(a, g, b, g', q) && SameCore(b, c)
    requires g''.deps == g'.deps && g''.ops == g'.ops && g''.trace == g'.trace
    ensures Flushed(a, g, c, g'', q)
  {
    hide Drain;
    hide Replay;
    forall p | 0 <= p < |b.queues| ensures SameQueue(b.queues[p], c.queues[p]) {}
    forall k | 0 <= k < |a.commands| ensures FlushedCommand(a, c, q, k) {
      assert FlushedCommand(a, b, q, k) && SameEvent(b.events[k], c.events[k]);
    }
  }

  lemma SameCoreFacts(h: Heap, h': Heap, q: nat, e: nat)
    requires SameCore(h, h') && e < |h.events|
    ensures Flushing(h', q) <==> Flushing(h, q)
    ensures |h'.queues| == |h.queues| && |h'.events| == |h.events| && h'.commands == h.commands
    ensures h'.events[e].queue == h.events[e].queue
    ensures IdleQueues(h') == IdleQueues(h)
  {
    SameQueuesIdle(h, h');
    assert SameEvent(h.events[e], h'.events[e]);
    if q < |h.queues| {
      assert SameQueue(h.queues[q], h'.queues[q]);
    }
  }

  lemma {:induction false} ExecutedRefl(h: Heap, n: nat)
    requires |h.commands| == |h.events|
    ensures Executed(h, h, n)
  {
  }

  lemma {:induction false} ExecutedFacts(h: Heap, h': Heap, n: nat, e: nat, q: nat)
    requires Executed(h, h', n) && e < |h.events|
    ensures |h'.events| == |h.events| && |h'.commands| == |h.commands|
    ensures h'.events[e].queue == h.events[e].queue && h'.commands[e].queue == h.commands[e].queue
    ensures Flushing(h', q) <==> Flushing(h, q)
    ensures IdleQueues(h') == IdleQueues(h)
  {
    assert Advanced(h, h', e);
    SameQueuesIdle(h, h');
    if q < |h.queues| {
      assert SameQueue(h.queues[q], h'.queues[q]);
    }
  }

  lemma SettledNarrow(h: Heap, g: History, n: nat, m: nat)
    requires Settled(h, g, m) && n <= m
    ensures Settled(h, g, n)
  {
  }

  // ---------------------------------------------------------------- between driver calls

  // No driver function is running: no queue is being flushed.
  ghost predicate Quiescent(h: Heap, g: History, size: nat) {
    && Inv(h, g, size)
    && (forall q :: 0 <= q < |h.queues| ==> !h.queues[q].flushInProcess)
    && Settled(h, g, |h.commands|)
  }

  lemma {:induction false} QuiescentGrow(h: Heap, g: History, h': Heap, g': History, size: nat)
    requires Quiescent(h, g, size) && Inv(h', g', size)
    requires h'.commands == h.commands && h'.events == h.events && g'.deps == g.deps && g'.trace == g.trace
    requires forall q :: 0 <= q < |h'.queues| ==> !h'.queues[q].flushInProcess
    ensures Quiescent(h', g', size)
  {
    hide Balanced;
    hide Shape;
    hide Accounted;
    forall k | 0 <= k < |h'.commands| && k < |g'.deps| && IsQueued(h', k)
      ensures WaitsFor(h'.commands[k].waitList, g'.deps[k], g'.trace)
    {
      assert IsQueued(h, k);
    }
  }

  lemma {:induction false} QuiescentSameCore(h: Heap, g: History, h': Heap, g': History, size: nat)
    requires Quiescent(h, g, size) && Inv(h', g', size) && SameCore(h, h')
    requires g'.deps == g.deps && g'.trace == g.trace
    ensures Quiescent(h', g', size)
  {
    hide Balanced;
    hide Shape;
    hide Accounted;
    forall q | 0 <= q < |h'.queues| ensures !h'.queues[q].flushInProcess {
      assert SameQueue(h.queues[q], h'.queues[q]);
    }
    forall k | 0 <= k < |h'.commands| && k < |g'.deps| && IsQueued(h', k)
      ensures WaitsFor(h'.commands[k].waitList, g'.deps[k], g'.trace)
    {
      assert SameEvent(h.events[k], h'.events[k]);
      assert IsQueued(h, k);
    }
  }

  lemma {:induction false} QuiescentFlushed(h: Heap, g: History, h': Heap, g': History, size: nat, q: nat)
    requires Quiescent(h, g, size) && Inv(h', g', size) && Flushed(h, g, h', g', q)
    requires Settled(h', g', |h'.commands|)
    ensures Quiescent(h', g', size)
  {
    hide Balanced;
    hide Shape;
    hide Accounted;
    hide Settled;
    forall p | 0 <= p < |h'.queues| ensures !h'.queues[p].flushInProcess {
      assert p == q || SameQueue(h.queues[p], h'.queues[p]);
    }
  }
}
