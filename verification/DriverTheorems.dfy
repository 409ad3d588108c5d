/**
  What the invariant and the effect of a flush mean for a client.
*/
module DriverTheorems {
  import opened Wrappers
  import opened BufferCommands
  import opened DrainOrder
  import opened DriverHeap
  import opened DriverInvariant

  ghost function OperationsOf(ops: seq<Operation>, ran: seq<nat>): seq<Operation>
    requires Below(ran, |ops|)
  {
    seq(|ran|, i requires 0 <= i < |ran| => ops[ran[i]])
  }

  // The commands a flush may run wait only for commands that have run or that it will run too.
  lemma {:induction false} DequeIsClosed(h: Heap, g: History, q: nat)
    requires Shape(h, g) && q < |h.queues| && !h.queues[q].flushInProcess
    ensures Below(h.queues[q].deque, |g.deps|) && Distinct(h.queues[q].deque)
    ensures forall k, e :: k in h.queues[q].deque && k < |g.deps| && e in g.deps[k] ==>
                             e in h.queues[q].deque || e in g.trace
  {
    var deque := h.queues[q].deque;
    assert QueueOk(h, q);
    forall i | 0 <= i < |deque| ensures deque[i] < |g.deps| {
      assert deque[i] in deque;
    }
    forall k, e | k in deque && k < |g.deps| && e in g.deps[k] ensures e in deque || e in g.trace {
      var i :| 0 <= i < |g.deps[k]| && g.deps[k][i] == e;
      assert CommandOk(h, g, k);
      assert e < k && CommandOk(h, g, e);
      assert h.commands[e].queue == q;
    }
  }

  lemma {:induction false} FlushOrder(h: Heap, g: History, size: nat, h': Heap, g': History, q: nat)
    requires Inv(h, g, size) && Flushed(h, g, h', g', q) && !h.queues[q].flushInProcess
    ensures g.trace <= g'.trace && Distinct(g'.trace) && Ordered(g.deps, g'.trace)
    ensures multiset(g'.trace[|g.trace|..]) == multiset(Unrun(h.queues[q].deque, g.trace))
    ensures !h.queues[q].outOfOrder ==> g'.trace[|g.trace|..] == Unrun(h.queues[q].deque, g.trace)
    ensures h.queues[q].outOfOrder && Free(g.deps, h.queues[q].deque) ==>
              g'.trace[|g.trace|..] == Backwards(Unrun(h.queues[q].deque, g.trace))
  {
    hide Balanced;
    hide Accounted;
    hide Replay;
    var deque := h.queues[q].deque;
    DequeIsClosed(h, g, q);
    if h.queues[q].outOfOrder && Free(g.deps, deque) {
      OutOfOrderDrain(g.deps, deque, g.trace);
    }
    DrainIsTopological(g.deps, h.queues[q].outOfOrder, deque, g.trace);
    if !h.queues[q].outOfOrder {
      InOrderIsUnconstrained(h, g, q);
      InOrderDrain(g.deps, deque, g.trace);
      assert g'.trace == g.trace + Unrun(deque, g.trace);
    }
  }

  lemma {:induction false} InOrderIsUnconstrained(h: Heap, g: History, q: nat)
    requires Shape(h, g) && q < |h.queues| && !h.queues[q].outOfOrder
    ensures var deque := h.queues[q].deque;
            Below(deque, |g.deps|) && Free(g.deps, deque)
  {
    assert QueueOk(h, q);
    var deque := h.queues[q].deque;
    forall i | 0 <= i < |deque| ensures deque[i] < |g.deps| && g.deps[deque[i]] == [] {
      assert deque[i] in deque;
      assert CommandOk(h, g, deque[i]);
    }
  }

  lemma ApplyNone(run: seq<Operation>, m: Memory)
    requires run == []
    ensures AllFit(run, m) && ApplyAll(run, m) == m
  {
  }

  lemma {:induction false} ApplyAllLast(init: seq<Operation>, op: Operation, m: Memory)
    requires AllFit(init, m) && Fits(op, m)
    ensures AllFit(init + [op], m) && Fits(op, ApplyAll(init, m))
    ensures ApplyAll(init + [op], m) == Apply(op, ApplyAll(init, m))
  {
    hide Apply;
    assert AllFit(init + [op], m) by {
      hide Fits;
    }
    ApplyAllConcat(init, [op], m);
    assert [op][1..] == [];
    assert Fits([op][0], ApplyAll(init, m));
  }

  lemma OperationsLast(ops: seq<Operation>, ran: seq<nat>, k: nat)
    requires Below(ran, |ops|) && k < |ops|
    ensures Below(ran + [k], |ops|) && OperationsOf(ops, ran + [k]) == OperationsOf(ops, ran) + [ops[k]]
  {
  }

  // Running trace[n..] is applying the operations of those commands one after the other.
  lemma {:induction false} ReplaySuffix(ops: seq<Operation>, n: nat, trace: seq<nat>, m: Memory)
    requires n <= |trace| && Below(trace, |ops|)
    requires forall i :: n <= i < |trace| ==> Fits(ops[trace[i]], m)
    ensures Below(trace[n..], |ops|) && AllFit(OperationsOf(ops, trace[n..]), m)
    ensures Replay(ops, n, trace, m) == ApplyAll(OperationsOf(ops, trace[n..]), m)
    decreases |trace|
  {
    hide Apply;
    hide Fits;
    hide ApplyAll;
    hide AllFit;
    if |trace| == n {
      ApplyNone(OperationsOf(ops, trace[n..]), m);
    } else {
      var last := |trace| - 1;
      var before := trace[..last];
      ReplaySuffix(ops, n, before, m);
      assert trace[n..] == before[n..] + [trace[last]];
      OperationsLast(ops, before[n..], trace[last]);
      hide OperationsOf;
      FitsLater(OperationsOf(ops, before[n..]), ops[trace[last]], m);
      ApplyAllLast(OperationsOf(ops, before[n..]), ops[trace[last]], m);
    }
  }

  lemma FitsLater(init: seq<Operation>, op: Operation, m: Memory)
    requires AllFit(init, m) && Fits(op, m)
    ensures Fits(op, ApplyAll(init, m))
  {
  }

  lemma {:induction false} DequeFits(h: Heap, g: History, q: nat, ran: seq<nat>)
    requires Shape(h, g) && q < |h.queues| && multiset(ran) == multiset(Unrun(h.queues[q].deque, g.trace))
    ensures Below(ran, |g.ops|) && forall i :: 0 <= i < |ran| ==> Fits(g.ops[ran[i]], h.memory)
  {
    hide Fits;
    assert QueueOk(h, q);
    forall i | 0 <= i < |ran| ensures ran[i] < |g.ops| && Fits(g.ops[ran[i]], h.memory) {
      assert ran[i] in multiset(ran);
      assert ran[i] in Unrun(h.queues[q].deque, g.trace);
      assert ran[i] in h.queues[q].deque && CommandOk(h, g, ran[i]);
    }
  }

  lemma {:induction false} FlushMemory(h: Heap, g: History, size: nat, h': Heap, g': History, q: nat)
    requires Inv(h, g, size) && Flushed(h, g, h', g', q) && g.trace <= g'.trace
    requires multiset(g'.trace[|g.trace|..]) == multiset(Unrun(h.queues[q].deque, g.trace)) && Below(g'.trace, |g.ops|)
    ensures var ran := g'.trace[|g.trace|..];
            && Below(ran, |g.ops|) && AllFit(OperationsOf(g.ops, ran), h.memory)
            && h'.memory == ApplyAll(OperationsOf(g.ops, ran), h.memory)
  {
    hide Balanced;
    hide Shape;
    hide Accounted;
    hide Replay;
    hide ApplyAll;
    hide Fits;
    hide Drain;
    DequeFits(h, g, q, g'.trace[|g.trace|..]);
    ReplaySuffix(g.ops, |g.trace|, g'.trace, h.memory);
  }

  /**
    A flush runs every command of the deque that has not run exactly once and no other command, each
    one only after all the commands it waits for, and its effect on memory is that of the operations in that order.
    An in-order queue runs its commands in the order in which they were enqueued.
  */
  lemma {:induction false} FlushRunsDequeOnce(h: Heap, g: History, size: nat, h': Heap, g': History, q: nat)
    requires Inv(h, g, size) && Flushed(h, g, h', g', q) && !h.queues[q].flushInProcess
    ensures g.trace <= g'.trace && Distinct(g'.trace) && Ordered(g.deps, g'.trace)
    ensures var ran := g'.trace[|g.trace|..];
            && multiset(ran) == multiset(Unrun(h.queues[q].deque, g.trace))
            && (!h.queues[q].outOfOrder ==> ran == Unrun(h.queues[q].deque, g.trace))
            && Below(ran, |g.ops|) && AllFit(OperationsOf(g.ops, ran), h.memory)
            && h'.memory == ApplyAll(OperationsOf(g.ops, ran), h.memory)
    ensures h'.queues[q].deque == []
    ensures forall k :: k in h.queues[q].deque ==> IsComplete(h', k) && k < |h'.commands| && !h'.commands[k].live
  {
    hide Balanced;
    hide Accounted;
    hide Replay;
    hide Drain;
    FlushOrder(h, g, size, h', g', q);
    FlushMemory(h, g, size, h', g', q);
    assert QueueOk(h, q);
    forall k | k in h.queues[q].deque ensures IsComplete(h', k) && k < |h'.commands| && !h'.commands[k].live {
      assert FlushedCommand(h, h', q, k);
    }
    assert SameQueue(h.queues[q].(deque := []), h'.queues[q]);
  }

  // Profiling: the four times of a completed event are in order and a dependency ends before the
  // dependent command is submitted.
  lemma {:induction false} ProfilingTimes(h: Heap, g: History, size: nat, k: nat, e: nat)
    requires Inv(h, g, size) && IsComplete(h, k)
    ensures k < |h.events| && k < |g.deps|
    ensures h.events[k].timeQueued <= h.events[k].timeSubmitted <= h.events[k].timeStart <= h.events[k].timeEnd
    ensures e in g.deps[k] ==> IsComplete(h, e) && h.events[e].timeEnd <= h.events[k].timeSubmitted
  {
    assert CommandOk(h, g, k) && TimesOk(h, g, k);
    if e in g.deps[k] {
      var i :| 0 <= i < |g.deps[k]| && g.deps[k][i] == e;
      var j :| 0 <= j < |g.trace| && g.trace[j] == k;
      assert e in g.trace[..j];
      assert e in g.trace;
      assert e < |h.commands|;
    }
  }

  // ---------------------------------------------------------------- what the counters count

  function Occurrences(s: seq<nat>, e: nat): nat {
    multiset(s)[e]
  }

  function OperationUses(op: Operation, b: nat): nat {
    match op
    case Read(x, _, _, _) => if x == b then 1 else 0
    case Write(x, _, _, _) => if x == b then 1 else 0
    case Fill(x, _, _, _) => if x == b then 1 else 0
    case Copy(s, d, _, _, _) => (if s == b then 1 else 0) + (if d == b then 1 else 0)
  }

  ghost function Waits(e: nat): Command -> nat {
    (c: Command) => if c.live then Occurrences(c.waitList, e) else 0
  }

  ghost function Uses(b: nat): Command -> nat {
    (c: Command) => if c.live then OperationUses(c.op, b) else 0
  }

  ghost function CommandOn(q: nat): Command -> nat {
    (c: Command) => if c.live && c.queue == q then 1 else 0
  }

  ghost function EventOn(q: nat): Event -> nat {
    (e: Event) => if e.live && e.queue == q then 1 else 0
  }

  lemma {:induction false} WaitRefsCount(waitList: seq<nat>, r: Ref)
    ensures WaitRefs(waitList)[r] == if r.EventRef? then Occurrences(waitList, r.id) else 0
  {
    if waitList != [] {
      var n := |waitList| - 1;
      WaitRefsCount(waitList[..n], r);
      assert waitList == waitList[..n] + [waitList[n]];
    }
  }

  lemma {:induction false} RefsToEvent(c: Command, e: nat)
    ensures CommandRefs(EventRef(e))(c) == Waits(e)(c) + if c.live && c.event == e then 1 else 0
  {
    WaitRefsCount(c.waitList, EventRef(e));
    assert OperationBuffers(c.op)[EventRef(e)] == 0;
  }

  // Command k holds the reference of its event k once, besides the wait lists.
  lemma {:induction false} EventOwner(commands: seq<Command>, e: nat)
    requires forall k :: 0 <= k < |commands| ==> commands[k].event == k
    ensures Sum(commands, CommandRefs(EventRef(e)))
            == Sum(commands, Waits(e)) + if e < |commands| && commands[e].live then 1 else 0
  {
    if commands != [] {
      var n := |commands| - 1;
      var c := commands[n];
      EventOwner(commands[..n], e);
      hide CommandRefs;
      hide Waits;
      RefsToEvent(c, e);
    }
  }

  // An event's counter: handles, one for its live command, and its occurrences in wait lists.
  lemma {:induction false} EventCounter(h: Heap, g: History, size: nat, e: nat)
    requires Inv(h, g, size) && e < |h.events|
    ensures h.events[e].referenceCount
            == g.held[EventRef(e)] + (if e < |h.commands| && h.commands[e].live then 1 else 0) + Sum(h.commands, Waits(e))
    ensures h.events[e].live <==> h.events[e].referenceCount > 0
  {
    forall k | 0 <= k < |h.commands| ensures h.commands[k].event == k {
      assert CommandOk(h, g, k);
    }
    EventOwner(h.commands, e);
    var r := EventRef(e);
    assert Count(h, r) == g.held[r] + Refs(h, r);
    SumZero(h.events, EventRefs(r));
    SumZero(h.queues, QueueRefs(r));
    SumZero(h.buffers, BufferRefs(r));
    assert Live(h, r) <==> Count(h, r) > 0;
  }

  lemma RefsToQueue(c: Command, q: nat)
    ensures CommandRefs(QueueRef(q))(c) == CommandOn(q)(c)
  {
    WaitRefsCount(c.waitList, QueueRef(q));
    hide WaitRefs;
    assert OperationBuffers(c.op)[QueueRef(q)] == 0;
  }

  // A queue's counter: handles, its live commands and its live events.
  lemma {:induction false} QueueCounter(h: Heap, g: History, size: nat, q: nat)
    requires Inv(h, g, size) && q < |h.queues|
    ensures h.queues[q].referenceCount
            == g.held[QueueRef(q)] + Sum(h.commands, CommandOn(q)) + Sum(h.events, EventOn(q))
    ensures h.queues[q].live <==> h.queues[q].referenceCount > 0
  {
    CounterIsExact(h, g, size, QueueRef(q));
    QueueRefsCount(h, q);
    hide Inv;
    hide Sum;
    hide Refs;
  }

  lemma {:induction false} QueueRefsCount(h: Heap, q: nat)
    ensures Refs(h, QueueRef(q)) == Sum(h.commands, CommandOn(q)) + Sum(h.events, EventOn(q))
  {
    var r := QueueRef(q);
    forall k | 0 <= k < |h.commands| ensures CommandRefs(r)(h.commands[k]) == CommandOn(q)(h.commands[k]) {
      RefsToQueue(h.commands[k], q);
    }
    hide CommandRefs;
    hide CommandOn;
    SumEqual(h.commands, CommandRefs(r), CommandOn(q));
    SumEqual(h.events, EventRefs(r), EventOn(q));
    SumZero(h.queues, QueueRefs(r));
    SumZero(h.buffers, BufferRefs(r));
  }

  lemma CounterIsExact(h: Heap, g: History, size: nat, r: Ref)
    requires Inv(h, g, size)
    ensures Count(h, r) == g.held[r] + Refs(h, r)
    ensures Live(h, r) <==> Count(h, r) > 0
  {
  }

  lemma CommandUses(c: Command, b: nat)
    ensures CommandRefs(BufferRef(b))(c) == Uses(b)(c)
  {
    WaitRefsCount(c.waitList, BufferRef(b));
    BuffersAreUses(c.op, b);
    hide WaitRefs;
    hide OperationBuffers;
    hide OperationUses;
  }

  lemma BuffersAreUses(op: Operation, b: nat)
    ensures OperationBuffers(op)[BufferRef(b)] == OperationUses(op, b)
  {
  }

  lemma {:induction false} UsesAreRefs(h: Heap, b: nat)
    ensures Refs(h, BufferRef(b)) == Sum(h.commands, Uses(b))
  {
    var r := BufferRef(b);
    forall k | 0 <= k < |h.commands| ensures CommandRefs(r)(h.commands[k]) == Uses(b)(h.commands[k]) {
      CommandUses(h.commands[k], b);
    }
    hide CommandRefs;
    hide Uses;
    SumEqual(h.commands, CommandRefs(r), Uses(b));
    SumZero(h.events, EventRefs(r));
    SumZero(h.queues, QueueRefs(r));
    SumZero(h.buffers, BufferRefs(r));
  }

  // A buffer's counter: handles and uses by live commands, two for a copy inside one buffer.
  lemma {:induction false} BufferCounter(h: Heap, g: History, size: nat, b: nat)
    requires Inv(h, g, size) && b < |h.buffers|
    ensures h.buffers[b].referenceCount == g.held[BufferRef(b)] + Sum(h.commands, Uses(b))
    ensures h.buffers[b].live <==> h.buffers[b].referenceCount > 0
  {
    CounterIsExact(h, g, size, BufferRef(b));
    hide Inv;
    hide Sum;
    hide Refs;
    hide Uses;
    UsesAreRefs(h, b);
  }

  /**
    No object is freed while something refers to it: what a handle, a live command or a live event
    points to is live, and so is the command of an event that has not run.
  */
  lemma {:induction false} NothingDangles(h: Heap, g: History, size: nat, k: nat, r: Ref)
    requires Inv(h, g, size) && k < |h.commands|
    ensures g.held[r] > 0 ==> Live(h, r)
    ensures h.commands[k].live && r in OwnRefs(h.commands[k]) + WaitRefs(h.commands[k].waitList) ==> Live(h, r)
    ensures k < |h.events|
    ensures h.events[k].live ==> Live(h, QueueRef(h.events[k].queue)) && Live(h, ContextRef(h.events[k].context))
    ensures IsQueued(h, k) ==> h.events[k].live && h.events[k].command == Some(k) && h.commands[k].live
    ensures h.usedGlobalMemory == Sum(h.buffers, LiveSize()) <= size
  {
    if g.held[r] > 0 {
      HeldIsLive(h, g.held, r);
    }
    if h.commands[k].live && r in OwnRefs(h.commands[k]) + WaitRefs(h.commands[k].waitList) {
      CommandTargetsLive(h, g.held, k, r);
    }
    if h.events[k].live {
      EventTargetLive(h, g.held, k, QueueRef(h.events[k].queue));
      EventTargetLive(h, g.held, k, ContextRef(h.events[k].context));
    }
    if IsQueued(h, k) {
      assert CommandOk(h, g, k);
      CommandFacts(h, g, size, k);
    }
  }

  lemma {:induction false} EventTargetLive(h: Heap, held: multiset<Ref>, k: nat, r: Ref)
    requires Balanced(h, held) && k < |h.events| && h.events[k].live
    requires r == QueueRef(h.events[k].queue) || r == ContextRef(h.events[k].context)
    ensures Live(h, r)
  {
    SumUpdate(h.events, k, h.events[k], EventRefs(r));
    assert Count(h, r) > 0;
  }
}
