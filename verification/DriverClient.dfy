/**
  Whole runs of a client of the driver.
*/
module DriverClient {
  import opened Wrappers
  import opened MachineWords
  import opened BufferCommands
  import opened BufferTheorems
  import opened DrainOrder
  import opened DriverHeap
  import opened DriverInvariant
  import opened DriverAlloc
  import opened DriverWait
  import opened Driver
  import opened DriverTheorems

  datatype Call =
    | CreateContext
    | CreateCommandQueue(context: nat, outOfOrder: bool)
    | CreateBuffer(context: nat, size: nat, copyHostPtr: bool, hostPtr: Option<nat>)
    | Retain(r: Ref)
    | Release(r: Ref)
    | Enqueue(queue: nat, op: Operation, waitList: seq<nat>)
    | Finish(queue: nat)
    | Wait(events: seq<nat>)

  // The client uses handles it holds, gives waiting commands to out-of-order queues only, waits for
  // events of the same queue and stays inside its buffers.
  predicate EntitledTo(h: Heap, handles: multiset<Ref>, call: Call) {
    match call
    case CreateContext => true
    case CreateCommandQueue(context, _) => handles[ContextRef(context)] > 0
    case CreateBuffer(context, size, _, hostPtr) =>
      handles[ContextRef(context)] > 0 && (hostPtr.Some? ==> hostPtr.value + size <= |h.memory.host|)
    case Retain(r) => handles[r] > 0
    case Release(r) => handles[r] > 0
    case Enqueue(q, op, waitList) =>
      && handles[QueueRef(q)] > 0 && q < |h.queues|
      && Fits(op, h.memory) && (forall r :: r in OperationBuffers(op) ==> handles[r] > 0)
      && (!h.queues[q].outOfOrder ==> waitList == [])
      && (forall i :: 0 <= i < |waitList| ==>
                        && waitList[i] < |h.events| && handles[EventRef(waitList[i])] > 0
                        && h.events[waitList[i]].queue == q)
    case Finish(q) => handles[QueueRef(q)] > 0
    case Wait(events) => forall i :: 0 <= i < |events| ==> events[i] < |h.events| && handles[EventRef(events[i])] > 0
  }

  // The driver between two calls.
  datatype State = State(heap: Heap, hist: History)

  ghost predicate LosesIn(s: State, call: Call) {
    call.Wait? && DriverWait.Loses(s.heap, s.hist, call.events)
  }

  // Made in this state, the call ends the run.
  ghost predicate EndsRun(s: State, call: Call) {
    EntitledTo(s.heap, s.hist.held, call) && LosesIn(s, call)
  }

  // A client holds the handles it created or retained and has not released.
  class Client {
    const driver: Runtime
    var handles: multiset<Ref>

    ghost predicate Ready()
      reads this, driver
    {
      driver.Quiet() && driver.hist.held == handles
    }

    constructor (driver: Runtime)
      requires driver.Quiet()
      requires driver.hist.held == multiset{}
      ensures Ready() && this.driver == driver
    {
      this.driver := driver;
      handles := multiset{};
    }

    predicate Entitled(call: Call)
      reads this, driver
    {
      EntitledTo(driver.heap, handles, call)
    }

    // The call deletes a command that is being executed.
    ghost predicate Loses(call: Call)
      reads this, driver
    {
      LosesIn(State(driver.heap, driver.hist), call)
    }

    method Create(call: Call)
      requires Ready() && Entitled(call) && (call.CreateContext? || call.CreateCommandQueue? || call.CreateBuffer?)
      modifies this`handles, driver
      ensures Ready() && old(driver.hist).trace <= driver.hist.trace
    {
      hide Quiescent;
      match call {
        case CreateContext =>
          var x := driver.CreateContext();
          handles := handles + multiset{ContextRef(x)};
        case CreateCommandQueue(context, outOfOrder) =>
          var x := driver.CreateCommandQueue(context, outOfOrder);
          handles := handles + multiset{QueueRef(x)};
        case CreateBuffer(context, size, copyHostPtr, hostPtr) =>
          var x := driver.CreateBuffer(context, size, copyHostPtr, hostPtr);
          if x.Ok? {
            handles := handles + multiset{BufferRef(x.value)};
          }
      }
    }

    method GiveBack(r: Ref)
      requires Ready() && handles[r] > 0
      modifies this`handles, driver
      ensures Ready() && old(driver.hist).trace <= driver.hist.trace
    {
      hide Quiescent;
      hide Flushed;
      hide SameCore;
      ghost var h, g := driver.heap, driver.hist;
      driver.ReleaseHandle(r);
      handles := handles - multiset{r};
      if r.QueueRef? || (r.EventRef? && Count(h, r) == 1) {
        ghost var q := if r.QueueRef? then r.id else h.events[r.id].queue;
        FlushExtendsTrace(h, g, driver.heap, driver.hist, driver.globalMemorySize, q);
      }
    }

    method Submit(call: Call)
      requires Ready() && Entitled(call) && call.Enqueue?
      modifies this`handles, driver
      ensures Ready() && old(driver.hist).trace <= driver.hist.trace
    {
      hide Quiescent;
      hide Link;
      hide SameCore;
      var e := driver.EnqueueCommand(call.queue, call.op, call.waitList);
      handles := handles + multiset{EventRef(e)};
    }

    method Serve(call: Call) returns (lost: bool)
      requires Ready() && Entitled(call)
      modifies this`handles, driver
      ensures lost == old(Loses(call))
      ensures Distinct(driver.hist.trace)
      ensures !lost ==> Ready() && old(driver.hist).trace <= driver.hist.trace
    {
      lost := false;
      hide Quiescent;
      hide Drain;
      hide Executed;
      hide Replay;
      hide DriverWait.Loses;
      hide Link;
      hide Flushed;
      hide SameCore;
      ghost var h, g := driver.heap, driver.hist;
      match call {
        case CreateContext => Create(call);
        case CreateCommandQueue(_, _) => Create(call);
        case CreateBuffer(_, _, _, _) => Create(call);
        case Retain(r) =>
          driver.RetainHandle(r);
          handles := handles + multiset{r};
        case Release(r) =>
          GiveBack(r);
        case Enqueue(_, _, _) => Submit(call);
        case Finish(q) =>
          driver.Finish(q);
          FlushExtendsTrace(h, g, driver.heap, driver.hist, driver.globalMemorySize, q);
        case Wait(events) =>
          var outcome := driver.WaitForEvents(events);
          if outcome == LostCommand {
            return true;
          }
      }
      QuiescentInv(driver.heap, driver.hist, driver.globalMemorySize);
    }

    /**
      Any run: whatever a client asks for, as long as each call only uses handles it holds, the
      driver's counters stay exact, nothing is freed while referenced and no command runs twice. Calls
      the client is not entitled to make are not made. The run goes on until the first call, if any,
      that deletes a command while it is executed; `states` are those before each call.
    */
    method Run(calls: seq<Call>) returns (served: nat, ghost states: seq<State>)
      requires Ready()
      modifies this`handles, driver
      ensures served <= |calls| && |states| == served + 1
      ensures states[0] == State(old(driver.heap), old(driver.hist))
      ensures forall i :: 0 <= i < served ==> !EndsRun(states[i], calls[i])
      ensures served < |calls| ==> EndsRun(states[served], calls[served])
      ensures Distinct(driver.hist.trace)
      ensures served == |calls| ==>
                && Ready() && old(driver.hist).trace <= driver.hist.trace
                && states[served] == State(driver.heap, driver.hist)
                && Balanced(driver.heap, handles)
                && Accounted(driver.heap, driver.globalMemorySize)
    {
      hide Quiescent;
      hide EntitledTo;
      hide LosesIn;
      served := 0;
      states := [State(driver.heap, driver.hist)];
      QuiescentInv(driver.heap, driver.hist, driver.globalMemorySize);
      while served < |calls|
        invariant served <= |calls| && Ready() && old(driver.hist).trace <= driver.hist.trace
        invariant Distinct(driver.hist.trace)
        invariant |states| == served + 1 && states[served] == State(driver.heap, driver.hist)
        invariant states[0] == State(old(driver.heap), old(driver.hist))
        invariant forall i :: 0 <= i < served ==> !EndsRun(states[i], calls[i])
      {
        if Entitled(calls[served]) {
          var lost := Serve(calls[served]);
          if lost {
            return;
          }
        }
        states := states + [State(driver.heap, driver.hist)];
        served := served + 1;
      }
      QuiescentSays(driver.heap, driver.hist, driver.globalMemorySize);
    }
  }

  lemma QuiescentSays(h: Heap, g: History, size: nat)
    requires Quiescent(h, g, size)
    ensures Balanced(h, g.held) && Accounted(h, size)
  {
  }

  lemma FlushExtendsTrace(h: Heap, g: History, h': Heap, g': History, size: nat, q: nat)
    requires Quiescent(h, g, size) && Flushed(h, g, h', g', q)
    ensures g.trace <= g'.trace
  {
    hide Shape;
    hide Balanced;
    hide Drain;
    FlushOrder(h, g, size, h', g', q);
  }

  // ---------------------------------------------------------------- a wait that goes wrong

  // A fresh driver with a queue, a buffer of one byte, and one command on it that has run.
  ghost predicate RanFirst(h: Heap, g: History, queue: nat) {
    && queue < |h.queues| && h.queues[queue].outOfOrder && |h.buffers| == 1 && h.buffers[0].size == 1
    && |h.commands| == |h.events| == 1 && !h.commands[0].live && h.events[0].queue == queue
    && g.deps == [[]] && g.trace == [0]
    && g.held[QueueRef(queue)] > 0 && g.held[BufferRef(0)] > 0 && g.held[EventRef(0)] == 1
  }

  method RunFirst(driver: Runtime) returns (queue: nat)
    requires driver.Quiet() && driver.hist == History(multiset{}, [], [], []) && driver.globalMemorySize > 0
    requires driver.heap == Heap([], [], [], [], [], Memory([], driver.heap.memory.host), 0, driver.heap.clock)
    modifies driver
    ensures driver.Quiet() && RanFirst(driver.heap, driver.hist, queue)
  {
    hide Quiescent;
    hide Flushed;
    hide SameCore;
    hide Fits;
    var context := driver.CreateContext();
    queue := driver.CreateCommandQueue(context, true);
    var buffer := driver.CreateBuffer(context, 1, false, None);
    FillFits(driver.heap, driver.hist, driver.globalMemorySize);
    ghost var h0 := driver.heap;
    var first := driver.EnqueueCommand(queue, Fill(0, [0], 0, 1), []);
    LinkedCommand(h0, driver.heap, queue, Fill(0, [0], 0, 1), []);
    LinkedEvent(h0, driver.heap, queue, Fill(0, [0], 0, 1), []);
    ghost var h1, g1 := driver.heap, driver.hist;
    driver.Finish(queue);
    FirstHasRun(h1, g1, driver.heap, driver.hist, queue);
    FlushedKeepsSizes(h1, g1, driver.heap, driver.hist, queue, 0);
  }

  /**
    Two commands are enough: one has finished, the other waits for it, and the client has released the
    event between them. Waiting for the second deletes it while it is executed.
  */
  method WaitDeletesItsCommand(driver: Runtime) returns (outcome: WaitOutcome)
    requires driver.Quiet() && driver.hist == History(multiset{}, [], [], []) && driver.globalMemorySize > 0
    requires driver.heap == Heap([], [], [], [], [], Memory([], driver.heap.memory.host), 0, driver.heap.clock)
    modifies driver
    ensures outcome == LostCommand
  {
    hide Quiescent;
    hide Flushed;
    hide SameCore;
    hide Drain;
    hide Fits;
    hide Kept;
    hide DriverWait.Loses;
    var queue := RunFirst(driver);
    FillFits(driver.heap, driver.hist, driver.globalMemorySize);
    ghost var h0 := driver.heap;
    var second := driver.EnqueueCommand(queue, Fill(0, [0], 0, 1), [0]);
    LinkedCommand(h0, driver.heap, queue, Fill(0, [0], 0, 1), [0]);
    LinkedEvent(h0, driver.heap, queue, Fill(0, [0], 0, 1), [0]);
    ghost var h1 := driver.heap;
    StillWaitedFor(h1, driver.hist, driver.globalMemorySize, 1, 0);
    driver.ReleaseHandle(EventRef(0));
    SameCoreCommands(h1, driver.heap);
    OneWaiterLoses(driver.heap, driver.hist);
    outcome := driver.WaitForEvents([second]);
  }

  lemma LinkedEvent(h: Heap, h': Heap, q: nat, op: Operation, waitList: seq<nat>)
    requires q < |h.queues| && |h.commands| == |h.events| && SameCore(Link(h, q, op, waitList, h'.clock), h')
    ensures |h'.events| == |h.events| + 1 && h'.events[|h.events|].queue == q
    ensures |h'.buffers| == |h.buffers| && forall b :: 0 <= b < |h.buffers| ==> h'.buffers[b].size == h.buffers[b].size
  {
    assert SameEvent(Link(h, q, op, waitList, h'.clock).events[|h.events|], h'.events[|h.events|]);
  }

  lemma FillFits(h: Heap, g: History, size: nat)
    requires Quiescent(h, g, size) && |h.buffers| == 1 && h.buffers[0].size == 1
    ensures Fits(Fill(0, [0], 0, 1), h.memory) && |h.commands| == |h.events|
  {
    hide Balanced;
  }

  lemma FlushedKeepsSizes(h: Heap, g: History, h': Heap, g': History, q: nat, b: nat)
    requires Flushed(h, g, h', g', q) && b < |h.buffers|
    ensures |h'.buffers| == |h.buffers| && h'.buffers[b].size == h.buffers[b].size
    ensures |h'.queues| == |h.queues| && h'.queues[q].outOfOrder == h.queues[q].outOfOrder
  {
    hide Drain;
    hide Replay;
    assert SameQueue(h.queues[q].(deque := []), h'.queues[q]);
  }

  lemma FirstHasRun(h: Heap, g: History, h': Heap, g': History, q: nat)
    requires Flushed(h, g, h', g', q) && g.deps == [[]] && g.trace == []
    requires q < |h.queues| && h.queues[q].outOfOrder && h.queues[q].deque == [0]
    requires |h.commands| == 1 && h.commands[0].queue == q && h.commands[0].live
    requires |h.events| == 1 && h.events[0].queue == q
    ensures g'.trace == [0] && g'.deps == [[]]
    ensures |h'.commands| == |h'.events| == 1 && !h'.commands[0].live && h'.events[0].queue == q
  {
    hide Replay;
    assert FlushedCommand(h, h', q, 0);
    assert Visit(g.deps, 0, []) == VisitAll(g.deps, 0, [], []) + [0];
    assert Drain(g.deps, true, [0], []) == Drain(g.deps, true, [], Visit(g.deps, 0, []));
  }

  // An event in a wait list has a reference besides the client's.
  lemma {:induction false} StillWaitedFor(h: Heap, g: History, size: nat, k: nat, x: nat)
    requires Quiescent(h, g, size) && k < |h.commands| && h.commands[k].live && x in h.commands[k].waitList
    ensures Count(h, EventRef(x)) > g.held[EventRef(x)]
  {
    hide Shape;
    var r := EventRef(x);
    RefersToEvent(h.commands[k], x);
    EventRefsAreCommands(h, x);
    SumUpdate(h.commands, k, h.commands[k], CommandRefs(r));
    assert Count(h, r) == g.held[r] + Refs(h, r);
  }

  lemma SameCoreCommands(h: Heap, h': Heap)
    requires SameCore(h, h')
    ensures h'.commands == h.commands && |h'.events| == |h.events|
  {
  }

  // ---------------------------------------------------------------- the range check of read and write

  // `offset + size > buffer->size` on 64-bit size_t, and the test for a null pointer or size.
  predicate RangeAccepted(ptr: Option<nat>, offset: nat, size: nat, bufferSize: nat) {
    ptr.Some? && size != 0 && (offset + size) % SIZE_T_RANGE <= bufferSize
  }

  /**
    For every buffer, the check accepts a range exactly if it is inside, if and only if the sum does
    not wrap around 64 bits or what is left of it still exceeds the buffer.
  */
  lemma {:induction false} RangeCheckIsExact(ptr: nat, offset: nat, size: nat, bufferSize: nat)
    requires 0 < size < SIZE_T_RANGE && offset < SIZE_T_RANGE && bufferSize < SIZE_T_RANGE
    ensures (RangeAccepted(Some(ptr), offset, size, bufferSize) <==> offset + size <= bufferSize)
            <==> offset + size < SIZE_T_RANGE || offset + size - SIZE_T_RANGE > bufferSize
  {
    Wrapped(offset, size);
  }

  lemma Wrapped(a: nat, b: nat)
    requires a < SIZE_T_RANGE && b < SIZE_T_RANGE
    ensures (a + b) % SIZE_T_RANGE == if a + b < SIZE_T_RANGE then a + b else a + b - SIZE_T_RANGE
  {
  }

  // Two bytes from the last address on are taken to be inside a buffer of four.
  lemma RangeCheckAcceptsWrapped(ptr: nat)
    ensures RangeAccepted(Some(ptr), SIZE_T_RANGE - 1, 2, 4) && !(SIZE_T_RANGE - 1 + 2 <= 4)
  {
    Wrapped(SIZE_T_RANGE - 1, 2);
  }

  ghost predicate HasDeque(h: Heap, q: nat, deque: seq<nat>) {
    q < |h.queues| && h.queues[q].deque == deque
  }

  ghost predicate IsOn(h: Heap, c: nat, q: nat) {
    c < |h.commands| && h.commands[c].queue == q
  }

  // CHECK_BUFFER_PARAMETERS, for any pointer and range.
  method CheckBufferParameters(ptr: Option<nat>, offset: nat, size: nat, bufferSize: nat) returns (ok: bool)
    ensures ok == RangeAccepted(ptr, offset, size, bufferSize)
    ensures offset + size < SIZE_T_RANGE ==> (ok <==> ptr.Some? && size > 0 && offset + size <= bufferSize)
  {
    if ptr.None? || size == 0 {
      return false;
    }
    if (offset + size) % SIZE_T_RANGE > bufferSize {
      return false;
    }
    return true;
  }

  // clEnqueueReadBuffer and clEnqueueWriteBuffer; `write` chooses the direction.
  method EnqueueTransfer(driver: Runtime, write: bool, q: nat, buffer: nat, blocking: bool, offset: nat, size: nat,
                         ptr: Option<nat>, waitList: seq<nat>)
    returns (event: Result<nat>)
    requires driver.Quiet() && driver.hist.held[QueueRef(q)] > 0 && driver.hist.held[BufferRef(buffer)] > 0
    requires offset + size < SIZE_T_RANGE
    requires ptr.Some? ==> ptr.value + size <= |driver.heap.memory.host|
    requires forall i :: 0 <= i < |waitList| ==>
                           && waitList[i] < |driver.heap.events| && driver.hist.held[EventRef(waitList[i])] > 0
                           && driver.heap.events[waitList[i]].queue == q
    requires q < |driver.heap.queues| && (!driver.heap.queues[q].outOfOrder ==> waitList == [])
    requires buffer < |driver.heap.buffers|
    modifies driver
    ensures driver.Quiet()
    ensures event.Ok? <==> ptr.Some? && size > 0 && offset + size <= old(driver.heap).buffers[buffer].size
    ensures event.Error? ==> event.code == InvalidValue
    ensures event.Error? ==> driver.heap == old(driver.heap) && driver.hist == old(driver.hist)
    // The command is the last one of its queue; a blocking call flushes the queue, any other runs nothing.
    ensures event.Ok? ==>
              && event.value == |old(driver.heap).commands| && IsOn(driver.heap, event.value, q)
    ensures event.Ok? && !blocking ==>
              && HasDeque(driver.heap, q, old(driver.heap).queues[q].deque + [event.value])
              && driver.hist.trace == old(driver.hist).trace && driver.heap.memory == old(driver.heap).memory
    ensures event.Ok? && blocking ==> HasDeque(driver.heap, q, [])
    ensures event.Ok? ==>
              && driver.hist.held == old(driver.hist).held + multiset{EventRef(event.value)}
              && driver.hist.deps == old(driver.hist).deps + [waitList]
              && driver.hist.ops == old(driver.hist).ops
                                    + [if write then Write(buffer, offset, size, ptr.value) else Read(buffer, offset, size, ptr.value)]
    ensures event.Ok? && blocking ==> IsComplete(driver.heap, event.value)
  {
    hide Balanced;
    hide Settled;
    hide Accounted;
    hide Sum;
    hide Flushed;
    var ok := CheckBufferParameters(ptr, offset, size, driver.heap.buffers[buffer].size);
    if !ok {
      return Error(InvalidValue);
    }
    var op := if write then Write(buffer, offset, size, ptr.value) else Read(buffer, offset, size, ptr.value);
    ghost var before := driver.heap;
    var e := driver.EnqueueCommand(q, op, waitList);
    event := Ok(e);
    if blocking {
      ghost var h := driver.heap;
      LinkedCommand(before, h, q, op, waitList);
      ghost var g := driver.hist;
      driver.Finish(q);
      FlushedOne(h, g, driver.heap, driver.hist, q, e);
    }
  }

  lemma {:induction false} LinkedCommand(h: Heap, h': Heap, q: nat, op: Operation, waitList: seq<nat>)
    requires q < |h.queues| && |h.commands| == |h.events| && SameCore(Link(h, q, op, waitList, h'.clock), h')
    ensures h'.commands == h.commands + [Command(q, |h.commands|, op, waitList, true)] && h'.memory == h.memory
    ensures q < |h'.queues| && h'.queues[q].outOfOrder == h.queues[q].outOfOrder
    ensures h'.queues[q].deque == h.queues[q].deque + [|h.commands|]
  {
    assert SameQueue(Link(h, q, op, waitList, h'.clock).queues[q], h'.queues[q]);
  }

  lemma FlushedOne(h: Heap, g: History, h': Heap, g': History, q: nat, k: nat)
    requires Flushed(h, g, h', g', q) && k < |h.commands| && h.commands[k].queue == q && h.commands[k].live
    ensures IsComplete(h', k) && g'.deps == g.deps && g'.ops == g.ops
    ensures |h'.commands| == |h.commands| && h'.commands[k].queue == q
    ensures q < |h'.queues| == |h.queues| && h'.queues[q].deque == []
  {
    hide Drain;
    hide Replay;
    assert FlushedCommand(h, h', q, k);
    assert SameQueue(h.queues[q].(deque := []), h'.queues[q]);
  }

  // ---------------------------------------------------------------- in-order queues

  // A client of one in-order queue enqueues an operation or flushes.
  datatype Step = Issue(op: Operation) | FlushNow

  function Issued(script: seq<Step>): seq<Operation> {
    if script == [] then []
    else
      var rest, last := script[..|script| - 1], script[|script| - 1];
      if last.Issue? then Issued(rest) + [last.op] else Issued(rest)
  }

  ghost predicate Playable(driver: Runtime, script: seq<Step>)
    reads driver
  {
    forall i :: 0 <= i < |script| && script[i].Issue? ==>
                  && Fits(script[i].op, driver.heap.memory)
                  && forall r :: r in OperationBuffers(script[i].op) ==> driver.hist.held[r] > 0
  }

  // Between two calls `issued` operations have been enqueued since the start and n of them have run.
  ghost predicate InOrderState(h0: Heap, g0: History, h: Heap, g: History, q: nat, issued: seq<Operation>, n: nat) {
    && n <= |issued| && AllFit(issued, h0.memory) && Below(g0.trace, |g0.ops|)
    && q < |h.queues| && !h.queues[q].outOfOrder && |h.commands| == |g.ops| == |g0.ops| + |issued|
    && g.ops == g0.ops + issued
    && h.queues[q].deque == seq(|issued| - n, i requires 0 <= i < |issued| - n => |g0.ops| + n + i)
    && g.trace == g0.trace + seq(n, i requires 0 <= i < n => |g0.ops| + i)
    && h.memory == ApplyAll(issued[..n], h0.memory)
  }

  lemma {:induction false} InOrderIssue(h0: Heap, g0: History, h: Heap, g: History, h': Heap, g': History, q: nat,
                                        issued: seq<Operation>, n: nat, op: Operation, held: multiset<Ref>)
    requires InOrderState(h0, g0, h, g, q, issued, n) && Fits(op, h0.memory)
    requires |h.commands| == |h.events| && SameCore(Link(h, q, op, [], h'.clock), h')
    requires g' == LinkHistory(g, op, [], held)
    ensures InOrderState(h0, g0, h', g', q, issued + [op], n)
  {
    hide ApplyAll;
    LinkedCommand(h, h', q, op, []);
    assert (issued + [op])[..n] == issued[..n];
    assert g0.ops + (issued + [op]) == g0.ops + issued + [op];
  }

  lemma {:induction false} InOrderFlush(h0: Heap, g0: History, h: Heap, g: History, h': Heap, g': History, size: nat,
                                        q: nat, issued: seq<Operation>, n: nat)
    requires InOrderState(h0, g0, h, g, q, issued, n) && Quiescent(h, g, size) && Flushed(h, g, h', g', q)
    ensures InOrderState(h0, g0, h', g', q, issued, |issued|)
  {
    hide Quiescent;
    hide Flushed;
    hide Unrun;
    hide ApplyAll;
    hide Fits;
    var deque, m := h.queues[q].deque, |g0.ops|;
    NothingRunYet(g0.trace, m, n, |issued| - n, g.trace);
    FlushedShape(h, g, h', g', q);
    WholeDequeRuns(h, g, size, h', g', q);
    assert OperationsOf(g.ops, deque) == issued[n..];
    assert issued[..n] + issued[n..] == issued[..|issued|] == issued;
    ApplyAllConcat(issued[..n], issued[n..], h0.memory);
    assert g'.trace == g0.trace + seq(|issued|, i requires 0 <= i < |issued| => m + i);
  }

  lemma WholeDequeRuns(h: Heap, g: History, size: nat, h': Heap, g': History, q: nat)
    requires Quiescent(h, g, size) && Flushed(h, g, h', g', q) && !h.queues[q].outOfOrder
    requires Unrun(h.queues[q].deque, g.trace) == h.queues[q].deque
    ensures var deque := h.queues[q].deque;
            && g'.trace == g.trace + deque
            && Below(deque, |g.ops|) && AllFit(OperationsOf(g.ops, deque), h.memory)
            && h'.memory == ApplyAll(OperationsOf(g.ops, deque), h.memory)
  {
    hide Balanced;
    hide Shape;
    hide Accounted;
    hide Drain;
    hide Replay;
    hide Unrun;
    hide Settled;
    hide Ordered;
    FlushRunsDequeOnce(h, g, size, h', g', q);
    assert g'.trace == g.trace + g'.trace[|g.trace|..];
  }

  // The commands from m + n on have not run when those before have.
  lemma NothingRunYet(trace0: seq<nat>, m: nat, n: nat, left: nat, trace: seq<nat>)
    requires Below(trace0, m) && trace == trace0 + seq(n, i requires 0 <= i < n => m + i)
    ensures var deque := seq(left, i requires 0 <= i < left => m + n + i); Unrun(deque, trace) == deque
  {
    UnrunAll(seq(left, i requires 0 <= i < left => m + n + i), trace);
  }

  lemma FlushedShape(h: Heap, g: History, h': Heap, g': History, q: nat)
    requires Flushed(h, g, h', g', q)
    ensures q < |h.queues| == |h'.queues| && SameQueue(h.queues[q].(deque := []), h'.queues[q])
    ensures |h'.commands| == |h.commands| && g'.ops == g.ops
  {
    hide Drain;
    hide Replay;
  }

  /**
    An in-order queue refines immediate execution: whenever the client flushes, and finally, buffers
    and host memory are what applying each operation when it was enqueued would have given, and each
    command has run once, in the order of the calls.
  */
  method RunInOrder(driver: Runtime, q: nat, script: seq<Step>)
    requires driver.Quiet() && driver.hist.held[QueueRef(q)] > 0 && Playable(driver, script)
    requires q < |driver.heap.queues| && !driver.heap.queues[q].outOfOrder && driver.heap.queues[q].deque == []
    requires |driver.heap.commands| == |driver.hist.ops|
    modifies driver
    ensures driver.Quiet()
    ensures var ops := Issued(script);
            && AllFit(ops, old(driver.heap).memory)
            && driver.heap.memory == ApplyAll(ops, old(driver.heap).memory)
            && driver.hist.trace
               == old(driver.hist).trace + seq(|ops|, i requires 0 <= i < |ops| => |old(driver.heap).commands| + i)
  {
    hide Quiescent;
    hide SameCore;
    hide Flushed;
    hide ApplyAll;
    hide Fits;
    hide InOrderState;
    ghost var h0, g0 := driver.heap, driver.hist;
    ghost var n: nat := 0;
    TraceBelow(h0, g0, driver.globalMemorySize);
    InOrderInit(h0, g0, q);
    for k := 0 to |script|
      invariant driver.Quiet() && n <= |Issued(script[..k])| && g0.held <= driver.hist.held
      invariant InOrderState(h0, g0, driver.heap, driver.hist, q, Issued(script[..k]), n)
    {
      ghost var h, g, issued := driver.heap, driver.hist, Issued(script[..k]);
      assert script[..k + 1][..k] == script[..k];
      match script[k] {
        case Issue(op) =>
          InOrderReady(h0, g0, h, g, driver.globalMemorySize, q, issued, n, op);
          var e := driver.EnqueueCommand(q, op, []);
          InOrderIssue(h0, g0, h, g, driver.heap, driver.hist, q, issued, n, op, driver.hist.held);
        case FlushNow =>
          driver.Finish(q);
          InOrderFlush(h0, g0, h, g, driver.heap, driver.hist, driver.globalMemorySize, q, issued, n);
          n := |issued|;
      }
    }
    ghost var h, g, issued := driver.heap, driver.hist, Issued(script);
    assert script[..|script|] == script;
    driver.Finish(q);
    InOrderFlush(h0, g0, h, g, driver.heap, driver.hist, driver.globalMemorySize, q, issued, n);
    InOrderDone(h0, g0, driver.heap, driver.hist, q, issued);
  }

  lemma {:induction false} IssuedConcat(a: seq<Step>, b: seq<Step>)
    ensures Issued(a + b) == Issued(a) + Issued(b)
  {
    if b == [] {
      assert a + b == a;
    } else {
      assert (a + b)[..|a + b| - 1] == a + b[..|b| - 1];
      IssuedConcat(a, b[..|b| - 1]);
    }
  }

  lemma IssuedOne(op: Operation)
    ensures Issued([Issue(op)]) == [op]
  {
    assert [Issue(op)][..0] == [];
  }

  // Every operation of a script that spares a range spares it.
  ghost predicate ScriptSparesBuffer(script: seq<Step>, b: nat, offset: nat, size: nat) {
    forall i :: 0 <= i < |script| && script[i].Issue? ==> SparesBuffer(script[i].op, b, offset, size)
  }

  ghost predicate ScriptSparesHost(script: seq<Step>, ptr: nat, size: nat) {
    forall i :: 0 <= i < |script| && script[i].Issue? ==> SparesHost(script[i].op, ptr, size)
  }

  lemma {:induction false} IssuedSpares(script: seq<Step>, b: nat, offset: nat, size: nat, ptr: nat)
    ensures ScriptSparesBuffer(script, b, offset, size) ==>
              forall i :: 0 <= i < |Issued(script)| ==> SparesBuffer(Issued(script)[i], b, offset, size)
    ensures ScriptSparesHost(script, ptr, size) ==>
              forall i :: 0 <= i < |Issued(script)| ==> SparesHost(Issued(script)[i], ptr, size)
  {
    hide SparesBuffer;
    hide SparesHost;
    if script != [] {
      IssuedSpares(script[..|script| - 1], b, offset, size, ptr);
    }
  }

  /**
    What a client writes to a buffer it reads back: on an in-order queue, whenever it flushes and whatever
    else it enqueues that spares the bytes written and then the bytes read, host memory in the end holds
    at `to` what it held at `from` in the beginning.
  */
  method WriteThenRead(driver: Runtime, q: nat, b: nat, offset: nat, size: nat, from: nat, to: nat,
                       between: seq<Step>, after: seq<Step>)
    requires driver.Quiet() && driver.hist.held[QueueRef(q)] > 0
    requires Playable(driver, [Issue(Write(b, offset, size, from))] + between + [Issue(Read(b, offset, size, to))] + after)
    requires q < |driver.heap.queues| && !driver.heap.queues[q].outOfOrder && driver.heap.queues[q].deque == []
    requires |driver.heap.commands| == |driver.hist.ops|
    requires ScriptSparesBuffer(between, b, offset, size) && ScriptSparesHost(after, to, size)
    modifies driver
    ensures driver.Quiet()
    ensures from + size <= |old(driver.heap).memory.host| && to + size <= |driver.heap.memory.host|
    ensures driver.heap.memory.host[to..to + size] == old(driver.heap).memory.host[from..from + size]
  {
    hide *;
    ghost var m := driver.heap.memory;
    var w, r := Write(b, offset, size, from), Read(b, offset, size, to);
    var script := [Issue(w)] + between + [Issue(r)] + after;
    RunInOrder(driver, q, script);
    IssuedConcat([Issue(w)] + between + [Issue(r)], after);
    IssuedConcat([Issue(w)] + between, [Issue(r)]);
    IssuedConcat([Issue(w)], between);
    IssuedOne(w);
    IssuedOne(r);
    IssuedSpares(between, b, offset, size, to);
    IssuedSpares(after, b, offset, size, to);
    InFourParts(w, Issued(between), r, Issued(after), m);
    FourFit(w, Issued(between), r, Issued(after), m);
    ReadGivesWritten(Issued(between), Issued(after), m, b, offset, size, from, to);
    HostLength(Issued(script), m);
  }

  lemma FourFit(w: Operation, between: seq<Operation>, r: Operation, after: seq<Operation>, m: Memory)
    requires AllFit([w] + between + [r] + after, m)
    ensures Fits(w, m) && AllFit(between, m) && Fits(r, m) && AllFit(after, m)
  {
    hide Fits;
    var ops := [w] + between + [r] + after;
    assert ops[0] == w && ops[|between| + 1] == r;
    assert forall i :: 0 <= i < |between| ==> between[i] == ops[i + 1];
    assert forall i :: 0 <= i < |after| ==> after[i] == ops[|between| + 2 + i];
  }

  lemma HostLength(ops: seq<Operation>, m: Memory)
    requires AllFit(ops, m)
    ensures |ApplyAll(ops, m).host| == |m.host|
  {
  }

  lemma TraceBelow(h: Heap, g: History, size: nat)
    requires Quiescent(h, g, size)
    ensures Below(g.trace, |g.ops|)
  {
    hide Balanced;
  }

  lemma InOrderInit(h: Heap, g: History, q: nat)
    requires q < |h.queues| && !h.queues[q].outOfOrder && h.queues[q].deque == [] && |h.commands| == |g.ops|
    requires Below(g.trace, |g.ops|)
    ensures InOrderState(h, g, h, g, q, [], 0)
  {
    assert g.ops + [] == g.ops;
    assert g.trace + [] == g.trace;
  }

  lemma {:induction false} InOrderReady(h0: Heap, g0: History, h: Heap, g: History, size: nat, q: nat,
                                        issued: seq<Operation>, n: nat, op: Operation)
    requires InOrderState(h0, g0, h, g, q, issued, n) && Quiescent(h, g, size) && Fits(op, h0.memory)
    requires g0.held <= g.held && g0.held[QueueRef(q)] > 0 && forall r :: r in OperationBuffers(op) ==> g0.held[r] > 0
    ensures Fits(op, h.memory) && q < |h.queues| && !h.queues[q].outOfOrder && g.held[QueueRef(q)] > 0
    ensures forall r :: r in OperationBuffers(op) ==> g.held[r] > 0
    ensures |h.commands| == |h.events|
  {
    hide Balanced;
    hide Accounted;
    assert AllFit(issued[..n], h0.memory);
  }

  lemma InOrderDone(h0: Heap, g0: History, h: Heap, g: History, q: nat, issued: seq<Operation>)
    requires InOrderState(h0, g0, h, g, q, issued, |issued|)
    ensures AllFit(issued, h0.memory) && h.memory == ApplyAll(issued, h0.memory)
    ensures g.trace == g0.trace + seq(|issued|, i requires 0 <= i < |issued| => |g0.ops| + i)
  {
    assert issued[..|issued|] == issued;
  }
}
