/**
  Creating objects, and linking a new command, its event and its queue.
*/
module DriverAlloc {
  import opened Wrappers
  import opened BufferCommands
  import opened DrainOrder
  import opened DriverHeap
  import opened DriverInvariant
  import opened DriverSteps

  function NewContext(h: Heap): Heap {
    h.(contexts := h.contexts + [Context(1, true)])
  }

  function NewQueue(h: Heap, context: nat, outOfOrder: bool): Heap {
    h.(queues := h.queues + [Queue(context, outOfOrder, [], false, 1, true)])
  }

  function NewBuffer(h: Heap, context: nat, bytes: seq<Byte>): Heap {
    h.(buffers := h.buffers + [Buffer(context, |bytes|, 1, true)],
       memory := h.memory.(buffers := h.memory.buffers + [bytes]),
       usedGlobalMemory := h.usedGlobalMemory + |bytes|)
  }

  // A new object starts with one reference, its creator's. What its constructor retained is handed over.
  lemma {:induction false} NewContextBalanced(h: Heap, held: multiset<Ref>)
    requires Balanced(h, held)
    ensures Balanced(NewContext(h), held + multiset{ContextRef(|h.contexts|)})
  {
    var h', held' := NewContext(h), held + multiset{ContextRef(|h.contexts|)};
    hide Sum;
    forall r ensures Count(h', r) == held'[r] + Refs(h', r) && (Live(h', r) <==> Count(h', r) > 0) {
      assert Count(h, r) == held[r] + Refs(h, r);
      assert Live(h, r) <==> Count(h, r) > 0;
    }
  }

  lemma {:induction false} NewContextShape(h: Heap, g: History, held: multiset<Ref>)
    requires Shape(h, g)
    ensures Shape(NewContext(h), g.(held := held))
  {
    var h', g' := NewContext(h), g.(held := held);
    forall k | 0 <= k < |h'.commands| ensures CommandOk(h', g', k) {
      assert CommandOk(h, g, k) && TimesOk(h, g, k);
    }
    forall q | 0 <= q < |h'.queues| ensures QueueOk(h', q) {
      assert QueueOk(h, q);
    }
  }

  lemma {:induction false} NewContextInv(h: Heap, g: History, size: nat)
    requires Inv(h, g, size)
    ensures Inv(NewContext(h), g.(held := g.held + multiset{ContextRef(|h.contexts|)}), size)
  {
    hide Balanced;
    hide Shape;
    hide Sum;
    NewContextBalanced(h, g.held);
    NewContextShape(h, g, g.held + multiset{ContextRef(|h.contexts|)});
  }

  lemma {:induction false} NewQueueCounts(h: Heap, context: nat, outOfOrder: bool, r: Ref)
    ensures var h', r' := NewQueue(h, context, outOfOrder), QueueRef(|h.queues|);
            && Count(h', r) == (if r == r' then 1 else Count(h, r))
            && (Live(h', r) <==> r == r' || Live(h, r))
            && Refs(h', r) == Refs(h, r) + if r == ContextRef(context) then 1 else 0
  {
    hide Sum;
    hide CommandRefs;
    hide EventRefs;
    hide BufferRefs;
    SumAppend(h.queues, NewQueue(h, context, outOfOrder).queues[|h.queues|], QueueRefs(r));
  }

  lemma {:induction false} NewQueueBalanced(h: Heap, held: multiset<Ref>, context: nat, outOfOrder: bool)
    requires Balanced(h, held) && held[ContextRef(context)] > 0
    ensures Balanced(NewQueue(h, context, outOfOrder),
                     held - multiset{ContextRef(context)} + multiset{QueueRef(|h.queues|)})
  {
    var h', r' := NewQueue(h, context, outOfOrder), QueueRef(|h.queues|);
    var held' := held - multiset{ContextRef(context)} + multiset{r'};
    assert Count(h, r') == 0 && held[r'] + Refs(h, r') == 0;
    hide Refs;
    hide Count;
    hide Live;
    hide NewQueue;
    forall r ensures Count(h', r) == held'[r] + Refs(h', r) && (Live(h', r) <==> Count(h', r) > 0) {
      NewQueueCounts(h, context, outOfOrder, r);
      assert Count(h, r) == held[r] + Refs(h, r);
      assert Live(h, r) <==> Count(h, r) > 0;
    }
  }

  lemma {:induction false} NewQueueShape(h: Heap, g: History, context: nat, outOfOrder: bool, held: multiset<Ref>)
    requires Shape(h, g)
    ensures Shape(NewQueue(h, context, outOfOrder), g.(held := held))
  {
    var h', g' := NewQueue(h, context, outOfOrder), g.(held := held);
    forall k | 0 <= k < |h'.commands| ensures CommandOk(h', g', k) {
      assert CommandOk(h, g, k) && TimesOk(h, g, k);
    }
    forall q | 0 <= q < |h'.queues| ensures QueueOk(h', q) {
      if q < |h.queues| {
        assert QueueOk(h, q);
      } else {
        forall k | 0 <= k < |h.commands| ensures h.commands[k].queue != q {
          assert CommandOk(h, g, k);
        }
      }
    }
  }

  lemma {:induction false} NewBufferCounts(h: Heap, context: nat, bytes: seq<Byte>, r: Ref)
    ensures var h', r' := NewBuffer(h, context, bytes), BufferRef(|h.buffers|);
            && Count(h', r) == (if r == r' then 1 else Count(h, r))
            && (Live(h', r) <==> r == r' || Live(h, r))
            && Refs(h', r) == Refs(h, r) + if r == ContextRef(context) then 1 else 0
  {
    hide Sum;
    hide CommandRefs;
    hide EventRefs;
    hide QueueRefs;
    SumAppend(h.buffers, NewBuffer(h, context, bytes).buffers[|h.buffers|], BufferRefs(r));
  }

  lemma {:induction false} NewBufferBalanced(h: Heap, held: multiset<Ref>, context: nat, bytes: seq<Byte>)
    requires Balanced(h, held) && held[ContextRef(context)] > 0
    ensures Balanced(NewBuffer(h, context, bytes),
                     held - multiset{ContextRef(context)} + multiset{BufferRef(|h.buffers|)})
  {
    var h', r' := NewBuffer(h, context, bytes), BufferRef(|h.buffers|);
    var held' := held - multiset{ContextRef(context)} + multiset{r'};
    assert Count(h, r') == 0 && held[r'] + Refs(h, r') == 0;
    hide Refs;
    hide Count;
    hide Live;
    hide NewBuffer;
    forall r ensures Count(h', r) == held'[r] + Refs(h', r) && (Live(h', r) <==> Count(h', r) > 0) {
      NewBufferCounts(h, context, bytes, r);
      assert Count(h, r) == held[r] + Refs(h, r);
      assert Live(h, r) <==> Count(h, r) > 0;
    }
  }

  lemma {:induction false} NewBufferShape(h: Heap, g: History, context: nat, bytes: seq<Byte>, held: multiset<Ref>)
    requires Shape(h, g)
    ensures Shape(NewBuffer(h, context, bytes), g.(held := held))
  {
    var h', g' := NewBuffer(h, context, bytes), g.(held := held);
    forall k | 0 <= k < |h'.commands| ensures CommandOk(h', g', k) {
      assert CommandOk(h, g, k) && TimesOk(h, g, k);
      assert h.commands[k].live ==> Fits(h.commands[k].op, h.memory);
    }
    forall q | 0 <= q < |h'.queues| ensures QueueOk(h', q) {
      assert QueueOk(h, q);
    }
  }

  // ---------------------------------------------------------------- enqueueCommand

  // What the constructors and addEventsToWaitList have retained before the command is linked.
  function LinkRefs(h: Heap, q: nat, op: Operation, waitList: seq<nat>): multiset<Ref>
    requires q < |h.queues|
  {
    OperationBuffers(op) + multiset{QueueRef(q), QueueRef(q), ContextRef(h.queues[q].context)} + WaitRefs(waitList)
  }

  // The command and its event point to each other and the queue's deque ends with the command. The
  // event has two references: the command's and the creator's.
  function Link(h: Heap, q: nat, op: Operation, waitList: seq<nat>, now: nat): Heap
    requires q < |h.queues|
  {
    var k := |h.commands|;
    var u := h.queues[q];
    h.(commands := h.commands + [Command(q, k, op, waitList, true)],
       events := h.events + [Event(u.context, q, Some(k), Queued, now, 0, 0, 0, 2, true)],
       queues := h.queues[q := u.(deque := u.deque + [k])],
       clock := now)
  }

  function LinkHistory(g: History, op: Operation, waitList: seq<nat>, held: multiset<Ref>): History {
    History(held, g.deps + [waitList], g.ops + [op], g.trace)
  }

  // LinkRefs without its precondition, for contracts.
  function LinkRefs'(h: Heap, q: nat, op: Operation, waitList: seq<nat>): multiset<Ref> {
    if q < |h.queues| then LinkRefs(h, q, op, waitList) else multiset{}
  }

  // The new command and the new event hold what was retained for them, and the command one reference
  // to its own event.
  lemma {:induction false} LinkOwes(h: Heap, q: nat, op: Operation, waitList: seq<nat>, now: nat, r: Ref)
    requires q < |h.queues| && |h.commands| == |h.events|
    ensures var h1 := Link(h, q, op, waitList, now);
            CommandRefs(r)(h1.commands[|h.commands|]) + EventRefs(r)(h1.events[|h.events|])
            == LinkRefs'(h, q, op, waitList)[r] + if r == EventRef(|h.events|) then 1 else 0
  {
    hide OperationBuffers;
    hide WaitRefs;
  }

  lemma {:induction false} LinkCounts(h: Heap, q: nat, op: Operation, waitList: seq<nat>, now: nat, r: Ref)
    requires q < |h.queues| && |h.commands| == |h.events|
    ensures var h1 := Link(h, q, op, waitList, now);
            && Count(h1, r) == (if r == EventRef(|h.events|) then 2 else Count(h, r))
            && Live(h1, r) == (r == EventRef(|h.events|) || Live(h, r))
            && Refs(h1, r) == Refs(h, r) + CommandRefs(r)(h1.commands[|h.commands|]) + EventRefs(r)(h1.events[|h.events|])
  {
    hide Sum;
    var h1 := Link(h, q, op, waitList, now);
    SumAppend(h.commands, h1.commands[|h.commands|], CommandRefs(r));
    SumAppend(h.events, h1.events[|h.events|], EventRefs(r));
    SumUpdate(h.queues, q, h1.queues[q], QueueRefs(r));
    hide CommandRefs;
    hide EventRefs;
  }

  lemma {:induction false} LinkBalanced(h: Heap, held: multiset<Ref>, held': multiset<Ref>, q: nat, op: Operation,
                                        waitList: seq<nat>, now: nat)
    requires Balanced(h, held + LinkRefs'(h, q, op, waitList)) && q < |h.queues| && |h.commands| == |h.events|
    requires held' == held + multiset{EventRef(|h.events|)}
    ensures Balanced(Link(h, q, op, waitList, now), held')
  {
    hide CommandRefs;
    hide EventRefs;
    hide Refs;
    hide LinkRefs';
    hide Link;
    var h1 := Link(h, q, op, waitList, now);
    var before := held + LinkRefs'(h, q, op, waitList);
    forall r ensures Count(h1, r) == held'[r] + Refs(h1, r) && (Live(h1, r) <==> Count(h1, r) > 0) {
      LinkCounts(h, q, op, waitList, now, r);
      LinkOwes(h, q, op, waitList, now, r);
      assert Count(h, r) == before[r] + Refs(h, r);
      assert Live(h, r) <==> Count(h, r) > 0;
    }
  }

  lemma {:induction false} LinkShape(h: Heap, g: History, q: nat, op: Operation, waitList: seq<nat>, now: nat,
                                     held: multiset<Ref>)
    requires Shape(h, g) && q < |h.queues| && now >= h.clock && Fits(op, h.memory)
    requires forall i :: 0 <= i < |waitList| ==> waitList[i] < |h.events| && h.events[waitList[i]].queue == q
    requires !h.queues[q].outOfOrder ==> waitList == []
    ensures Shape(Link(h, q, op, waitList, now), LinkHistory(g, op, waitList, held))
    ensures Settled(h, g, |h.commands|) ==>
              Settled(Link(h, q, op, waitList, now), LinkHistory(g, op, waitList, held), |h.commands| + 1)
  {
    var h', g', n := Link(h, q, op, waitList, now), LinkHistory(g, op, waitList, held), |h.commands|;
    assert Below(waitList, n);
    forall k | 0 <= k < |h'.commands| ensures CommandOk(h', g', k) {
      if k < n {
        assert CommandOk(h, g, k) && TimesOk(h, g, k);
        assert Below(g.deps[k], k);
      }
    }
    assert n !in g.trace;
    forall p | 0 <= p < |h'.queues| ensures QueueOk(h', p) {
      assert QueueOk(h, p);
      assert n !in h.queues[p].deque;
    }
    forall k | 0 <= k < |h'.commands| ensures k in g'.trace <==> IsComplete(h', k) {
      if k < n {
        assert k in g.trace <==> IsComplete(h, k);
      }
    }
  }

  lemma LinkedAtEnd(h: Heap, q: nat, op: Operation, waitList: seq<nat>, now: nat)
    requires q < |h.queues| && |h.commands| == |h.events|
    ensures var h', k := Link(h, q, op, waitList, now), |h.commands|;
            && |h'.commands| == k + 1 == |h'.events| && h'.commands[k] == Command(q, k, op, waitList, true)
            && h'.events[k].status == Queued && h'.events[k].timeQueued == h'.clock
            && h'.events[k].command == Some(k) && h'.events[k].queue == q
            && |h'.queues| == |h.queues| && h'.queues[q].deque == h.queues[q].deque + [k] && h'.memory == h.memory
  {
  }

  lemma {:induction false} LinkSameCore(h: Heap, h': Heap, q: nat, op: Operation, waitList: seq<nat>, now: nat)
    requires SameCore(h, h') && q < |h.queues| && |h.commands| == |h.events|
    ensures SameCore(Link(h, q, op, waitList, now), Link(h', q, op, waitList, now))
    ensures h'.queues[q].context == h.queues[q].context && h'.queues[q].outOfOrder == h.queues[q].outOfOrder
  {
    var a, b := Link(h, q, op, waitList, now), Link(h', q, op, waitList, now);
    assert SameQueue(h.queues[q], h'.queues[q]);
    forall p | 0 <= p < |a.queues| ensures SameQueue(a.queues[p], b.queues[p]) {
      assert SameQueue(h.queues[p], h'.queues[p]);
    }
    forall e | 0 <= e < |a.events| ensures SameEvent(a.events[e], b.events[e]) {
      assert e < |h.events| ==> SameEvent(h.events[e], h'.events[e]);
    }
  }

  lemma {:induction false} LinkInv(h: Heap, g: History, size: nat, held: multiset<Ref>, q: nat, op: Operation,
                                   waitList: seq<nat>, now: nat)
    requires Inv(h, g, size) && q < |h.queues| && g.held == held + LinkRefs(h, q, op, waitList)
    requires now >= h.clock && Fits(op, h.memory) && Settled(h, g, |h.commands|)
    requires forall i :: 0 <= i < |waitList| ==> waitList[i] < |h.events| && h.events[waitList[i]].queue == q
    requires !h.queues[q].outOfOrder ==> waitList == []
    ensures var h' := Link(h, q, op, waitList, now);
            var g' := LinkHistory(g, op, waitList, held + multiset{EventRef(|h.events|)});
            Inv(h', g', size) && Settled(h', g', |h'.commands|)
  {
    hide Balanced;
    hide Settled;
    hide Sum;
    LinkShape(h, g, q, op, waitList, now, held + multiset{EventRef(|h.events|)});
    LinkBalanced(h, held, held + multiset{EventRef(|h.events|)}, q, op, waitList, now);
  }

  lemma {:induction false} QueueContextLive(h: Heap, held: multiset<Ref>, q: nat)
    requires Balanced(h, held) && Live(h, QueueRef(q))
    ensures Live(h, ContextRef(h.queues[q].context))
  {
    var r := ContextRef(h.queues[q].context);
    SumUpdate(h.queues, q, h.queues[q], QueueRefs(r));
    assert Count(h, r) > 0;
  }

  lemma NewBufferAccounting(h: Heap, context: nat, bytes: seq<Byte>)
    ensures Sum(NewBuffer(h, context, bytes).buffers, LiveSize()) == Sum(h.buffers, LiveSize()) + |bytes|
  {
    SumAppend(h.buffers, Buffer(context, |bytes|, 1, true), LiveSize());
  }

  lemma SameCoreQueue(h: Heap, h': Heap, q: nat)
    requires SameCore(h, h') && q < |h.queues|
    ensures q < |h'.queues| && SameQueue(h.queues[q], h'.queues[q])
  {
  }

  lemma QuiescentContextLive(h: Heap, g: History, size: nat, q: nat)
    requires Quiescent(h, g, size) && g.held[QueueRef(q)] > 0
    ensures q < |h.queues| && Live(h, ContextRef(h.queues[q].context))
  {
    hide Shape;
    HeldIsLive(h, g.held, QueueRef(q));
    QueueContextLive(h, g.held, q);
  }

  // Linking the retained objects ends the enqueue between calls.
  lemma {:induction false} LinkQuiescent(h: Heap, g: History, size: nat, held: multiset<Ref>, q: nat, op: Operation,
                                         waitList: seq<nat>, now: nat)
    requires Quiescent(h, g, size) && q < |h.queues| && g.held == held + LinkRefs(h, q, op, waitList)
    requires now >= h.clock && Fits(op, h.memory)
    requires forall i :: 0 <= i < |waitList| ==> waitList[i] < |h.events| && h.events[waitList[i]].queue == q
    requires !h.queues[q].outOfOrder ==> waitList == []
    ensures Quiescent(Link(h, q, op, waitList, now), LinkHistory(g, op, waitList, held + multiset{EventRef(|h.events|)}),
                      size)
  {
    LinkInv(h, g, size, held, q, op, waitList, now);
  }

  // What retaining leaves as it was for the link.
  lemma {:induction false} SameCoreLink(h: Heap, h': Heap, g: History, size: nat, q: nat, op: Operation,
                                        waitList: seq<nat>)
    requires Quiescent(h, g, size) && SameCore(h, h') && q < |h.queues|
    requires forall i :: 0 <= i < |waitList| ==> waitList[i] < |h.events| && h.events[waitList[i]].queue == q
    ensures |h.commands| == |h.events| == |h'.commands| == |h'.events| && h'.memory == h.memory
    ensures h'.clock == h.clock && q < |h'.queues| && h'.queues[q].outOfOrder == h.queues[q].outOfOrder
    ensures LinkRefs(h', q, op, waitList) == LinkRefs(h, q, op, waitList)
    ensures forall i :: 0 <= i < |waitList| ==> waitList[i] < |h'.events| && h'.events[waitList[i]].queue == q
  {
    assert SameQueue(h.queues[q], h'.queues[q]);
    forall i | 0 <= i < |waitList| ensures waitList[i] < |h'.events| && h'.events[waitList[i]].queue == q {
      assert SameEvent(h.events[waitList[i]], h'.events[waitList[i]]);
    }
  }
}
