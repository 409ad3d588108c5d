/**
  The elementary changes the driver calls make to the heap, each with the proof that it keeps the
  invariant.
*/
module DriverSteps {
  import opened Wrappers
  import opened BufferCommands
  import opened DrainOrder
  import opened DriverHeap
  import opened DriverInvariant

  // ---------------------------------------------------------------- releasing a counted object

  lemma {:induction false} DropFrame(h: Heap, held: multiset<Ref>, r: Ref)
    requires Live(h, r) && Count(h, r) > 0
    ensures SameCore(h, Drop(h, r)) && Drop(h, r).usedGlobalMemory == h.usedGlobalMemory
    ensures r.ContextRef? ==> Drop(h, r) == h.(contexts := Drop(h, r).contexts)
    ensures !r.BufferRef? ==> Drop(h, r).buffers == h.buffers
    ensures r.BufferRef? ==> Drop(h, r) == h.(buffers := Drop(h, r).buffers)
    ensures r.ContextRef? ==> HeldAfterDrop(h, held, r) == held - multiset{r}
    ensures Live(Drop(h, r), r) <==> Count(h, r) > 1
  {
    hide Sum;
  }

  lemma {:induction false} DropInv(h: Heap, g: History, size: nat, r: Ref)
    requires Inv(h, g, size) && g.held[r] > 0 && !r.BufferRef?
    ensures Live(h, r) && Count(h, r) > 0
    ensures Inv(Drop(h, r), g.(held := HeldAfterDrop(h, g.held, r)), size)
    ensures Settled(h, g, |h.commands|) ==> Settled(Drop(h, r), g.(held := HeldAfterDrop(h, g.held, r)), |h.commands|)
    ensures SameCore(h, Drop(h, r)) && Drop(h, r).buffers == h.buffers
    ensures Drop(h, r).usedGlobalMemory == h.usedGlobalMemory
  {
    hide Balanced;
    hide Shape;
    hide Settled;
    hide Drop;
    hide HeldAfterDrop;
    hide Sum;
    DropBalanced(h, g.held, r);
    DropFrame(h, g.held, r);
    SameCoreShape(h, Drop(h, r), g, g.(held := HeldAfterDrop(h, g.held, r)));
  }

  // `usedGlobalMemory -= size` when the last reference to buffer b goes.
  function DropBuffer(h: Heap, b: nat): Heap
    requires Live(h, BufferRef(b)) && Count(h, BufferRef(b)) > 0
    requires h.usedGlobalMemory >= h.buffers[b].size
  {
    Drop(h, BufferRef(b)).(usedGlobalMemory :=
      if h.buffers[b].referenceCount == 1 then h.usedGlobalMemory - h.buffers[b].size else h.usedGlobalMemory)
  }

  lemma UsedIrrelevant(h: Heap, h': Heap, held: multiset<Ref>)
    requires Balanced(h, held) && h' == h.(usedGlobalMemory := h'.usedGlobalMemory)
    ensures Balanced(h', held)
  {
    forall r ensures Count(h', r) == held[r] + Refs(h', r) && (Live(h', r) <==> Count(h', r) > 0) {
      assert Count(h, r) == held[r] + Refs(h, r);
      assert Live(h, r) <==> Count(h, r) > 0;
    }
  }

  lemma {:induction false} DropAccounting(h: Heap, b: nat)
    requires Live(h, BufferRef(b)) && Count(h, BufferRef(b)) > 0
    ensures Sum(Drop(h, BufferRef(b)).buffers, LiveSize())
            == Sum(h.buffers, LiveSize()) - if Count(h, BufferRef(b)) == 1 then h.buffers[b].size else 0
    ensures Sum(h.buffers, LiveSize()) >= h.buffers[b].size
  {
    var v := Drop(h, BufferRef(b)).buffers[b];
    SumUpdate(h.buffers, b, v, LiveSize());
    assert Drop(h, BufferRef(b)).buffers == h.buffers[b := v];
  }

  lemma {:induction false} DropBufferInv(h: Heap, g: History, size: nat, b: nat)
    requires Inv(h, g, size) && g.held[BufferRef(b)] > 0
    ensures Live(h, BufferRef(b)) && Count(h, BufferRef(b)) > 0 && h.usedGlobalMemory >= h.buffers[b].size
    ensures Inv(DropBuffer(h, b), g.(held := HeldAfterDrop(h, g.held, BufferRef(b))), size)
    ensures SameCore(h, DropBuffer(h, b))
    ensures DropBuffer(h, b)
            == h.(buffers := DropBuffer(h, b).buffers, usedGlobalMemory := DropBuffer(h, b).usedGlobalMemory)
  {
    hide Balanced;
    hide Shape;
    hide Drop;
    hide HeldAfterDrop;
    hide Sum;
    var r := BufferRef(b);
    DropBalanced(h, g.held, r);
    DropFrame(h, g.held, r);
    DropAccounting(h, b);
    UsedIrrelevant(Drop(h, r), DropBuffer(h, b), HeldAfterDrop(h, g.held, r));
    SameCoreShape(h, DropBuffer(h, b), g, g.(held := HeldAfterDrop(h, g.held, r)));
  }

  lemma {:induction false} RetainInv(h: Heap, g: History, size: nat, r: Ref)
    requires Inv(h, g, size) && Live(h, r)
    ensures var h' := SetCount(h, r, Count(h, r) + 1);
            var g' := g.(held := g.held + multiset{r});
            && Inv(h', g', size) && SameCore(h, h') && h'.usedGlobalMemory == h.usedGlobalMemory
            && (Settled(h, g, |h.commands|) ==> Settled(h', g', |h.commands|))
  {
    hide Balanced;
    hide Shape;
    hide Settled;
    hide Sum;
    var h' := SetCount(h, r, Count(h, r) + 1);
    RetainBalanced(h, g.held, r);
    SetCountAccounting(h, r, Count(h, r) + 1);
    SameCoreShape(h, h', g, g.(held := g.held + multiset{r}));
  }

  lemma {:induction false} SetCountAccounting(h: Heap, r: Ref, n: nat)
    requires Live(h, r)
    ensures Sum(SetCount(h, r, n).buffers, LiveSize()) == Sum(h.buffers, LiveSize())
  {
    if r.BufferRef? {
      SumUpdate(h.buffers, r.id, h.buffers[r.id].(referenceCount := n), LiveSize());
    }
  }

  // ---------------------------------------------------------------- changes that move no reference

  lemma {:induction false} SumSame<T>(s: seq<T>, t: seq<T>, w: T -> nat)
    requires |s| == |t| && forall i :: 0 <= i < |s| ==> w(s[i]) == w(t[i])
    ensures Sum(s, w) == Sum(t, w)
  {
    if s != [] {
      SumSame(s[..|s| - 1], t[..|s| - 1], w);
    }
  }

  // The counters, liveness and outgoing pointers of every object are the same.
  ghost predicate SameRefs(h: Heap, h': Heap) {
    && h'.contexts == h.contexts && h'.buffers == h.buffers && h'.commands == h.commands
    && |h'.queues| == |h.queues| && |h'.events| == |h.events|
    && (forall q :: 0 <= q < |h.queues| ==>
                      && h'.queues[q].context == h.queues[q].context && h'.queues[q].live == h.queues[q].live
                      && h'.queues[q].referenceCount == h.queues[q].referenceCount)
    && (forall e :: 0 <= e < |h.events| ==>
                      && h'.events[e].context == h.events[e].context && h'.events[e].queue == h.events[e].queue
                      && h'.events[e].live == h.events[e].live
                      && h'.events[e].referenceCount == h.events[e].referenceCount)
  }

  lemma {:induction false} SameRefsBalanced(h: Heap, h': Heap, held: multiset<Ref>)
    requires Balanced(h, held) && SameRefs(h, h')
    ensures Balanced(h', held)
  {
    forall r ensures Count(h', r) == held[r] + Refs(h', r) && (Live(h', r) <==> Count(h', r) > 0) {
      SumSame(h.queues, h'.queues, QueueRefs(r));
      SumSame(h.events, h'.events, EventRefs(r));
      assert Count(h, r) == held[r] + Refs(h, r);
      assert Count(h', r) == Count(h, r) && Live(h', r) == Live(h, r);
    }
  }

  // ---------------------------------------------------------------- steps of execute

  // waitList.top(), waitList.pop(): the reference moves into a local variable.
  function PopWait(h: Heap, c: nat): Heap
    requires c < |h.commands| && h.commands[c].waitList != []
  {
    var w := h.commands[c].waitList;
    h.(commands := h.commands[c := h.commands[c].(waitList := w[..|w| - 1])])
  }

  function Top(h: Heap, c: nat): nat
    requires c < |h.commands| && h.commands[c].waitList != []
  {
    h.commands[c].waitList[|h.commands[c].waitList| - 1]
  }

  lemma {:induction false} PopBalanced(h: Heap, held: multiset<Ref>, c: nat)
    requires Balanced(h, held) && c < |h.commands| && h.commands[c].live && h.commands[c].waitList != []
    ensures Balanced(PopWait(h, c), held + multiset{EventRef(Top(h, c))})
  {
    hide Balanced;
    hide Sum;
    var before := h.commands[c];
    var after := PopWait(h, c).commands[c];
    var held' := held + multiset{EventRef(Top(h, c))};
    assert WaitRefs(before.waitList) == WaitRefs(after.waitList) + multiset{EventRef(Top(h, c))};
    forall r ensures held'[r] + CommandRefs(r)(after) == held[r] + CommandRefs(r)(before) {
      assert OwnRefs(after) == OwnRefs(before);
    }
    CommandChangeBalanced(h, held, c, after, held');
  }

  lemma {:induction false} PopShape(h: Heap, g: History, held: multiset<Ref>, c: nat)
    requires Shape(h, g) && c < |h.commands| && h.commands[c].live && h.commands[c].waitList != []
    ensures Shape(PopWait(h, c), g.(held := held))
    ensures forall n: nat :: n <= c && Settled(h, g, n) ==> Settled(PopWait(h, c), g.(held := held), n)
  {
    var h', g' := PopWait(h, c), g.(held := held);
    forall k | 0 <= k < |h'.commands| ensures CommandOk(h', g', k) {
      assert CommandOk(h, g, k) && TimesOk(h, g, k);
    }
    forall q | 0 <= q < |h'.queues| ensures QueueOk(h', q) {
      assert QueueOk(h, q);
    }
  }

  lemma {:induction false} PopInv(h: Heap, g: History, size: nat, c: nat)
    requires Inv(h, g, size) && c < |h.commands| && h.commands[c].live && h.commands[c].waitList != []
    ensures var g' := g.(held := g.held + multiset{EventRef(Top(h, c))});
            && Inv(PopWait(h, c), g', size)
            && forall n: nat :: n <= c && Settled(h, g, n) ==> Settled(PopWait(h, c), g', n)
  {
    hide Balanced;
    hide Shape;
    hide Settled;
    hide Sum;
    PopBalanced(h, g.held, c);
    PopShape(h, g, g.held + multiset{EventRef(Top(h, c))}, c);
  }

  // setSubmitted, setRunning, executeImpl, setCompleted with the clock readings t0, t1, t2.
  function Completed(h: Heap, c: nat, m: Memory, t0: nat, t1: nat, t2: nat): Heap
    requires c < |h.events|
  {
    h.(events := h.events[c := h.events[c].(status := Complete, timeSubmitted := t0, timeStart := t1, timeEnd := t2)],
       memory := m, clock := t2)
  }

  lemma {:induction false} FinishTimes(h: Heap, g: History, c: nat, m: Memory, t0: nat, t1: nat, t2: nat, k: nat)
    requires Shape(h, g) && c < |h.commands| && IsQueued(h, c) && k < |h.commands|
    requires h.clock <= t0 <= t1 <= t2
    requires forall i :: 0 <= i < |g.deps[c]| ==> g.deps[c][i] in g.trace
    ensures TimesOk(Completed(h, c, m, t0, t1, t2), g, k)
  {
    assert CommandOk(h, g, k) && TimesOk(h, g, k) && CommandOk(h, g, c) && TimesOk(h, g, c);
    assert c !in g.trace;
    forall i | 0 <= i < |g.deps[k]| && (k == c || IsComplete(h, k))
      ensures g.deps[k][i] != c && g.deps[k][i] in g.trace && h.events[g.deps[k][i]].timeEnd <= h.clock
    {
      var x := g.deps[k][i];
      if k != c {
        var j :| 0 <= j < |g.trace| && g.trace[j] == k;
        assert x in g.deps[g.trace[j]];
        assert x in g.trace[..j];
      }
      assert x in g.trace;
      assert x < |h.commands| && CommandOk(h, g, x) && TimesOk(h, g, x);
    }
  }

  lemma {:induction false} FinishShape(h: Heap, g: History, c: nat, m: Memory, t0: nat, t1: nat, t2: nat)
    requires Shape(h, g) && c < |h.commands| && IsQueued(h, c) && h.commands[c].waitList == []
    requires h.clock <= t0 <= t1 <= t2
    requires Sizes(m) == Sizes(h.memory) && |m.host| == |h.memory.host|
    requires forall i :: 0 <= i < |g.deps[c]| ==> g.deps[c][i] in g.trace
    ensures Shape(Completed(h, c, m, t0, t1, t2), g.(trace := g.trace + [c]))
    ensures forall n: nat :: Settled(h, g, n) ==> Settled(Completed(h, c, m, t0, t1, t2), g.(trace := g.trace + [c]), n)
  {
    var h', g' := Completed(h, c, m, t0, t1, t2), g.(trace := g.trace + [c]);
    assert c !in g.trace;
    assert CommandOk(h, g, c);
    SizesEqual(h.memory, m);
    forall k | 0 <= k < |h'.commands| ensures CommandOk(h', g', k) {
      assert CommandOk(h, g, k) && TimesOk(h, g, k);
      assert h'.commands[k] == h.commands[k];
      FinishTimes(h, g, c, m, t0, t1, t2, k);
    }
    forall q | 0 <= q < |h'.queues| ensures QueueOk(h', q) {
      assert QueueOk(h, q);
    }
    forall i, e | 0 <= i < |g'.trace| && g'.trace[i] < |g.deps| && e in g.deps[g'.trace[i]]
      ensures e in g'.trace[..i]
    {
      if i < |g.trace| {
        assert g'.trace[i] == g.trace[i] && g'.trace[..i] == g.trace[..i];
      } else {
        assert g'.trace[..i] == g.trace;
      }
    }
  }

  lemma {:induction false} SizesEqual(m: Memory, m': Memory)
    requires Sizes(m) == Sizes(m')
    ensures |m.buffers| == |m'.buffers| && forall b :: 0 <= b < |m.buffers| ==> |m.buffers[b]| == |m'.buffers[b]|
  {
    forall b | 0 <= b < |m.buffers| ensures |m.buffers[b]| == |m'.buffers[b]| {
      assert Sizes(m)[b] == Sizes(m')[b];
    }
  }

  lemma {:induction false} FinishInv(h: Heap, g: History, size: nat, c: nat, m: Memory, t0: nat, t1: nat, t2: nat)
    requires Inv(h, g, size) && c < |h.commands| && IsQueued(h, c) && h.commands[c].waitList == []
    requires h.clock <= t0 <= t1 <= t2
    requires Sizes(m) == Sizes(h.memory) && |m.host| == |h.memory.host|
    requires forall i :: 0 <= i < |g.deps[c]| ==> g.deps[c][i] in g.trace
    ensures var h', g' := Completed(h, c, m, t0, t1, t2), g.(trace := g.trace + [c]);
            && Inv(h', g', size) && forall n: nat :: Settled(h, g, n) ==> Settled(h', g', n)
  {
    FinishShape(h, g, c, m, t0, t1, t2);
    var h' := Completed(h, c, m, t0, t1, t2);
    hide Balanced;
    hide Shape;
    hide Settled;
    hide Sum;
    SameRefsBalanced(h, h', g.held);
  }

  // ---------------------------------------------------------------- steps of flush

  function SetQueue(h: Heap, q: nat, deque: seq<nat>, flushing: bool): Heap
    requires q < |h.queues|
  {
    h.(queues := h.queues[q := h.queues[q].(deque := deque, flushInProcess := flushing)])
  }

  // While a queue is being flushed its deque may lose commands.
  lemma {:induction false} ShrinkDequeInv(h: Heap, g: History, size: nat, q: nat, deque: seq<nat>)
    requires Inv(h, g, size) && q < |h.queues| && Distinct(deque)
    requires forall x :: x in deque ==> x in h.queues[q].deque
    ensures Inv(SetQueue(h, q, deque, true), g, size)
    ensures forall n: nat :: Settled(h, g, n) ==> Settled(SetQueue(h, q, deque, true), g, n)
  {
    var h' := SetQueue(h, q, deque, true);
    assert Shape(h', g) by {
      hide Balanced;
      hide Sum;
      forall k | 0 <= k < |h'.commands| ensures CommandOk(h', g, k) {
        assert CommandOk(h, g, k) && TimesOk(h, g, k);
      }
      forall p | 0 <= p < |h'.queues| ensures QueueOk(h', p) {
        assert QueueOk(h, p);
      }
    }
    hide Balanced;
    hide Shape;
    hide Sum;
    SameRefsBalanced(h, h', g.held);
  }

  lemma {:induction false} EndFlushInv(h: Heap, g: History, size: nat, q: nat)
    requires Inv(h, g, size) && q < |h.queues|
    requires forall k :: 0 <= k < |h.commands| && h.commands[k].queue == q ==> !h.commands[k].live
    ensures Inv(SetQueue(h, q, [], false), g, size)
    ensures forall n: nat :: Settled(h, g, n) ==> Settled(SetQueue(h, q, [], false), g, n)
  {
    var h' := SetQueue(h, q, [], false);
    assert Shape(h', g) by {
      hide Balanced;
      hide Sum;
      forall k | 0 <= k < |h'.commands| ensures CommandOk(h', g, k) {
        assert CommandOk(h, g, k) && TimesOk(h, g, k);
      }
      forall p | 0 <= p < |h'.queues| ensures QueueOk(h', p) {
        assert QueueOk(h, p);
      }
    }
    hide Balanced;
    hide Shape;
    hide Sum;
    SameRefsBalanced(h, h', g.held);
  }

  // requireEvent()->command = nullptr
  function ClearCommand(h: Heap, c: nat): Heap
    requires c < |h.events|
  {
    h.(events := h.events[c := h.events[c].(command := None)])
  }

  // `delete command`: the references it holds move to the running destructor.
  function KillCommand(h: Heap, c: nat): Heap
    requires c < |h.commands|
  {
    h.(commands := h.commands[c := h.commands[c].(live := false)])
  }

  lemma {:induction false} ClearCommandInv(h: Heap, g: History, size: nat, c: nat)
    requires Inv(h, g, size) && c < |h.commands| && IsComplete(h, c)
    ensures Inv(ClearCommand(h, c), g, size)
    ensures forall n: nat :: Settled(h, g, n) ==> Settled(ClearCommand(h, c), g, n)
  {
    var h' := ClearCommand(h, c);
    assert Shape(h', g) by {
      hide Balanced;
      hide Sum;
      forall k | 0 <= k < |h'.commands| ensures CommandOk(h', g, k) {
        assert CommandOk(h, g, k) && TimesOk(h, g, k);
        assert TimesOk(h', g, k);
      }
      forall p | 0 <= p < |h'.queues| ensures QueueOk(h', p) {
        assert QueueOk(h, p);
      }
    }
    hide Balanced;
    hide Shape;
    hide Sum;
    SameRefsBalanced(h, h', g.held);
  }

  lemma {:induction false} KillCommandShape(h: Heap, g: History, c: nat, held: multiset<Ref>)
    requires Shape(h, g) && c < |h.commands| && IsComplete(h, c) && h.commands[c].live
    requires c < |h.events| && h.events[c].command == None
    requires h.commands[c].queue < |h.queues| && c !in h.queues[h.commands[c].queue].deque
    ensures Shape(KillCommand(h, c), g.(held := held))
  {
    var h', g' := KillCommand(h, c), g.(held := held);
    forall k | 0 <= k < |h'.commands| ensures CommandOk(h', g', k) {
      assert CommandOk(h, g, k) && TimesOk(h, g, k);
    }
    forall p | 0 <= p < |h'.queues| ensures QueueOk(h', p) {
      assert QueueOk(h, p);
    }
  }

  lemma {:induction false} KillCommandInv(h: Heap, g: History, size: nat, c: nat)
    requires Inv(h, g, size) && c < |h.commands| && IsComplete(h, c) && h.commands[c].live
    requires h.events[c].command == None
    requires h.commands[c].queue < |h.queues| && c !in h.queues[h.commands[c].queue].deque
    ensures Inv(KillCommand(h, c), g.(held := g.held + OwnRefs(h.commands[c])), size)
    ensures forall n: nat :: Settled(h, g, n) ==>
                               Settled(KillCommand(h, c), g.(held := g.held + OwnRefs(h.commands[c])), n)
  {
    var h', g' := KillCommand(h, c), g.(held := g.held + OwnRefs(h.commands[c]));
    assert h.commands[c].waitList == [] by { assert CommandOk(h, g, c); }
    hide Balanced;
    hide Shape;
    hide Sum;
    KillCommandShape(h, g, c, g'.held);
    assert Balanced(h', g'.held) by {
      forall r
        ensures g'.held[r] + CommandRefs(r)(h'.commands[c]) == g.held[r] + CommandRefs(r)(h.commands[c])
      {
        assert OwnRefs(h.commands[c]) + WaitRefs([]) == OwnRefs(h.commands[c]);
      }
      CommandChangeBalanced(h, g.held, c, h'.commands[c], g'.held);
    }
  }

  // ---------------------------------------------------------------- the loop over a wait list

  function WithWait(h: Heap, c: nat, w: seq<nat>): Heap
    requires c < |h.commands|
  {
    h.(commands := h.commands[c := h.commands[c].(waitList := w)])
  }

  // Command c is halfway through its wait list: what it has still to visit leads to the same trace.
  ghost predicate Waiting(h0: Heap, g0: History, h: Heap, g: History, c: nat) {
    && c < |h0.commands| == |h0.events| == |h.commands| == |h.events| == |g0.deps| && WellFounded(g0.deps)
    && h.commands[c].live && IsQueued(h, c) && h.commands[c].queue == h0.commands[c].queue
    && h.commands[c].waitList <= g0.deps[c] && h.commands[c].waitList <= h0.commands[c].waitList
    && g == g0.(trace := g.trace) && g0.trace <= g.trace
    && VisitAll(g0.deps, c, g0.deps[c], g0.trace) == VisitAll(g0.deps, c, h.commands[c].waitList, g.trace)
    && h.memory == Replay(g0.ops, |g0.trace|, g.trace, h0.memory)
    && Executed(WithWait(h0, c, h.commands[c].waitList), h, c) && OnlyQueue(h0, h, h0.commands[c].queue)
    && Settled(h, g, c)
  }

  lemma {:induction false} WaitingInit(h: Heap, g: History, size: nat, c: nat)
    requires Inv(h, g, size) && c < |h.commands| && h.commands[c].live && IsQueued(h, c) && Settled(h, g, c + 1)
    ensures Waiting(h, g, h, g, c)
  {
    CommandFacts(h, g, size, c);
    assert WaitsFor(h.commands[c].waitList, g.deps[c], g.trace);
    VisitAllSkips(g.deps, c, g.deps[c], |h.commands[c].waitList|, g.trace);
    assert g.deps[c][..|h.commands[c].waitList|] == h.commands[c].waitList;
    assert WithWait(h, c, h.commands[c].waitList) == h;
    hide Balanced;
    hide Shape;
    ExecutedRefl(h, c);
  }

  // An in-order command has an empty wait list.
  lemma {:induction false} NothingToWaitFor(h: Heap, g: History, size: nat, c: nat)
    requires Inv(h, g, size) && c < |h.commands| && h.commands[c].live && IsQueued(h, c) && Settled(h, g, c + 1)
    requires h.commands[c].queue < |h.queues| && !h.queues[h.commands[c].queue].outOfOrder
    ensures Waiting(h, g, h, g, c) && h.commands[c].waitList == []
  {
    WaitingInit(h, g, size, c);
    CommandFacts(h, g, size, c);
  }

  // What holds of the event on top of the wait list of command c.
  ghost predicate Waitable(h: Heap, g: History, c: nat)
    requires c < |h.commands| && h.commands[c].waitList != []
  {
    var e := Top(h, c);
    && e < c && |h.commands| == |h.events| == |g.deps| && WellFounded(g.deps)
    && Live(h, EventRef(e)) && h.commands[e].queue == h.events[e].queue == h.commands[c].queue
    && (e in g.trace <==> h.events[e].status != Queued)
    && (h.events[e].status == Queued ==> h.events[e].command == Some(e) && h.commands[e].live)
  }

  lemma {:induction false} WaitingFacts(h0: Heap, g0: History, h: Heap, g: History, size: nat, c: nat)
    requires Inv(h, g, size) && Waiting(h0, g0, h, g, c) && h.commands[c].waitList != []
    ensures Waitable(h, g, c) && Settled(h, g, c)
    ensures var g' := g.(held := g.held + multiset{EventRef(Top(h, c))}); Settled(PopWait(h, c), g', c)
  {
    hide Balanced;
    hide Shape;
    hide Accounted;
    hide Executed;
    hide VisitAll;
    hide Replay;
    WaitedFacts(h, g, size, c, |h.commands[c].waitList| - 1);
    PopInv(h, g, size, c);
  }

  lemma {:induction false} PopExecuted(h0: Heap, h: Heap, c: nat)
    requires c < |h0.commands| && c < |h.commands| && h.commands[c].waitList != []
    requires Executed(WithWait(h0, c, h.commands[c].waitList), h, c)
    ensures Executed(WithWait(h0, c, PopWait(h, c).commands[c].waitList), PopWait(h, c), c)
  {
    var a, b := WithWait(h0, c, h.commands[c].waitList), h;
    var a', b' := WithWait(h0, c, PopWait(h, c).commands[c].waitList), PopWait(h, c);
    forall k | 0 <= k < |a'.commands| ensures Advanced(a', b', k) {
      assert Advanced(a, b, k);
    }
  }

  lemma {:induction false} ReleasedExecuted(h1: Heap, h2: Heap, h3: Heap, c: nat, q: nat)
    requires Executed(h1, h2, c) && OnlyQueue(h1, h2, q) && c < |h1.commands|
    requires SameCore(h2, h3) && h3.buffers == h2.buffers && h3.usedGlobalMemory == h2.usedGlobalMemory
    ensures Executed(h1, h3, c) && OnlyQueue(h1, h3, q)
    ensures IsQueued(h1, c) ==> h3.commands[c] == h1.commands[c] && IsQueued(h3, c)
  {
    SameCoreExecuted(h2, h3);
    ExecutedWiden(h2, h3, 0, c);
    ExecutedTrans(h1, h2, h3, c);
    forall k | 0 <= k < |h1.commands| && h1.commands[k].queue != q
      ensures h3.events[k].status == h1.events[k].status
    {
      assert Advanced(h1, h2, k) && SameEvent(h2.events[k], h3.events[k]);
    }
    assert Advanced(h1, h3, c);
  }

  // One turn of the loop keeps the loop's invariant.
  lemma {:induction false} WaitingStep(h0: Heap, g0: History, h: Heap, g: History, h': Heap, g': History, c: nat)
    requires Waiting(h0, g0, h, g, c) && h.commands[c].waitList != [] && Top(h, c) < c
    requires Executed(PopWait(h, c), h', c) && OnlyQueue(PopWait(h, c), h', h.commands[c].queue)
    requires g'.trace == Visit(g0.deps, Top(h, c), g.trace) && g.trace <= g'.trace && g' == g.(trace := g'.trace)
    requires h'.memory == Replay(g0.ops, |g.trace|, g'.trace, h.memory)
    requires Settled(PopWait(h, c), g.(held := g.held + multiset{EventRef(Top(h, c))}), c)
    ensures Waiting(h0, g0, h', g', c)
    ensures |h'.commands[c].waitList| < |h.commands[c].waitList|
  {
    var h1, held := PopWait(h, c), g.held + multiset{EventRef(Top(h, c))};
    hide Replay;
    assert Advanced(h1, h', c);
    PopExecuted(h0, h, c);
    ExecutedTrans(WithWait(h0, c, h1.commands[c].waitList), h1, h', c);
    ExecutedSettled(h1, h', g.(held := held), g', c, c);
    ReplayChain(g0.ops, |g0.trace|, g.trace, g'.trace, h0.memory);
    assert OnlyQueue(h0, h', h0.commands[c].queue) by {
      forall k | 0 <= k < |h0.commands| && h0.commands[k].queue != h0.commands[c].queue
        ensures h'.events[k].status == h0.events[k].status
      {
        assert Advanced(WithWait(h0, c, h.commands[c].waitList), h, k);
        assert h1.commands[k].queue == h0.commands[k].queue;
      }
    }
  }

  lemma {:induction false} WaitedAll(h0: Heap, g0: History, h: Heap, g: History, size: nat, c: nat)
    requires Inv(h0, g0, size) && Waiting(h0, g0, h, g, c) && h.commands[c].waitList == []
    ensures forall i :: 0 <= i < |g.deps[c]| ==> g.deps[c][i] in g.trace
    ensures g.trace == VisitAll(g0.deps, c, g0.deps[c], g0.trace)
  {
    VisitAllGrows(g0.deps, c, g0.deps[c], g0.trace);
  }

  lemma {:induction false} WaitedThenRun(h0: Heap, g0: History, h: Heap, g: History, h': Heap, c: nat, m: Memory,
                                         t0: nat, t1: nat, t2: nat)
    requires Waiting(h0, g0, h, g, c) && h.commands[c].waitList == [] && c !in g0.trace && IsQueued(h0, c)
    requires h.clock <= t0 <= t1 <= t2 && m == RunOne(g0.ops, c, h.memory)
    requires h' == Completed(h, c, m, t0, t1, t2)
    ensures Executed(h0, h', c + 1) && OnlyQueue(h0, h', h0.commands[c].queue) && IsComplete(h', c)
    ensures g.trace + [c] == Visit(g0.deps, c, g0.trace)
    ensures h'.memory == Replay(g0.ops, |g0.trace|, g.trace + [c], h0.memory)
  {
    var a := WithWait(h0, c, []);
    assert Executed(a, h, c);
    forall k | 0 <= k < |h0.commands| ensures Advanced(h0, h', k) {
      assert Advanced(a, h, k);
    }
    assert (g.trace + [c])[..|g.trace|] == g.trace;
  }

  lemma {:induction false} WaitingQueue(h0: Heap, g0: History, h: Heap, g: History, c: nat)
    requires Waiting(h0, g0, h, g, c)
    ensures c < |h.commands| == |h.events| == |h0.commands| && h.commands[c].queue == h0.commands[c].queue
    ensures IdleQueues(h) == IdleQueues(h0) && h.commands[c].live && IsQueued(h, c)
    ensures g == g0.(trace := g.trace)
    ensures forall q :: Flushing(h, q) <==> Flushing(h0, q)
  {
    var a := WithWait(h0, c, h.commands[c].waitList);
    forall q ensures Flushing(h, q) <==> Flushing(h0, q) {
      ExecutedFacts(a, h, c, c, q);
    }
    SameQueuesIdle(h0, h);
  }

  lemma OnlyQueueRefl(h: Heap, q: nat)
    requires |h.commands| == |h.events|
    ensures OnlyQueue(h, h, q)
  {
  }

  lemma SameCoreMemory(h: Heap, h': Heap)
    requires SameCore(h, h')
    ensures h'.memory == h.memory
  {
  }

  // ---------------------------------------------------------------- the two loops of flush

  // The commands of `all` are those executed so far and those left in the deque, none twice.
  ghost predicate Splits(all: seq<nat>, deque: seq<nat>, executed: seq<nat>, n: nat) {
    && Below(deque, n) && Distinct(deque) && Distinct(executed)
    && (forall x :: x in all <==> x in executed || x in deque)
    && (forall x :: x in executed ==> x !in deque)
  }

  // Halfway through the drain of queue q: `executed` are the commands popped so far.
  ghost predicate Draining(h0: Heap, g0: History, h: Heap, g: History, q: nat, executed: seq<nat>) {
    && |h0.commands| == |h0.events| == |h.commands| == |h.events| == |g0.deps| && WellFounded(g0.deps)
    && q < |h0.queues| && |h.queues| == |h0.queues| && h.queues[q].flushInProcess
    && Below(h0.queues[q].deque, |g0.deps|) && Splits(h0.queues[q].deque, h.queues[q].deque, executed, |g0.deps|)
    && (forall x :: x in executed ==> IsComplete(h, x))
    && Drain(g0.deps, h0.queues[q].outOfOrder, h0.queues[q].deque, g0.trace)
       == Drain(g0.deps, h0.queues[q].outOfOrder, h.queues[q].deque, g.trace)
    && Executed(SetQueue(h0, q, h.queues[q].deque, true), h, |h0.commands|)
    && g == g0.(trace := g.trace) && g0.trace <= g.trace
    && h.memory == Replay(g0.ops, |g0.trace|, g.trace, h0.memory)
    && OnlyQueue(h0, h, q) && Settled(h, g, |h.commands|)
  }

  // pop_back or pop_front.
  function Next(h: Heap, q: nat): nat
    requires q < |h.queues| && h.queues[q].deque != []
  {
    var deque := h.queues[q].deque;
    if h.queues[q].outOfOrder then deque[|deque| - 1] else deque[0]
  }

  function PopCommand(h: Heap, q: nat): Heap
    requires q < |h.queues| && h.queues[q].deque != []
  {
    var deque := h.queues[q].deque;
    SetQueue(h, q, if h.queues[q].outOfOrder then deque[..|deque| - 1] else deque[1..], true)
  }

  lemma {:induction false} DrainingInit(h: Heap, g: History, size: nat, q: nat)
    requires Inv(h, g, size) && q < |h.queues| && Settled(h, g, |h.commands|)
    ensures var h1 := SetQueue(h, q, h.queues[q].deque, true);
            Inv(h1, g, size) && Draining(h, g, h1, g, q, [])
  {
    assert QueueOk(h, q);
    ShrinkDequeInv(h, g, size, q, h.queues[q].deque);
    hide Balanced;
    hide Accounted;
    hide Sum;
    hide Drain;
    var h1 := SetQueue(h, q, h.queues[q].deque, true);
    ExecutedRefl(h1, |h.commands|);
    forall i | 0 <= i < |h.queues[q].deque| ensures h.queues[q].deque[i] < |g.deps| {
      assert h.queues[q].deque[i] in h.queues[q].deque;
    }
  }

  lemma {:induction false} DrainingFacts(h0: Heap, g0: History, h: Heap, g: History, size: nat, q: nat,
                                         executed: seq<nat>)
    requires Inv(h, g, size) && Draining(h0, g0, h, g, q, executed) && h.queues[q].deque != []
    ensures var c, h1 := Next(h, q), PopCommand(h, q);
            && c < |h1.commands| && h1.commands[c].live && h1.commands[c].queue == q && Flushing(h1, q)
            && Inv(h1, g, size) && Settled(h1, g, |h.commands|)
  {
    assert QueueOk(h, q);
    var deque, rest := h.queues[q].deque, PopCommand(h, q).queues[q].deque;
    hide Balanced;
    hide Accounted;
    hide Sum;
    hide Drain;
    hide Replay;
    hide Executed;
    assert Next(h, q) in deque;
    forall i, j | 0 <= i < j < |rest| ensures rest[i] != rest[j] {
      if !h.queues[q].outOfOrder {
        assert rest[i] == deque[i + 1] && rest[j] == deque[j + 1];
      }
    }
    ShrinkDequeInv(h, g, size, q, rest);
  }

  lemma {:induction false} PopDequeExecuted(h0: Heap, h: Heap, q: nat, deque: seq<nat>, rest: seq<nat>, n: nat)
    requires q < |h0.queues| && q < |h.queues| && h.queues[q].flushInProcess
    requires Executed(SetQueue(h0, q, deque, true), h, n) && h.queues[q].deque == deque
    ensures Executed(SetQueue(h0, q, rest, true), SetQueue(h, q, rest, true), n)
  {
    var a, b := SetQueue(h0, q, deque, true), h;
    var a', b' := SetQueue(h0, q, rest, true), SetQueue(h, q, rest, true);
    forall k | 0 <= k < |a'.commands| ensures Advanced(a', b', k) {
      assert Advanced(a, b, k);
    }
    forall p | 0 <= p < |a'.queues| ensures SameQueue(a'.queues[p], b'.queues[p]) {
      assert SameQueue(a.queues[p], b.queues[p]);
    }
  }

  // Popping keeps the drain's result and the bookkeeping of popped commands.
  lemma {:induction false} DrainPop(deps: seq<seq<nat>>, outOfOrder: bool, all: seq<nat>, deque: seq<nat>, done: seq<nat>,
                                    executed: seq<nat>)
    requires WellFounded(deps) && deque != []
    requires Splits(all, deque, executed, |deps|)
    ensures var c := if outOfOrder then deque[|deque| - 1] else deque[0];
            var rest := if outOfOrder then deque[..|deque| - 1] else deque[1..];
            && c < |deps| && Splits(all, rest, executed + [c], |deps|)
            && Drain(deps, outOfOrder, deque, done) == Drain(deps, outOfOrder, rest, Visit(deps, c, done))
  {
    var n := |deque| - 1;
    var c := if outOfOrder then deque[n] else deque[0];
    var rest := if outOfOrder then deque[..n] else deque[1..];
    assert deque == if outOfOrder then rest + [c] else [c] + rest;
    forall i, j | 0 <= i < j < |rest| ensures rest[i] != rest[j] {
      if !outOfOrder {
        assert rest[i] == deque[i + 1] && rest[j] == deque[j + 1];
      }
    }
    assert c !in executed;
    assert c !in rest;
  }

  lemma {:induction false} DrainingFrame(h0: Heap, g: History, h: Heap, h': Heap, g': History, q: nat)
    requires q < |h0.queues| && q < |h.queues| && h.queues[q].flushInProcess && h.queues[q].deque != []
    requires Executed(SetQueue(h0, q, h.queues[q].deque, true), h, |h0.commands|) && OnlyQueue(h0, h, q)
    requires Next(h, q) < |h.commands|
    requires Executed(PopCommand(h, q), h', Next(h, q) + 1) && OnlyQueue(PopCommand(h, q), h', q)
    requires Settled(h, g, |h.commands|) && g'.deps == g.deps && g.trace <= g'.trace
    ensures |h'.queues| == |h.queues| && SameQueue(PopCommand(h, q).queues[q], h'.queues[q])
    ensures Executed(SetQueue(h0, q, h'.queues[q].deque, true), h', |h0.commands|) && OnlyQueue(h0, h', q)
    ensures Settled(h', g', |h'.commands|)
    ensures h'.queues[q].outOfOrder == h.queues[q].outOfOrder == h0.queues[q].outOfOrder
    ensures forall x :: IsComplete(h, x) ==> IsComplete(h', x)
  {
    var c, h1, n := Next(h, q), PopCommand(h, q), |h0.commands|;
    var deque, rest := h.queues[q].deque, h1.queues[q].deque;
    assert SameQueue(SetQueue(h0, q, deque, true).queues[q], h.queues[q]);
    PopDequeExecuted(h0, h, q, deque, rest, n);
    ExecutedWiden(h1, h', c + 1, n);
    ExecutedTrans(SetQueue(h0, q, rest, true), h1, h', n);
    ExecutedSettled(h1, h', g, g', n, n);
    assert SameQueue(h1.queues[q], h'.queues[q]);
    forall x | IsComplete(h, x) ensures IsComplete(h', x) {
      assert Advanced(h1, h', x);
    }
    forall k | 0 <= k < n && h0.commands[k].queue != q ensures h'.events[k].status == h0.events[k].status {
      assert Advanced(SetQueue(h0, q, deque, true), h, k);
    }
  }

  lemma {:induction false} DrainingStep(h0: Heap, g0: History, h: Heap, g: History, h': Heap, g': History, q: nat,
                                        executed: seq<nat>)
    requires Draining(h0, g0, h, g, q, executed) && h.queues[q].deque != []
    requires Next(h, q) < |h.commands|
    requires Executed(PopCommand(h, q), h', Next(h, q) + 1) && OnlyQueue(PopCommand(h, q), h', q)
    requires IsComplete(h', Next(h, q)) && g' == g.(trace := g'.trace) && g.trace <= g'.trace
    requires g'.trace == Visit(g0.deps, Next(h, q), g.trace)
    requires h'.memory == Replay(g0.ops, |g.trace|, g'.trace, h.memory)
    ensures Draining(h0, g0, h', g', q, executed + [Next(h, q)])
    ensures |h'.queues[q].deque| < |h.queues[q].deque|
  {
    assert |h'.commands| == |h'.events| == |h.commands|;
    DrainingFrame(h0, g, h, h', g', q);
    hide Replay;
    hide Executed;
    hide Settled;
    hide OnlyQueue;
    hide Visit;
    hide Drain;
    hide WellFounded;
    hide SetQueue;
    hide Splits;
    DrainPop(g0.deps, h.queues[q].outOfOrder, h0.queues[q].deque, h.queues[q].deque, g.trace, executed);
    ReplayChain(g0.ops, |g0.trace|, g.trace, g'.trace, h0.memory);
  }

  // Halfway through the second loop of flush: the commands in `gone` have been deleted.
  ghost predicate Deleting(h1: Heap, h: Heap, gone: seq<nat>) {
    && |h.commands| == |h1.commands| == |h.events| == |h1.events|
    && h.memory == h1.memory && h.clock == h1.clock && |h.contexts| == |h1.contexts|
    && SameQueues(h1, h) && SameBuffers(h1, h)
    && (forall k :: 0 <= k < |h1.commands| ==>
                      if k in gone then
                        && h.commands[k] == h1.commands[k].(live := false)
                        && h.events[k].command == None && SameEvent(h1.events[k].(command := None), h.events[k])
                      else h.commands[k] == h1.commands[k] && SameEvent(h1.events[k], h.events[k]))
  }

  lemma {:induction false} DeletingStep(h1: Heap, h: Heap, h': Heap, gone: seq<nat>, c: nat)
    requires Deleting(h1, h, gone) && c < |h.commands| && c !in gone
    requires SameCore(KillCommand(ClearCommand(h, c), c), h')
    ensures Deleting(h1, h', gone + [c])
  {
    var h2 := KillCommand(ClearCommand(h, c), c);
    forall q | 0 <= q < |h1.queues| ensures SameQueue(h1.queues[q], h'.queues[q]) {
      assert SameQueue(h1.queues[q], h.queues[q]) && SameQueue(h2.queues[q], h'.queues[q]);
    }
    forall k | 0 <= k < |h1.commands|
      ensures if k in gone + [c] then
                && h'.commands[k] == h1.commands[k].(live := false)
                && h'.events[k].command == None && SameEvent(h1.events[k].(command := None), h'.events[k])
              else h'.commands[k] == h1.commands[k] && SameEvent(h1.events[k], h'.events[k])
    {
      assert SameEvent(h2.events[k], h'.events[k]);
    }
  }

  lemma {:induction false} FlushIsComplete(h0: Heap, g0: History, size: nat, h1: Heap, g: History, h2: Heap, q: nat,
                                           executed: seq<nat>)
    requires Inv(h0, g0, size) && q < |h0.queues| && !h0.queues[q].flushInProcess
    requires Draining(h0, g0, h1, g, q, executed) && h1.queues[q].deque == []
    requires Deleting(h1, h2, executed)
    ensures q < |h2.queues|
    ensures forall k :: 0 <= k < |h2.commands| && h2.commands[k].queue == q ==> !h2.commands[k].live
    ensures Flushed(h0, g0, SetQueue(h2, q, [], false), g, q)
    ensures Settled(SetQueue(h2, q, [], false), g, |h2.commands|)
  {
    hide Balanced;
    hide Accounted;
    hide Sum;
    hide Replay;
    var a := SetQueue(h0, q, [], true);
    forall k | 0 <= k < |h0.commands|
      ensures FlushedCommand(h0, h2, q, k) && (h2.commands[k].queue == q ==> !h2.commands[k].live)
    {
      FlushedOne(h0, g0, h1, h2, q, executed, k);
    }
    var h3 := SetQueue(h2, q, [], false);
    forall k | 0 <= k < |h0.commands| ensures FlushedCommand(h0, h3, q, k) {
      assert FlushedCommand(h0, h2, q, k);
    }
    forall p | 0 <= p < |h0.queues|
      ensures if p == q then SameQueue(h0.queues[q].(deque := []), h3.queues[q]) else SameQueue(h0.queues[p], h3.queues[p])
    {
      assert SameQueue(a.queues[p], h1.queues[p]) && SameQueue(h1.queues[p], h2.queues[p]);
    }
    assert Drain(g0.deps, h0.queues[q].outOfOrder, [], g.trace) == g.trace;
    forall b | 0 <= b < |h0.buffers| ensures h3.buffers[b].size == h0.buffers[b].size {}
  }

  lemma {:induction false} FlushedOne(h0: Heap, g0: History, h1: Heap, h2: Heap, q: nat, executed: seq<nat>, k: nat)
    requires Shape(h0, g0) && q < |h0.queues| && !h0.queues[q].flushInProcess && k < |h0.commands|
    requires |h1.commands| == |h1.events| == |h0.commands|
    requires Executed(SetQueue(h0, q, [], true), h1, |h0.commands|) && OnlyQueue(h0, h1, q)
    requires forall x :: x in h0.queues[q].deque <==> x in executed
    requires forall x :: x in executed ==> IsComplete(h1, x)
    requires Deleting(h1, h2, executed)
    ensures FlushedCommand(h0, h2, q, k)
    ensures h2.commands[k].queue == q ==> !h2.commands[k].live
  {
    assert CommandOk(h0, g0, k) && QueueOk(h0, q);
    assert Advanced(SetQueue(h0, q, [], true), h1, k);
  }

  lemma SetQueueIdle(h: Heap, h': Heap, q: nat)
    requires q < |h.queues| && !h.queues[q].flushInProcess && h' == SetQueue(h, q, h.queues[q].deque, true)
    ensures IdleQueues(h') < IdleQueues(h)
  {
    assert q in IdleQueues(h) && q !in IdleQueues(h');
  }

  lemma {:induction false} DrainingQueue(h: Heap, h': Heap, q: nat, n: nat)
    requires q < |h.queues| && h.queues[q].flushInProcess && h.queues[q].deque != []
    requires Executed(PopCommand(h, q), h', n)
    ensures q < |h'.queues| && Flushing(h', q) && IdleQueues(h') == IdleQueues(h)
  {
    var h1 := PopCommand(h, q);
    SameQueuesIdle(h1, h');
    assert SameQueue(h1.queues[q], h'.queues[q]);
    assert IdleQueues(h1) == IdleQueues(h);
  }

  lemma {:induction false} DeletingInit(h0: Heap, g0: History, h1: Heap, g1: History, q: nat, executed: seq<nat>)
    requires Draining(h0, g0, h1, g1, q, executed)
    ensures Deleting(h1, h1, [])
  {
  }

  // The next command to delete is live, complete and no longer in the deque.
  lemma {:induction false} DeletingFacts(h0: Heap, g0: History, h1: Heap, g: History, h: Heap, size: nat, q: nat,
                                         executed: seq<nat>, i: nat)
    requires Inv(h0, g0, size) && Inv(h, g, size) && Draining(h0, g0, h1, g, q, executed) && i < |executed|
    requires Deleting(h1, h, executed[..i])
    ensures var c := executed[i];
            && c < |h.commands| == |h.events| && c !in executed[..i] && IsComplete(h, c)
            && h.commands[c].live && h.commands[c].queue == q && Live(h, EventRef(h.commands[c].event))
  {
    hide Balanced;
    hide Accounted;
    hide Drain;
    hide Replay;
    hide Sum;
    var c := executed[i];
    assert QueueOk(h0, q);
    assert c in h0.queues[q].deque;
    assert IsComplete(h1, c);
    assert Advanced(SetQueue(h0, q, h1.queues[q].deque, true), h1, c);
    CommandFacts(h, g, size, c);
  }

  lemma {:induction false} DeletingQueue(h: Heap, h': Heap, c: nat, q: nat)
    requires c < |h.commands| && c < |h.events| && q < |h.queues|
    requires SameCore(KillCommand(ClearCommand(h, c), c), h')
    ensures q < |h'.queues| && SameQueue(h.queues[q], h'.queues[q])
    ensures IdleQueues(h') == IdleQueues(h)
  {
    SameQueuesIdle(h, h');
  }
}
