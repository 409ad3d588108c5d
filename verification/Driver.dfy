/**
  The driver calls that retain, release, execute and flush.

  A method may dereference a pointer only where the object is live: those are the proof obligations
  `Live(...)` and `.live` below. A call that gives a reference back requires that the environment
  holds one.
*/
module Driver {
  import opened Wrappers
  import opened BufferCommands
  import opened DrainOrder
  import opened DriverHeap
  import opened DriverInvariant
  import opened DriverSteps
  import opened DriverAlloc
  import opened DriverWait

  datatype ErrorCode = InvalidValue | InvalidBufferSize | InvalidHostPtr | MemObjectAllocationFailure

  // clWaitForEvents succeeds, refuses an empty list, or deletes a command it is executing.
  datatype WaitOutcome = Waited | NoEvents | LostCommand

  datatype Result<+T> = Ok(value: T) | Error(code: ErrorCode)

  class Runtime {
    var heap: Heap
    const globalMemorySize: nat
    ghost var hist: History

    ghost predicate Valid()
      reads this
    {
      Inv(heap, hist, globalMemorySize)
    }

    // Only counters and liveness have changed, and one reference to r was given back.
    twostate predicate Released(r: Ref)
      reads this
    {
      && SameCore(old(heap), heap)
      && hist == old(hist).(held := old(hist).held - multiset{r})
    }

    // ------------------------------------------------------------ retain and release

    method Retain(r: Ref)
      requires Valid() && Live(heap, r)
      modifies this
      ensures Valid()
      ensures heap == SetCount(old(heap), r, Count(old(heap), r) + 1)
      ensures hist == old(hist).(held := old(hist).held + multiset{r})
      ensures SameCore(old(heap), heap) && heap.usedGlobalMemory == old(heap).usedGlobalMemory
      ensures Settled(old(heap), old(hist), |heap.commands|) ==> Settled(heap, hist, |heap.commands|)
    {
      hide Balanced;
      hide Shape;
      hide Settled;
      hide Sum;
      RetainInv(heap, hist, globalMemorySize, r);
      heap := SetCount(heap, r, Count(heap, r) + 1);
      hist := hist.(held := hist.held + multiset{r});
    }

    method ReleaseContext(x: nat)
      requires Valid() && hist.held[ContextRef(x)] > 0
      modifies this
      ensures Valid() && Released(ContextRef(x))
      ensures heap == old(heap).(contexts := heap.contexts)
      ensures Settled(old(heap), old(hist), |heap.commands|) ==> Settled(heap, hist, |heap.commands|)
    {
      hide Balanced;
      hide Shape;
      hide Settled;
      hide Sum;
      var r := ContextRef(x);
      DropInv(heap, hist, globalMemorySize, r);
      DropFrame(heap, hist.held, r);
      hist := hist.(held := HeldAfterDrop(heap, hist.held, r));
      heap := Drop(heap, r);
    }

    method ReleaseMemObject(b: nat)
      requires Valid() && hist.held[BufferRef(b)] > 0
      modifies this
      ensures Valid() && Released(BufferRef(b))
      ensures heap == old(heap).(contexts := heap.contexts, buffers := heap.buffers,
                                 usedGlobalMemory := heap.usedGlobalMemory)
    {
      hide Balanced;
      hide Shape;
      hide Sum;
      hide Drop;
      var r := BufferRef(b);
      ghost var before, g := heap, hist;
      DropBufferInv(heap, hist, globalMemorySize, b);
      var context, last := heap.buffers[b].context, heap.buffers[b].referenceCount == 1;
      hist := hist.(held := HeldAfterDrop(heap, hist.held, r));
      heap := DropBuffer(heap, b);
      if last {
        ghost var mid := heap;
        ReleaseContext(context);
        SameCoreTrans(before, mid, heap);
        assert hist.held == g.held - multiset{r};
      }
    }

    // The derived destructors: each buffer of the command is released, a copy's source first.
    method ReleaseBuffers(op: Operation)
      requires Valid() && OperationBuffers(op) <= hist.held
      modifies this
      ensures Valid() && SameCore(old(heap), heap)
      ensures hist == old(hist).(held := old(hist).held - OperationBuffers(op))
    {
      hide Balanced;
      hide Shape;
      hide Accounted;
      hide Sum;
      hide SameCore;
      ghost var before, g := heap, hist;
      match op {
        case Read(b, _, _, _) => ReleaseOne(op, b);
        case Write(b, _, _, _) => ReleaseOne(op, b);
        case Fill(b, _, _, _) => ReleaseOne(op, b);
        case Copy(s, d, _, _, _) =>
          CopyBuffers(g.held, op);
          hide OperationBuffers;
          ReleaseMemObject(s);
          ghost var between := heap;
          ReleaseMemObject(d);
          SameCoreTrans(before, between, heap);
      }
    }

    method ReleaseOne(op: Operation, b: nat)
      requires Valid() && OperationBuffers(op) == multiset{BufferRef(b)} && OperationBuffers(op) <= hist.held
      modifies this
      ensures Valid() && SameCore(old(heap), heap)
      ensures hist == old(hist).(held := old(hist).held - OperationBuffers(op))
    {
      hide Inv;
      hide SameCore;
      OneBuffer(hist.held, op, b);
      hide OperationBuffers;
      ReleaseMemObject(b);
    }

    // ------------------------------------------------------------ the mutually recursive core

    method ReleaseCommandQueue(q: nat)
      requires Valid() && hist.held[QueueRef(q)] > 0 && q < |heap.queues|
      requires !Flushing(heap, q) ==> Settled(heap, hist, |heap.commands|)
      modifies this
      ensures Valid() && hist.held == old(hist).held - multiset{QueueRef(q)}
      ensures if Flushing(old(heap), q)
              then Released(QueueRef(q)) && heap.buffers == old(heap).buffers
                   && heap.usedGlobalMemory == old(heap).usedGlobalMemory
              else Flushed(old(heap), old(hist), heap, hist, q) && Settled(heap, hist, |heap.commands|)
      decreases IdleQueues(heap), 1
    {
      hide Balanced;
      hide Shape;
      hide Settled;
      hide Sum;
      hide Drop;
      hide Flushed;
      ghost var h0, g0 := heap, hist;
      Flush(q);
      ghost var before, g := heap, hist;
      var r := QueueRef(q);
      DropInv(heap, hist, globalMemorySize, r);
      var context, last := heap.queues[q].context, heap.queues[q].referenceCount == 1;
      hist := hist.(held := HeldAfterDrop(heap, hist.held, r));
      heap := Drop(heap, r);
      if last {
        ghost var mid := heap;
        ReleaseContext(context);
        SameCoreTrans(before, mid, heap);
      }
      assert hist.held == g.held - multiset{r};
      if !Flushing(h0, q) {
        FlushedSameCore(h0, before, heap, g0, g, hist, q);
      }
    }

    method ReleaseEvent(e: nat)
      requires Valid() && hist.held[EventRef(e)] > 0 && e < |heap.events|
      requires !Flushing(heap, heap.events[e].queue) && heap.events[e].referenceCount == 1 ==>
                 Settled(heap, hist, |heap.commands|)
      modifies this
      ensures Valid() && hist.held == old(hist).held - multiset{EventRef(e)}
      ensures var q := old(heap).events[e].queue;
              if Flushing(old(heap), q) || Count(old(heap), EventRef(e)) > 1
              then Released(EventRef(e)) && heap.buffers == old(heap).buffers
                   && heap.usedGlobalMemory == old(heap).usedGlobalMemory
              else Flushed(old(heap), old(hist), heap, hist, q) && Settled(heap, hist, |heap.commands|)
      decreases IdleQueues(heap), 2
    {
      hide Balanced;
      hide Shape;
      hide Settled;
      hide Sum;
      hide Drop;
      hide Flushed;
      hide SameCore;
      ghost var before, g := heap, hist;
      var r := EventRef(e);
      EventFacts(heap, hist, globalMemorySize, e);
      DropInv(heap, hist, globalMemorySize, r);
      var context, queue, last := heap.events[e].context, heap.events[e].queue, heap.events[e].referenceCount == 1;
      hist := hist.(held := HeldAfterDrop(heap, hist.held, r));
      heap := Drop(heap, r);
      SameCoreFacts(before, heap, queue, e);
      if last {
        ghost var mid := heap;
        ReleaseContext(context);
        SameCoreTrans(before, mid, heap);
        SameCoreFacts(before, heap, queue, e);
        ghost var mid2, g2 := heap, hist;
        ReleaseCommandQueue(queue);
        assert hist.held == g.held - multiset{r};
        if Flushing(before, queue) {
          SameCoreTrans(before, mid2, heap);
        } else {
          SameCoreFlushed(before, mid2, heap, g, g2, hist, queue);
        }
      }
    }

    // `delete command`: the destructor of the command class, then the one of Command.
    method DeleteCommand(c: nat)
      requires Valid() && c < |heap.commands| && heap.commands[c].live && IsComplete(heap, c)
      requires heap.events[c].command == None
      requires Flushing(heap, heap.commands[c].queue) && c !in heap.queues[heap.commands[c].queue].deque
      modifies this
      ensures Valid() && hist == old(hist)
      ensures SameCore(KillCommand(old(heap), c), heap)
      decreases IdleQueues(heap), 3
    {
      hide Balanced;
      hide Shape;
      hide Settled;
      hide Sum;
      hide Flushed;
      hide SameCore;
      hide OperationBuffers;
      hide OwnRefs;
      var command := heap.commands[c];
      ghost var g, q := hist, command.queue;
      CommandFacts(heap, hist, globalMemorySize, c);
      OwnRefsParts(g.held, command);
      KillCommandInv(heap, hist, globalMemorySize, c);
      hist := hist.(held := hist.held + OwnRefs(command));
      heap := KillCommand(heap, c);
      ghost var killed := heap;
      ReleaseBuffers(command.op);
      assert hist.held == g.held + multiset{EventRef(c), QueueRef(q)};
      SameCoreFacts(killed, heap, q, c);
      ghost var buffersGone := heap;
      ReleaseEvent(command.event);
      assert hist.held == g.held + multiset{QueueRef(q)};
      SameCoreTrans(killed, buffersGone, heap);
      SameCoreFacts(killed, heap, q, c);
      ghost var eventGone := heap;
      ReleaseCommandQueue(command.queue);
      assert hist.held == g.held;
      SameCoreTrans(killed, eventGone, heap);
    }

    // The end of Command::execute, once the wait list is empty.
    method Run(c: nat)
      requires Valid() && c < |heap.commands| && heap.commands[c].live && IsQueued(heap, c)
      requires heap.commands[c].waitList == []
      requires forall i :: 0 <= i < |hist.deps[c]| ==> hist.deps[c][i] in hist.trace
      modifies this
      ensures Valid() && hist == old(hist).(trace := old(hist).trace + [c])
      ensures exists t0, t1, t2 :: old(heap).clock <= t0 <= t1 <= t2
                                   && heap == Completed(old(heap), c, RunOne(hist.ops, c, old(heap).memory), t0, t1, t2)
    {
      hide Balanced;
      hide Shape;
      hide Accounted;
      hide Settled;
      hide Sum;
      CommandFacts(heap, hist, globalMemorySize, c);
      ghost var before := heap;
      var event := heap.commands[c].event;
      var t0: nat :| t0 >= heap.clock;
      heap := heap.(events := heap.events[event := heap.events[event].(status := Submitted, timeSubmitted := t0)]);
      var t1: nat :| t1 >= t0;
      heap := heap.(events := heap.events[event := heap.events[event].(status := Running, timeStart := t1)]);
      assert forall r :: r in OperationBuffers(heap.commands[c].op) ==> Live(heap, r);
      var m := ExecuteImpl(heap.commands[c].op, heap.memory);
      heap := heap.(memory := m);
      var t2: nat :| t2 >= t1;
      heap := heap.(events := heap.events[event := heap.events[event].(status := Complete, timeEnd := t2)], clock := t2);
      assert m == RunOne(hist.ops, c, before.memory);
      assert heap == Completed(before, c, m, t0, t1, t2);
      FinishInv(before, hist, globalMemorySize, c, m, t0, t1, t2);
      hist := hist.(trace := hist.trace + [c]);
    }

    /**
      One turn of the loop over the wait list, which is a stack. Outside a flush the reference taken
      off may be the last one to its event: then the call is lost (see DriverWait).
    */
    method RunWaitEvent(c: nat) returns (lost: bool)
      requires Valid() && c < |heap.commands| && heap.commands[c].live && heap.commands[c].waitList != []
      requires IsQueued(heap, c) && Settled(heap, hist, c) && Waitable(heap, hist, c)
      modifies this
      ensures Valid()
      ensures WellFounded(old(hist).deps) && Top(old(heap), c) < |old(hist).deps|
      ensures var q, after := old(heap).commands[c].queue, Visit(old(hist).deps, Top(old(heap), c), old(hist).trace);
              if lost then !Flushing(old(heap), q) && Lost(old(heap), old(hist), heap, hist, after + [c])
              else
                var h1 := PopWait(old(heap), c);
                && hist == old(hist).(trace := after) && old(hist).trace <= hist.trace
                && Executed(h1, heap, c) && OnlyQueue(h1, heap, q)
                && heap.memory == Replay(hist.ops, |old(hist).trace|, hist.trace, old(heap).memory)
                && (!Flushing(old(heap), q) ==> KeepsEvents(old(heap), heap))
      decreases IdleQueues(heap), 3, c, 0
    {
      hide Balanced;
      hide Shape;
      hide Accounted;
      hide Settled;
      hide Sum;
      hide Executed;
      hide SameCore;
      hide OnlyQueue;
      hide KeepsEvents;
      hide Lost;
      hide Part;
      ghost var h, g, q := heap, hist, heap.commands[c].queue;
      var waitEvent := Top(heap, c);
      ghost var after := Visit(g.deps, waitEvent, g.trace);
      PopInv(heap, hist, globalMemorySize, c);
      hist := hist.(held := hist.held + multiset{EventRef(waitEvent)});
      heap := PopWait(heap, c);
      ghost var h1, g1 := heap, hist;
      Popped(h, g, globalMemorySize, c, after);
      if heap.events[waitEvent].status == Queued {
        SettledNarrow(heap, hist, waitEvent + 1, c);
        lost := Execute(heap.events[waitEvent].command.value);
        if lost {
          LostLater(h, g, h1, g1, heap, hist, after, after + [c]);
          return;
        }
        ExecutedWiden(h1, heap, waitEvent + 1, c);
      } else {
        ExecutedRefl(h1, c);
        OnlyQueueRefl(h1, q);
        KeepsEventsRefl(h1);
      }
      ghost var h2 := heap;
      ExecutedFacts(h1, h2, c, waitEvent, q);
      EventFacts(heap, hist, globalMemorySize, waitEvent);
      if !heap.queues[heap.events[waitEvent].queue].flushInProcess && heap.events[waitEvent].referenceCount == 1 {
        LostHere(h, g, h1, g1, h2, hist, c, after);
        return true;
      }
      lost := false;
      HeldIsLive(h2, hist.held, EventRef(waitEvent));
      assert Flushing(h2, q) || Count(h2, EventRef(waitEvent)) > 1;
      ReleaseEvent(waitEvent);
      assert hist.held == g.held;
      ReleasedExecuted(h1, h2, heap, c, q);
      SameCoreMemory(h2, heap);
      if !Flushing(h, q) {
        KeptOnRelease(h, h1, h2, g1.held, heap, hist.held, waitEvent);
      }
    }

    // The loop of Command::execute over the wait list.
    method RunWaitList(c: nat) returns (lost: bool)
      requires Valid() && c < |heap.commands| && heap.commands[c].live && IsQueued(heap, c)
      requires Settled(heap, hist, c + 1)
      modifies this
      ensures Valid()
      ensures WellFounded(old(hist).deps) && c < |old(hist).deps|
      ensures var q := old(heap).commands[c].queue;
              if lost then
                && !Flushing(old(heap), q)
                && Lost(old(heap), old(hist), heap, hist, Visit(old(hist).deps, c, old(hist).trace))
              else
                && Waiting(old(heap), old(hist), heap, hist, c) && heap.commands[c].waitList == []
                && (Flushing(heap, q) <==> Flushing(old(heap), q))
                && (!Flushing(old(heap), q) ==> KeepsEvents(old(heap), heap))
      decreases IdleQueues(heap), 3, c, 1
    {
      hide Balanced;
      hide Shape;
      hide Accounted;
      hide Settled;
      hide Sum;
      hide Executed;
      hide Waiting;
      hide Visit;
      hide VisitAll;
      hide Replay;
      hide KeepsEvents;
      hide Lost;
      hide Part;
      ghost var h0, g0, q := heap, hist, heap.commands[c].queue;
      WaitingInit(heap, hist, globalMemorySize, c);
      WaitingQueue(h0, g0, heap, hist, c);
      KeepsEventsRefl(h0);
      WaitingStart(h0, g0, c);
      while heap.commands[c].waitList != []
        invariant Valid() && c < |heap.commands| && Waiting(h0, g0, heap, hist, c)
        invariant (Flushing(heap, q) <==> Flushing(h0, q)) && IdleQueues(heap) == IdleQueues(h0)
        invariant !Flushing(h0, q) ==> KeepsEvents(h0, heap)
        decreases |heap.commands[c].waitList|
      {
        ghost var h, g := heap, hist;
        WaitingQueue(h0, g0, h, g, c);
        WaitingFacts(h0, g0, h, g, globalMemorySize, c);
        WaitingPart(h0, g0, h, g, c);
        lost := RunWaitEvent(c);
        if lost {
          LostLater(h0, g0, h, g, heap, hist, Visit(g.deps, Top(h, c), g.trace) + [c], Visit(g0.deps, c, g0.trace));
          return;
        }
        WaitingStep(h0, g0, h, g, heap, hist, c);
        WaitingQueue(h0, g0, heap, hist, c);
        if !Flushing(h0, q) {
          KeepsEventsTrans(h0, h, heap);
        }
      }
      lost := false;
      WaitingQueue(h0, g0, heap, hist, c);
    }

    // Command::execute
    method Execute(c: nat) returns (lost: bool)
      requires Valid() && c < |heap.commands| && heap.commands[c].live
      requires Settled(heap, hist, c + 1)
      modifies this
      ensures Valid()
      ensures WellFounded(old(hist).deps) && c < |old(hist).deps|
      ensures var q, after := old(heap).commands[c].queue, Visit(old(hist).deps, c, old(hist).trace);
              if lost then !Flushing(old(heap), q) && Lost(old(heap), old(hist), heap, hist, after)
              else
                && hist == old(hist).(trace := after) && old(hist).trace <= hist.trace
                && Executed(old(heap), heap, c + 1) && OnlyQueue(old(heap), heap, q) && IsComplete(heap, c)
                && heap.memory == Replay(hist.ops, |old(hist).trace|, hist.trace, old(heap).memory)
                && (!Flushing(old(heap), q) ==> KeepsEvents(old(heap), heap))
      decreases IdleQueues(heap), 3, c
    {
      hide Balanced;
      hide Shape;
      hide Accounted;
      hide Settled;
      hide Sum;
      hide Executed;
      hide KeepsEvents;
      hide Lost;
      CommandFacts(heap, hist, globalMemorySize, c);
      ghost var h0, g0, q := heap, hist, heap.commands[c].queue;
      KeepsEventsRefl(h0);
      lost := false;
      if heap.events[heap.commands[c].event].status != Queued {
        assert heap.commands[c].waitList == [];
        ExecutedRefl(heap, c + 1);
        return;
      }
      if heap.queues[heap.commands[c].queue].outOfOrder {
        lost := RunWaitList(c);
        if lost {
          return;
        }
      } else {
        NothingToWaitFor(heap, hist, globalMemorySize, c);
      }
      ghost var h1, g1 := heap, hist;
      assert Waiting(h0, g0, h1, g1, c);
      WaitedAll(h0, g0, h1, g1, globalMemorySize, c);
      assert forall i :: 0 <= i < |hist.deps[c]| ==> hist.deps[c][i] in hist.trace;
      Run(c);
      ghost var t0, t1, t2 :| h1.clock <= t0 <= t1 <= t2
                              && heap == Completed(h1, c, RunOne(g1.ops, c, h1.memory), t0, t1, t2);
      WaitedThenRun(h0, g0, h1, g1, heap, c, RunOne(g1.ops, c, h1.memory), t0, t1, t2);
      if !Flushing(h0, q) {
        KeepsEventsCompleted(h0, h1, c, RunOne(g1.ops, c, h1.memory), t0, t1, t2);
      }
    }

    method Flush(q: nat)
      requires Valid() && hist.held[QueueRef(q)] > 0 && q < |heap.queues|
      requires !Flushing(heap, q) ==> Settled(heap, hist, |heap.commands|)
      modifies this
      ensures Valid() && hist.held == old(hist).held
      ensures if Flushing(old(heap), q) then heap == old(heap) && hist == old(hist)
              else Flushed(old(heap), old(hist), heap, hist, q) && Settled(heap, hist, |heap.commands|)
      decreases IdleQueues(heap), 0
    {
      hide Balanced;
      hide Shape;
      hide Accounted;
      hide Settled;
      hide Sum;
      hide Executed;
      hide Draining;
      hide Deleting;
      hide Flushed;
      if heap.queues[q].flushInProcess {
        return;
      }
      ghost var h0, g0 := heap, hist;
      DrainingInit(heap, hist, globalMemorySize, q);
      heap := SetQueue(heap, q, heap.queues[q].deque, true);
      SetQueueIdle(h0, heap, q);

      var executedCommands := [];
      while heap.queues[q].deque != []
        invariant Valid() && q < |heap.queues| && Flushing(heap, q) && hist == g0.(trace := hist.trace)
        invariant Draining(h0, g0, heap, hist, q, executedCommands)
        invariant IdleQueues(heap) < IdleQueues(h0)
        decreases |heap.queues[q].deque|
      {
        ghost var h, g := heap, hist;
        assert Live(heap, QueueRef(q)) by { HeldIsLive(heap, hist.held, QueueRef(q)); }
        DrainingFacts(h0, g0, h, g, globalMemorySize, q, executedCommands);
        var command := Next(heap, q);
        heap := PopCommand(heap, q);
        SettledNarrow(heap, hist, command + 1, |heap.commands|);
        var lost := Execute(command);
        assert !lost;
        executedCommands := executedCommands + [command];
        DrainingStep(h0, g0, h, g, heap, hist, q, executedCommands[..|executedCommands| - 1]);
        DrainingQueue(h, heap, q, command + 1);
      }

      ghost var h1, g := heap, hist;
      DeletingInit(h0, g0, h1, g, q, executedCommands);
      for i := 0 to |executedCommands|
        invariant Valid() && hist == g && q < |heap.queues| && Flushing(heap, q) && heap.queues[q].deque == []
        invariant Deleting(h1, heap, executedCommands[..i])
        invariant IdleQueues(heap) < IdleQueues(h0)
      {
        var command := executedCommands[i];
        ghost var h := heap;
        DeletingFacts(h0, g0, h1, g, h, globalMemorySize, q, executedCommands, i);
        ClearCommandInv(heap, hist, globalMemorySize, command);
        heap := ClearCommand(heap, command);
        DeleteCommand(command);
        DeletingStep(h1, h, heap, executedCommands[..i], command);
        assert executedCommands[..i + 1] == executedCommands[..i] + [command];
        DeletingQueue(h, heap, command, q);
      }
      assert executedCommands[..|executedCommands|] == executedCommands;

      FlushIsComplete(h0, g0, globalMemorySize, h1, g, heap, q, executedCommands);
      assert Live(heap, QueueRef(q)) by { HeldIsLive(heap, hist.held, QueueRef(q)); }
      EndFlushInv(heap, hist, globalMemorySize, q);
      heap := SetQueue(heap, q, [], false);
    }

    // ------------------------------------------------------------ calls a client makes

    // No driver function is running.
    ghost predicate Quiet()
      reads this
    {
      Quiescent(heap, hist, globalMemorySize)
    }

    constructor (globalMemorySize: nat, host: seq<Byte>, clock: nat)
      ensures Quiet() && this.globalMemorySize == globalMemorySize
      ensures heap == Heap([], [], [], [], [], Memory([], host), 0, clock)
      ensures hist == History(multiset{}, [], [], [])
    {
      this.globalMemorySize := globalMemorySize;
      heap := Heap([], [], [], [], [], Memory([], host), 0, clock);
      hist := History(multiset{}, [], [], []);
    }

    method CreateContext() returns (context: nat)
      requires Quiet()
      modifies this
      ensures Quiet() && context == |old(heap).contexts| && heap == NewContext(old(heap))
      ensures hist == old(hist).(held := old(hist).held + multiset{ContextRef(context)})
    {
      hide Balanced;
      hide Shape;
      hide Settled;
      hide Sum;
      ghost var before, g := heap, hist;
      context := |heap.contexts|;
      NewContextInv(heap, hist, globalMemorySize);
      heap := NewContext(heap);
      hist := hist.(held := hist.held + multiset{ContextRef(context)});
      QuiescentGrow(before, g, heap, hist, globalMemorySize);
    }

    method CreateCommandQueue(context: nat, outOfOrder: bool) returns (queue: nat)
      requires Quiet() && hist.held[ContextRef(context)] > 0
      modifies this
      ensures Quiet() && queue == |old(heap).queues|
      ensures heap == NewQueue(old(heap), context, outOfOrder).(contexts := heap.contexts)
      // The new queue is ordered as asked for, empty, and belongs to the context.
      ensures var q := heap.queues[queue];
              && q.outOfOrder == outOfOrder && q.context == context && q.deque == []
              && !q.flushInProcess && q.referenceCount == 1 && q.live
      ensures heap.queues[..queue] == old(heap).queues
      ensures hist == old(hist).(held := old(hist).held + multiset{QueueRef(queue)})
    {
      hide Balanced;
      hide Shape;
      hide Settled;
      hide Sum;
      queue := |heap.queues|;
      ghost var before, g := heap, hist;
      HeldIsLive(heap, hist.held, ContextRef(context));
      Retain(ContextRef(context));
      NewQueueBalanced(heap, hist.held, context, outOfOrder);
      ghost var held := g.held + multiset{QueueRef(queue)};
      assert hist.held - multiset{ContextRef(context)} + multiset{QueueRef(queue)} == held;
      NewQueueShape(heap, hist, context, outOfOrder, held);
      heap := NewQueue(heap, context, outOfOrder);
      hist := hist.(held := held);
      QuiescentGrow(before, g, heap, hist, globalMemorySize);
    }

    // clCreateBuffer without CL_MEM_USE_HOST_PTR and without access flags.
    method CreateBuffer(context: nat, size: nat, copyHostPtr: bool, hostPtr: Option<nat>) returns (buffer: Result<nat>)
      requires Quiet() && hist.held[ContextRef(context)] > 0
      requires hostPtr.Some? ==> hostPtr.value + size <= |heap.memory.host|
      modifies this
      ensures Quiet()
      ensures buffer.Ok? <==> size > 0 && copyHostPtr == hostPtr.Some?
                              && old(heap).usedGlobalMemory + size <= globalMemorySize
      ensures buffer.Error? ==> heap == old(heap) && hist == old(hist)
      // The first thing wrong decides the error.
      ensures buffer.Error? ==> buffer.code == if size == 0 then InvalidBufferSize
                                               else if copyHostPtr != hostPtr.Some? then InvalidHostPtr
                                               else MemObjectAllocationFailure
      // The bytes are those at the host pointer, or zeros; every other buffer and host memory are as before.
      ensures buffer.Ok? ==>
                && buffer.value < |heap.buffers| == |heap.memory.buffers| && |heap.memory.buffers[buffer.value]| == size
                && (forall i :: 0 <= i < size ==>
                     heap.memory.buffers[buffer.value][i]
                     == if hostPtr.Some? then old(heap).memory.host[hostPtr.value + i] else 0)
                && heap.memory.buffers[..buffer.value] == old(heap).memory.buffers
                && heap.memory.host == old(heap).memory.host
                && heap.buffers[buffer.value].size == size && heap.buffers[buffer.value].context == context
                && heap.usedGlobalMemory == old(heap).usedGlobalMemory + size
      ensures buffer.Ok? ==>
                && buffer.value == |old(heap).buffers|
                && hist == old(hist).(held := old(hist).held + multiset{BufferRef(buffer.value)})
                && heap == NewBuffer(old(heap), context,
                                     if copyHostPtr then old(heap).memory.host[hostPtr.value..hostPtr.value + size]
                                     else seq(size, _ => 0)).(contexts := heap.contexts)
    {
      hide Balanced;
      hide Shape;
      hide Settled;
      hide Sum;
      if size == 0 {
        return Error(InvalidBufferSize);
      }
      if copyHostPtr != hostPtr.Some? {
        return Error(InvalidHostPtr);
      }
      if heap.usedGlobalMemory + size > globalMemorySize {
        return Error(MemObjectAllocationFailure);
      }
      var bytes := if copyHostPtr then heap.memory.host[hostPtr.value..hostPtr.value + size] else seq(size, _ => 0);
      buffer := Ok(|heap.buffers|);
      ghost var before, g := heap, hist;
      HeldIsLive(heap, hist.held, ContextRef(context));
      Retain(ContextRef(context));
      NewBufferBalanced(heap, hist.held, context, bytes);
      ghost var held := g.held + multiset{BufferRef(|before.buffers|)};
      assert hist.held - multiset{ContextRef(context)} + multiset{BufferRef(|heap.buffers|)} == held;
      NewBufferShape(heap, hist, context, bytes, held);
      NewBufferAccounting(heap, context, bytes);
      heap := NewBuffer(heap, context, bytes);
      hist := hist.(held := held);
      QuiescentGrow(before, g, heap, hist, globalMemorySize);
    }

    // clRetain*: the client copies a handle it holds.
    method RetainHandle(r: Ref)
      requires Quiet() && (hist.held[r] > 0 || Live(heap, r))
      modifies this
      ensures Quiet() && SameCore(old(heap), heap) && heap.usedGlobalMemory == old(heap).usedGlobalMemory
      ensures hist == old(hist).(held := old(hist).held + multiset{r})
    {
      hide Balanced;
      hide Shape;
      hide Settled;
      hide Accounted;
      hide Sum;
      ghost var h, g := heap, hist;
      if hist.held[r] > 0 {
        HeldIsLive(heap, hist.held, r);
      }
      Retain(r);
      QuiescentSameCore(h, g, heap, hist, globalMemorySize);
    }

    // clRelease*: the client gives a handle back. Releasing a queue, or an event for the last time,
    // flushes the queue.
    method ReleaseHandle(r: Ref)
      requires Quiet() && hist.held[r] > 0
      modifies this
      ensures Quiet() && hist.held == old(hist).held - multiset{r}
      ensures if r.QueueRef? then Flushed(old(heap), old(hist), heap, hist, r.id)
              else if r.EventRef? && Count(old(heap), r) == 1 then
                && r.id < |old(heap).events|
                && Flushed(old(heap), old(hist), heap, hist, old(heap).events[r.id].queue)
              else SameCore(old(heap), heap) && hist == old(hist).(held := old(hist).held - multiset{r})
    {
      hide Balanced;
      hide Shape;
      hide Settled;
      hide Accounted;
      hide Sum;
      hide Flushed;
      ghost var h, g := heap, hist;
      HeldIsLive(heap, hist.held, r);
      match r {
        case ContextRef(x) =>
          ReleaseContext(x);
          QuiescentSameCore(h, g, heap, hist, globalMemorySize);
        case QueueRef(q) =>
          ReleaseCommandQueue(q);
          QuiescentFlushed(h, g, heap, hist, globalMemorySize, q);
        case EventRef(e) =>
          EventFacts(heap, hist, globalMemorySize, e);
          ghost var q := heap.events[e].queue;
          ReleaseEvent(e);
          if Count(h, EventRef(e)) > 1 {
            QuiescentSameCore(h, g, heap, hist, globalMemorySize);
          } else {
            QuiescentFlushed(h, g, heap, hist, globalMemorySize, q);
          }
        case BufferRef(b) =>
          ReleaseMemObject(b);
          QuiescentSameCore(h, g, heap, hist, globalMemorySize);
      }
    }

    // clFinish, and clFlush, which calls it.
    method Finish(q: nat)
      requires Quiet() && hist.held[QueueRef(q)] > 0
      modifies this
      ensures Quiet() && hist.held == old(hist).held && Flushed(old(heap), old(hist), heap, hist, q)
    {
      hide Balanced;
      hide Shape;
      hide Settled;
      hide Accounted;
      hide Sum;
      hide Flushed;
      ghost var h, g := heap, hist;
      HeldIsLive(heap, hist.held, QueueRef(q));
      Flush(q);
      QuiescentFlushed(h, g, heap, hist, globalMemorySize, q);
    }

    /**
      clWaitForEvents, which executes the commands of the events one after the other, outside a flush.
      It is lost exactly if some event that a command still to run waits for is referred to from nowhere
      else; a command it runs stays in its deque and is skipped by the next flush.
    */
    method WaitForEvents(events: seq<nat>) returns (outcome: WaitOutcome)
      requires Quiet()
      requires forall i :: 0 <= i < |events| ==> events[i] < |heap.events| && hist.held[EventRef(events[i])] > 0
      modifies this
      ensures Valid()
      ensures outcome == NoEvents <==> events == []
      ensures outcome == NoEvents ==> heap == old(heap) && hist == old(hist)
      ensures WellFounded(old(hist).deps) && Below(events, |old(hist).deps|)
      ensures outcome == LostCommand <==> Loses(old(heap), old(hist), events)
      ensures var after := Drain(old(hist).deps, false, events, old(hist).trace);
              && (outcome == Waited ==>
                    && Quiet() && hist == old(hist).(trace := after) && old(hist).trace <= after
                    && Executed(old(heap), heap, |heap.commands|)
                    && heap.memory == Replay(hist.ops, |old(hist).trace|, after, old(heap).memory)
                    && forall i :: 0 <= i < |events| ==> IsComplete(heap, events[i]))
    {
      hide Quiescent;
      hide Executed;
      hide Drain;
      hide Replay;
      hide WaitedFor;
      hide Loses;
      hide Below;
      hide WellFounded;
      ghost var h0, g0 := heap, hist;
      WaitStart(heap, hist, globalMemorySize, events);
      QuiescentInv(heap, hist, globalMemorySize);
      NoneIsNotLost(heap, hist);
      WaitedForSays(h0, g0, heap, hist, events, 0);
      if events == [] {
        return NoEvents;
      }
      for i := 0 to |events|
        invariant Quiet() && WaitedFor(h0, g0, heap, hist, events, i) && |heap.events| == |h0.events|
      {
        var lost := WaitForEvent(events[i], h0, g0, events, i);
        if lost {
          return LostCommand;
        }
      }
      WaitDone(h0, g0, heap, hist, globalMemorySize, events);
      WaitedForSays(h0, g0, heap, hist, events, |events|);
      QuiescentInv(heap, hist, globalMemorySize);
      return Waited;
    }

    // One turn of the loop of clWaitForEvents.
    method WaitForEvent(event: nat, ghost h0: Heap, ghost g0: History, ghost events: seq<nat>, ghost i: nat)
      returns (lost: bool)
      requires Quiescent(h0, g0, globalMemorySize) && i < |events| && event == events[i] < |heap.events|
      requires Quiet() && WaitedFor(h0, g0, heap, hist, events, i)
      modifies this
      ensures Valid()
      ensures if lost then Loses(h0, g0, events)
              else Quiet() && WaitedFor(h0, g0, heap, hist, events, i + 1) && |heap.events| == |old(heap).events|
    {
      hide Quiescent;
      hide Inv;
      hide Executed;
      hide Drain;
      hide Visit;
      hide Replay;
      hide WaitedFor;
      hide Loses;
      hide Lost;
      hide KeepsEvents;
      hide Settled;
      hide WellFounded;
      ghost var h, g := heap, hist;
      WaitFacts(h, g, globalMemorySize, event);
      QuiescentInv(h, g, globalMemorySize);
      WaitedForSays(h0, g0, h, g, events, i);
      ExecutedLengths(h0, h, |h0.commands|);
      ExecutedRefl(h, |h0.commands|);
      KeepsEventsRefl(h);
      ReplayNothing(g.ops, g.trace, h.memory);
      lost := false;
      if heap.events[event].command.Some? {
        SettledNarrow(heap, hist, event + 1, |heap.commands|);
        lost := Execute(heap.events[event].command.value);
        if lost {
          WaitLost(h0, g0, h, g, heap, hist, globalMemorySize, events, i);
          return;
        }
        ExecutedWiden(h, heap, event + 1, |h0.commands|);
      }
      WaitNext(h0, g0, h, g, heap, hist, globalMemorySize, events, i);
      ExecutedLengths(h, heap, |h0.commands|);
    }

    /**
      What the code does where the model stops: outside a flush, command c has taken the last reference
      to a finished event off its wait list and gives it back. The event is deleted and its destructor
      flushes the queue, so the command that goes on executing has been run and deleted.
    */
    method LoseCommand(c: nat)
      requires Quiet() && c < |heap.commands| && heap.commands[c].live && heap.commands[c].waitList != []
      requires Top(heap, c) in hist.trace && Count(heap, EventRef(Top(heap, c))) == 1
      modifies this
      ensures Quiet() && c < |heap.commands| && !heap.commands[c].live && IsComplete(heap, c) && c in hist.trace
      ensures hist.held == old(hist).held
    {
      hide Balanced;
      hide Shape;
      hide Settled;
      hide Accounted;
      hide Sum;
      hide Flushed;
      ghost var h, g, q := heap, hist, heap.commands[c].queue;
      var waitEvent := Top(heap, c);
      LoseFacts(h, g, globalMemorySize, c);
      PopInv(heap, hist, globalMemorySize, c);
      PopRunSettled(heap, hist, hist.held + multiset{EventRef(waitEvent)}, c);
      hist := hist.(held := hist.held + multiset{EventRef(waitEvent)});
      heap := PopWait(heap, c);
      ghost var h1, g1 := heap, hist;
      ReleaseEvent(waitEvent);
      assert hist.held == g.held;
      FlushedIsGone(h1, g1, heap, hist, globalMemorySize, q, c);
      QuiescentPopFlushed(h, g, h1, g1, heap, hist, globalMemorySize, q, c);
    }

    // Command::addEventsToWaitList
    method AddEventsToWaitList(waitList: seq<nat>)
      requires Quiet() && forall i :: 0 <= i < |waitList| ==> hist.held[EventRef(waitList[i])] > 0
      modifies this
      ensures Quiet() && SameCore(old(heap), heap) && heap.usedGlobalMemory == old(heap).usedGlobalMemory
      ensures hist == old(hist).(held := old(hist).held + WaitRefs(waitList))
    {
      hide Quiescent;
      hide SameCore;
      ghost var h, g := heap, hist;
      SameCoreRefl(h);
      for i := 0 to |waitList|
        invariant Quiet() && SameCore(h, heap) && hist == g.(held := g.held + WaitRefs(waitList[..i]))
        invariant heap.usedGlobalMemory == h.usedGlobalMemory
      {
        ghost var before := heap;
        RetainHandle(EventRef(waitList[i]));
        SameCoreTrans(h, before, heap);
        assert waitList[..i + 1][..i] == waitList[..i];
      }
      assert waitList[..|waitList|] == waitList;
    }

    // The buffer command constructors: each retains its buffers, a copy its source first.
    method RetainBuffers(op: Operation)
      requires Quiet() && forall r :: r in OperationBuffers(op) ==> hist.held[r] > 0
      modifies this
      ensures Quiet() && SameCore(old(heap), heap) && heap.usedGlobalMemory == old(heap).usedGlobalMemory
      ensures hist == old(hist).(held := old(hist).held + OperationBuffers(op))
    {
      hide Quiescent;
      hide SameCore;
      ghost var h, g := heap, hist;
      match op {
        case Read(b, _, _, _) => RetainHandle(BufferRef(b));
        case Write(b, _, _, _) => RetainHandle(BufferRef(b));
        case Fill(b, _, _, _) => RetainHandle(BufferRef(b));
        case Copy(s, d, _, _, _) =>
          CopyBuffers(g.held, op);
          assert BufferRef(s) in OperationBuffers(op) && BufferRef(d) in OperationBuffers(op);
          hide OperationBuffers;
          RetainHandle(BufferRef(s));
          ghost var between := heap;
          RetainHandle(BufferRef(d));
          SameCoreTrans(h, between, heap);
      }
    }

    lemma HeldSum(h: Heap, held: multiset<Ref>, q: nat, op: Operation, waitList: seq<nat>)
      requires q < |h.queues|
      ensures held + multiset{QueueRef(q)} + OperationBuffers(op) + multiset{ContextRef(h.queues[q].context)}
              + multiset{QueueRef(q)} + WaitRefs(waitList)
              == held + LinkRefs(h, q, op, waitList)
    {
      hide OperationBuffers;
      hide WaitRefs;
    }

    // The retains of the constructors of the command and of its event, and of addEventsToWaitList.
    method RetainForLink(q: nat, op: Operation, waitList: seq<nat>)
      requires Quiet() && hist.held[QueueRef(q)] > 0 && q < |heap.queues|
      requires forall r :: r in OperationBuffers(op) ==> hist.held[r] > 0
      requires forall i :: 0 <= i < |waitList| ==> hist.held[EventRef(waitList[i])] > 0
      modifies this
      ensures Quiet() && SameCore(old(heap), heap) && heap.usedGlobalMemory == old(heap).usedGlobalMemory
      ensures hist == old(hist).(held := old(hist).held + LinkRefs(old(heap), q, op, waitList))
    {
      hide Quiescent;
      hide SameCore;
      hide Live;
      hide Count;
      hide LinkRefs;
      hide OperationBuffers;
      hide WaitRefs;
      ghost var h, g, context := heap, hist, heap.queues[q].context;
      RetainHandle(QueueRef(q));
      ghost var h1 := heap;
      RetainBuffers(op);
      SameCoreTrans(h, h1, heap);
      SameCoreQueue(h, heap, q);
      QuiescentContextLive(heap, hist, globalMemorySize, q);
      ghost var h2 := heap;
      RetainHandle(ContextRef(heap.queues[q].context));
      SameCoreTrans(h, h2, heap);
      ghost var h3 := heap;
      RetainHandle(QueueRef(q));
      SameCoreTrans(h, h3, heap);
      ghost var h4 := heap;
      AddEventsToWaitList(waitList);
      SameCoreTrans(h, h4, heap);
      HeldSum(h, g.held, q, op, waitList);
    }

    // enqueueCommand. The handle to the new event stays with the caller whether or not it asked for it.
    method EnqueueCommand(q: nat, op: Operation, waitList: seq<nat>) returns (event: nat)
      requires Quiet() && hist.held[QueueRef(q)] > 0 && Fits(op, heap.memory)
      requires forall r :: r in OperationBuffers(op) ==> hist.held[r] > 0
      requires forall i :: 0 <= i < |waitList| ==>
                             && waitList[i] < |heap.events| && hist.held[EventRef(waitList[i])] > 0
                             && heap.events[waitList[i]].queue == q
      requires q < |heap.queues| && (!heap.queues[q].outOfOrder ==> waitList == [])
      modifies this
      ensures Quiet() && event == |old(heap).events| == |old(heap).commands|
      ensures hist == LinkHistory(old(hist), op, waitList, old(hist).held + multiset{EventRef(event)})
      ensures heap.clock >= old(heap).clock && heap.usedGlobalMemory == old(heap).usedGlobalMemory
      ensures SameCore(Link(old(heap), q, op, waitList, heap.clock), heap)
      // The command is last in the deque of its queue, queued now, and waits for the whole list.
      ensures event < |heap.commands| && heap.commands[event] == Command(q, event, op, waitList, true)
      ensures event < |heap.events|
      ensures var e := heap.events[event];
              e.status == Queued && e.timeQueued == heap.clock && e.command == Some(event) && e.queue == q
      ensures q < |heap.queues| && heap.queues[q].deque == old(heap).queues[q].deque + [event]
      ensures heap.memory == old(heap).memory
    {
      hide Balanced;
      hide Shape;
      hide Settled;
      hide Accounted;
      hide Sum;
      hide SameCore;
      hide LinkRefs;
      hide Quiescent;
      ghost var h, g := heap, hist;
      event := |heap.commands|;
      RetainForLink(q, op, waitList);
      ghost var h1 := heap;
      SameCoreLink(h, h1, g, globalMemorySize, q, op, waitList);
      var now: nat :| now >= heap.clock;
      LinkQuiescent(heap, hist, globalMemorySize, g.held, q, op, waitList, now);
      LinkSameCore(h, heap, q, op, waitList, now);
      SameCoreQueue(h, heap, q);
      LinkedAtEnd(heap, q, op, waitList, now);
      hist := LinkHistory(hist, op, waitList, g.held + multiset{EventRef(event)});
      heap := Link(heap, q, op, waitList, now);
    }
  }
}
