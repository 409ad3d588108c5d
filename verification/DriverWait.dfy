/**
  Executing a command outside a flush, as clWaitForEvents does.

  Nothing keeps an event alive while it is taken off a wait list but its other references. If the one
  taken off is the last, the event is deleted, and its destructor releases, and so flushes, the queue:
  the flush runs and deletes the very command whose wait list is being read. Here execution stops at
  that point and the call is lost.
*/
module DriverWait {
  import opened Wrappers
  import opened BufferCommands
  import opened DrainOrder
  import opened DriverHeap
  import opened DriverInvariant
  import opened DriverSteps

  // ---------------------------------------------------------------- what has changed so far

  ghost predicate Shorter(c: Command, c': Command) {
    c' == c.(waitList := c'.waitList) && c'.waitList <= c.waitList
  }

  // Since h0, only wait lists of commands in `after` that had not run have got shorter.
  ghost predicate Part(h0: Heap, h: Heap, before: seq<nat>, after: seq<nat>) {
    && |h.commands| == |h0.commands| && |h.events| == |h0.events|
    && forall k :: 0 <= k < |h0.commands| ==>
                     && Shorter(h0.commands[k], h.commands[k])
                     && (k in before || k !in after ==> h.commands[k] == h0.commands[k])
  }

  // No event has been deleted.
  ghost predicate KeepsEvents(h: Heap, h': Heap) {
    |h'.events| == |h.events| && forall e :: 0 <= e < |h.events| && h.events[e].live ==> h'.events[e].live
  }

  // The reference to event x, taken off the wait list of a command in `after`, is the last one.
  ghost predicate LastOne(h0: Heap, g0: History, h: Heap, g: History, after: seq<nat>, k: nat, x: nat) {
    && k < |h0.commands| && h0.commands[k].live && k !in g0.trace && k in after && x in h0.commands[k].waitList
    && Count(h, EventRef(x)) == 1 && g.held[EventRef(x)] > g0.held[EventRef(x)]
  }

  ghost predicate Lost(h0: Heap, g0: History, h: Heap, g: History, after: seq<nat>) {
    && Part(h0, h, g0.trace, after) && g0.held <= g.held
    && exists k, x :: LastOne(h0, g0, h, g, after, k, x)
  }

  lemma {:induction false} PartTrans(h0: Heap, h1: Heap, h2: Heap, t0: seq<nat>, t1: seq<nat>, after': seq<nat>,
                                     after: seq<nat>)
    requires Part(h0, h1, t0, after) && Part(h1, h2, t1, after')
    requires forall k :: k in t0 ==> k in t1
    requires forall k :: k in after' ==> k in after
    ensures Part(h0, h2, t0, after)
  {
    forall k | 0 <= k < |h0.commands|
      ensures Shorter(h0.commands[k], h2.commands[k])
      ensures k in t0 || k !in after ==> h2.commands[k] == h0.commands[k]
    {
      assert Shorter(h0.commands[k], h1.commands[k]) && Shorter(h1.commands[k], h2.commands[k]);
    }
  }

  // A reference lost later is lost.
  lemma {:induction false} LostLater(h0: Heap, g0: History, h1: Heap, g1: History, h: Heap, g: History,
                                     after': seq<nat>, after: seq<nat>)
    requires Part(h0, h1, g0.trace, after) && g0.held <= g1.held && Lost(h1, g1, h, g, after')
    requires forall k :: k in g0.trace ==> k in g1.trace
    requires forall k :: k in after' ==> k in after
    ensures Lost(h0, g0, h, g, after)
  {
    PartTrans(h0, h1, h, g0.trace, g1.trace, after', after);
    var k: nat, x: nat :| LastOne(h1, g1, h, g, after', k, x);
    assert Shorter(h0.commands[k], h1.commands[k]);
    assert LastOne(h0, g0, h, g, after, k, x);
  }

  // What executing has changed is in this sense part of the commands that have run.
  lemma {:induction false} ExecutedPart(h: Heap, g: History, h': Heap, g': History, n: nat)
    requires Shape(h, g) && Shape(h', g') && Executed(h, h', n)
    ensures Part(h, h', g.trace, g'.trace)
  {
    forall k | 0 <= k < |h.commands|
      ensures Shorter(h.commands[k], h'.commands[k])
      ensures k in g.trace || k !in g'.trace ==> h'.commands[k] == h.commands[k]
    {
      assert Advanced(h, h', k);
      assert k in g.trace <==> IsComplete(h, k);
      assert k in g'.trace <==> IsComplete(h', k);
    }
  }

  lemma {:induction false} PopPart(h: Heap, before: seq<nat>, after: seq<nat>, c: nat)
    requires c < |h.commands| && h.commands[c].waitList != [] && c !in before
    ensures Part(h, PopWait(h, c), before, after + [c])
  {
  }

  // Halfway through the wait list of c.
  lemma {:induction false} WaitingPart(h0: Heap, g0: History, h: Heap, g: History, c: nat)
    requires Shape(h0, g0) && Shape(h, g) && Waiting(h0, g0, h, g, c) && IsQueued(h0, c)
    ensures c < |g0.deps| && c !in g0.trace
    ensures Part(h0, h, g0.trace, Visit(g0.deps, c, g0.trace))
    ensures forall k :: k in g0.trace ==> k in g.trace
    ensures forall k :: k in g.trace ==> k in Visit(g0.deps, c, g0.trace)
    ensures h.commands[c].waitList != [] ==>
              var top := Top(h, c);
              top < c && forall k :: k in Visit(g0.deps, top, g.trace) + [c] ==> k in Visit(g0.deps, c, g0.trace)
  {
    var w, all := h.commands[c].waitList, Visit(g0.deps, c, g0.trace);
    hide Replay;
    hide Ordered;
    assert c !in g0.trace;
    assert Below(w, c) by {
      forall i | 0 <= i < |w| ensures w[i] < c { assert w[i] == g0.deps[c][i]; }
    }
    RestIsVisited(g0.deps, c, w, g.trace);
    hide Visit;
    hide VisitAll;
    assert forall k :: k in g.trace ==> k in all by { VisitUnfolds(g0.deps, c, g0.trace); }
    assert w != [] ==> forall k :: k in Visit(g0.deps, Top(h, c), g.trace) + [c] ==> k in all by {
      VisitUnfolds(g0.deps, c, g0.trace);
    }
    var a := WithWait(h0, c, w);
    forall k | 0 <= k < |h0.commands|
      ensures Shorter(h0.commands[k], h.commands[k])
      ensures k in g0.trace || k !in all ==> h.commands[k] == h0.commands[k]
    {
      assert Advanced(a, h, k);
      assert k in g0.trace <==> IsComplete(h0, k);
      assert k in g.trace <==> IsComplete(h, k);
    }
  }

  lemma VisitUnfolds(deps: seq<seq<nat>>, c: nat, done: seq<nat>)
    requires WellFounded(deps) && c < |deps| && c !in done
    ensures Visit(deps, c, done) == VisitAll(deps, c, deps[c], done) + [c]
  {
  }

  lemma {:induction false} RestIsVisited(deps: seq<seq<nat>>, c: nat, w: seq<nat>, done: seq<nat>)
    requires WellFounded(deps) && c < |deps| && Below(w, c) && Distinct(done) && Ordered(deps, done)
    ensures forall k :: k in done ==> k in VisitAll(deps, c, w, done)
    ensures w != [] ==> forall k :: k in Visit(deps, w[|w| - 1], done) ==> k in VisitAll(deps, c, w, done)
  {
    VisitAllGrows(deps, c, w, done);
    if w != [] {
      var top := w[|w| - 1];
      VisitGrows(deps, top, done);
      VisitAllGrows(deps, c, w[..|w| - 1], Visit(deps, top, done));
    }
  }

  // ---------------------------------------------------------------- counting references to events

  // References to events come from commands only.
  lemma {:induction false} EventRefsAreCommands(h: Heap, x: nat)
    ensures Refs(h, EventRef(x)) == Sum(h.commands, CommandRefs(EventRef(x)))
  {
    var r := EventRef(x);
    SumZero(h.events, EventRefs(r));
    SumZero(h.queues, QueueRefs(r));
    SumZero(h.buffers, BufferRefs(r));
  }

  // With the same commands, only the references held outside decide.
  lemma {:induction false} HeldDecides(h: Heap, held: multiset<Ref>, h': Heap, held': multiset<Ref>, x: nat)
    requires Balanced(h, held) && Balanced(h', held') && h'.commands == h.commands
    ensures Count(h', EventRef(x)) + held[EventRef(x)] == Count(h, EventRef(x)) + held'[EventRef(x)]
  {
    hide Sum;
    EventRefsAreCommands(h, x);
    EventRefsAreCommands(h', x);
    assert Count(h, EventRef(x)) == held[EventRef(x)] + Refs(h, EventRef(x));
    assert Count(h', EventRef(x)) == held'[EventRef(x)] + Refs(h', EventRef(x));
  }

  lemma {:induction false} ReleaseKeepsEvents(h: Heap, held: multiset<Ref>, h': Heap, held': multiset<Ref>, x: nat)
    requires Balanced(h, held) && Balanced(h', held') && h'.commands == h.commands && |h'.events| == |h.events|
    requires held' == held - multiset{EventRef(x)} && held[EventRef(x)] > 0 && Count(h, EventRef(x)) > 1
    ensures KeepsEvents(h, h')
  {
    hide Refs;
    forall e | 0 <= e < |h.events| && h.events[e].live ensures h'.events[e].live {
      HeldDecides(h, held, h', held', e);
      assert Live(h, EventRef(e)) <==> Count(h, EventRef(e)) > 0;
      assert Live(h', EventRef(e)) <==> Count(h', EventRef(e)) > 0;
    }
  }

  lemma {:induction false} SumIsPositive<T>(s: seq<T>, w: T -> nat) returns (i: nat)
    requires Sum(s, w) > 0
    ensures i < |s| && w(s[i]) > 0
  {
    var n := |s| - 1;
    i := n;
    if w(s[n]) == 0 {
      i := SumIsPositive(s[..n], w);
    }
  }

  lemma {:induction false} SumIsZero<T>(s: seq<T>, w: T -> nat, i: nat)
    requires Sum(s, w) == 0 && i < |s|
    ensures w(s[i]) == 0
  {
    SumUpdate(s, i, s[i], w);
  }

  // A command refers to an event if it owns it or waits for it.
  lemma {:induction false} RefersToEvent(c: Command, x: nat)
    ensures CommandRefs(EventRef(x))(c) > 0 <==> c.live && (c.event == x || x in c.waitList)
  {
    hide WaitRefs;
    WaitRefsMembers(c.waitList, x);
  }

  lemma {:induction false} WaitRefsMembers(waitList: seq<nat>, x: nat)
    ensures EventRef(x) in WaitRefs(waitList) <==> x in waitList
  {
    if waitList != [] {
      WaitRefsMembers(waitList[..|waitList| - 1], x);
    }
  }

  lemma KeepsEventsRefl(h: Heap)
    ensures KeepsEvents(h, h)
  {
  }

  lemma KeepsEventsTrans(a: Heap, b: Heap, c: Heap)
    requires KeepsEvents(a, b) && KeepsEvents(b, c)
    ensures KeepsEvents(a, c)
  {
  }

  lemma KeepsEventsCompleted(h0: Heap, h: Heap, c: nat, m: Memory, t0: nat, t1: nat, t2: nat)
    requires KeepsEvents(h0, h) && c < |h.events|
    ensures KeepsEvents(h0, Completed(h, c, m, t0, t1, t2))
  {
  }

  // ---------------------------------------------------------------- one turn of the loop

  lemma WaitingStart(h: Heap, g: History, c: nat)
    requires Waiting(h, g, h, g, c)
    ensures WellFounded(g.deps) && c < |g.deps| && IsQueued(h, c)
  {
  }

  // Taking the top event off moves its reference.
  lemma {:induction false} Popped(h: Heap, g: History, size: nat, c: nat, after: seq<nat>)
    requires Inv(h, g, size) && c < |h.commands| && h.commands[c].waitList != [] && IsQueued(h, c)
    ensures c !in g.trace && Part(h, PopWait(h, c), g.trace, after + [c])
    ensures KeepsEvents(h, PopWait(h, c))
  {
    hide Balanced;
    PopPart(h, g.trace, after, c);
  }

  // The event taken off has no reference left but the one just taken.
  lemma {:induction false} LostHere(h: Heap, g: History, h1: Heap, g1: History, h2: Heap, g2: History, c: nat,
                                    after: seq<nat>)
    requires c < |h.commands| && h.commands[c].live && h.commands[c].waitList != [] && h1 == PopWait(h, c)
    requires c !in g.trace && Part(h, h1, g.trace, after + [c]) && Executed(h1, h2, c)
    requires Shape(h1, g1) && Shape(h2, g2) && g1.trace == g.trace && g2.trace == after
    requires g2.held == g.held + multiset{EventRef(Top(h, c))}
    requires Top(h, c) < |h2.events| && h2.events[Top(h, c)].referenceCount == 1
    ensures Lost(h, g, h2, g2, after + [c])
  {
    ExecutedPart(h1, g1, h2, g2, c);
    hide Shape;
    hide Executed;
    PartTrans(h, h1, h2, g.trace, g.trace, after, after + [c]);
    assert LastOne(h, g, h2, g2, after + [c], c, Top(h, c));
  }

  lemma {:induction false} KeptOnRelease(h: Heap, h1: Heap, h2: Heap, held2: multiset<Ref>, h3: Heap,
                                         held3: multiset<Ref>, x: nat)
    requires KeepsEvents(h, h1) && KeepsEvents(h1, h2)
    requires Balanced(h2, held2) && Balanced(h3, held3) && SameCore(h2, h3)
    requires held3 == held2 - multiset{EventRef(x)} && held2[EventRef(x)] > 0 && Count(h2, EventRef(x)) > 1
    ensures KeepsEvents(h, h3)
  {
    hide Balanced;
    ReleaseKeepsEvents(h2, held2, h3, held3, x);
  }

  // ---------------------------------------------------------------- when a wait is lost

  // Something besides the commands about to run refers to event x: a handle, its own command, or the
  // wait list of another command.
  ghost predicate Elsewhere(h: Heap, g: History, after: seq<nat>, x: nat) {
    || g.held[EventRef(x)] > 0
    || (x < |h.commands| && h.commands[x].live)
    || exists k ::
         0 <= k < |h.commands| && h.commands[k].live && (k in g.trace || k !in after) && x in h.commands[k].waitList
  }

  // Every event waited for by a command about to run is referred to from elsewhere too.
  ghost predicate Kept(h: Heap, g: History, after: seq<nat>) {
    forall k, x :: (0 <= k < |h.commands| && h.commands[k].live && k !in g.trace && k in after
                    && x in h.commands[k].waitList) ==> Elsewhere(h, g, after, x)
  }

  // Waiting for these events deletes a command while it is executed.
  ghost predicate Loses(h: Heap, g: History, events: seq<nat>) {
    && events != [] && WellFounded(g.deps) && Below(events, |g.deps|)
    && !Kept(h, g, Drain(g.deps, false, events, g.trace))
  }

  lemma {:induction false} LostIsUnkept(h0: Heap, g0: History, h: Heap, g: History, size: nat, after: seq<nat>)
    requires Inv(h, g, size) && Lost(h0, g0, h, g, after)
    ensures !Kept(h0, g0, after)
  {
    var k: nat, x: nat :| LastOne(h0, g0, h, g, after, k, x);
    var r := EventRef(x);
    EventRefsAreCommands(h, x);
    assert Count(h, r) == g.held[r] + Refs(h, r);
    assert Sum(h.commands, CommandRefs(r)) == 0 && g0.held[r] == 0;
    hide Balanced;
    hide Accounted;
    hide Sum;
    forall j | 0 <= j < |h.commands|
      ensures h.commands[j].live ==> h.commands[j].event == j && j != x && x !in h.commands[j].waitList
    {
      assert CommandOk(h, g, j);
      SumIsZero(h.commands, CommandRefs(r), j);
      RefersToEvent(h.commands[j], x);
    }
    hide Shape;
    assert !Elsewhere(h0, g0, after, x) by {
      forall j | 0 <= j < |h0.commands| && h0.commands[j].live
        ensures j != x && ((j in g0.trace || j !in after) ==> x !in h0.commands[j].waitList)
      {
        assert Shorter(h0.commands[j], h.commands[j]);
      }
    }
  }

  lemma {:induction false} FinishedIsKept(h0: Heap, g0: History, h: Heap, g: History, size: nat)
    requires Inv(h0, g0, size) && Inv(h, g, size) && g.held == g0.held
    requires Part(h0, h, g0.trace, g.trace) && KeepsEvents(h0, h)
    ensures Kept(h0, g0, g.trace)
  {
    forall k, x | 0 <= k < |h0.commands| && h0.commands[k].live && k !in g0.trace && k in g.trace
                  && x in h0.commands[k].waitList
      ensures Elsewhere(h0, g0, g.trace, x)
    {
      StillReferred(h0, g0, h, g, size, k, x);
    }
  }

  lemma {:induction false} StillReferred(h0: Heap, g0: History, h: Heap, g: History, size: nat, k: nat, x: nat)
    requires Inv(h0, g0, size) && Inv(h, g, size) && g.held == g0.held
    requires Part(h0, h, g0.trace, g.trace) && KeepsEvents(h0, h)
    requires k < |h0.commands| && h0.commands[k].live && x in h0.commands[k].waitList
    ensures Elsewhere(h0, g0, g.trace, x)
  {
    var r := EventRef(x);
    WaitRefsMembers(h0.commands[k].waitList, x);
    CommandTargetsLive(h0, g0.held, k, r);
    assert Live(h, r);
    assert Live(h, r) <==> Count(h, r) > 0;
    assert Count(h, r) == g.held[r] + Refs(h, r);
    EventRefsAreCommands(h, x);
    if g.held[r] == 0 {
      var j := SumIsPositive(h.commands, CommandRefs(r));
      RefersToEvent(h.commands[j], x);
      assert CommandOk(h, g, j);
      assert Shorter(h0.commands[j], h.commands[j]);
      if j in g.trace {
        assert IsComplete(h, j);
      }
    }
  }

  // ---------------------------------------------------------------- waiting for a list of events

  // The first n events have been waited for.
  ghost predicate WaitedFor(h0: Heap, g0: History, h: Heap, g: History, events: seq<nat>, n: nat) {
    && WellFounded(g0.deps) && Below(events, |g0.deps|) && n <= |events|
    && g == g0.(trace := g.trace) && g0.trace <= g.trace
    && Drain(g0.deps, false, events, g0.trace) == Drain(g0.deps, false, events[n..], g.trace)
    && Executed(h0, h, |h0.commands|) && KeepsEvents(h0, h)
    && h.memory == Replay(g0.ops, |g0.trace|, g.trace, h0.memory)
    && forall i :: 0 <= i < n ==> IsComplete(h, events[i])
  }

  lemma {:induction false} WaitStart(h: Heap, g: History, size: nat, events: seq<nat>)
    requires Quiescent(h, g, size) && forall i :: 0 <= i < |events| ==> events[i] < |h.events|
    ensures WaitedFor(h, g, h, g, events, 0)
  {
    hide Balanced;
    hide Drain;
    assert events[0..] == events;
    ExecutedRefl(h, |h.commands|);
  }

  // The event has run, or its command can be executed.
  lemma {:induction false} WaitFacts(h: Heap, g: History, size: nat, e: nat)
    requires Quiescent(h, g, size) && e < |h.events|
    ensures |h.commands| == |h.events| == |g.deps| && WellFounded(g.deps)
    ensures h.events[e].command.None? ==> Visit(g.deps, e, g.trace) == g.trace && IsComplete(h, e)
    ensures h.events[e].command.Some? ==> h.events[e].command.value == e && h.commands[e].live
    ensures !Flushing(h, h.commands[e].queue)
  {
    hide Balanced;
    assert CommandOk(h, g, e);
    assert e in g.trace <==> IsComplete(h, e);
  }

  lemma {:induction false} WaitNext(h0: Heap, g0: History, h: Heap, g: History, h': Heap, g': History, size: nat,
                                    events: seq<nat>, n: nat)
    requires WaitedFor(h0, g0, h, g, events, n) && n < |events| && Quiescent(h, g, size) && Inv(h', g', size)
    requires events[n] < |h.events| == |h.commands|
    requires g' == g.(trace := Visit(g0.deps, events[n], g.trace)) && g.trace <= g'.trace
    requires Executed(h, h', |h0.commands|) && KeepsEvents(h, h') && IsComplete(h', events[n])
    requires h'.memory == Replay(g.ops, |g.trace|, g'.trace, h.memory)
    ensures WaitedFor(h0, g0, h', g', events, n + 1) && Quiescent(h', g', size)
  {
    var m := |h0.commands|;
    forall i | 0 <= i < n ensures IsComplete(h', events[i]) {
      assert Advanced(h, h', events[i]);
    }
    ExecutedSettled(h, h', g, g', m, m);
    forall q | 0 <= q < |h'.queues| ensures !h'.queues[q].flushInProcess {
      assert SameQueue(h.queues[q], h'.queues[q]);
    }
    hide Inv;
    hide Settled;
    DrainFront(g0.deps, events, n, g.trace);
    hide Drain;
    hide Visit;
    ExecutedTrans(h0, h, h', m);
    hide Executed;
    KeepsEventsTrans(h0, h, h');
    ReplayChain(g0.ops, |g0.trace|, g.trace, g'.trace, h0.memory);
    hide Replay;
  }

  lemma DrainFront(deps: seq<seq<nat>>, events: seq<nat>, n: nat, done: seq<nat>)
    requires WellFounded(deps) && Below(events, |deps|) && n < |events|
    ensures Drain(deps, false, events[n..], done) == Drain(deps, false, events[n + 1..], Visit(deps, events[n], done))
  {
    assert events[n..][1..] == events[n + 1..];
  }

  // Losing one of the commands waited for is losing the call.
  lemma {:induction false} WaitLost(h0: Heap, g0: History, h: Heap, g: History, h': Heap, g': History, size: nat,
                                    events: seq<nat>, n: nat)
    requires Quiescent(h0, g0, size) && Quiescent(h, g, size) && Inv(h', g', size)
    requires WaitedFor(h0, g0, h, g, events, n) && n < |events|
    requires Lost(h, g, h', g', Visit(g0.deps, events[n], g.trace))
    ensures Loses(h0, g0, events)
  {
    var after := Drain(g0.deps, false, events, g0.trace);
    hide *;
    QuiescentInv(h0, g0, size);
    QuiescentInv(h, g, size);
    WaitedForSays(h0, g0, h, g, events, n);
    InvSays(h0, g0, size);
    InvSays(h, g, size);
    ExecutedPart(h0, g0, h, g, |h0.commands|);
    VisitedInDrain(g0.deps, events, n, g.trace);
    PartWider(h0, h, g0.trace, g.trace, after);
    LostLater(h0, g0, h, g, h', g', Visit(g0.deps, events[n], g.trace), after);
    LostIsUnkept(h0, g0, h', g', size, after);
    LosesIf(h0, g0, events);
  }

  lemma LosesIf(h: Heap, g: History, events: seq<nat>)
    requires events != [] && WellFounded(g.deps) && Below(events, |g.deps|)
    requires !Kept(h, g, Drain(g.deps, false, events, g.trace))
    ensures Loses(h, g, events)
  {
  }

  lemma NoneIsNotLost(h: Heap, g: History)
    ensures !Loses(h, g, [])
  {
  }

  lemma InvSays(h: Heap, g: History, size: nat)
    requires Inv(h, g, size)
    ensures Shape(h, g) && Ordered(g.deps, g.trace)
  {
    hide Balanced;
  }

  lemma WaitedForSays(h0: Heap, g0: History, h: Heap, g: History, events: seq<nat>, n: nat)
    requires WaitedFor(h0, g0, h, g, events, n)
    ensures WellFounded(g0.deps) && Below(events, |g0.deps|) && n <= |events|
    ensures g == g0.(trace := g.trace) && forall k :: k in g0.trace ==> k in g.trace
    ensures Drain(g0.deps, false, events, g0.trace) == Drain(g0.deps, false, events[n..], g.trace)
    ensures Executed(h0, h, |h0.commands|) && KeepsEvents(h0, h) && g0.trace <= g.trace
    ensures h.memory == Replay(g0.ops, |g0.trace|, g.trace, h0.memory)
    ensures forall i :: 0 <= i < n ==> IsComplete(h, events[i])
  {
    hide Drain;
    hide Executed;
    hide Replay;
  }

  lemma {:induction false} VisitedInDrain(deps: seq<seq<nat>>, events: seq<nat>, n: nat, done: seq<nat>)
    requires WellFounded(deps) && Below(events, |deps|) && n < |events| && Distinct(done) && Ordered(deps, done)
    ensures forall k :: k in done ==> k in Visit(deps, events[n], done)
    ensures forall k :: k in Visit(deps, events[n], done) ==> k in Drain(deps, false, events[n..], done)
  {
    VisitGrows(deps, events[n], done);
    DrainFront(deps, events, n, done);
    hide Visit;
    hide Drain;
    DrainExtends(deps, false, events[n + 1..], Visit(deps, events[n], done));
  }

  lemma PartWider(h0: Heap, h: Heap, before: seq<nat>, after': seq<nat>, after: seq<nat>)
    requires Part(h0, h, before, after') && forall k :: k in after' ==> k in after
    ensures Part(h0, h, before, after)
  {
  }

  lemma {:induction false} WaitDone(h0: Heap, g0: History, h: Heap, g: History, size: nat, events: seq<nat>)
    requires Quiescent(h0, g0, size) && Quiescent(h, g, size) && WaitedFor(h0, g0, h, g, events, |events|)
    ensures WellFounded(g0.deps) && Below(events, |g0.deps|)
    ensures g.trace == Drain(g0.deps, false, events, g0.trace) && !Loses(h0, g0, events)
  {
    assert events[|events|..] == [];
    assert Shape(h0, g0) && Shape(h, g);
    hide Shape;
    hide Balanced;
    hide Kept;
    ExecutedPart(h0, g0, h, g, |h0.commands|);
    FinishedIsKept(h0, g0, h, g, size);
  }

  // ---------------------------------------------------------------- when nothing is lost

  // Without wait lists, only the commands waited for run.
  lemma {:induction false} OnlyThese(deps: seq<seq<nat>>, events: seq<nat>, done: seq<nat>)
    requires WellFounded(deps) && Below(events, |deps|) && Distinct(done) && Ordered(deps, done)
    requires forall i :: 0 <= i < |events| ==> deps[events[i]] == []
    ensures forall k :: k in Drain(deps, false, events, done) ==> k in done || k in events
  {
    var scope := (set x | x in events) + (set x | x in done);
    forall k | k in events ensures k < |deps| && deps[k] == [] {
      var i :| 0 <= i < |events| && events[i] == k;
    }
    forall k, e | k in scope && k < |deps| && e in deps[k] ensures e in scope {
      var i :| 0 <= i < |done| && done[i] == k;
      assert e in done[..i];
    }
    hide Ordered;
    DrainGrows(deps, false, events, done, scope);
  }

  /**
    Waiting for events of in-order queues never loses a command.
  */
  lemma {:induction false} InOrderWaitIsKept(h: Heap, g: History, size: nat, events: seq<nat>)
    requires Quiescent(h, g, size) && forall i :: 0 <= i < |events| ==> events[i] < |h.events|
    requires forall i :: 0 <= i < |events| ==>
                           var q := h.events[events[i]].queue; q < |h.queues| && !h.queues[q].outOfOrder
    ensures !Loses(h, g, events)
  {
    hide Balanced;
    forall i | 0 <= i < |events| ensures g.deps[events[i]] == [] {
      assert CommandOk(h, g, events[i]);
    }
    OnlyThese(g.deps, events, g.trace);
    var after := Drain(g.deps, false, events, g.trace);
    forall k | 0 <= k < |h.commands| && k !in g.trace && k in after ensures h.commands[k].waitList == [] {
      var i :| 0 <= i < |events| && events[i] == k;
      assert g.deps[events[i]] == [];
      assert CommandOk(h, g, k);
      assert k in g.trace <==> IsComplete(h, k);
      assert WaitsFor(h.commands[k].waitList, g.deps[k], g.trace);
    }
  }

  /**
    Neither does a client that keeps a handle to every event it lets a command wait for.
  */
  lemma {:induction false} HandlesAreKept(h: Heap, g: History, events: seq<nat>)
    requires WellFounded(g.deps) && Below(events, |g.deps|)
    requires forall k, x :: 0 <= k < |h.commands| && x in h.commands[k].waitList ==> g.held[EventRef(x)] > 0
    ensures !Loses(h, g, events)
  {
    hide Drain;
  }

  // Command 1 waits for event 0, which has run and to which nothing else refers.
  lemma {:induction false} OneWaiterLoses(h: Heap, g: History)
    requires |h.commands| == 2 && !h.commands[0].live && h.commands[1].live && h.commands[1].waitList == [0]
    requires g.deps == [[], [0]] && g.trace == [0] && g.held[EventRef(0)] == 0
    ensures Loses(h, g, [1])
  {
    var after := Drain(g.deps, false, [1], g.trace);
    assert Visit(g.deps, 1, g.trace) == VisitAll(g.deps, 1, [0], [0]) + [1];
    assert 1 in after;
    assert !Elsewhere(h, g, after, 0);
  }

  // ---------------------------------------------------------------- what losing a command does

  lemma {:induction false} PopRunSettled(h: Heap, g: History, held: multiset<Ref>, c: nat)
    requires Settled(h, g, |h.commands|) && c < |h.commands| && h.commands[c].waitList != [] && Top(h, c) in g.trace
    ensures Settled(PopWait(h, c), g.(held := held), |h.commands|)
  {
    var h', g' := PopWait(h, c), g.(held := held);
    forall k | 0 <= k < |h'.commands| && k < |g'.deps| && IsQueued(h', k)
      ensures WaitsFor(h'.commands[k].waitList, g'.deps[k], g'.trace)
    {
      assert IsQueued(h, k);
      assert WaitsFor(h.commands[k].waitList, g.deps[k], g.trace);
    }
  }

  lemma QuiescentInv(h: Heap, g: History, size: nat)
    requires Quiescent(h, g, size)
    ensures Inv(h, g, size) && Settled(h, g, |h.commands|) && Distinct(g.trace)
    ensures |h.commands| == |h.events| == |g.deps| && WellFounded(g.deps)
  {
  }

  lemma ReplayNothing(ops: seq<Operation>, trace: seq<nat>, m: Memory)
    ensures Replay(ops, |trace|, trace, m) == m
  {
  }

  lemma ExecutedLengths(h: Heap, h': Heap, n: nat)
    requires Executed(h, h', n)
    ensures |h'.commands| == |h.commands| == |h'.events| == |h.events|
  {
  }

  lemma {:induction false} LoseFacts(h: Heap, g: History, size: nat, c: nat)
    requires Quiescent(h, g, size) && c < |h.commands| && h.commands[c].live && h.commands[c].waitList != []
    ensures Inv(h, g, size) && Settled(h, g, |h.commands|) && IsQueued(h, c)
    ensures var x, q := Top(h, c), h.commands[c].queue;
            x < |h.events| && h.events[x].queue == q && !Flushing(h, q)
  {
    hide Balanced;
    assert CommandOk(h, g, c);
    assert WaitsFor(h.commands[c].waitList, g.deps[c], g.trace);
    assert Top(h, c) == g.deps[c][|h.commands[c].waitList| - 1];
  }

  lemma {:induction false} QuiescentPopFlushed(h: Heap, g: History, h1: Heap, g1: History, h': Heap, g': History,
                                               size: nat, q: nat, c: nat)
    requires Quiescent(h, g, size) && c < |h.commands| && h.commands[c].waitList != [] && h1 == PopWait(h, c)
    requires Flushed(h1, g1, h', g', q) && Inv(h', g', size) && Settled(h', g', |h'.commands|)
    ensures Quiescent(h', g', size)
  {
    hide Balanced;
    hide Shape;
    hide Accounted;
    hide Settled;
    hide Drain;
    hide Replay;
    forall p | 0 <= p < |h'.queues| ensures !h'.queues[p].flushInProcess {
      assert p == q || SameQueue(h1.queues[p], h'.queues[p]);
    }
  }

  lemma {:induction false} FlushedIsGone(h: Heap, g: History, h': Heap, g': History, size: nat, q: nat, c: nat)
    requires Flushed(h, g, h', g', q) && Inv(h', g', size)
    requires c < |h.commands| && h.commands[c].live && h.commands[c].queue == q
    ensures c < |h'.commands| && !h'.commands[c].live && IsComplete(h', c) && c in g'.trace
  {
    hide Balanced;
    hide Drain;
    hide Replay;
    assert FlushedCommand(h, h', q, c);
  }
}
