/**
  The debugger's side, and the link between its breakpoints and the emulator's copy of them.

  A breakpoint is changed under the debugger's lock: the set first, then, if a kernel has been
  started, a message into the one-slot channel, which may have to wait. A starting emulator copies
  the set at any moment, even between the two, and then applies the messages it reads.
*/
module DebuggerLink {
  import opened Wrappers
  import opened Breakpoints
  import opened DebugSession

  const KERNEL_SELECT_NONE := -1

  class Debugger {
    const breakpointStorage: BreakpointStorage
    var hasKernelRuntime: bool
    var currentKernelIdx: int
    // The messages handed to the channel's write, in order.
    var sent: seq<Message>

    constructor ()
      ensures breakpointStorage.Points() == {} && !hasKernelRuntime && sent == []
      ensures currentKernelIdx == KERNEL_SELECT_NONE && fresh(breakpointStorage)
    {
      breakpointStorage := new BreakpointStorage();
      hasKernelRuntime, currentKernelIdx, sent := false, KERNEL_SELECT_NONE, [];
    }

    // This debugger is the debugger's half of the link, between two of its handlers.
    ghost predicate Shows(l: Link)
      reads this, breakpointStorage
    {
      l.points == breakpointStorage.Points() && l.hasKernelRuntime == hasKernelRuntime && l.holding == None
    }

    // The handler made this step of the link; what the step holds back is the message it handed over.
    twostate predicate Made(step: Step)
      reads this, breakpointStorage
    {
      forall l :: old(Shows(l)) && Enabled(l, step) ==>
                    var l' := Take(l, step);
                    && Shows(l'.(holding := None))
                    && sent == old(sent) + if l'.holding.Some? then [SetBreakpoint(l'.holding.value)] else []
    }

    method OnSetBreakpoint(address: nat)
      modifies this`sent, breakpointStorage
      ensures var c := Change(Global(Truncate(address)), false);
              && breakpointStorage.Points() == old(breakpointStorage.Points()) + {Global(Truncate(address))}
              && sent == (if hasKernelRuntime then old(sent) + [SetBreakpoint(c)] else old(sent))
              && Made(ChangePoint(c))
    {
      var bp := Global(Truncate(address));
      breakpointStorage.AddBreakpoint(bp);
      if !hasKernelRuntime {
        return;
      }
      sent := sent + [SetBreakpoint(Change(bp, false))];
    }

    method OnRemoveBreakpoint(address: nat)
      modifies this`sent, breakpointStorage
      ensures var c := Change(Global(Truncate(address)), true);
              && breakpointStorage.Points() == old(breakpointStorage.Points()) - {Global(Truncate(address))}
              && sent == (if hasKernelRuntime then old(sent) + [SetBreakpoint(c)] else old(sent))
              && Made(ChangePoint(c))
    {
      var bp := Global(Truncate(address));
      breakpointStorage.RemoveBreakpoint(bp);
      if !hasKernelRuntime {
        return;
      }
      sent := sent + [SetBreakpoint(Change(bp, true))];
    }

    // onResume, onStep, onStop and the requests, by the message they send.
    method Command(m: Message)
      requires !m.SetBreakpoint?
      modifies this`sent
      ensures sent == if hasKernelRuntime then old(sent) + [m] else old(sent)
      ensures sent != old(sent) ==> forall l :: Shows(l) && l.slot.None? ==> Enabled(l, Send(m))
    {
      if !hasKernelRuntime {
        return;
      }
      sent := sent + [m];
    }

    method RunKernel()
      modifies this`hasKernelRuntime
      ensures hasKernelRuntime == (old(hasKernelRuntime) || currentKernelIdx != KERNEL_SELECT_NONE)
      ensures currentKernelIdx != KERNEL_SELECT_NONE ==> Made(StartKernel)
    {
      if currentKernelIdx == KERNEL_SELECT_NONE {
        return;
      }
      hasKernelRuntime := true;
    }
  }

  // ---------------------------------------------------------------- both sides and the channel

  // `holding` is a change whose message is not in the channel yet, while the lock is held.
  datatype Link =
    Link(points: set<Breakpoint>, hasKernelRuntime: bool, holding: Option<Change>, slot: Option<Message>,
         emulator: Option<Status>)

  datatype Step =
    // The debugger: a breakpoint changes; its message gets into the channel; some other message does.
    | ChangePoint(c: Change)
    | Deliver
    | Send(m: Message)
    | StartKernel
    // The emulator: it copies the breakpoints and starts; reads a message; pauses; throws; ends.
    | Copy
    | Receive
    | PauseHere
    | Throw
    | Finish

  function Start(): Link {
    Link({}, false, None, None, None)
  }

  predicate Enabled(l: Link, step: Step) {
    match step
    case ChangePoint(c) => l.holding.None?
    case Deliver => l.holding.Some? && l.slot.None?
    case Send(m) => !m.SetBreakpoint? && l.hasKernelRuntime && l.slot.None?
    case StartKernel => true
    case Copy => l.hasKernelRuntime && l.emulator.None?
    case Receive => l.emulator.Some? && l.slot.Some?
    case PauseHere => l.emulator.Some? && !Terminal(l.emulator.value.mode)
    case Throw => l.emulator.Some?
    case Finish => l.emulator.Some?
  }

  function Take(l: Link, step: Step): Link
    requires Enabled(l, step)
  {
    match step
    case ChangePoint(c) => l.(points := Apply(l.points, c), holding := if l.hasKernelRuntime then Some(c) else None)
    case Deliver => l.(slot := Some(SetBreakpoint(l.holding.value)), holding := None)
    case Send(m) => l.(slot := Some(m))
    case StartKernel => l.(hasKernelRuntime := true)
    case Copy => l.(emulator := Some(Status(RUN, l.points)))
    case Receive => l.(slot := None, emulator := Some(AfterMessage(l.emulator.value, l.slot.value)))
    case PauseHere => l.(emulator := Some(l.emulator.value.(mode := PAUSE)))
    case Throw => l.(emulator := Some(l.emulator.value.(mode := EXC)))
    case Finish => l.(emulator := None)
  }

  // The steps lead from one state to the other; a run starts where nothing has happened yet.
  ghost predicate Leads(from: Link, steps: seq<Step>, l: Link) {
    if steps == [] then l == from
    else
      var before, last := steps[..|steps| - 1], steps[|steps| - 1];
      exists l0 :: Leads(from, before, l0) && Follows(l0, last, l)
  }

  ghost predicate Runs(steps: seq<Step>, l: Link) {
    Leads(Start(), steps, l)
  }

  ghost predicate Follows(l: Link, step: Step, l': Link) {
    Enabled(l, step) && l' == Take(l, step)
  }

  // Every change ever made, oldest first, and those the emulator has not read.
  function Changes(steps: seq<Step>): seq<Change> {
    if steps == [] then []
    else Changes(steps[..|steps| - 1])
         + if steps[|steps| - 1].ChangePoint? then [steps[|steps| - 1].c] else []
  }

  function InFlight(l: Link): seq<Change> {
    (if l.slot.Some? && l.slot.value.SetBreakpoint? then [l.slot.value.change] else [])
    + (if l.holding.Some? then [l.holding.value] else [])
  }

  // What is in flight is always the tail of what has been changed.
  ghost predicate Tail(changes: seq<Change>, l: Link) {
    && |InFlight(l)| <= |changes|
    && changes[|changes| - |InFlight(l)|..] == InFlight(l)
    && (!l.hasKernelRuntime ==> InFlight(l) == [])
  }

  lemma ReplayFirst(points: set<Breakpoint>, c: Change, rest: seq<Change>)
    ensures Replay(points, [c] + rest) == Replay(Apply(points, c), rest)
  {
    ReplayConcat(points, [c], rest);
    assert [c][..0] == [];
  }

  lemma ReplayLast(points: set<Breakpoint>, changes: seq<Change>, c: Change)
    ensures Replay(points, changes + [c]) == Apply(Replay(points, changes), c)
  {
    hide Apply;
    assert (changes + [c])[..|changes|] == changes;
  }

  // What a step does to the messages in flight.
  lemma InFlightMoves(l: Link, step: Step, l': Link)
    requires Follows(l, step, l')
    ensures match step
            case ChangePoint(c) => InFlight(l') == if l.hasKernelRuntime then InFlight(l) + [c] else InFlight(l')
            case Receive =>
              InFlight(l) == (if l.slot.value.SetBreakpoint? then [l.slot.value.change] else []) + InFlight(l')
            case _ => InFlight(l') == InFlight(l)
  {
  }

  lemma {:induction false} TailMoves(changes: seq<Change>, l: Link, step: Step, l': Link)
    requires Tail(changes, l) && Follows(l, step, l')
    ensures Tail(changes + if step.ChangePoint? then [step.c] else [], l')
  {
    InFlightMoves(l, step, l');
    assert !l'.hasKernelRuntime ==> InFlight(l') == [] by {
      if !l'.hasKernelRuntime {
        NothingInFlight(l, step, l');
      }
    }
    hide InFlight;
    var n := |InFlight(l)|;
    assert changes[|changes| - n..] == InFlight(l);
    match step
    case ChangePoint(c) =>
      if l.hasKernelRuntime {
        assert (changes + [c])[|changes| - n..] == changes[|changes| - n..] + [c];
      }
    case Receive =>
      assert changes + [] == changes;
      if l.slot.value.SetBreakpoint? {
        assert changes[|changes| - n..][1..] == changes[|changes| - (n - 1)..];
      }
    case _ =>
      assert changes + [] == changes;
  }

  lemma NothingInFlight(l: Link, step: Step, l': Link)
    requires Follows(l, step, l') && !l'.hasKernelRuntime && (!l.hasKernelRuntime ==> InFlight(l) == [])
    ensures InFlight(l') == []
  {
  }

  lemma PointsMove(l: Link, step: Step, l': Link)
    requires Follows(l, step, l')
    ensures l'.points == if step.ChangePoint? then Apply(l.points, step.c) else l.points
  {
    hide Apply;
  }

  lemma ChangesNext(steps: seq<Step>, step: Step)
    ensures Changes(steps + [step]) == Changes(steps) + if step.ChangePoint? then [step.c] else []
  {
    assert (steps + [step])[..|steps|] == steps;
  }

  lemma InFlightAtStart()
    ensures Tail(Changes([]), Start()) && Start().points == Replay({}, Changes([]))
  {
  }

  lemma {:induction false} InFlightIsTail(steps: seq<Step>, l: Link)
    requires Runs(steps, l)
    ensures Tail(Changes(steps), l) && l.points == Replay({}, Changes(steps))
  {
    if steps == [] {
      InFlightAtStart();
    } else {
      var before, last := steps[..|steps| - 1], steps[|steps| - 1];
      var l0 :| Leads(Start(), before, l0) && Follows(l0, last, l);
      assert steps == before + [last];
      hide *;
      InFlightIsTail(before, l0);
      TailMoves(Changes(before), l0, last, l);
      ChangesNext(before, last);
      PointsMove(l0, last, l);
      if last.ChangePoint? {
        ReplayLast({}, Changes(before), last.c);
      } else {
        assert Changes(before) + [] == Changes(before);
      }
    }
  }

  // The emulator's breakpoints, once everything in flight is applied, are the debugger's.
  ghost predicate Converging(l: Link) {
    l.emulator.Some? && !Terminal(l.emulator.value.mode) ==> Replay(l.emulator.value.points, InFlight(l)) == l.points
  }

  lemma {:induction false} ConvergingMoves(changes: seq<Change>, l: Link, step: Step, l': Link)
    requires Converging(l) && Follows(l, step, l')
    requires Tail(changes, l) && l.points == Replay({}, changes) && (l.emulator.Some? ==> l.hasKernelRuntime)
    ensures Converging(l')
  {
    InFlightMoves(l, step, l');
    match step
    case Copy =>
      TailSays(changes, l);
      ReplayingTailIsIdentity({}, changes, |changes| - |InFlight(l)|);
      hide InFlight;
      hide Replay;
    case Receive =>
      hide InFlight;
      hide Replay;
      if l.slot.value.SetBreakpoint? {
        ReplayFirst(l.emulator.value.points, l.slot.value.change, InFlight(l'));
      } else {
        assert [] + InFlight(l') == InFlight(l');
      }
    case ChangePoint(c) =>
      hide InFlight;
      hide Replay;
      hide Apply;
      if l.emulator.Some? {
        ReplayLast(l.emulator.value.points, InFlight(l), c);
      }
    case _ =>
      hide InFlight;
      hide Replay;
  }

  lemma TailSays(changes: seq<Change>, l: Link)
    requires Tail(changes, l)
    ensures |InFlight(l)| <= |changes| && changes[|changes| - |InFlight(l)|..] == InFlight(l)
  {
    hide InFlight;
  }

  lemma {:induction false} EmulatorNeedsKernel(steps: seq<Step>, l: Link)
    requires Runs(steps, l)
    ensures l.emulator.Some? ==> l.hasKernelRuntime
  {
    if steps != [] {
      var before, last := steps[..|steps| - 1], steps[|steps| - 1];
      var l0 :| Leads(Start(), before, l0) && Follows(l0, last, l);
      EmulatorNeedsKernel(before, l0);
    }
  }

  /**
    In every state the two sides can reach, applying the messages in flight, in order, to the
    emulator's breakpoints gives the debugger's, whenever the copy was taken; so once everything sent
    has been read the two sets are equal. This holds until the emulator's mode becomes terminal.
  */
  lemma {:induction false} CopyConverges(steps: seq<Step>, l: Link)
    requires Runs(steps, l)
    ensures Converging(l)
    ensures l.emulator.Some? && !Terminal(l.emulator.value.mode) && InFlight(l) == [] ==>
              l.emulator.value.points == l.points
  {
    if steps != [] {
      var before, last := steps[..|steps| - 1], steps[|steps| - 1];
      var l0 :| Leads(Start(), before, l0) && Follows(l0, last, l);
      hide Follows;
      hide Tail;
      CopyConverges(before, l0);
      InFlightIsTail(before, l0);
      EmulatorNeedsKernel(before, l0);
      ConvergingMoves(Changes(before), l0, last, l);
    }
  }

  lemma Extend(steps: seq<Step>, l: Link, step: Step)
    requires Runs(steps, l) && Enabled(l, step)
    ensures Runs(steps + [step], Take(l, step))
  {
    hide Enabled;
    hide Take;
    assert (steps + [step])[..|steps|] == steps;
    assert Follows(l, step, Take(l, step));
  }

  // ---------------------------------------------------------------- terminal modes

  ghost predicate Stopped(l: Link) {
    l.emulator.Some? && Terminal(l.emulator.value.mode)
  }

  lemma StoppedMoves(l: Link, step: Step, l': Link)
    requires Stopped(l) && Follows(l, step, l') && step != Finish
    ensures Stopped(l') && l'.emulator.value.points == l.emulator.value.points
  {
  }

  /**
    In a terminal mode the emulator's copy is frozen: whatever both sides do, short of the kernel
    ending, the mode stays terminal and the copy stays as it is, while the debugger's set moves on.
  */
  lemma {:induction false} TerminalCopyIsFrozen(l: Link, steps: seq<Step>, l': Link)
    requires Stopped(l) && Leads(l, steps, l') && Finish !in steps
    ensures Stopped(l') && l'.emulator.value.points == l.emulator.value.points
    ensures l'.points == Replay(l.points, Changes(steps))
  {
    if steps != [] {
      var before, last := steps[..|steps| - 1], steps[|steps| - 1];
      var l0 :| Leads(l, before, l0) && Follows(l0, last, l');
      hide Follows;
      hide Stopped;
      TerminalCopyIsFrozen(l, before, l0);
      StoppedMoves(l0, last, l');
      PointsMove(l0, last, l');
      if last.ChangePoint? {
        ReplayLast(l.points, Changes(before), last.c);
      } else {
        assert Changes(before) + [] == Changes(before);
      }
    }
  }

  // Every breakpoint that was changed ended up as it is in the set.
  ghost predicate EndsAs(points: set<Breakpoint>, changes: seq<Change>) {
    forall i :: 0 <= i < |changes| && !Touches(changes[i + 1..], changes[i].point) ==>
                  (changes[i].point in points <==> !changes[i].remove)
  }

  lemma {:induction false} ReplayKeepsIffEndsAs(points: set<Breakpoint>, changes: seq<Change>)
    ensures Replay(points, changes) == points <==> EndsAs(points, changes)
  {
    forall i | 0 <= i < |changes| && !Touches(changes[i + 1..], changes[i].point)
      ensures changes[i].point in Replay(points, changes) <==> !changes[i].remove
    {
      LastOf(points, changes, i);
    }
    if EndsAs(points, changes) {
      forall p: Breakpoint ensures p in Replay(points, changes) <==> p in points {
        LastChangeDecides(points, points, changes, p);
        if Touches(changes, p) {
          var i := LastTouch(changes, p);
        }
      }
    }
  }

  // The last change to a breakpoint is what replaying leaves of it.
  lemma {:induction false} LastOf(points: set<Breakpoint>, changes: seq<Change>, i: nat)
    requires i < |changes| && !Touches(changes[i + 1..], changes[i].point)
    ensures changes[i].point in Replay(points, changes) <==> !changes[i].remove
  {
    var upTo := changes[..i + 1];
    assert upTo[..i] == changes[..i];
    assert changes == upTo + changes[i + 1..];
    ReplayConcat(points, upTo, changes[i + 1..]);
    LastChangeDecides(Replay(points, upTo), points, changes[i + 1..], changes[i].point);
  }

  lemma {:induction false} LastTouch(changes: seq<Change>, p: Breakpoint) returns (i: nat)
    requires Touches(changes, p)
    ensures i < |changes| && changes[i].point == p && !Touches(changes[i + 1..], p)
  {
    i := |changes| - 1;
    if changes[i].point != p {
      var before := changes[..i];
      var k :| 0 <= k < |changes| && changes[k].point == p;
      assert before[k].point == p;
      i := LastTouch(before, p);
      var rest := changes[i + 1..];
      forall j | 0 <= j < |rest| ensures rest[j].point != p {
        if j < |rest| - 1 {
          assert before[i + 1..][j] == rest[j];
        }
      }
    }
  }

  /**
    When a run enters a terminal mode the copy misses the changes then in flight and all later ones;
    it equals the debugger's set again if and only if each of the missed breakpoints ends up as it
    was in the copy.
  */
  lemma {:induction false} TerminalCopyAgreesIff(before: seq<Step>, l0: Link, step: Step, l: Link, later: seq<Step>,
                                                 l': Link)
    requires Runs(before, l0) && l0.emulator.Some? && !Stopped(l0)
    requires Follows(l0, step, l) && Stopped(l) && Leads(l, later, l') && Finish !in later
    ensures var frozen, missed := l0.emulator.value.points, InFlight(l) + Changes(later);
            && Stopped(l') && l'.emulator.value.points == frozen
            && l'.points == Replay(frozen, missed)
            && (l'.emulator.value.points == l'.points <==> EndsAs(frozen, missed))
  {
    var frozen := l0.emulator.value.points;
    CopyConverges(before, l0);
    StopIsImmediate(l0, step, l);
    hide InFlight;
    hide Follows;
    TerminalCopyIsFrozen(l, later, l');
    ReplayConcat(frozen, InFlight(l), Changes(later));
    ReplayKeepsIffEndsAs(frozen, InFlight(l) + Changes(later));
  }

  lemma StopIsImmediate(l0: Link, step: Step, l: Link)
    requires l0.emulator.Some? && !Stopped(l0) && Follows(l0, step, l) && Stopped(l)
    ensures l.emulator.value.points == l0.emulator.value.points && l.points == l0.points
    ensures InFlight(l) == InFlight(l0)
  {
  }

  // In every reachable state of this mode, what is in flight leads the copy to the debugger's set.
  ghost predicate ConvergesIn(mode: ExecutionMode) {
    forall steps, l :: Runs(steps, l) && l.emulator.Some? && l.emulator.value.mode == mode ==>
                         Replay(l.emulator.value.points, InFlight(l)) == l.points
  }

  // Both terminal modes are reached with nothing changed yet.
  lemma ReachTerminal(mode: ExecutionMode) returns (steps: seq<Step>)
    requires Terminal(mode)
    ensures Runs(steps, Link({}, true, None, None, Some(Status(mode, {}))))
  {
    var running := Link({}, true, None, None, Some(Status(RUN, {})));
    assert Runs([], Start());
    Extend([], Start(), StartKernel);
    var s1 := [] + [StartKernel];
    Extend(s1, Link({}, true, None, None, None), Copy);
    var s2 := s1 + [Copy];
    if mode == EXC {
      Extend(s2, running, Throw);
      steps := s2 + [Throw];
    } else {
      Extend(s2, running, Send(Stop));
      var s3 := s2 + [Send(Stop)];
      Extend(s3, running.(slot := Some(Stop)), Receive);
      steps := s3 + [Receive];
    }
  }

  // A breakpoint set in a terminal mode is read and dropped.
  lemma {:induction false} TerminalCopyFallsBehind(mode: ExecutionMode, address: Address)
    returns (steps: seq<Step>, l: Link)
    requires Terminal(mode)
    ensures Runs(steps, l) && l.emulator.Some? && l.emulator.value.mode == mode
    ensures InFlight(l) == [] && l.emulator.value.points != l.points
  {
    var c := Change(Global(address), false);
    var stopped, all := Status(mode, {}), {Global(address)};
    var s0 := ReachTerminal(mode);
    Extend(s0, Link({}, true, None, None, Some(stopped)), ChangePoint(c));
    var s1 := s0 + [ChangePoint(c)];
    assert Apply({}, c) == all;
    Extend(s1, Link(all, true, Some(c), None, Some(stopped)), Deliver);
    var s2 := s1 + [Deliver];
    Extend(s2, Link(all, true, None, Some(SetBreakpoint(c)), Some(stopped)), Receive);
    steps, l := s2 + [Receive], Link(all, true, None, None, Some(stopped));
    assert Global(address) in all;
  }

  /**
    The two sets converge in every reachable state of a mode if and only if the mode is not terminal.
  */
  lemma {:induction false} ConvergesIffNotTerminal(mode: ExecutionMode)
    ensures ConvergesIn(mode) <==> !Terminal(mode)
  {
    if Terminal(mode) {
      var steps, l := TerminalCopyFallsBehind(mode, 0);
      assert Replay(l.emulator.value.points, []) == l.emulator.value.points;
    } else {
      forall steps, l | Runs(steps, l) && l.emulator.Some? && l.emulator.value.mode == mode
        ensures Replay(l.emulator.value.points, InFlight(l)) == l.points
      {
        CopyConverges(steps, l);
      }
    }
  }
}
