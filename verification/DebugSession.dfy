/**
  A debug session seen from the emulator: an execution mode, a copy of the breakpoints, and messages
  that are read only while an instruction is held up.
*/
module DebugSession {
  import opened Wrappers
  import opened Breakpoints

  datatype ExecutionMode = STOP | PAUSE | RUN | STEP | EXC

  datatype Message =
    | RequestMemory(location: nat)
    | RequestRegisters(context: nat)
    | SetBreakpoint(change: Change)
    | Run(stepping: bool)
    | Stop
    // A kind the emulator does not know.
    | Unknown

  datatype Reply =
    | OnPause(address: Address)
    | OnRespondMemory(location: nat)
    | OnRespondRegisters(context: nat)
    | OnException(what: string)

  // What passes between emulator and debugger.
  datatype Event = In(m: Message) | Out(r: Reply)

  // One instruction of the run: what was exchanged while it was held up, and what it then threw.
  datatype Turn = Turn(address: Address, chatter: seq<Event>, thrown: Option<string>)

  datatype Status = Status(mode: ExecutionMode, points: set<Breakpoint>)

  predicate Terminal(mode: ExecutionMode) {
    mode == STOP || mode == EXC
  }

  // ---------------------------------------------------------------- what the messages mean

  function AfterMessage(s: Status, m: Message): Status {
    match m
    case SetBreakpoint(c) => if Terminal(s.mode) then s else s.(points := Apply(s.points, c))
    case Run(stepping) => if Terminal(s.mode) then s else s.(mode := if stepping then STEP else RUN)
    case Stop => s.(mode := STOP)
    case _ => s
  }

  function AfterEvent(s: Status, e: Event): Status {
    match e
    case In(m) => AfterMessage(s, m)
    case Out(OnPause(_)) => s.(mode := PAUSE)
    case Out(OnException(_)) => s.(mode := EXC)
    case Out(_) => s
  }

  function AfterEvents(s: Status, events: seq<Event>): Status {
    if events == [] then s else AfterEvent(AfterEvents(s, events[..|events| - 1]), events[|events| - 1])
  }

  // What a request must be answered with.
  function Answer(m: Message): seq<Event> {
    match m
    case RequestMemory(location) => [Out(OnRespondMemory(location))]
    case RequestRegisters(context) => [Out(OnRespondRegisters(context))]
    case _ => []
  }

  // Messages, each followed at once by its answer if it asks for one.
  function Exchange(messages: seq<Message>): seq<Event> {
    if messages == [] then []
    else Exchange(messages[..|messages| - 1]) + [In(messages[|messages| - 1])] + Answer(messages[|messages| - 1])
  }

  predicate HeldUp(s: Status, address: Address) {
    !Terminal(s.mode) && (s.mode == STEP || Global(address) in s.points)
  }

  // ---------------------------------------------------------------- the protocol

  // An instruction that is held up is announced once, before any message; then messages are
  // exchanged. For any other instruction nothing is exchanged at all.
  ghost predicate TurnFollows(s: Status, turn: Turn) {
    if HeldUp(s, turn.address) then
      exists messages :: turn.chatter == [Out(OnPause(turn.address))] + Exchange(messages)
    else turn.chatter == []
  }

  function AtRun(s: Status, turn: Turn): Status {
    AfterEvents(s, turn.chatter)
  }

  // An instruction that throws is reported, in any mode.
  function Report(turn: Turn): seq<Event> {
    if turn.thrown.Some? then [Out(OnException(turn.thrown.value))] else []
  }

  function AfterTurn(s: Status, turn: Turn): Status {
    AfterEvents(AtRun(s, turn), Report(turn))
  }

  // Everything that passed, over all instructions.
  function Log(turns: seq<Turn>): seq<Event> {
    if turns == [] then []
    else Log(turns[..|turns| - 1]) + turns[|turns| - 1].chatter + Report(turns[|turns| - 1])
  }

  function AfterTurns(s: Status, turns: seq<Turn>): Status {
    if turns == [] then s else AfterTurn(AfterTurns(s, turns[..|turns| - 1]), turns[|turns| - 1])
  }

  ghost predicate Session(s: Status, turns: seq<Turn>) {
    forall i :: 0 <= i < |turns| ==> TurnFollows(AfterTurns(s, turns[..i]), turns[i])
  }

  // ---------------------------------------------------------------- what an exchange does

  lemma {:induction false} EventsConcat(s: Status, a: seq<Event>, b: seq<Event>)
    ensures AfterEvents(s, a + b) == AfterEvents(AfterEvents(s, a), b)
  {
    if b == [] {
      assert a + b == a;
    } else {
      assert (a + b)[..|a + b| - 1] == a + b[..|b| - 1];
      EventsConcat(s, a, b[..|b| - 1]);
    }
  }

  lemma OneEvent(s: Status, e: Event)
    ensures AfterEvents(s, [e]) == AfterEvent(s, e)
  {
    assert [e][..0] == [];
  }

  lemma ExchangeNext(messages: seq<Message>, m: Message)
    ensures Exchange(messages + [m]) == Exchange(messages) + ([In(m)] + Answer(m))
  {
    assert (messages + [m])[..|messages|] == messages;
  }

  // An answer changes nothing; its message does.
  lemma {:induction false} AnswerChangesNothing(s: Status, events: seq<Event>, m: Message)
    ensures AfterEvents(s, events + ([In(m)] + Answer(m))) == AfterMessage(AfterEvents(s, events), m)
  {
    var s' := AfterEvents(s, events);
    EventsConcat(s, events, [In(m)] + Answer(m));
    EventsConcat(s', [In(m)], Answer(m));
    OneEvent(s', In(m));
    if Answer(m) != [] {
      OneEvent(AfterEvent(s', In(m)), Answer(m)[0]);
    }
  }

  // ---------------------------------------------------------------- the emulator's side

  class DebugContext {
    var executionMode: ExecutionMode
    const breakpoints: BreakpointStorage
    // Everything the debugger will still send before it closes the channel, in order.
    var incoming: seq<Message>
    ghost var chatter: seq<Event>

    constructor (breakpoints: BreakpointStorage, incoming: seq<Message>)
      ensures this.breakpoints == breakpoints && this.incoming == incoming
      ensures executionMode == RUN && chatter == []
    {
      this.breakpoints, this.incoming := breakpoints, incoming;
      executionMode := RUN;
      chatter := [];
    }

    ghost function Now(): Status
      reads this, breakpoints
    {
      Status(executionMode, breakpoints.Points())
    }

    // The channel read: it waits for the next message, and finds nothing once closed and empty.
    method Read() returns (m: Option<Message>)
      modifies this`incoming
      ensures if m.Some? then old(incoming) == [m.value] + incoming else incoming == old(incoming) == []
    {
      if incoming == [] {
        return None;
      }
      m := Some(incoming[0]);
      incoming := incoming[1..];
    }

    // tryRead finds a message only if it has already arrived and the channel is not closed.
    method TryRead() returns (m: Option<Message>)
      modifies this`incoming
      ensures if m.Some? then old(incoming) == [m.value] + incoming else incoming == old(incoming)
    {
      var arrived: bool := *;
      if !arrived || incoming == [] {
        return None;
      }
      m := Some(incoming[0]);
      incoming := incoming[1..];
    }

    method IsExhausted() returns (b: bool)
      ensures b ==> incoming == []
    {
      var closed: bool := *;
      b := closed && incoming == [];
    }

    /**
      A Stop always counts. A Run and a change of breakpoints count unless the mode is STOP or EXC. A
      request is answered in any mode and changes nothing.
    */
    method ProcessMessage(m: Message)
      modifies this`executionMode, this`chatter, breakpoints
      ensures Now() == AfterMessage(old(Now()), m)
      ensures chatter == old(chatter) + [In(m)] + Answer(m)
      ensures executionMode == if m == Stop then STOP
                               else if m.Run? && old(executionMode) in {RUN, STEP, PAUSE} then
                                 (if m.stepping then STEP else RUN)
                               else old(executionMode)
      ensures breakpoints.Points() == if m.SetBreakpoint? && old(executionMode) in {RUN, STEP, PAUSE} then
                                        (if m.change.remove then old(breakpoints.Points()) - {m.change.point}
                                         else old(breakpoints.Points()) + {m.change.point})
                                      else old(breakpoints.Points())
      ensures chatter[|old(chatter)|..]
              == [In(m)] + match m
                           case RequestMemory(location) => [Out(OnRespondMemory(location))]
                           case RequestRegisters(context) => [Out(OnRespondRegisters(context))]
                           case _ => []
    {
      chatter := chatter + [In(m)];
      match m
      case RequestMemory(location) =>
        chatter := chatter + [Out(OnRespondMemory(location))];
      case RequestRegisters(context) =>
        chatter := chatter + [Out(OnRespondRegisters(context))];
      case SetBreakpoint(change) =>
        if Terminal(executionMode) {
          return;
        }
        if change.remove {
          breakpoints.RemoveBreakpoint(change.point);
        } else {
          breakpoints.AddBreakpoint(change.point);
        }
      case Run(stepping) =>
        if Terminal(executionMode) {
          return;
        }
        executionMode := if stepping then STEP else RUN;
      case Stop =>
        executionMode := STOP;
      case Unknown =>
    }

    // Since the state was s, the log `from` and the channel `before`, these messages have been handled.
    ghost predicate Exchanged(s: Status, before: seq<Message>, from: seq<Event>, messages: seq<Message>)
      reads this, breakpoints
    {
      && before == messages + incoming
      && chatter == from + Exchange(messages)
      && Now() == AfterEvents(s, Exchange(messages))
    }

    method Handle(m: Message, ghost s: Status, ghost before: seq<Message>, ghost from: seq<Event>,
                  ghost messages: seq<Message>)
      requires before == messages + [m] + incoming && chatter == from + Exchange(messages)
      requires Now() == AfterEvents(s, Exchange(messages))
      modifies this`executionMode, this`chatter, breakpoints
      ensures Exchanged(s, before, from, messages + [m])
      ensures executionMode == PAUSE ==> old(executionMode) == PAUSE
    {
      hide Exchange;
      hide AfterEvents;
      ExchangeNext(messages, m);
      AnswerChangesNothing(s, Exchange(messages), m);
      ProcessMessage(m);
    }

    method ReadMessages(ghost s: Status, ghost before: seq<Message>, ghost from: seq<Event>, ghost read: seq<Message>)
      returns (ghost messages: seq<Message>)
      requires Exchanged(s, before, from, read)
      modifies this, breakpoints
      ensures Exchanged(s, before, from, messages) && |incoming| <= |old(incoming)|
      ensures executionMode == PAUSE ==> old(executionMode) == PAUSE
    {
      hide Exchange;
      hide AfterEvents;
      messages := read;
      while true
        invariant Exchanged(s, before, from, messages) && |incoming| <= |old(incoming)|
        invariant executionMode == PAUSE ==> old(executionMode) == PAUSE
        decreases |incoming|
      {
        var exhausted := IsExhausted();
        if exhausted {
          return;
        }
        var msg := TryRead();
        if msg.None? {
          return;
        }
        Handle(msg.value, s, before, from, messages);
        messages := messages + [msg.value];
      }
    }

    method WaitForResume(ghost s: Status) returns (ghost messages: seq<Message>)
      requires s == Now()
      modifies this, breakpoints
      ensures Exchanged(s, old(incoming), old(chatter), messages)
      ensures executionMode == PAUSE ==> incoming == []
    {
      hide Exchange;
      hide AfterEvents;
      ghost var before, from := incoming, chatter;
      messages := [];
      Nothing(s);
      while true
        invariant Exchanged(s, before, from, messages)
        decreases |incoming|
      {
        var exhausted := IsExhausted();
        if exhausted || executionMode != PAUSE {
          break;
        }
        var msg := Read();
        if msg.None? {
          return;
        }
        Handle(msg.value, s, before, from, messages);
        messages := messages + [msg.value];
      }
      messages := ReadMessages(s, before, from, messages);
    }

    ghost predicate Valid()
      reads this
    {
      executionMode == PAUSE ==> incoming == []
    }

    /**
      Before an instruction: it is announced and held up exactly when the mode is STEP or there is a
      breakpoint on it; it is let go in mode PAUSE only if the channel is closed and empty.
    */
    method ProcessInstruction(address: Address)
      requires Valid()
      modifies this, breakpoints
      ensures Valid()
      ensures old(chatter) <= chatter
      ensures var turn := Turn(address, chatter[|old(chatter)|..], None);
              TurnFollows(old(Now()), turn) && Now() == AtRun(old(Now()), turn)
      ensures chatter != old(chatter) <==>
                old(executionMode) in {RUN, STEP, PAUSE}
                && (old(executionMode) == STEP || Global(address) in old(breakpoints.Points()))
      ensures executionMode == PAUSE ==> incoming == []
    {
      hide Exchange;
      hide AfterEvents;
      ghost var s, from := Now(), chatter;
      Nothing(s);
      if Terminal(executionMode) {
        return;
      }
      var found := breakpoints.HasBreakpoint(address);
      if executionMode == STEP || found {
        executionMode := PAUSE;
        chatter := chatter + [Out(OnPause(address))];
        ghost var messages := WaitForResume(Now());
        assert chatter[|from|..] == [Out(OnPause(address))] + Exchange(messages);
        OneEvent(s, Out(OnPause(address)));
        EventsConcat(s, [Out(OnPause(address))], Exchange(messages));
      }
    }

    // An instruction threw. There is no test of the mode here.
    method ProcessException(what: string)
      modifies this`executionMode, this`chatter
      ensures Now() == old(Now()).(mode := EXC)
      ensures chatter == old(chatter) + [Out(OnException(what))]
    {
      executionMode := EXC;
      chatter := chatter + [Out(OnException(what))];
    }

    /**
      The part the fetch-execute loop plays: every instruction is offered to the debugger, run, and
      reported if it throws. Which instructions come, and what they throw, is decided elsewhere.
    */
    method RunInstructions(addresses: seq<Address>, thrown: seq<Option<string>>) returns (ghost turns: seq<Turn>)
      requires Valid() && |thrown| == |addresses|
      modifies this, breakpoints
      ensures Valid() && |turns| == |addresses|
      ensures forall i :: 0 <= i < |turns| ==> turns[i].address == addresses[i] && turns[i].thrown == thrown[i]
      ensures Session(old(Now()), turns) && Now() == AfterTurns(old(Now()), turns)
      ensures chatter == old(chatter) + Log(turns)
    {
      hide TurnFollows;
      hide AfterTurn;
      hide Log;
      hide Report;
      hide AtRun;
      hide AfterTurns;
      hide Session;
      ghost var s, from := Now(), chatter;
      turns := [];
      NothingLogged(from);
      NoTurns(s);
      for i := 0 to |addresses|
        invariant Valid() && |turns| == i
        invariant forall k :: 0 <= k < i ==> turns[k].address == addresses[k] && turns[k].thrown == thrown[k]
        invariant Session(s, turns) && Now() == AfterTurns(s, turns) && chatter == from + Log(turns)
      {
        ghost var before, logged := Now(), chatter;
        ProcessInstruction(addresses[i]);
        ghost var turn := Turn(addresses[i], chatter[|logged|..], None);
        if thrown[i].Some? {
          ProcessException(thrown[i].value);
        }
        TurnThrows(before, turn, thrown[i]);
        SessionNext(s, turns, turn.(thrown := thrown[i]));
        LogNext(from, turns, turn.(thrown := thrown[i]));
        turns := turns + [turn.(thrown := thrown[i])];
      }
    }
  }

  lemma Nothing(s: Status)
    ensures Exchange([]) == [] && AfterEvents(s, []) == s
  {
  }

  lemma NoTurns(s: Status)
    ensures Session(s, []) && AfterTurns(s, []) == s
  {
  }

  lemma NothingLogged(from: seq<Event>)
    ensures from + Log([]) == from
  {
  }

  lemma LogNext(from: seq<Event>, turns: seq<Turn>, turn: Turn)
    ensures from + Log(turns + [turn]) == from + Log(turns) + turn.chatter + Report(turn)
  {
    assert (turns + [turn])[..|turns|] == turns;
  }

  lemma TurnThrows(s: Status, turn: Turn, thrown: Option<string>)
    requires TurnFollows(s, turn)
    ensures TurnFollows(s, turn.(thrown := thrown))
    ensures AfterTurn(s, turn.(thrown := thrown)) == if thrown.Some? then AtRun(s, turn).(mode := EXC) else AtRun(s, turn)
    ensures Report(turn.(thrown := thrown)) == if thrown.Some? then [Out(OnException(thrown.value))] else []
  {
    if thrown.Some? {
      OneEvent(AtRun(s, turn), Out(OnException(thrown.value)));
    } else {
      Nothing(AtRun(s, turn));
    }
  }

  lemma SessionNext(s: Status, turns: seq<Turn>, turn: Turn)
    requires Session(s, turns) && TurnFollows(AfterTurns(s, turns), turn)
    ensures Session(s, turns + [turn])
    ensures AfterTurns(s, turns + [turn]) == AfterTurn(AfterTurns(s, turns), turn)
  {
    hide TurnFollows;
    hide AfterTurn;
    var all := turns + [turn];
    assert all[..|turns|] == turns;
    forall i | 0 <= i < |all| ensures TurnFollows(AfterTurns(s, all[..i]), all[i]) {
      if i < |turns| {
        assert all[..i] == turns[..i];
        assert TurnFollows(AfterTurns(s, turns[..i]), turns[i]);
      }
    }
  }
}
