/**
  What every debug session guarantees, over whole runs.
*/
module DebugTheorems {
  import opened Wrappers
  import opened Breakpoints
  import opened DebugSession

  // ---------------------------------------------------------------- counting and filtering

  function Pauses(events: seq<Event>): nat {
    if events == [] then 0
    else Pauses(events[..|events| - 1])
         + if events[|events| - 1].Out? && events[|events| - 1].r.OnPause? then 1 else 0
  }

  predicate IsReply(e: Event) {
    e.Out? && (e.r.OnRespondMemory? || e.r.OnRespondRegisters?)
  }

  predicate IsReport(e: Event) {
    e.Out? && e.r.OnException?
  }

  // The replies sent, the exceptions reported, and the replies the messages read ask for.
  function Sent(events: seq<Event>): seq<Event> {
    if events == [] then []
    else Sent(events[..|events| - 1]) + if IsReply(events[|events| - 1]) then [events[|events| - 1]] else []
  }

  function Reported(events: seq<Event>): seq<Event> {
    if events == [] then []
    else Reported(events[..|events| - 1]) + if IsReport(events[|events| - 1]) then [events[|events| - 1]] else []
  }

  function Owed(events: seq<Event>): seq<Event> {
    if events == [] then []
    else Owed(events[..|events| - 1]) + Asked(events[|events| - 1])
  }

  // A request for memory or registers is a debt of one reply about the same place.
  function Asked(e: Event): seq<Event> {
    match e
    case In(RequestMemory(location)) => [Out(OnRespondMemory(location))]
    case In(RequestRegisters(context)) => [Out(OnRespondRegisters(context))]
    case _ => []
  }

  // The last event of a log is filtered alone.
  lemma FiltersLast(events: seq<Event>)
    requires events != []
    ensures var before, e := events[..|events| - 1], events[|events| - 1];
            && Pauses(events) == Pauses(before) + (if e.Out? && e.r.OnPause? then 1 else 0)
            && Sent(events) == Sent(before) + (if IsReply(e) then [e] else [])
            && Owed(events) == Owed(before) + Asked(e)
            && Reported(events) == Reported(before) + (if IsReport(e) then [e] else [])
  {
  }

  lemma FiltersNone()
    ensures Pauses([]) == 0 && Sent([]) == [] && Owed([]) == [] && Reported([]) == []
  {
  }

  lemma {:induction false} FiltersConcat(a: seq<Event>, b: seq<Event>)
    ensures Pauses(a + b) == Pauses(a) + Pauses(b)
    ensures Sent(a + b) == Sent(a) + Sent(b)
    ensures Owed(a + b) == Owed(a) + Owed(b)
    ensures Reported(a + b) == Reported(a) + Reported(b)
  {
    hide *;
    FiltersNone();
    if b == [] {
      assert a + b == a;
    } else {
      assert (a + b)[..|a + b| - 1] == a + b[..|b| - 1];
      FiltersLast(a + b);
      FiltersLast(b);
      FiltersConcat(a, b[..|b| - 1]);
    }
  }

  lemma FiltersOne(e: Event)
    ensures Pauses([e]) == if e.Out? && e.r.OnPause? then 1 else 0
    ensures Sent([e]) == if IsReply(e) then [e] else []
    ensures Reported([e]) == if IsReport(e) then [e] else []
    ensures Owed([e]) == Asked(e)
  {
    assert [e][..0] == [];
  }

  lemma AnswerBalances(m: Message)
    ensures var step := [In(m)] + Answer(m);
            && Pauses(step) == 0 && Reported(step) == []
            && Sent(step) == Answer(m) && Owed(step) == Answer(m)
  {
    if m.RequestMemory? {
      OneAnswer(m, Out(OnRespondMemory(m.location)));
    } else if m.RequestRegisters? {
      OneAnswer(m, Out(OnRespondRegisters(m.context)));
    } else {
      NoAnswer(m);
    }
  }

  lemma NoAnswer(m: Message)
    requires Answer(m) == Asked(In(m)) == []
    ensures var step := [In(m)] + Answer(m);
            Pauses(step) == 0 && Reported(step) == [] && Sent(step) == [] && Owed(step) == []
  {
    assert [In(m)] + Answer(m) == [In(m)];
    FiltersOne(In(m));
    hide *;
  }

  lemma OneAnswer(m: Message, e: Event)
    requires Answer(m) == Asked(In(m)) == [e] && IsReply(e)
    ensures var step := [In(m)] + Answer(m);
            Pauses(step) == 0 && Reported(step) == [] && Sent(step) == [e] && Owed(step) == [e]
  {
    assert !IsReport(e) && !IsReply(In(m)) && !IsReport(In(m)) && e.Out? && !e.r.OnPause? && Asked(e) == [];
    hide *;
    FiltersConcat([In(m)], [e]);
    FiltersOne(In(m));
    FiltersOne(e);
  }

  lemma {:induction false} ExchangeBalances(messages: seq<Message>)
    ensures Pauses(Exchange(messages)) == 0 && Reported(Exchange(messages)) == []
    ensures Sent(Exchange(messages)) == Owed(Exchange(messages))
  {
    if messages == [] {
      Nothing(Status(RUN, {}));
    } else {
      var before, m := messages[..|messages| - 1], messages[|messages| - 1];
      hide *;
      assert messages == before + [m];
      ExchangeBalances(before);
      ExchangeNext(before, m);
      FiltersConcat(Exchange(before), [In(m)] + Answer(m));
      AnswerBalances(m);
    }
  }

  // ---------------------------------------------------------------- terminal modes

  lemma MessageInTerminal(s: Status, m: Message)
    requires Terminal(s.mode)
    ensures Terminal(AfterMessage(s, m).mode) && AfterMessage(s, m).points == s.points
  {
  }

  lemma {:induction false} ExchangeInTerminal(s: Status, messages: seq<Message>)
    requires Terminal(s.mode)
    ensures var s' := AfterEvents(s, Exchange(messages)); Terminal(s'.mode) && s'.points == s.points
  {
    if messages == [] {
      Nothing(s);
    } else {
      var before, m := messages[..|messages| - 1], messages[|messages| - 1];
      assert messages == before + [m];
      hide *;
      ExchangeInTerminal(s, before);
      ExchangeNext(before, m);
      AnswerChangesNothing(s, Exchange(before), m);
      MessageInTerminal(AfterEvents(s, Exchange(before)), m);
    }
  }

  // In a terminal mode an instruction passes unannounced, and a throwing one is reported.
  lemma TurnInTerminal(s: Status, turn: Turn)
    requires TurnFollows(s, turn) && Terminal(s.mode)
    ensures turn.chatter == []
    ensures Terminal(AfterTurn(s, turn).mode) && AfterTurn(s, turn).points == s.points
  {
    Nothing(s);
    TurnThrows(s, turn, turn.thrown);
  }

  // What is reported for the instructions that throw, in order.
  function Reports(turns: seq<Turn>): seq<Event> {
    if turns == [] then [] else Reports(turns[..|turns| - 1]) + Report(turns[|turns| - 1])
  }

  /**
    STOP and EXC are final: from then on no instruction is held up, nothing is read, the breakpoints
    stay as they are, and all that is sent is one OnException for each instruction that throws.
  */
  lemma {:induction false} TerminalIsFinal(s: Status, turns: seq<Turn>, i: nat, j: nat)
    requires Session(s, turns) && i <= j <= |turns| && AfterTurns(s, turns[..i]).mode in {STOP, EXC}
    ensures AfterTurns(s, turns[..j]).mode in {STOP, EXC}
    ensures AfterTurns(s, turns[..j]).points == AfterTurns(s, turns[..i]).points
    ensures j < |turns| ==> turns[j].chatter == []
    ensures Log(turns[..j]) == Log(turns[..i]) + Reports(turns[i..j])
    decreases j
  {
    TerminalModes();
    hide *;
    if i < j {
      TerminalIsFinal(s, turns, i, j - 1);
      AfterNextTurn(s, turns, j - 1);
      TurnInTerminal(AfterTurns(s, turns[..j - 1]), turns[j - 1]);
      LogGrows(turns, i, j - 1);
    } else {
      NoReports(turns, i);
    }
    if j < |turns| {
      AfterNextTurn(s, turns, j);
      TurnInTerminal(AfterTurns(s, turns[..j]), turns[j]);
    }
  }

  lemma TerminalModes()
    ensures forall mode :: Terminal(mode) <==> mode in {STOP, EXC}
  {
  }

  lemma NoReports(turns: seq<Turn>, i: nat)
    requires i <= |turns|
    ensures Log(turns[..i]) == Log(turns[..i]) + Reports(turns[i..i])
  {
    assert turns[i..i] == [];
  }

  lemma LogGrows(turns: seq<Turn>, i: nat, j: nat)
    requires i <= j < |turns|
    ensures Log(turns[..j + 1]) == Log(turns[..j]) + turns[j].chatter + Report(turns[j])
    ensures Reports(turns[i..j + 1]) == Reports(turns[i..j]) + Report(turns[j])
  {
    assert turns[..j + 1][..j] == turns[..j];
    assert turns[i..j + 1][..j - i] == turns[i..j];
  }

  // The same inside one exchange: a Stop is not undone by what is read after it.
  lemma {:induction false} StopIsNotUndone(s: Status, messages: seq<Message>, later: seq<Message>)
    ensures var stopped := AfterMessage(AfterEvents(s, Exchange(messages)), Stop);
            var s' := AfterEvents(stopped, Exchange(later));
            Terminal(s'.mode) && s'.points == stopped.points
  {
    ExchangeInTerminal(AfterMessage(AfterEvents(s, Exchange(messages)), Stop), later);
  }

  // ---------------------------------------------------------------- pauses

  /**
    Every instruction that runs in a non-terminal mode at a current breakpoint has been announced by
    exactly one OnPause of its own. Before an instruction runs nothing is exchanged except after such
    an announcement, and no exception is among it: the report of an instruction that throws comes
    last, after the instruction has run, announced or not.
  */
  lemma {:induction false} BreakpointIsAnnounced(s: Status, turns: seq<Turn>, i: nat)
    requires Session(s, turns) && i < |turns|
    ensures var turn := turns[i];
            var now := AtRun(AfterTurns(s, turns[..i]), turn);
            !Terminal(now.mode) && Global(turn.address) in now.points ==> turn.chatter != []
    ensures var chatter := turns[i].chatter;
            && (chatter != [] ==> chatter[0] == Out(OnPause(turns[i].address)) && Pauses(chatter) == 1)
            && Reported(chatter) == []
    ensures Log(turns[..i + 1]) == Log(turns[..i]) + turns[i].chatter
                                   + if turns[i].thrown.Some? then [Out(OnException(turns[i].thrown.value))] else []
  {
    var before, turn := AfterTurns(s, turns[..i]), turns[i];
    AfterNextTurn(s, turns, i);
    LogGrows(turns, i, i);
    hide AfterTurns;
    hide Log;
    hide Session;
    if HeldUp(before, turn.address) {
      var messages :| turn.chatter == [Out(OnPause(turn.address))] + Exchange(messages);
      AnnouncedExchange(turn.address, messages);
    } else {
      Nothing(before);
    }
  }

  lemma AnnouncedExchange(address: Address, messages: seq<Message>)
    ensures var chatter := [Out(OnPause(address))] + Exchange(messages);
            Pauses(chatter) == 1 && Reported(chatter) == [] && Sent(chatter) == Owed(chatter)
  {
    var pause := [Out(OnPause(address))];
    ExchangeBalances(messages);
    FiltersConcat(pause, Exchange(messages));
    FiltersOne(pause[0]);
  }

  // ---------------------------------------------------------------- stepping and resuming

  // The messages among the events, the changes of breakpoints among them, and the last Run.
  function Read(events: seq<Event>): seq<Message> {
    if events == [] then []
    else Read(events[..|events| - 1]) + if events[|events| - 1].In? then [events[|events| - 1].m] else []
  }

  function ChangesIn(messages: seq<Message>): seq<Change> {
    if messages == [] then []
    else
      var m := messages[|messages| - 1];
      ChangesIn(messages[..|messages| - 1]) + if m.SetBreakpoint? then [m.change] else []
  }

  predicate LastRun(messages: seq<Message>, k: nat, stepping: bool) {
    && k < |messages| && messages[k] == Run(stepping)
    && forall j :: k < j < |messages| ==> !messages[j].Run?
  }

  lemma {:induction false} ReadConcat(a: seq<Event>, b: seq<Event>)
    ensures Read(a + b) == Read(a) + Read(b)
  {
    if b == [] {
      assert a + b == a;
    } else {
      assert (a + b)[..|a + b| - 1] == a + b[..|b| - 1];
      ReadConcat(a, b[..|b| - 1]);
    }
  }

  lemma ReadAnswered(m: Message)
    ensures Read([In(m)] + Answer(m)) == [m]
  {
    ReadConcat([In(m)], Answer(m));
    assert [In(m)][..0] == [];
    if Answer(m) != [] {
      assert Answer(m)[..0] == [];
    }
  }

  lemma {:induction false} ReadExchange(messages: seq<Message>)
    ensures Read(Exchange(messages)) == messages
  {
    if messages != [] {
      var before, m := messages[..|messages| - 1], messages[|messages| - 1];
      hide Answer;
      assert messages == before + [m];
      ReadExchange(before);
      ExchangeNext(before, m);
      ReadConcat(Exchange(before), [In(m)] + Answer(m));
      ReadAnswered(m);
    }
  }

  // The last Run decides the mode, all changes together the breakpoints; the first Stop ends it all.
  ghost predicate Decided(s: Status, messages: seq<Message>, now: Status) {
    if Stop in messages then now.mode == STOP
    else
      && now.points == Replay(s.points, ChangesIn(messages))
      && (forall k, stepping :: LastRun(messages, k, stepping) ==> now.mode == if stepping then STEP else RUN)
      && ((forall m :: m in messages ==> !m.Run?) ==> now.mode == s.mode)
      && now.mode in {RUN, STEP, s.mode}
  }

  lemma {:induction false} DecidedNext(s: Status, before: seq<Message>, now: Status, m: Message)
    requires s.mode in {RUN, STEP, PAUSE} && Decided(s, before, now)
    ensures Decided(s, before + [m], AfterMessage(now, m))
  {
    var messages := before + [m];
    assert messages[..|before|] == before && m == messages[|before|];
    assert m in messages && forall x :: x in messages <==> x in before || x == m;
    hide Breakpoints.Apply;
    if Stop !in messages {
      forall k: nat, stepping | LastRun(messages, k, stepping)
        ensures AfterMessage(now, m).mode == if stepping then STEP else RUN
      {
        if k < |before| {
          assert !m.Run? && LastRun(before, k, stepping);
        }
      }
      ChangesNext(before, m);
      if m.SetBreakpoint? {
        ReplayNext(s.points, ChangesIn(before), m.change);
      } else {
        assert ChangesIn(before) + [] == ChangesIn(before);
      }
      hide Replay;
      hide ChangesIn;
    }
  }

  lemma ChangesNext(before: seq<Message>, m: Message)
    ensures ChangesIn(before + [m]) == ChangesIn(before) + if m.SetBreakpoint? then [m.change] else []
  {
    assert (before + [m])[..|before|] == before;
  }

  lemma ReplayNext(points: set<Breakpoint>, changes: seq<Change>, c: Change)
    ensures Replay(points, changes + [c]) == Breakpoints.Apply(Replay(points, changes), c)
  {
    hide Breakpoints.Apply;
    assert (changes + [c])[..|changes|] == changes;
  }

  lemma {:induction false} ExchangeDecides(s: Status, messages: seq<Message>)
    requires s.mode in {RUN, STEP, PAUSE}
    ensures Decided(s, messages, AfterEvents(s, Exchange(messages)))
  {
    if messages == [] {
      Nothing(s);
    } else {
      var before, m := messages[..|messages| - 1], messages[|messages| - 1];
      assert messages == before + [m];
      hide *;
      ExchangeDecides(s, before);
      ExchangeNext(before, m);
      AnswerChangesNothing(s, Exchange(before), m);
      DecidedNext(s, before, AfterEvents(s, Exchange(before)), m);
    }
  }

  // An instruction that is held up is let go as the messages read have decided, starting from PAUSE.
  lemma {:induction false} MessagesDecide(s: Status, turn: Turn)
    requires TurnFollows(s, turn) && Read(turn.chatter) != []
    ensures Decided(s.(mode := PAUSE), Read(turn.chatter), AtRun(s, turn))
  {
    hide AfterEvents;
    hide Exchange;
    hide Decided;
    var messages :| turn.chatter == [Out(OnPause(turn.address))] + Exchange(messages);
    var pause := [Out(OnPause(turn.address))];
    assert Read(pause) == [] by { assert pause[..0] == []; }
    hide Read;
    ReadConcat(pause, Exchange(messages));
    ReadExchange(messages);
    OneEvent(s, pause[0]);
    EventsConcat(s, pause, Exchange(messages));
    ExchangeDecides(s.(mode := PAUSE), messages);
    assert Read(turn.chatter) == messages;
  }

  /**
    A single-step resume runs exactly one instruction: when instruction i is held up, the last Run read
    asks for a step, no Stop is read, and the instruction does not throw, the next one is announced
    before it runs.
  */
  lemma {:induction false} StepRunsOneInstruction(s: Status, turns: seq<Turn>, i: nat, k: nat)
    requires Session(s, turns) && i + 1 < |turns| && turns[i].thrown.None?
    requires Stop !in Read(turns[i].chatter) && LastRun(Read(turns[i].chatter), k, true)
    ensures turns[i + 1].chatter != [] && turns[i + 1].chatter[0] == Out(OnPause(turns[i + 1].address))
  {
    hide AfterTurns;
    hide Read;
    hide LastRun;
    LastRunRead(Read(turns[i].chatter), k, true);
    AfterNextTurn(s, turns, i);
    AfterNextTurn(s, turns, i + 1);
    MessagesDecide(AfterTurns(s, turns[..i]), turns[i]);
    Nothing(AtRun(AfterTurns(s, turns[..i]), turns[i]));
  }

  lemma LastRunRead(messages: seq<Message>, k: nat, stepping: bool)
    requires LastRun(messages, k, stepping)
    ensures messages != []
  {
  }

  /**
    A resume without stepping runs on to the next breakpoint: when the last Run read while instruction i
    is held up does not ask for a step, nothing is announced or read from then on until an instruction
    throws, or is at one of the breakpoints as the messages read have left them; that one is announced.
  */
  lemma {:induction false} ResumeRunsToNextBreakpoint(s: Status, turns: seq<Turn>, i: nat, k: nat, j: nat)
    requires Session(s, turns) && i < j < |turns| && turns[i].thrown.None?
    requires Stop !in Read(turns[i].chatter) && LastRun(Read(turns[i].chatter), k, false)
    requires var points := Replay(AfterTurns(s, turns[..i]).points, ChangesIn(Read(turns[i].chatter)));
             forall m :: i < m < j ==> Global(turns[m].address) !in points && turns[m].thrown.None?
    ensures forall m :: i < m < j ==> turns[m].chatter == []
    ensures var points := Replay(AfterTurns(s, turns[..i]).points, ChangesIn(Read(turns[i].chatter)));
            if Global(turns[j].address) in points
            then turns[j].chatter != [] && turns[j].chatter[0] == Out(OnPause(turns[j].address))
            else turns[j].chatter == []
  {
    var now := LetGo(s, turns, i, k);
    hide *;
    FreeRun(s, turns, i + 1, j, now);
    AfterNextTurn(s, turns, j);
    InRunMode(now, turns[j]);
  }

  // A held up instruction let go by a Run without stepping, and not throwing.
  lemma {:induction false} LetGo(s: Status, turns: seq<Turn>, i: nat, k: nat) returns (now: Status)
    requires Session(s, turns) && i < |turns| && turns[i].thrown.None?
    requires Stop !in Read(turns[i].chatter) && LastRun(Read(turns[i].chatter), k, false)
    ensures now == AfterTurns(s, turns[..i + 1]) && now.mode == RUN
    ensures now.points == Replay(AfterTurns(s, turns[..i]).points, ChangesIn(Read(turns[i].chatter)))
  {
    var before := AfterTurns(s, turns[..i]);
    now := AtRun(before, turns[i]);
    AfterNextTurn(s, turns, i);
    hide AfterTurns;
    hide Read;
    hide Session;
    LastRunRead(Read(turns[i].chatter), k, false);
    MessagesDecide(before, turns[i]);
    Nothing(now);
  }

  lemma InRunMode(now: Status, turn: Turn)
    requires TurnFollows(now, turn) && now.mode == RUN
    ensures if Global(turn.address) in now.points then turn.chatter != [] && turn.chatter[0] == Out(OnPause(turn.address))
            else turn.chatter == []
  {
  }

  // In mode RUN nothing happens before the next breakpoint or throw.
  lemma {:induction false} FreeRun(s: Status, turns: seq<Turn>, i: nat, j: nat, now: Status)
    requires Session(s, turns) && i <= j <= |turns| && now == AfterTurns(s, turns[..i]) && now.mode == RUN
    requires forall k :: i <= k < j ==> Global(turns[k].address) !in now.points && turns[k].thrown.None?
    ensures AfterTurns(s, turns[..j]) == now
    ensures forall k :: i <= k < j ==> turns[k].chatter == []
    decreases j
  {
    hide *;
    if i < j {
      FreeRun(s, turns, i, j - 1, now);
      AfterNextTurn(s, turns, j - 1);
      FreeTurn(now, turns[j - 1]);
    }
  }

  /**
    Once a Stop has been read, or an instruction has thrown, no later instruction is held up.
  */
  lemma {:induction false} StopOrThrowRunsToTheEnd(s: Status, turns: seq<Turn>, i: nat, j: nat)
    requires Session(s, turns) && i < j < |turns|
    requires Stop in Read(turns[i].chatter) || turns[i].thrown.Some?
    ensures turns[j].chatter == [] && AfterTurns(s, turns[..j]).points == AfterTurns(s, turns[..i + 1]).points
  {
    var before := AfterTurns(s, turns[..i]);
    hide AfterTurns;
    hide Read;
    hide AfterEvents;
    hide TurnFollows;
    AfterNextTurn(s, turns, i);
    if Stop in Read(turns[i].chatter) {
      MessagesDecide(before, turns[i]);
    }
    TurnThrows(before, turns[i], turns[i].thrown);
    TerminalIsFinal(s, turns, i + 1, j);
  }

  lemma AfterNextTurn(s: Status, turns: seq<Turn>, j: nat)
    requires Session(s, turns) && j < |turns|
    ensures TurnFollows(AfterTurns(s, turns[..j]), turns[j])
    ensures AfterTurns(s, turns[..j + 1]) == AfterTurn(AfterTurns(s, turns[..j]), turns[j])
  {
    assert turns[..j + 1][..j] == turns[..j];
  }

  lemma FreeTurn(now: Status, turn: Turn)
    requires TurnFollows(now, turn) && now.mode == RUN && Global(turn.address) !in now.points && turn.thrown.None?
    ensures turn.chatter == [] && AfterTurn(now, turn) == now
  {
    Nothing(now);
  }

  // ---------------------------------------------------------------- replies and reports

  /**
    Over the whole session, the replies sent are exactly those the messages read ask for, in order,
    and the exceptions reported are exactly those thrown, in order. Announcements, replies and
    reports are all that is ever sent.
  */
  lemma {:induction false} EveryRequestIsAnswered(s: Status, turns: seq<Turn>)
    requires Session(s, turns)
    ensures Sent(Log(turns)) == Owed(Log(turns))
    ensures Reported(Log(turns)) == Reports(turns)
  {
    if turns != [] {
      var n := |turns| - 1;
      var before, turn := turns[..n], turns[n];
      hide *;
      assert turns[..n + 1] == turns;
      SessionBefore(s, turns);
      EveryRequestIsAnswered(s, before);
      AfterNextTurn(s, turns, n);
      LogGrows(turns, 0, n);
      assert turns[0..n] == before && turns[0..n + 1] == turns;
      TurnBalances(AfterTurns(s, before), turn);
      ReportOnly(turn);
      FiltersJoin(Log(before), turn.chatter, Report(turn));
    } else {
      NoneYet();
    }
  }

  // A turn that balances, and then its report, added to a log that balances.
  lemma FiltersJoin(log: seq<Event>, chatter: seq<Event>, report: seq<Event>)
    requires Sent(log) == Owed(log) && Sent(chatter) == Owed(chatter) && Reported(chatter) == []
    requires Sent(report) == [] && Owed(report) == [] && Reported(report) == report
    ensures Sent(log + chatter + report) == Owed(log + chatter + report)
    ensures Reported(log + chatter + report) == Reported(log) + report
  {
    hide *;
    FiltersConcat(log + chatter, report);
    FiltersConcat(log, chatter);
  }

  lemma NoneYet()
    ensures Log([]) == [] && Reports([]) == [] && Sent([]) == [] && Owed([]) == [] && Reported([]) == []
  {
  }

  lemma SessionBefore(s: Status, turns: seq<Turn>)
    requires Session(s, turns) && turns != []
    ensures Session(s, turns[..|turns| - 1])
  {
    hide TurnFollows;
    var before := turns[..|turns| - 1];
    forall i | 0 <= i < |before| ensures TurnFollows(AfterTurns(s, before[..i]), before[i]) {
      assert before[..i] == turns[..i];
      assert TurnFollows(AfterTurns(s, turns[..i]), turns[i]);
    }
  }

  lemma TurnBalances(s: Status, turn: Turn)
    requires TurnFollows(s, turn)
    ensures Sent(turn.chatter) == Owed(turn.chatter) && Reported(turn.chatter) == []
  {
    if turn.chatter != [] {
      var messages :| turn.chatter == [Out(OnPause(turn.address))] + Exchange(messages);
      AnnouncedExchange(turn.address, messages);
    }
  }

  lemma ReportOnly(turn: Turn)
    ensures Sent(Report(turn)) == [] && Owed(Report(turn)) == [] && Reported(Report(turn)) == Report(turn)
  {
    if turn.thrown.Some? {
      FiltersOne(Report(turn)[0]);
    }
  }
}
