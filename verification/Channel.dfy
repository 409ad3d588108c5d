/**
  The one-slot channel between the debugger and the emulator: a mutex, two condition variables, and
  any number of threads reading, trying to read, writing and closing.

  Every turn a thread takes with the lock held is one atomic event. A thread that has to wait lets
  go of the lock and sleeps on a condition variable; a notification, or nothing at all, wakes it,
  and later it takes the lock again and looks once more. Between the two any other thread may get in.
*/
module Channels {
  import opened Wrappers

  type Thread = nat

  // How a turn of `read` or `tryRead` ends: still waiting, returning nothing, or returning a value.
  datatype Taking<+T> = Blocked | Nothing | Value(v: T)

  datatype Giving = Waiting | Accepted | Refused

  datatype Event<+T> =
    | Read(t: Thread, taking: Taking<T>)
    | TryRead(taking: Taking<T>)
    | Write(t: Thread, data: T, giving: Giving)
    | Close
    // A wake-up nobody asked for.
    | SpuriousReader(t: Thread)
    | SpuriousWriter(t: Thread)

  // Who sleeps on a condition variable, and who has been woken but does not hold the lock yet.
  datatype Condition = Condition(asleep: set<Thread>, awake: set<Thread>)

  datatype Monitor<+T> =
    Monitor(isClosed: bool, isEmpty: bool, value: Option<T>,
            readers: Condition, writers: Condition, pending: map<Thread, T>)

  function Initial<T>(): Monitor<T> {
    Monitor(false, true, None, Condition({}, {}), Condition({}, {}), map[])
  }

  // ---------------------------------------------------------------- condition variables

  // Which sleeper is woken is up to the system.
  ghost predicate NotifyOne(c: Condition, c': Condition) {
    if c.asleep == {} then c' == c
    else exists t :: t in c.asleep && c' == Condition(c.asleep - {t}, c.awake + {t})
  }

  function NotifyAll(c: Condition): Condition {
    Condition({}, c.asleep + c.awake)
  }

  function Sleep(c: Condition, t: Thread): Condition {
    Condition(c.asleep + {t}, c.awake - {t})
  }

  function Done(c: Condition, t: Thread): Condition {
    Condition(c.asleep, c.awake - {t})
  }

  // ---------------------------------------------------------------- one turn

  predicate Idle(s: Monitor, t: Thread) {
    && t !in s.readers.asleep && t !in s.readers.awake
    && t !in s.writers.asleep && t !in s.writers.awake
  }

  // The thread may take the lock: it calls now, or it has been woken.
  predicate MayRead(s: Monitor, t: Thread) {
    Idle(s, t) || t in s.readers.awake
  }

  ghost predicate MayWrite<T>(s: Monitor<T>, t: Thread, data: T) {
    Idle(s, t) || (t in s.writers.awake && t in s.pending && s.pending[t] == data)
  }

  ghost predicate Takes<T>(s: Monitor<T>, s': Monitor<T>, v: T) {
    && s.value == Some(v)
    && exists w :: NotifyOne(s.writers, w) && s' == s.(value := None, isEmpty := true, writers := w)
  }

  ghost predicate Next<T>(s: Monitor<T>, e: Event<T>, s': Monitor<T>) {
    match e
    case Read(t, Blocked) =>
      MayRead(s, t) && s.isEmpty && !s.isClosed && s' == s.(readers := Sleep(s.readers, t))
    case Read(t, Nothing) =>
      MayRead(s, t) && s.isEmpty && s.isClosed && s' == s.(readers := Done(s.readers, t))
    case Read(t, Value(v)) =>
      MayRead(s, t) && !s.isEmpty && Takes(s.(readers := Done(s.readers, t)), s', v)
    case TryRead(Blocked) => false
    case TryRead(Nothing) => (s.isEmpty || s.isClosed) && s' == s
    case TryRead(Value(v)) => !s.isEmpty && !s.isClosed && Takes(s, s', v)
    case Write(t, data, Waiting) =>
      && MayWrite(s, t, data)
      && !s.isEmpty && !s.isClosed
      && s' == s.(writers := Sleep(s.writers, t), pending := s.pending[t := data])
    case Write(t, data, Refused) =>
      && MayWrite(s, t, data)
      && s.isClosed
      && s' == s.(writers := Done(s.writers, t), pending := s.pending - {t})
    case Write(t, data, Accepted) =>
      && MayWrite(s, t, data)
      && s.isEmpty && !s.isClosed
      && exists r :: && NotifyOne(s.readers, r)
                     && s' == s.(isEmpty := false, value := Some(data), readers := r,
                                 writers := Done(s.writers, t), pending := s.pending - {t})
    case Close =>
      s' == s.(isClosed := true, readers := NotifyAll(s.readers), writers := NotifyAll(s.writers))
    case SpuriousReader(t) =>
      t in s.readers.asleep && s' == s.(readers := Condition(s.readers.asleep - {t}, s.readers.awake + {t}))
    case SpuriousWriter(t) =>
      t in s.writers.asleep && s' == s.(writers := Condition(s.writers.asleep - {t}, s.writers.awake + {t}))
  }

  // The channel can be in state s after these events, under some choice of the threads woken.
  ghost predicate Run<T(!new)>(trace: seq<Event<T>>, s: Monitor<T>) {
    if trace == [] then s == Initial()
    else
      var before, last := trace[..|trace| - 1], trace[|trace| - 1];
      exists s0 :: Run(before, s0) && Next(s0, last, s)
  }

  // ---------------------------------------------------------------- what the threads saw

  function Contents<T>(s: Monitor<T>): seq<T> {
    if s.value.Some? then [s.value.value] else []
  }

  // The values returned so far, oldest first.
  function Taken<T>(trace: seq<Event<T>>): seq<T> {
    if trace == [] then []
    else
      var e := trace[|trace| - 1];
      Taken(trace[..|trace| - 1]) + if (e.Read? || e.TryRead?) && e.taking.Value? then [e.taking.v] else []
  }

  // The values of the successful writes so far, oldest first.
  function Written<T>(trace: seq<Event<T>>): seq<T> {
    if trace == [] then []
    else
      var e := trace[|trace| - 1];
      Written(trace[..|trace| - 1]) + if e.Write? && e.giving.Accepted? then [e.data] else []
  }

  predicate Closed(trace: seq<Event>) {
    exists i :: 0 <= i < |trace| && trace[i].Close?
  }

  // ---------------------------------------------------------------- invariants

  ghost predicate Consistent<T>(s: Monitor<T>) {
    && (s.isEmpty <==> s.value.None?)
    && s.readers.asleep !! s.readers.awake && s.writers.asleep !! s.writers.awake
    && (s.readers.asleep + s.readers.awake) !! (s.writers.asleep + s.writers.awake)
    && s.pending.Keys == s.writers.asleep + s.writers.awake
  }

  // Nobody sleeps through what they are waiting for.
  ghost predicate NobodyForgotten(s: Monitor) {
    && (!s.isClosed && !s.isEmpty && s.readers.asleep != {} ==> s.readers.awake != {})
    && (!s.isClosed && s.isEmpty && s.writers.asleep != {} ==> s.writers.awake != {})
    && (s.isClosed ==> s.readers.asleep == {} && s.writers.asleep == {})
  }

  lemma NextKeeps<T>(s: Monitor<T>, e: Event<T>, s': Monitor<T>)
    requires Consistent(s) && NobodyForgotten(s) && Next(s, e, s')
    ensures Consistent(s') && NobodyForgotten(s')
  {
  }

  /**
    In every state any number of threads can reach: while the channel is open, a full slot with
    readers asleep means some reader is already awake, an empty slot with writers asleep means some
    writer is already awake; once closed nobody sleeps. No wake-up is ever lost.
  */
  lemma {:induction false} NoLostWakeup<T(!new)>(trace: seq<Event<T>>, s: Monitor<T>)
    requires Run(trace, s)
    ensures Consistent(s) && NobodyForgotten(s)
  {
    if trace != [] {
      hide Next;
      hide Consistent;
      hide NobodyForgotten;
      var before, last := trace[..|trace| - 1], trace[|trace| - 1];
      var s0 :| Run(before, s0) && Next(s0, last, s);
      NoLostWakeup(before, s0);
      NextKeeps(s0, last, s);
    }
  }

  /**
    A call that waits for something that has happened can be finished: when the slot is full or the
    channel closed and some call of read is waiting, one of the waiting threads has been woken and
    its next turn ends its call; likewise for write.
  */
  lemma {:induction false} WaitingCallCanEnd<T(!new)>(trace: seq<Event<T>>, s: Monitor<T>)
    requires Run(trace, s)
    ensures (!s.isEmpty || s.isClosed) && s.readers.asleep + s.readers.awake != {} ==>
              exists t, r, s' :: t in s.readers.awake && r != Blocked && Next(s, Read(t, r), s')
    ensures (s.isEmpty || s.isClosed) && s.writers.asleep + s.writers.awake != {} ==>
              exists t, data, g, s' :: t in s.writers.awake && g != Waiting && Next(s, Write(t, data, g), s')
    // No turn taken then goes back to sleep.
    ensures forall t, r, s' :: (!s.isEmpty || s.isClosed) && Next(s, Read(t, r), s') ==> r != Blocked
    ensures forall t, data, g, s' :: (s.isEmpty || s.isClosed) && Next(s, Write(t, data, g), s') ==> g != Waiting
  {
    NoLostWakeup(trace, s);
    if (!s.isEmpty || s.isClosed) && s.readers.asleep + s.readers.awake != {} {
      assert s.readers.awake != {};
      var t :| t in s.readers.awake;
      if s.isEmpty {
        assert Next(s, Read(t, Nothing), s.(readers := Done(s.readers, t)));
      } else {
        var w := WakeOne(s.writers);
        var s' := s.(value := None, isEmpty := true, readers := Done(s.readers, t), writers := w);
        assert Takes(s.(readers := Done(s.readers, t)), s', s.value.value);
        assert Next(s, Read(t, Value(s.value.value)), s');
      }
    }
    if (s.isEmpty || s.isClosed) && s.writers.asleep + s.writers.awake != {} {
      assert s.writers.awake != {};
      var t :| t in s.writers.awake;
      if s.isClosed {
        assert Next(s, Write(t, s.pending[t], Refused), s.(writers := Done(s.writers, t), pending := s.pending - {t}));
      } else {
        var r := WakeOne(s.readers);
        assert Next(s, Write(t, s.pending[t], Accepted),
                    s.(isEmpty := false, value := Some(s.pending[t]), readers := r,
                       writers := Done(s.writers, t), pending := s.pending - {t}));
      }
    }
  }

  /**
    A value written wakes one sleeping reader and a value taken one sleeping writer, if there is any;
    nobody else is woken, except by a close or for no reason.
  */
  lemma {:induction false} OneIsWoken<T>(s: Monitor<T>, e: Event<T>, s': Monitor<T>)
    requires Consistent(s) && Next(s, e, s') && !e.Close? && !e.SpuriousReader? && !e.SpuriousWriter?
    ensures var written := e.Write? && e.giving.Accepted?;
            var woken := s.readers.asleep - s'.readers.asleep;
            |woken| == (if written && s.readers.asleep != {} then 1 else 0) && woken <= s'.readers.awake
    ensures var taken := (e.Read? || e.TryRead?) && e.taking.Value?;
            var woken := s.writers.asleep - s'.writers.asleep;
            |woken| == (if taken && s.writers.asleep != {} then 1 else 0) && woken <= s'.writers.awake
  {
    if e.Write? && e.giving.Accepted? {
      WokenByNotify(s.readers, s'.readers);
      assert s.writers.asleep - s'.writers.asleep == {};
    } else if (e.Read? || e.TryRead?) && e.taking.Value? {
      WokenByNotify(s.writers, s'.writers);
      assert s.readers.asleep - s'.readers.asleep == {};
    } else {
      assert s.readers.asleep - s'.readers.asleep == {} && s.writers.asleep - s'.writers.asleep == {};
    }
  }

  lemma WokenByNotify(c: Condition, c': Condition)
    requires NotifyOne(c, c')
    ensures var woken := c.asleep - c'.asleep;
            |woken| == (if c.asleep != {} then 1 else 0) && woken <= c'.awake
  {
    if c.asleep == {} {
      assert c.asleep - c'.asleep == {};
    } else {
      var t :| t in c.asleep && c' == Condition(c.asleep - {t}, c.awake + {t});
      assert c.asleep - c'.asleep == {t};
    }
  }

  lemma WakeOne(c: Condition) returns (c': Condition)
    ensures NotifyOne(c, c')
  {
    if c.asleep == {} {
      c' := c;
    } else {
      var t :| t in c.asleep;
      c' := Condition(c.asleep - {t}, c.awake + {t});
    }
  }

  // ---------------------------------------------------------------- a lossless queue

  lemma {:induction false} NextMoves<T(!new)>(s: Monitor<T>, e: Event<T>, s': Monitor<T>, before: seq<Event<T>>)
    requires Consistent(s) && Next(s, e, s') && Taken(before) + Contents(s) == Written(before)
    ensures Taken(before + [e]) + Contents(s') == Written(before + [e])
  {
    assert (before + [e])[..|before|] == before;
    hide Consistent;
    match e
    case Read(_, Value(_)) =>
    case Write(_, _, Accepted) => assert Contents(s) == [] by { EmptyIsNone(s); }
    case _ =>
  }

  lemma NextCloses<T>(s: Monitor<T>, e: Event<T>, s': Monitor<T>)
    requires Next(s, e, s')
    ensures s'.isClosed <==> s.isClosed || e.Close?
  {
  }

  lemma EmptyIsNone<T>(s: Monitor<T>)
    requires Consistent(s)
    ensures s.isEmpty <==> s.value.None?
  {
  }

  /**
    The values returned by read and tryRead, in order, followed by what is in the slot, are exactly
    the values of the successful writes in order: nothing is lost, repeated or reordered.
  */
  lemma {:induction false} LosslessFifo<T(!new)>(trace: seq<Event<T>>, s: Monitor<T>)
    requires Run(trace, s)
    ensures Taken(trace) + Contents(s) == Written(trace)
    ensures s.isEmpty <==> Taken(trace) == Written(trace)
    ensures s.isClosed <==> Closed(trace)
  {
    if trace != [] {
      hide Next;
      hide Consistent;
      hide Closed;
      var before, last := trace[..|trace| - 1], trace[|trace| - 1];
      var s0 :| Run(before, s0) && Next(s0, last, s);
      LosslessFifo(before, s0);
      NextCloses(s0, last, s);
      NoLostWakeup(before, s0);
      NextMoves(s0, last, s, before);
      assert trace == before + [last];
      ClosedNext(before, last);
    }
    NoLostWakeup(trace, s);
    EmptyIsNone(s);
  }

  lemma ClosedNext<T>(before: seq<Event<T>>, e: Event<T>)
    ensures Closed(before + [e]) <==> Closed(before) || e.Close?
  {
    var trace := before + [e];
    if Closed(before) {
      var i :| 0 <= i < |before| && before[i].Close?;
      assert trace[i].Close?;
    }
    if e.Close? {
      assert trace[|before|].Close?;
    }
    if Closed(trace) && !e.Close? {
      var i :| 0 <= i < |trace| && trace[i].Close?;
      assert before[i].Close?;
    }
  }

  // The states before and after event j of a run.
  lemma {:induction false} StateAt<T(!new)>(trace: seq<Event<T>>, s: Monitor<T>, j: nat)
    returns (s0: Monitor<T>, s1: Monitor<T>)
    requires Run(trace, s) && j < |trace|
    ensures Run(trace[..j], s0) && Next(s0, trace[j], s1)
  {
    hide Next;
    var before, last := trace[..|trace| - 1], trace[|trace| - 1];
    s0 :| Run(before, s0) && Next(s0, last, s);
    s1 := s;
    if j < |before| {
      s0, s1 := StateAt(before, s0, j);
      assert before[..j] == trace[..j];
    } else {
      assert before == trace[..j];
    }
  }

  /**
    What a returning call tells its caller, at any point of any run.
  */
  lemma {:induction false} CallsTellTheTruth<T(!new)>(trace: seq<Event<T>>, s: Monitor<T>, j: nat)
    requires Run(trace, s) && j < |trace|
    ensures var before := trace[..j];
            match trace[j]
            // read returns nothing only after a close, when every accepted value has been taken;
            case Read(_, Nothing) => Closed(before) && Taken(before) == Written(before)
            // otherwise it returns the oldest value nobody has taken;
            case Read(_, Value(v)) => Taken(before) + [v] == Written(before)
            // tryRead also returns nothing when the channel is closed, even with a value still in it;
            case TryRead(Nothing) => Closed(before) || Taken(before) == Written(before)
            case TryRead(Value(v)) => !Closed(before) && Taken(before) + [v] == Written(before)
            // a write succeeds only before any close, and fails only after one.
            case Write(_, _, Accepted) => !Closed(before) && Taken(before) == Written(before)
            case Write(_, _, Refused) => Closed(before)
            // a call waits only in an open channel: read for a value, write for room. tryRead never does.
            case Read(_, Blocked) => !Closed(before) && Taken(before) == Written(before)
            case Write(_, _, Waiting) => !Closed(before) && Taken(before) != Written(before)
            case TryRead(Blocked) => false
            case Close => true
            case SpuriousReader(_) => true
            case SpuriousWriter(_) => true
    ensures trace[j].TryRead? ==>
              (trace[j].taking.Nothing? <==> Closed(trace[..j]) || Taken(trace[..j]) == Written(trace[..j]))
    // Every turn of read returns a value exactly when there is one, and waits exactly when there is none
    // and the channel is open; every turn of write fails exactly when the channel is closed, and waits
    // exactly when it is open and the last value has not been taken.
    ensures trace[j].Read? ==>
              && (trace[j].taking.Value? <==> Taken(trace[..j]) != Written(trace[..j]))
              && (trace[j].taking.Blocked? <==> !Closed(trace[..j]) && Taken(trace[..j]) == Written(trace[..j]))
    ensures trace[j].Write? ==>
              && (trace[j].giving.Refused? <==> Closed(trace[..j]))
              && (trace[j].giving.Waiting? <==> !Closed(trace[..j]) && Taken(trace[..j]) != Written(trace[..j]))
  {
    var s0, s1 := StateAt(trace, s, j);
    NoLostWakeup(trace[..j], s0);
    LosslessFifo(trace[..j], s0);
    hide Closed;
    hide Taken;
    hide Written;
    TurnOutcome(s0, trace[j], s1);
    OldestIsNext(trace[..j], s0);
  }

  // How the two flags decide a turn.
  lemma TurnOutcome<T>(s: Monitor<T>, e: Event<T>, s': Monitor<T>)
    requires Next(s, e, s')
    ensures e.Read? ==>
              && (e.taking.Value? <==> !s.isEmpty) && (e.taking.Blocked? <==> s.isEmpty && !s.isClosed)
              && (e.taking.Value? ==> s.value == Some(e.taking.v))
    ensures e.TryRead? ==>
              && !e.taking.Blocked? && (e.taking.Nothing? <==> s.isEmpty || s.isClosed)
              && (e.taking.Value? ==> s.value == Some(e.taking.v))
    ensures e.Write? ==>
              && (e.giving.Refused? <==> s.isClosed) && (e.giving.Waiting? <==> !s.isEmpty && !s.isClosed)
  {
  }

  // What is in the slot is the oldest value nobody has taken.
  lemma OldestIsNext<T(!new)>(trace: seq<Event<T>>, s: Monitor<T>)
    requires Taken(trace) + Contents(s) == Written(trace)
    ensures s.value.Some? ==> Taken(trace) + [s.value.value] == Written(trace)
  {
  }

  lemma NextRun<T(!new)>(trace: seq<Event<T>>, s: Monitor<T>, e: Event<T>, s': Monitor<T>)
    requires Run(trace, s) && Next(s, e, s')
    ensures Run(trace + [e], s')
  {
    hide Next;
    assert (trace + [e])[..|trace|] == trace;
  }

  /**
    A value left in a channel that is closed is not given to tryRead, and is not lost: it stays in the
    slot and read still returns it.
  */
  lemma {:induction false} ClosedValueIsLeftToRead<T(!new)>(t: Thread, data: T)
    ensures exists s :: Run([Write(t, data, Accepted), Close, TryRead(Nothing)], s) && s.value == Some(data)
    ensures exists s' :: Run([Write(t, data, Accepted), Close, TryRead(Nothing), Read(t, Value(data))], s')
  {
    var s0: Monitor<T> := Initial();
    var s1 := s0.(isEmpty := false, value := Some(data));
    var s2 := s1.(isClosed := true);
    var s3 := s2.(value := None, isEmpty := true);
    var trace: seq<Event<T>> := [Write(t, data, Accepted), Close, TryRead(Nothing)];
    LeftSteps(t, data);
    hide *;
    assert [] + [Write(t, data, Accepted)] == [Write(t, data, Accepted)];
    NothingRun<T>();
    NextRun([], s0, Write(t, data, Accepted), s1);
    NextRun([Write(t, data, Accepted)], s1, Close, s2);
    assert [Write(t, data, Accepted)] + [Close] == [Write(t, data, Accepted), Close];
    NextRun([Write(t, data, Accepted), Close], s2, TryRead(Nothing), s2);
    assert [Write(t, data, Accepted), Close] + [TryRead(Nothing)] == trace;
    NextRun(trace, s2, Read(t, Value(data)), s3);
    assert trace + [Read(t, Value(data))] == [Write(t, data, Accepted), Close, TryRead(Nothing), Read(t, Value(data))];
  }

  lemma NothingRun<T(!new)>()
    ensures Run<T>([], Initial())
  {
  }

  lemma LeftSteps<T(!new)>(t: Thread, data: T)
    ensures var s0: Monitor<T> := Initial();
            var s1 := s0.(isEmpty := false, value := Some(data));
            var s2 := s1.(isClosed := true);
            && Next(s0, Write(t, data, Accepted), s1) && Next(s1, Close, s2) && Next(s2, TryRead(Nothing), s2)
            && Next(s2, Read(t, Value(data)), s2.(value := None, isEmpty := true))
  {
    var s0: Monitor<T> := Initial();
    var s2 := s0.(isEmpty := false, value := Some(data), isClosed := true);
    var idle := s0.readers;
    assert NotifyOne(idle, idle) && Done(idle, t) == idle && s0.pending - {t} == s0.pending;
    assert Takes(s2.(readers := Done(idle, t)), s2.(value := None, isEmpty := true), data);
  }

  lemma {:induction false} NoWriteAfterClose<T(!new)>(trace: seq<Event<T>>, s: Monitor<T>, i: nat, j: nat)
    requires Run(trace, s) && i < j < |trace| && trace[i].Close?
    ensures !(trace[j].Write? && trace[j].giving.Accepted?)
    ensures !(trace[j].TryRead? && trace[j].taking.Value?)
    ensures !(trace[j].Read? && trace[j].taking.Blocked?) && !(trace[j].Write? && trace[j].giving.Waiting?)
  {
    assert trace[..j][i].Close?;
    var s0, s1 := StateAt(trace, s, j);
    LosslessFifo(trace[..j], s0);
  }

  // ---------------------------------------------------------------- the channel object

  /**
    The critical sections of the channel. Each method is what one thread does between taking the lock
    and letting it go; the trace records the turns taken.
  */
  class Channel<T(!new)> {
    var isClosed: bool
    var isEmpty: bool
    var value: Option<T>
    var readCond: Condition
    var writeCond: Condition
    ghost var pending: map<Thread, T>
    ghost var trace: seq<Event<T>>

    ghost function State(): Monitor<T>
      reads this
    {
      Monitor(isClosed, isEmpty, value, readCond, writeCond, pending)
    }

    ghost predicate Valid()
      reads this
    {
      Run(trace, State())
    }

    constructor ()
      ensures Valid() && trace == []
    {
      isClosed, isEmpty, value := false, true, None;
      readCond, writeCond := Condition({}, {}), Condition({}, {});
      pending, trace := map[], [];
    }

    ghost method Log(e: Event<T>, s: Monitor<T>)
      requires Run(trace, s) && Next(s, e, State())
      modifies this`trace
      ensures Valid() && trace == old(trace) + [e]
    {
      hide Next;
      trace := trace + [e];
      assert trace[..|trace| - 1] == old(trace);
    }

    method NotifyReader()
      modifies this`readCond
      ensures NotifyOne(old(readCond), readCond)
    {
      if readCond.asleep != {} {
        var t :| t in readCond.asleep;
        readCond := Condition(readCond.asleep - {t}, readCond.awake + {t});
      }
    }

    method NotifyWriter()
      modifies this`writeCond
      ensures NotifyOne(old(writeCond), writeCond)
    {
      if writeCond.asleep != {} {
        var t :| t in writeCond.asleep;
        writeCond := Condition(writeCond.asleep - {t}, writeCond.awake + {t});
      }
    }

    // One turn of read: `waiting` if the caller went (back) to sleep.
    method Read(t: Thread) returns (waiting: bool, result: Option<T>)
      requires Valid() && MayRead(State(), t)
      modifies this
      ensures Valid()
      ensures trace == old(trace) + [Event.Read(t, if waiting then Blocked else if result.None? then Nothing else Value(result.value))]
      ensures waiting == (old(isEmpty) && !old(isClosed)) && (result.Some? <==> !old(isEmpty))
      ensures isEmpty && value == None && isClosed == old(isClosed) && (result.Some? ==> result == old(value))
    {
      ghost var s := State();
      NoLostWakeup(trace, s);
      result := None;
      if isEmpty && !isClosed {
        readCond := Sleep(readCond, t);
        Log(Event.Read(t, Blocked), s);
        return true, None;
      }
      readCond := Done(readCond, t);
      if isEmpty && isClosed {
        Log(Event.Read(t, Nothing), s);
        return false, None;
      }
      result := value;
      value := None;
      isEmpty := true;
      NotifyWriter();
      Log(Event.Read(t, Value(result.value)), s);
      waiting := false;
    }

    method TryRead() returns (result: Option<T>)
      requires Valid()
      modifies this
      ensures Valid()
      ensures trace == old(trace) + [Event.TryRead(if result.None? then Nothing else Value(result.value))]
      ensures (result.Some? <==> !old(isEmpty) && !old(isClosed)) && isClosed == old(isClosed)
      ensures if result.Some? then result == old(value) && isEmpty && value == None
              else isEmpty == old(isEmpty) && value == old(value)
    {
      ghost var s := State();
      NoLostWakeup(trace, s);
      if isEmpty || isClosed {
        Log(Event.TryRead(Nothing), s);
        return None;
      }
      result := value;
      value := None;
      isEmpty := true;
      NotifyWriter();
      Log(Event.TryRead(Value(result.value)), s);
    }

    // One turn of write: `waiting` if the caller went (back) to sleep.
    method Write(t: Thread, data: T) returns (waiting: bool, written: bool)
      requires Valid() && MayWrite(State(), t, data)
      modifies this
      ensures Valid() && !(waiting && written)
      ensures trace == old(trace) + [Event.Write(t, data, if waiting then Waiting else if written then Accepted else Refused)]
      ensures waiting == (!old(isEmpty) && !old(isClosed)) && written == (old(isEmpty) && !old(isClosed))
      ensures isClosed == old(isClosed)
      ensures if written then !isEmpty && value == Some(data) else isEmpty == old(isEmpty) && value == old(value)
    {
      ghost var s := State();
      if !isEmpty && !isClosed {
        writeCond := Sleep(writeCond, t);
        pending := pending[t := data];
        Log(Event.Write(t, data, Waiting), s);
        return true, false;
      }
      writeCond := Done(writeCond, t);
      pending := pending - {t};
      if isClosed {
        Log(Event.Write(t, data, Refused), s);
        return false, false;
      }
      isEmpty := false;
      value := Some(data);
      NotifyReader();
      Log(Event.Write(t, data, Accepted), s);
      return false, true;
    }

    method Close()
      requires Valid()
      modifies this
      ensures Valid() && trace == old(trace) + [Event.Close]
      ensures isClosed && isEmpty == old(isEmpty) && value == old(value)
      ensures readCond == Condition({}, old(readCond.asleep) + old(readCond.awake))
      ensures writeCond == Condition({}, old(writeCond.asleep) + old(writeCond.awake))
    {
      ghost var s := State();
      isClosed := true;
      readCond := NotifyAll(readCond);
      writeCond := NotifyAll(writeCond);
      Log(Event.Close, s);
    }
  }
}
