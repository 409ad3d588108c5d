/**
  The objects of the OpenCL driver and the references they hold to each other.

  Every object lives in an arena and a pointer is an index into it. Deleting an object clears its
  `live` flag; the cell is never used again. A reference is counted by the referenced object and
  held either by a live object or by the environment: a handle the client may release, or a local
  variable of a running driver function. `History.held` is the multiset of the latter.

  enqueueCommand makes one command and one event at a time, so command k owns event k.
*/
module DriverHeap {
  import opened Wrappers
  import opened BufferCommands
  import opened DrainOrder

  datatype Status = Queued | Submitted | Running | Complete

  datatype Context = Context(referenceCount: nat, live: bool)

  datatype Queue = Queue(context: nat, outOfOrder: bool, deque: seq<nat>, flushInProcess: bool,
                         referenceCount: nat, live: bool)

  datatype Event = Event(context: nat, queue: nat, command: Option<nat>, status: Status,
                         timeQueued: nat, timeSubmitted: nat, timeStart: nat, timeEnd: nat,
                         referenceCount: nat, live: bool)

  datatype Command = Command(queue: nat, event: nat, op: Operation, waitList: seq<nat>, live: bool)

  datatype Buffer = Buffer(context: nat, size: nat, referenceCount: nat, live: bool)

  datatype Heap = Heap(contexts: seq<Context>, queues: seq<Queue>, events: seq<Event>, commands: seq<Command>,
                       buffers: seq<Buffer>, memory: Memory, usedGlobalMemory: nat, clock: nat)

  // A counted reference.
  datatype Ref = ContextRef(id: nat) | QueueRef(id: nat) | EventRef(id: nat) | BufferRef(id: nat)

  // What the proofs remember: references held by the environment, the wait list and the operation
  // each command was enqueued with, and the commands that have run, in order.
  datatype History = History(held: multiset<Ref>, deps: seq<seq<nat>>, ops: seq<Operation>, trace: seq<nat>)

  // ---------------------------------------------------------------- counted references

  function Live(h: Heap, r: Ref): bool {
    match r
    case ContextRef(i) => i < |h.contexts| && h.contexts[i].live
    case QueueRef(i) => i < |h.queues| && h.queues[i].live
    case EventRef(i) => i < |h.events| && h.events[i].live
    case BufferRef(i) => i < |h.buffers| && h.buffers[i].live
  }

  function Count(h: Heap, r: Ref): nat {
    match r
    case ContextRef(i) => if i < |h.contexts| then h.contexts[i].referenceCount else 0
    case QueueRef(i) => if i < |h.queues| then h.queues[i].referenceCount else 0
    case EventRef(i) => if i < |h.events| then h.events[i].referenceCount else 0
    case BufferRef(i) => if i < |h.buffers| then h.buffers[i].referenceCount else 0
  }

  // The references the destructor of an object gives back.
  function Outgoing(h: Heap, r: Ref): multiset<Ref>
    requires Live(h, r)
  {
    match r
    case ContextRef(i) => multiset{}
    case QueueRef(i) => multiset{ContextRef(h.queues[i].context)}
    case EventRef(i) => multiset{ContextRef(h.events[i].context), QueueRef(h.events[i].queue)}
    case BufferRef(i) => multiset{ContextRef(h.buffers[i].context)}
  }

  function OperationBuffers(op: Operation): multiset<Ref> {
    match op
    case Read(b, _, _, _) => multiset{BufferRef(b)}
    case Write(b, _, _, _) => multiset{BufferRef(b)}
    case Fill(b, _, _, _) => multiset{BufferRef(b)}
    case Copy(s, d, _, _, _) => multiset{BufferRef(s), BufferRef(d)}
  }

  // What a destructor gives back, one reference after the other.
  lemma OwnRefsParts(held: multiset<Ref>, c: Command)
    ensures var e, q := EventRef(c.event), QueueRef(c.queue);
            && OperationBuffers(c.op) <= held + OwnRefs(c)
            && held + OwnRefs(c) - OperationBuffers(c.op) == held + multiset{e, q}
            && held + multiset{e, q} - multiset{e} == held + multiset{q}
            && held + multiset{q} - multiset{q} == held
            && (held + multiset{e, q})[e] > 0 && (held + multiset{q})[q] > 0
  {
    hide OperationBuffers;
  }

  // A copy uses its source and its destination, which may be the same buffer.
  lemma CopyBuffers(held: multiset<Ref>, op: Operation)
    requires op.Copy?
    ensures var s, d := BufferRef(op.srcBuffer), BufferRef(op.dstBuffer);
            && held + multiset{s} + multiset{d} == held + OperationBuffers(op)
            && held - multiset{s} - multiset{d} == held - OperationBuffers(op)
            && (OperationBuffers(op) <= held ==> held[s] > 0 && (held - multiset{s})[d] > 0)
  {
    var s, d := BufferRef(op.srcBuffer), BufferRef(op.dstBuffer);
    assert OperationBuffers(op)[s] > 0 && OperationBuffers(op)[d] == if s == d then 2 else 1;
  }

  // The other commands use one.
  lemma OneBuffer(held: multiset<Ref>, op: Operation, b: nat)
    requires OperationBuffers(op) == multiset{BufferRef(b)}
    ensures OperationBuffers(op) <= held ==> held[BufferRef(b)] > 0
  {
    assert OperationBuffers(op)[BufferRef(b)] == 1;
  }

  function WaitRefs(waitList: seq<nat>): multiset<Ref> {
    if waitList == [] then multiset{}
    else WaitRefs(waitList[..|waitList| - 1]) + multiset{EventRef(waitList[|waitList| - 1])}
  }

  // The references a live command holds besides its wait list.
  function OwnRefs(c: Command): multiset<Ref> {
    OperationBuffers(c.op) + multiset{EventRef(c.event), QueueRef(c.queue)}
  }

  ghost function CommandRefs(r: Ref): Command -> nat {
    (c: Command) => if c.live then (OwnRefs(c) + WaitRefs(c.waitList))[r] else 0
  }

  ghost function EventRefs(r: Ref): Event -> nat {
    (e: Event) => if e.live then multiset{ContextRef(e.context), QueueRef(e.queue)}[r] else 0
  }

  ghost function QueueRefs(r: Ref): Queue -> nat {
    (q: Queue) => if q.live then multiset{ContextRef(q.context)}[r] else 0
  }

  ghost function BufferRefs(r: Ref): Buffer -> nat {
    (b: Buffer) => if b.live then multiset{ContextRef(b.context)}[r] else 0
  }

  ghost function LiveSize(): Buffer -> nat {
    (b: Buffer) => if b.live then b.size else 0
  }

  ghost function Sum<T>(s: seq<T>, w: T -> nat): nat {
    if s == [] then 0 else Sum(s[..|s| - 1], w) + w(s[|s| - 1])
  }

  lemma {:induction false} SumUpdate<T>(s: seq<T>, i: nat, v: T, w: T -> nat)
    requires i < |s|
    ensures Sum(s[i := v], w) + w(s[i]) == Sum(s, w) + w(v)
    ensures Sum(s, w) >= w(s[i])
  {
    var n := |s| - 1;
    var t := s[i := v];
    if i == n {
      assert t[..n] == s[..n];
    } else {
      assert t[..n] == s[..n][i := v];
      SumUpdate(s[..n], i, v, w);
    }
  }

  lemma SumAppend<T>(s: seq<T>, v: T, w: T -> nat)
    ensures Sum(s + [v], w) == Sum(s, w) + w(v)
  {
    assert (s + [v])[..|s|] == s;
  }

  lemma {:induction false} SumZero<T>(s: seq<T>, w: T -> nat)
    requires forall i :: 0 <= i < |s| ==> w(s[i]) == 0
    ensures Sum(s, w) == 0
  {
    if s != [] {
      SumZero(s[..|s| - 1], w);
    }
  }

  lemma {:induction false} SumEqual<T>(s: seq<T>, v: T -> nat, w: T -> nat)
    requires forall i :: 0 <= i < |s| ==> v(s[i]) == w(s[i])
    ensures Sum(s, v) == Sum(s, w)
  {
    if s != [] {
      SumEqual(s[..|s| - 1], v, w);
    }
  }

  // How many references to r are held by live objects.
  ghost function Refs(h: Heap, r: Ref): nat {
    Sum(h.commands, CommandRefs(r)) + Sum(h.events, EventRefs(r))
    + Sum(h.queues, QueueRefs(r)) + Sum(h.buffers, BufferRefs(r))
  }

  /**
    Every counter is exact, and an object lives as long as its counter is positive. A deleted object
    has no reference left, neither in a live object nor in the environment.
  */
  ghost predicate Balanced(h: Heap, held: multiset<Ref>) {
    && (forall r :: Count(h, r) == held[r] + Refs(h, r))
    && (forall r :: Live(h, r) <==> Count(h, r) > 0)
  }

  function SetCount(h: Heap, r: Ref, n: nat): Heap
    requires Live(h, r)
  {
    match r
    case ContextRef(i) => h.(contexts := h.contexts[i := h.contexts[i].(referenceCount := n)])
    case QueueRef(i) => h.(queues := h.queues[i := h.queues[i].(referenceCount := n)])
    case EventRef(i) => h.(events := h.events[i := h.events[i].(referenceCount := n)])
    case BufferRef(i) => h.(buffers := h.buffers[i := h.buffers[i].(referenceCount := n)])
  }

  function Kill(h: Heap, r: Ref): Heap
    requires Live(h, r)
  {
    match r
    case ContextRef(i) => h.(contexts := h.contexts[i := h.contexts[i].(live := false)])
    case QueueRef(i) => h.(queues := h.queues[i := h.queues[i].(live := false)])
    case EventRef(i) => h.(events := h.events[i := h.events[i].(live := false)])
    case BufferRef(i) => h.(buffers := h.buffers[i := h.buffers[i].(live := false)])
  }

  lemma {:induction false} SetCountRefs(h: Heap, r: Ref, n: nat, x: Ref)
    requires Live(h, r)
    ensures Refs(SetCount(h, r, n), x) == Refs(h, x)
    ensures Count(SetCount(h, r, n), x) == if x == r then n else Count(h, x)
    ensures Live(SetCount(h, r, n), x) == Live(h, x)
  {
    hide Sum;
    match r
    case ContextRef(i) =>
    case QueueRef(i) => SumUpdate(h.queues, i, h.queues[i].(referenceCount := n), QueueRefs(x));
    case EventRef(i) => SumUpdate(h.events, i, h.events[i].(referenceCount := n), EventRefs(x));
    case BufferRef(i) => SumUpdate(h.buffers, i, h.buffers[i].(referenceCount := n), BufferRefs(x));
  }

  lemma {:induction false} KillRefs(h: Heap, r: Ref, x: Ref)
    requires Live(h, r)
    ensures Refs(Kill(h, r), x) + Outgoing(h, r)[x] == Refs(h, x)
    ensures Count(Kill(h, r), x) == Count(h, x)
    ensures Live(Kill(h, r), x) == (x != r && Live(h, x))
  {
    hide Sum;
    match r
    case ContextRef(i) =>
    case QueueRef(i) => SumUpdate(h.queues, i, h.queues[i].(live := false), QueueRefs(x));
    case EventRef(i) => SumUpdate(h.events, i, h.events[i].(live := false), EventRefs(x));
    case BufferRef(i) => SumUpdate(h.buffers, i, h.buffers[i].(live := false), BufferRefs(x));
  }

  lemma {:induction false} RetainBalanced(h: Heap, held: multiset<Ref>, r: Ref)
    requires Balanced(h, held) && Live(h, r)
    ensures Balanced(SetCount(h, r, Count(h, r) + 1), held + multiset{r})
  {
    var h' := SetCount(h, r, Count(h, r) + 1);
    forall x
      ensures Count(h', x) == (held + multiset{r})[x] + Refs(h', x) && (Live(h', x) <==> Count(h', x) > 0)
    {
      SetCountRefs(h, r, Count(h, r) + 1, x);
    }
  }

  // `referenceCount--`, and `delete` when it reaches zero.
  function Drop(h: Heap, r: Ref): Heap
    requires Live(h, r) && Count(h, r) > 0
  {
    var less := SetCount(h, r, Count(h, r) - 1);
    if Count(h, r) == 1 then Kill(less, r) else less
  }

  function HeldAfterDrop(h: Heap, held: multiset<Ref>, r: Ref): multiset<Ref>
    requires Live(h, r)
  {
    if Count(h, r) == 1 then held - multiset{r} + Outgoing(h, r) else held - multiset{r}
  }

  // What dropping a reference does to each counter.
  lemma {:induction false} DropRefs(h: Heap, r: Ref, x: Ref)
    requires Live(h, r) && Count(h, r) > 0
    ensures var h' := Drop(h, r);
            && Refs(h', x) + (if Count(h, r) == 1 then Outgoing(h, r)[x] else 0) == Refs(h, x)
            && Count(h', x) == (if x == r then Count(h, r) - 1 else Count(h, x))
            && Live(h', x) == (Live(h, x) && !(x == r && Count(h, r) == 1))
  {
    var less := SetCount(h, r, Count(h, r) - 1);
    SetCountRefs(h, r, Count(h, r) - 1, x);
    SetCountRefs(h, r, Count(h, r) - 1, r);
    if Count(h, r) == 1 {
      hide Refs;
      hide Count;
      KillRefs(less, r, x);
      SameOutgoing(h, r, Count(h, r) - 1);
    }
  }

  lemma SameOutgoing(h: Heap, r: Ref, n: nat)
    requires Live(h, r)
    ensures Live(SetCount(h, r, n), r) && Outgoing(SetCount(h, r, n), r) == Outgoing(h, r)
  {
  }

  lemma {:induction false} DropBalanced(h: Heap, held: multiset<Ref>, r: Ref)
    requires Balanced(h, held) && held[r] > 0
    ensures Live(h, r) && Count(h, r) > 0
    ensures Balanced(Drop(h, r), HeldAfterDrop(h, held, r))
  {
    hide Refs;
    hide Count;
    hide Live;
    hide Drop;
    hide Outgoing;
    assert Count(h, r) == held[r] + Refs(h, r);
    var h' := Drop(h, r);
    var held' := HeldAfterDrop(h, held, r);
    forall x ensures Count(h', x) == held'[x] + Refs(h', x) && (Live(h', x) <==> Count(h', x) > 0) {
      assert Count(h, x) == held[x] + Refs(h, x);
      DropRefs(h, r, x);
    }
  }

  // Whatever a live command refers to is live.
  lemma {:induction false} CommandTargetsLive(h: Heap, held: multiset<Ref>, k: nat, r: Ref)
    requires Balanced(h, held) && k < |h.commands| && h.commands[k].live
    requires r in OwnRefs(h.commands[k]) + WaitRefs(h.commands[k].waitList)
    ensures Live(h, r)
  {
    SumUpdate(h.commands, k, h.commands[k], CommandRefs(r));
    assert CommandRefs(r)(h.commands[k]) > 0;
    assert Count(h, r) > 0;
  }

  lemma HeldIsLive(h: Heap, held: multiset<Ref>, r: Ref)
    requires Balanced(h, held) && held[r] > 0
    ensures Live(h, r) && Count(h, r) > 0
  {
    assert Count(h, r) == held[r] + Refs(h, r);
  }

  // Replacing a command moves the difference of its references to or from the environment.
  lemma {:induction false} CommandChangeBalanced(h: Heap, held: multiset<Ref>, k: nat, c: Command,
                                                 held': multiset<Ref>)
    requires Balanced(h, held) && k < |h.commands|
    requires forall r :: held'[r] + CommandRefs(r)(c) == held[r] + CommandRefs(r)(h.commands[k])
    ensures Balanced(h.(commands := h.commands[k := c]), held')
  {
    var h' := h.(commands := h.commands[k := c]);
    forall r ensures Count(h', r) == held'[r] + Refs(h', r) && (Live(h', r) <==> Count(h', r) > 0) {
      SumUpdate(h.commands, k, c, CommandRefs(r));
      assert Count(h, r) == held[r] + Refs(h, r);
      assert Count(h', r) == Count(h, r) && Live(h', r) == Live(h, r);
    }
  }

  lemma {:induction false} WaitRefsMember(waitList: seq<nat>, i: nat)
    requires i < |waitList|
    ensures EventRef(waitList[i]) in WaitRefs(waitList)
  {
    var n := |waitList| - 1;
    if i < n {
      WaitRefsMember(waitList[..n], i);
      assert waitList[..n][i] == waitList[i];
    }
  }
}
