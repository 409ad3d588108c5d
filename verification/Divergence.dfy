/**
  Structured divergence: nested blocks

      s_and_saveexec_b64 P, cond
      s_cbranch_execz    end
      ...
    end:
      s_mov_b64          exec, P

  run once for the whole wavefront under a shrinking EXEC mask. The theorem says every lane ends as
  if it had run alone through ordinary nested ifs.
*/
module Divergence {
  import opened MachineWords
  import opened LaneMask
  import opened WavefrontState
  import opened KernelCode
  import opened WavefrontControl

  datatype Tree =
    | End
    | Op(v: VectorInstr, width: nat, rest: Tree)
    | If(save: nat, cond: Operand, body: Tree, rest: Tree)

  // Scalar register j is one of those the operand, or the tree, reads.
  predicate OperandReads(op: Operand, j: nat) {
    op.SReg? && op.first <= j < op.first + op.amount
  }

  predicate Reads(t: Tree, j: nat) {
    match t
    case End => false
    case Op(v, _, rest) => (exists i :: 0 <= i < |v.srcs| && OperandReads(v.srcs[i], j)) || Reads(rest, j)
    case If(_, cond, body, rest) => OperandReads(cond, j) || Reads(body, j) || Reads(rest, j)
  }

  // A block of the tree saves EXEC in scalar register j.
  predicate Saves(t: Tree, j: nat) {
    match t
    case End => false
    case Op(_, _, rest) => Saves(rest, j)
    case If(save, _, body, rest) => j == save || j == save + 1 || Saves(body, j) || Saves(rest, j)
  }

  // A block inside another saves EXEC somewhere else.
  predicate Nested(t: Tree) {
    match t
    case End => true
    case Op(_, _, rest) => Nested(rest)
    case If(save, _, body, rest) => !Saves(body, save) && !Saves(body, save + 1) && Nested(body) && Nested(rest)
  }

  // No register holds a saved EXEC and is read as well.
  ghost predicate Apart(t: Tree) {
    forall j: nat :: Saves(t, j) ==> !Reads(t, j)
  }

  predicate ConditionOk(count: nat, cond: Operand) {
    cond == Vcc || (cond.SReg? && cond.amount == 2 && cond.first + 2 <= count)
  }

  // Every operand is in range.
  predicate InRange(t: Tree, sgprs: seq<bv32>, stride: nat) {
    match t
    case End => true
    case Op(v, width, rest) => LaneInstr(sgprs, stride, v) && width in {4, 8} && InRange(rest, sgprs, stride)
    case If(save, cond, body, rest) =>
      && save + 2 <= |sgprs| && ConditionOk(|sgprs|, cond)
      && InRange(body, sgprs, stride) && InRange(rest, sgprs, stride)
  }

  lemma {:induction false} InRangeSize(t: Tree, a: seq<bv32>, b: seq<bv32>, stride: nat)
    requires |a| == |b| && InRange(t, a, stride)
    ensures InRange(t, b, stride)
  {
    match t
    case End =>
    case Op(v, _, rest) =>
      InRangeSize(rest, a, b, stride);
    case If(_, _, body, rest) =>
      InRangeSize(body, a, b, stride);
      InRangeSize(rest, a, b, stride);
  }

  // ---------------------------------------------------------------- one lane alone

  predicate LaneCondition(sgprs: seq<bv32>, l: Lane, cond: Operand)
    requires ConditionOk(|sgprs|, cond) && l.index < WAVEFRONT_SIZE
  {
    if cond == Vcc then l.vcc else Masked(ToU64(Span(sgprs, cond.first, 2)), l.index)
  }

  // Ordinary branching: no mask, no saved EXEC.
  function RunLane(sem: LaneSem, sgprs: seq<bv32>, l: Lane, t: Tree): (l': Lane)
    requires InRange(t, sgprs, |l.regs|) && l.index < WAVEFRONT_SIZE
    ensures |l'.regs| == |l.regs| && l'.index == l.index
    decreases t
  {
    match t
    case End => l
    case Op(v, _, rest) => RunLane(sem, sgprs, RunLaneInstr(sem, sgprs, l, v), rest)
    case If(_, cond, body, rest) =>
      RunLane(sem, sgprs, if LaneCondition(sgprs, l, cond) then RunLane(sem, sgprs, l, body) else l, rest)
  }

  // ---------------------------------------------------------------- the whole wavefront

  predicate Fits(env: Env, r: Regs) {
    env.size <= WAVEFRONT_SIZE && env.size * env.stride <= |r.vgprs|
  }

  predicate SameShape(r: Regs, r': Regs) {
    |r'.sgprs| == |r.sgprs| && |r'.vgprs| == |r.vgprs|
  }

  lemma VectorFits(env: Env, r: Regs, v: VectorInstr)
    requires Fits(env, r) && LaneInstr(r.sgprs, env.stride, v)
    ensures VectorOk(r, env.stride, env.size, v)
  {
  }

  lemma {:induction false} VectorShape(env: Env, r: Regs, v: VectorInstr)
    requires VectorOk(r, env.stride, env.size, v)
    ensures SameShape(r, Vector(env.sem, r, env.stride, env.size, v))
    ensures Vector(env.sem, r, env.stride, env.size, v).exec == r.exec
    ensures Vector(env.sem, r, env.stride, env.size, v).sgprs == r.sgprs
  {
    PrefixShape(env.sem, r, env.stride, env.size, v, env.size);
  }

  lemma {:induction false} PrefixShape(sem: LaneSem, r: Regs, stride: nat, size: nat, v: VectorInstr, n: nat)
    requires VectorOk(r, stride, size, v) && n <= size
    ensures var w := VectorPrefix(sem, r, stride, size, v, n); SameShape(r, w) && w.exec == r.exec && w.sgprs == r.sgprs
  {
    if n > 0 {
      PrefixShape(sem, r, stride, size, v, n - 1);
    }
  }

  // The three scalar instructions of a block.
  function Enter(r: Regs, save: nat, cond: Operand): (r': Regs)
    requires save + 2 <= |r.sgprs| && ConditionOk(|r.sgprs|, cond)
    ensures SameShape(r, r')
  {
    AndSaveexec(r, SReg(save, 2), cond)
  }

  function Leave(r: Regs, save: nat): (r': Regs)
    requires save + 2 <= |r.sgprs|
    ensures SameShape(r, r')
  {
    MovB64(r, Exec, SReg(save, 2))
  }

  // One block: the body is skipped when no lane takes it.
  function RunBlock(env: Env, r: Regs, t: Tree): (r': Regs)
    requires Fits(env, r) && InRange(t, r.sgprs, env.stride) && t.If?
    ensures SameShape(r, r')
    decreases t, 0
  {
    var r1 := Enter(r, t.save, t.cond);
    InRangeSize(t.body, r.sgprs, r1.sgprs, env.stride);
    Leave(if r1.exec == 0 then r1 else RunTree(env, r1, t.body), t.save)
  }

  // What the compiled tree does to the registers.
  function RunTree(env: Env, r: Regs, t: Tree): (r': Regs)
    requires Fits(env, r) && InRange(t, r.sgprs, env.stride)
    ensures SameShape(r, r')
    decreases t, 1
  {
    match t
    case End => r
    case Op(v, _, rest) =>
      VectorFits(env, r, v);
      VectorShape(env, r, v);
      RunTree(env, Vector(env.sem, r, env.stride, env.size, v), rest)
    case If(_, _, _, rest) =>
      var r3 := RunBlock(env, r, t);
      InRangeSize(rest, r.sgprs, r3.sgprs, env.stride);
      RunTree(env, r3, rest)
  }

  // ---------------------------------------------------------------- what a block does

  // The two values of a scalar register file are alike for everything the tree reads.
  ghost predicate Alike(a: seq<bv32>, b: seq<bv32>, t: Tree) {
    |a| == |b| && forall j: nat :: j < |a| && Reads(t, j) ==> a[j] == b[j]
  }

  lemma {:induction false} LaneInstrAlike(sem: LaneSem, a: seq<bv32>, b: seq<bv32>, l: Lane, v: VectorInstr, t: Tree)
    requires t.Op? && t.v == v && Alike(a, b, t)
    requires LaneInstr(a, |l.regs|, v)
    ensures RunLaneInstr(sem, a, l, v) == RunLaneInstr(sem, b, l, v)
  {
    hide RunLaneInstr;
    forall i | 0 <= i < |v.srcs|
      ensures LaneRead(a, l.regs, v.srcs[i]) == LaneRead(b, l.regs, v.srcs[i])
    {
      var op := v.srcs[i];
      if op.SReg? {
        forall j: nat | op.first <= j < op.first + op.amount ensures a[j] == b[j] {
          assert OperandReads(v.srcs[i], j);
          assert Reads(t, j);
        }
        assert Span(a, op.first, op.amount) == Span(b, op.first, op.amount);
      }
    }
    InputsAlike(sem, a, b, l, v);
  }

  lemma InputsAlike(sem: LaneSem, a: seq<bv32>, b: seq<bv32>, l: Lane, v: VectorInstr)
    requires |a| == |b| && LaneInstr(a, |l.regs|, v)
    requires forall i :: 0 <= i < |v.srcs| ==> LaneRead(a, l.regs, v.srcs[i]) == LaneRead(b, l.regs, v.srcs[i])
    ensures RunLaneInstr(sem, a, l, v) == RunLaneInstr(sem, b, l, v)
  {
    hide LaneRead;
    assert LaneRead(a, l.regs, v.dst) == LaneRead(b, l.regs, v.dst) by { DestinationAlike(a, b, l, v); }
    assert AloneInputs(a, l.regs, v) == AloneInputs(b, l.regs, v);
  }

  lemma DestinationAlike(a: seq<bv32>, b: seq<bv32>, l: Lane, v: VectorInstr)
    requires |a| == |b| && LaneInstr(a, |l.regs|, v)
    ensures LaneRead(a, l.regs, v.dst) == LaneRead(b, l.regs, v.dst)
  {
  }

  lemma {:induction false} EnterFacts(env: Env, r: Regs, save: nat, cond: Operand, lane: nat)
    requires Fits(env, r) && lane < env.size
    requires save + 2 <= |r.sgprs| && ConditionOk(|r.sgprs|, cond)
    ensures var r1 := Enter(r, save, cond);
            && Fits(env, r1)
            && LaneOf(r1, env.stride, env.size, lane) == LaneOf(r, env.stride, env.size, lane)
            && Span(r1.sgprs, save, 2) == Words(r.exec, 2)
            && r1.scc == (r1.exec != 0)
            && (forall j: nat :: j < |r.sgprs| && j != save && j != save + 1 ==> r1.sgprs[j] == r.sgprs[j])
            && (Masked(r1.exec, lane)
                <==> Masked(r.exec, lane) && LaneCondition(r.sgprs, LaneOf(r, env.stride, env.size, lane), cond))
  {
    hide Masked;
    hide And;
    hide Words;
    hide Join;
    SpanOfSetSpan(r.sgprs, save, Words(r.exec, 2));
    if cond == Vcc {
      ReadVcc(r);
    }
    AndMasked(ReadU64(r, 0, cond, 0), r.exec, lane);
  }

  lemma ReadVcc(r: Regs)
    ensures ReadU64(r, 0, Vcc, 0) == r.vcc
  {
    U64OfWords(r.vcc);
  }

  lemma {:induction false} LeaveFacts(r: Regs, save: nat, m: bv64)
    requires save + 2 <= |r.sgprs| && Span(r.sgprs, save, 2) == Words(m, 2)
    ensures Leave(r, save) == r.(exec := m)
  {
    hide Words;
    hide Join;
    U64OfWords(m);
  }

  // ---------------------------------------------------------------- lockstep is per-lane branching

  ghost predicate Lockstepped(env: Env, sgprs: seq<bv32>, r: Regs, r': Regs, t: Tree, lane: nat)
    requires Fits(env, r) && lane < env.size && InRange(t, sgprs, env.stride)
  {
    && SameShape(r, r') && r'.exec == r.exec
    && (forall j: nat :: j < |r.sgprs| && !Saves(t, j) ==> r'.sgprs[j] == r.sgprs[j])
    && LaneOf(r', env.stride, env.size, lane)
       == var l := LaneOf(r, env.stride, env.size, lane);
          if Masked(r.exec, lane) then RunLane(env.sem, sgprs, l, t) else l
  }

  /**
    Running the compiled blocks over the whole wavefront restores EXEC exactly, leaves every lane
    that was inactive as it was, takes every active lane to where it would get alone through nested
    ifs, and changes no scalar register but the ones that saved EXEC.
  */
  lemma {:induction false} LockstepIsPerLane(env: Env, sgprs: seq<bv32>, r: Regs, t: Tree, lane: nat)
    requires Fits(env, r) && lane < env.size && InRange(t, r.sgprs, env.stride)
    requires Nested(t) && Apart(t) && Alike(sgprs, r.sgprs, t)
    ensures InRange(t, sgprs, env.stride)
    ensures Lockstepped(env, sgprs, r, RunTree(env, r, t), t, lane)
    decreases t, 3
  {
    InRangeSize(t, r.sgprs, sgprs, env.stride);
    match t
    case End =>
    case Op(v, _, rest) =>
      LockstepOp(env, sgprs, r, t, lane);
    case If(save, cond, body, rest) =>
      LockstepIf(env, sgprs, r, t, lane);
  }

  lemma {:induction false} LockstepOp(env: Env, sgprs: seq<bv32>, r: Regs, t: Tree, lane: nat)
    requires Fits(env, r) && lane < env.size && InRange(t, r.sgprs, env.stride) && InRange(t, sgprs, env.stride)
    requires Nested(t) && Apart(t) && Alike(sgprs, r.sgprs, t) && t.Op?
    ensures Lockstepped(env, sgprs, r, RunTree(env, r, t), t, lane)
    decreases t, 0
  {
    hide RunLaneInstr;
    hide LaneOf;
    hide Vector;
    hide VectorOk;
    hide LaneInstr;
    hide Masked;
    VectorFits(env, r, t.v);
    VectorShape(env, r, t.v);
    var r1 := Vector(env.sem, r, env.stride, env.size, t.v);
    var l := LaneOf(r, env.stride, env.size, lane);
    VectorAlone(env, r, t.v, lane);
    LaneInstrAlike(env.sem, sgprs, r.sgprs, l, t.v, t);
    ApartRest(t);
    AlikeRest(sgprs, r.sgprs, t);
    LockstepIsPerLane(env, sgprs, r1, t.rest, lane);
  }

  lemma {:induction false} VectorAlone(env: Env, r: Regs, v: VectorInstr, lane: nat)
    requires VectorOk(r, env.stride, env.size, v) && LaneInstr(r.sgprs, env.stride, v) && lane < env.size
    ensures var w := Vector(env.sem, r, env.stride, env.size, v);
            && |w.vgprs| == |r.vgprs|
            && LaneOf(w, env.stride, env.size, lane)
               == var l := LaneOf(r, env.stride, env.size, lane);
                  if Masked(r.exec, lane) then RunLaneInstr(env.sem, r.sgprs, l, v) else l
  {
    hide LaneOf;
    hide RunLaneInstr;
    hide Masked;
    VectorIsPerLane(env.sem, r, env.stride, env.size, v, env.size, lane);
  }

  lemma ApartRest(t: Tree)
    requires !t.End? && Apart(t)
    ensures Apart(t.rest) && (t.If? ==> Apart(t.body))
  {
    forall j: nat | Saves(t.rest, j) ensures !Reads(t.rest, j) {
      assert Saves(t, j);
    }
    if t.If? {
      forall j: nat | Saves(t.body, j) ensures !Reads(t.body, j) {
        assert Saves(t, j);
      }
    }
  }

  lemma AlikeRest(a: seq<bv32>, b: seq<bv32>, t: Tree)
    requires !t.End? && Alike(a, b, t)
    ensures Alike(a, b, t.rest) && (t.If? ==> Alike(a, b, t.body))
  {
    forall j: nat | j < |a| && Reads(t.rest, j) ensures a[j] == b[j] {
      assert Reads(t, j);
    }
    if t.If? {
      forall j: nat | j < |a| && Reads(t.body, j) ensures a[j] == b[j] {
        assert Reads(t, j);
      }
    }
  }

  // Alike for a tree stays so when only registers the tree saves to change.
  lemma AlikeAfter(a: seq<bv32>, b: seq<bv32>, b': seq<bv32>, t: Tree)
    requires Alike(a, b, t) && Apart(t) && |b'| == |b|
    requires forall j: nat :: j < |b| && !Saves(t, j) ==> b'[j] == b[j]
    ensures Alike(a, b', t)
  {
    forall j: nat | j < |a| && Reads(t, j) ensures a[j] == b'[j] {
      assert !Saves(t, j);
    }
  }

  lemma {:induction false} ConditionAlike(a: seq<bv32>, b: seq<bv32>, l: Lane, t: Tree)
    requires t.If? && Alike(a, b, t) && ConditionOk(|a|, t.cond) && l.index < WAVEFRONT_SIZE
    ensures LaneCondition(a, l, t.cond) == LaneCondition(b, l, t.cond)
  {
    hide Masked;
    hide ToU64;
    if t.cond.SReg? {
      forall j: nat | t.cond.first <= j < t.cond.first + 2 ensures a[j] == b[j] {
        assert OperandReads(t.cond, j);
        assert Reads(t, j);
      }
      assert Span(a, t.cond.first, 2) == Span(b, t.cond.first, 2);
    }
  }

  lemma ExecOfLane(env: Env, r: Regs, m: bv64, lane: nat)
    requires Fits(env, r) && lane < env.size
    ensures LaneOf(r.(exec := m), env.stride, env.size, lane) == LaneOf(r, env.stride, env.size, lane)
  {
    hide Masked;
  }

  lemma SpanStays(a: seq<bv32>, b: seq<bv32>, save: nat)
    requires save + 2 <= |a| == |b| && b[save] == a[save] && b[save + 1] == a[save + 1]
    ensures Span(b, save, 2) == Span(a, save, 2)
  {
  }

  // One block, without what follows it.
  ghost predicate BlockLockstepped(env: Env, sgprs: seq<bv32>, r: Regs, r': Regs, t: Tree, lane: nat)
    requires Fits(env, r) && lane < env.size && InRange(t, sgprs, env.stride) && t.If?
  {
    && SameShape(r, r') && r'.exec == r.exec
    && (forall j: nat :: j < |r.sgprs| && !Saves(t, j) ==> r'.sgprs[j] == r.sgprs[j])
    && LaneOf(r', env.stride, env.size, lane)
       == var l := LaneOf(r, env.stride, env.size, lane);
          if Masked(r.exec, lane) && LaneCondition(sgprs, l, t.cond) then RunLane(env.sem, sgprs, l, t.body) else l
  }

  lemma {:induction false} LockstepBody(env: Env, sgprs: seq<bv32>, r: Regs, r1: Regs, t: Tree, lane: nat)
    requires Fits(env, r) && lane < env.size && InRange(t, r.sgprs, env.stride) && InRange(t, sgprs, env.stride)
    requires Nested(t) && Apart(t) && Alike(sgprs, r.sgprs, t) && t.If?
    requires r1 == Enter(r, t.save, t.cond) && InRange(t.body, r1.sgprs, env.stride)
    ensures InRange(t.body, r1.sgprs, env.stride) && Fits(env, r1)
    ensures Lockstepped(env, sgprs, r1, if r1.exec == 0 then r1 else RunTree(env, r1, t.body), t.body, lane)
    decreases t, 0
  {
    hide LaneOf;
    hide Masked;
    hide Enter;
    hide Alike;
    EnterFacts(env, r, t.save, t.cond, lane);
    ApartRest(t);
    AlikeAfter(sgprs, r.sgprs, r1.sgprs, t);
    AlikeRest(sgprs, r1.sgprs, t);
    if r1.exec == 0 {
      ZeroMasked(lane);
    } else {
      LockstepIsPerLane(env, sgprs, r1, t.body, lane);
    }
  }

  lemma {:induction false} LockstepBlock(env: Env, sgprs: seq<bv32>, r: Regs, t: Tree, lane: nat)
    requires Fits(env, r) && lane < env.size && InRange(t, r.sgprs, env.stride) && InRange(t, sgprs, env.stride)
    requires Nested(t) && Apart(t) && Alike(sgprs, r.sgprs, t) && t.If?
    ensures BlockLockstepped(env, sgprs, r, RunBlock(env, r, t), t, lane)
    decreases t, 1
  {
    hide LaneOf;
    hide Masked;
    hide LaneCondition;
    hide Enter;
    hide Leave;
    hide Words;
    hide RunTree;
    hide RunLane;
    hide Apart;
    hide Alike;
    EnterFacts(env, r, t.save, t.cond, lane);
    ConditionAlike(sgprs, r.sgprs, LaneOf(r, env.stride, env.size, lane), t);
    var r1 := Enter(r, t.save, t.cond);
    InRangeSize(t.body, r.sgprs, r1.sgprs, env.stride);
    LockstepBody(env, sgprs, r, r1, t, lane);
    var r2 := if r1.exec == 0 then r1 else RunTree(env, r1, t.body);
    SpanStays(r1.sgprs, r2.sgprs, t.save);
    hide Span;
    LeaveFacts(r2, t.save, r.exec);
    ExecOfLane(env, r2, r.exec, lane);
  }

  lemma {:induction false} LockstepIf(env: Env, sgprs: seq<bv32>, r: Regs, t: Tree, lane: nat)
    requires Fits(env, r) && lane < env.size && InRange(t, r.sgprs, env.stride) && InRange(t, sgprs, env.stride)
    requires Nested(t) && Apart(t) && Alike(sgprs, r.sgprs, t) && t.If?
    ensures Lockstepped(env, sgprs, r, RunTree(env, r, t), t, lane)
    decreases t, 2
  {
    hide LaneOf;
    hide Masked;
    hide LaneCondition;
    hide RunBlock;
    hide Alike;
    hide Apart;
    ApartRest(t);
    LockstepBlock(env, sgprs, r, t, lane);
    var r3 := RunBlock(env, r, t);
    AlikeAfter(sgprs, r.sgprs, r3.sgprs, t);
    AlikeRest(sgprs, r3.sgprs, t);
    InRangeSize(t.rest, r.sgprs, r3.sgprs, env.stride);
    LockstepIsPerLane(env, sgprs, r3, t.rest, lane);
  }
}
