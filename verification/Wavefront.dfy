/**
  The wavefront object: two register files, the mask registers and a program counter, updated in
  place by the loops that read operands, compute lanes and write results back.
*/
module Wavefronts {
  import opened MachineWords
  import opened LaneMask
  import opened WavefrontState
  import opened KernelCode
  import opened WavefrontControl

  class ProgramCounter {
    var value: nat
    var used: bool

    constructor (value: nat)
      ensures this.value == value && !used
    {
      this.value := value;
      used := false;
    }

    method SetValue(value: nat)
      modifies this
      ensures this.value == value && used
    {
      this.value := value;
      used := true;
    }

    method HiddenAdd(value: nat)
      modifies this
      ensures this.value == (old(this.value) + value) % SIZE_T_RANGE && used == old(used)
    {
      this.value := (this.value + value) % SIZE_T_RANGE;
    }

    // Asking also forgets.
    method WasUsed() returns (was: bool)
      modifies this
      ensures was == old(used) && !used && value == old(value)
    {
      was := used;
      used := false;
    }
  }

  // A word moved up by 32 * k bits.
  function Place(word: bv32, k: nat): bv64
    requires k < 2
  {
    if k == 0 then word as bv64 else (word as bv64) << 32
  }

  lemma PlaceJoins(msb: bv32, lsb: bv32)
    ensures Or(Or(0, Place(msb, 1)), Place(lsb, 0)) == Join(msb, lsb)
  {
  }

  lemma PlaceAlone(lsb: bv32)
    ensures Or(0, Place(lsb, 0)) == lsb as bv64
  {
  }

  // to_uin64_t: the first two words, the first one on top.
  method ToUint64(data: seq<bv32>) returns (result: bv64)
    requires data != []
    ensures result == ToU64(data)
  {
    hide Place;
    hide Or;
    hide Join;
    result := 0;
    var maxInd := (if |data| < 2 then |data| else 2) - 1;
    for i := 0 to maxInd + 1
      invariant i == 0 ==> result == 0
      invariant i == 1 ==> result == Or(0, Place(data[0], maxInd))
      invariant i == 2 ==> result == Or(Or(0, Place(data[0], 1)), Place(data[1], 0))
    {
      result := Or(result, Place(data[i], maxInd - i));
    }
    if |data| == 1 {
      PlaceAlone(data[0]);
    } else {
      PlaceJoins(data[0], data[1]);
    }
  }

  // The value in n registers from `first` on, of which the highest two count.
  function HighestTwo(regs: seq<bv32>, first: nat, n: nat): bv64
    requires n > 0 && first + n <= |regs|
  {
    if n == 1 then regs[first] as bv64 else Join(regs[first + n - 1], regs[first + n - 2])
  }

  // The registers after a value has been stored in one or two of them.
  function Stored(regs: seq<bv32>, first: nat, n: nat, value: bv64): seq<bv32>
    requires 1 <= n <= 2 && first + n <= |regs|
  {
    if n == 1 then regs[first := Low(value)] else regs[first := Low(value)][first + 1 := High(value)]
  }

  // What each kind of operand reads as. A pair of registers has its high word in the higher one; of a
  // longer run the highest two count.
  ghost predicate ReadsAs(r: Regs, stride: nat, op: Operand, lane: nat, value: bv64)
    requires Readable(r, stride, op, lane)
  {
    match op
    case Const(bits) => value == bits as bv64
    case SReg(first, amount) => value == HighestTwo(r.sgprs, first, amount)
    case VReg(first, amount) => value == HighestTwo(r.vgprs, lane * stride + first, amount)
    case Exec => value == r.exec
    case Vcc => value == r.vcc
    case Scc => value == if r.scc then 1 else 0
  }

  // Where a value goes: of a pair of registers the low word to the first, the high word to the second.
  ghost predicate WrittenTo(r: Regs, w: Regs, stride: nat, op: Operand, lane: nat, value: bv64)
    requires Writable(r, stride, op, lane)
  {
    && w.sgprs == (if op.SReg? then Stored(r.sgprs, op.first, op.amount, value) else r.sgprs)
    && w.vgprs == (if op.VReg? then Stored(r.vgprs, lane * stride + op.first, op.amount, value) else r.vgprs)
    && w.exec == (if op.Exec? then value else r.exec) && w.vcc == (if op.Vcc? then value else r.vcc)
    && w.scc == r.scc
  }

  lemma {:induction false} ReadByKind(r: Regs, stride: nat, op: Operand, lane: nat)
    requires Readable(r, stride, op, lane)
    ensures ReadsAs(r, stride, op, lane, ReadU64(r, stride, op, lane))
  {
    hide *;
    if op.SReg? || op.VReg? {
      RegistersRead(r, stride, op, lane);
    } else {
      OtherRead(r, stride, op, lane);
    }
  }

  lemma RegistersRead(r: Regs, stride: nat, op: Operand, lane: nat)
    requires Readable(r, stride, op, lane) && (op.SReg? || op.VReg?)
    ensures ReadsAs(r, stride, op, lane, ReadU64(r, stride, op, lane))
  {
    hide Span;
    hide ToU64;
    hide HighestTwo;
    if op.SReg? {
      SpanRead(r.sgprs, op.first, op.amount);
    } else {
      SpanRead(r.vgprs, lane * stride + op.first, op.amount);
    }
  }

  lemma OtherRead(r: Regs, stride: nat, op: Operand, lane: nat)
    requires Readable(r, stride, op, lane) && !op.SReg? && !op.VReg?
    ensures ReadsAs(r, stride, op, lane, ReadU64(r, stride, op, lane))
  {
    hide Join;
    hide High;
    hide Low;
    JoinSplit(r.exec);
    JoinSplit(r.vcc);
  }

  lemma SpanRead(regs: seq<bv32>, first: nat, n: nat)
    requires n > 0 && first + n <= |regs|
    ensures ToU64(Span(regs, first, n)) == HighestTwo(regs, first, n)
  {
    hide Join;
  }

  lemma {:induction false} WriteByKind(r: Regs, stride: nat, op: Operand, lane: nat, value: bv64)
    requires Writable(r, stride, op, lane)
    ensures WrittenTo(r, WriteU64(r, stride, op, lane, value), stride, op, lane, value)
  {
    hide High;
    hide Low;
    if op.SReg? {
      StoredIsSetSpan(r.sgprs, op.first, op.amount, value);
    } else if op.VReg? {
      StoredIsSetSpan(r.vgprs, lane * stride + op.first, op.amount, value);
    }
    hide SetSpan;
    hide Words;
    hide Stored;
  }

  /**
    After a 64-bit move the destination reads as the source did, and so does the saved mask after
    s_and_saveexec; nothing else changes but the destination, EXEC and SCC.
  */
  lemma {:induction false} MoveReadsBack(r: Regs, dst: Operand, src: Operand)
    requires ScalarOk(r, dst, src) && (dst.Exec? || dst.Vcc? || (dst.SReg? && dst.amount == 2))
    ensures var moved := MovB64(r, dst, src);
            && Readable(moved, 0, dst, 0) && ReadU64(moved, 0, dst, 0) == ReadU64(r, 0, src, 0)
            && moved == r.(sgprs := moved.sgprs, exec := moved.exec, vcc := moved.vcc)
            && OnlyOperand(r, moved, dst)
    ensures var saved := AndSaveexec(r, dst, src);
            && Readable(saved, 0, dst, 0) && ReadU64(saved, 0, dst, 0) == r.exec
            && OnlyOperand(r.(exec := saved.exec), saved, dst)
  {
    hide And;
    hide ReadU64;
    hide WavefrontState.WriteU64;
    hide HighestTwo;
    hide Stored;
    var masked := And(ReadU64(r, 0, src, 0), r.exec);
    WrittenReadsBack(r, dst, ReadU64(r, 0, src, 0));
    WrittenReadsBack(r.(exec := masked, scc := masked != 0), dst, r.exec);
  }

  // At most the registers, EXEC or VCC the operand names differ.
  ghost predicate OnlyOperand(r: Regs, r': Regs, op: Operand) {
    && |r'.sgprs| == |r.sgprs| && r'.vgprs == r.vgprs
    && (forall j :: 0 <= j < |r.sgprs| && !(op.SReg? && op.first <= j < op.first + op.amount) ==> r'.sgprs[j] == r.sgprs[j])
    && (r'.exec == r.exec || op.Exec?) && (r'.vcc == r.vcc || op.Vcc?)
  }

  lemma {:induction false} WrittenReadsBack(r: Regs, op: Operand, value: bv64)
    requires op.Exec? || op.Vcc? || (op.SReg? && op.amount == 2)
    requires Writable(r, 0, op, 0)
    ensures var w := WriteU64(r, 0, op, 0, value);
            && Readable(w, 0, op, 0) && ReadU64(w, 0, op, 0) == value && OnlyOperand(r, w, op) && w.scc == r.scc
  {
    var w := WriteU64(r, 0, op, 0, value);
    WriteByKind(r, 0, op, 0, value);
    ReadByKind(w, 0, op, 0);
    JoinSplit(value);
    hide ReadU64;
    hide WavefrontState.WriteU64;
    hide Join;
    hide High;
    hide Low;
  }

  lemma SaveexecMasks(r: Regs, dst: Operand, src: Operand)
    requires ScalarOk(r, dst, src)
    ensures var masked := And(ReadU64(r, 0, src, 0), r.exec);
            var r' := AndSaveexec(r, dst, src);
            r'.scc == (masked != 0) && r'.exec == if dst.Exec? then r.exec else masked
  {
    hide And;
    hide ReadU64;
    hide SetSpan;
    hide Words;
  }

  lemma StoredIsSetSpan(regs: seq<bv32>, first: nat, n: nat, value: bv64)
    requires 1 <= n <= 2 && first + n <= |regs|
    ensures SetSpan(regs, first, Words(value, n)) == Stored(regs, first, n, value)
  {
    hide High;
    hide Low;
  }

  // The operand values of one vector instruction, read for every lane before any lane is written.
  datatype VectorState = VectorState(vdst: seq<bv64>, srcs: seq<seq<bv64>>, vcc: bv64)

  class Wavefront {
    const size: nat
    const vgprsnum: nat
    const env: Env
    const program: Program
    const scalarRegFile: array<bv32>
    const vectorRegFile: array<bv32>
    const programCounter: ProgramCounter
    var execReg: bv64
    var vccReg: bv64
    var sccReg: bool
    var completed: bool

    constructor (env: Env, program: Program, size: nat, sgprsnum: nat, vgprsnum: nat)
      requires size <= WAVEFRONT_SIZE && env.size == size && env.stride == vgprsnum
      ensures Valid() && this.env == env && this.program == program && this.size == size && this.vgprsnum == vgprsnum
      ensures State() == Regs(seq(sgprsnum, _ => 0), seq(WAVEFRONT_SIZE * vgprsnum, _ => 0), 0, 0, false)
      ensures programCounter.value == 0 && !programCounter.used && !completed
      ensures scalarRegFile.Length == sgprsnum && vectorRegFile.Length == WAVEFRONT_SIZE * vgprsnum
      ensures fresh(scalarRegFile) && fresh(vectorRegFile) && fresh(programCounter)
    {
      this.size, this.vgprsnum := size, vgprsnum;
      this.env, this.program := env, program;
      scalarRegFile := new bv32[sgprsnum](_ => 0);
      vectorRegFile := new bv32[WAVEFRONT_SIZE * vgprsnum](_ => 0);
      programCounter := new ProgramCounter(0);
      execReg, vccReg, sccReg, completed := 0, 0, false, false;
      new;
      MulMono(size, WAVEFRONT_SIZE, vgprsnum);
    }

    ghost predicate Valid()
      reads this
    {
      && scalarRegFile != vectorRegFile
      && size <= WAVEFRONT_SIZE && size * vgprsnum <= vectorRegFile.Length
      && env.size == size && env.stride == vgprsnum
    }

    ghost function State(): Regs
      reads this, scalarRegFile, vectorRegFile
    {
      Regs(scalarRegFile[..], vectorRegFile[..], execReg, vccReg, sccReg)
    }

    ghost function Now(): Wave
      reads this, scalarRegFile, vectorRegFile, programCounter
    {
      Wave(State(), programCounter.value, programCounter.used)
    }

    method SetVgpr(wiInd: nat, vInd: nat, value: bv32)
      requires wiInd * vgprsnum + vInd < vectorRegFile.Length
      modifies vectorRegFile
      ensures vectorRegFile[..] == old(vectorRegFile[..])[wiInd * vgprsnum + vInd := value]
    {
      vectorRegFile[wiInd * vgprsnum + vInd] := value;
    }

    method SetExecReg(regValue: bv64)
      modifies this`execReg
      ensures execReg == regValue
    {
      execReg := regValue;
    }

    // read_reg_operand and read_operand: most significant register first.
    method ReadOperand(op: Operand, lane: nat) returns (data: seq<bv32>)
      requires Valid() && Readable(State(), vgprsnum, op, lane)
      ensures data == WavefrontState.ReadOperand(State(), vgprsnum, op, lane)
    {
      match op
      case Const(bits) => data := [bits];
      case SReg(first, amount) =>
        data := ReadRegisters(scalarRegFile, first, amount);
      case VReg(first, amount) =>
        data := ReadRegisters(vectorRegFile, lane * vgprsnum + first, amount);
      case Exec => data := [High(execReg), Low(execReg)];
      case Vcc => data := [High(vccReg), Low(vccReg)];
      case Scc => data := [if sccReg then 1 else 0];
    }

    method ReadRegisters(file: array<bv32>, first: nat, amount: nat) returns (data: seq<bv32>)
      requires first + amount <= file.Length
      ensures data == Span(file[..], first, amount)
    {
      data := [];
      var i := amount;
      while i > 0
        invariant 0 <= i <= amount
        invariant |data| == amount - i
        invariant forall k :: 0 <= k < |data| ==> data[k] == file[first + amount - 1 - k]
      {
        i := i - 1;
        data := data + [file[first + i]];
      }
    }

    method WriteRegisters(file: array<bv32>, first: nat, data: seq<bv32>)
      requires first + |data| <= file.Length
      modifies file
      ensures file[..] == SetSpan(old(file[..]), first, data)
    {
      var i := 0;
      while i < |data|
        invariant 0 <= i <= |data|
        invariant forall j :: 0 <= j < file.Length ==>
                                file[j] == if first <= j < first + i then data[|data| - 1 - (j - first)] else old(file[j])
      {
        file[first + i] := data[|data| - 1 - i];
        i := i + 1;
      }
    }

    method SplitValue(value: bv64, amount: nat) returns (data: seq<bv32>)
      requires 1 <= amount <= 2
      ensures data == Words(value, amount)
    {
      data := [];
      if amount == 2 {
        data := data + [High(value)];
      }
      data := data + [Low(value)];
    }

    // write_data_to_gpr: the high word only goes to a register pair.
    method WriteOperand(op: Operand, value: bv64, lane: nat)
      requires Valid() && Writable(State(), vgprsnum, op, lane)
      modifies this`execReg, this`vccReg, scalarRegFile, vectorRegFile
      ensures Valid() && State() == WriteU64(old(State()), vgprsnum, op, lane, value)
      ensures WrittenTo(old(State()), State(), vgprsnum, op, lane, value)
    {
      WriteByKind(State(), vgprsnum, op, lane, value);
      hide WrittenTo;
      hide SetSpan;
      hide Words;
      hide Join;
      hide High;
      hide Low;
      match op
      case SReg(first, amount) =>
        var data := SplitValue(value, amount);
        WriteRegisters(scalarRegFile, first, data);
      case VReg(first, amount) =>
        var data := SplitValue(value, amount);
        WriteRegisters(vectorRegFile, lane * vgprsnum + first, data);
      case Exec =>
        execReg := Join(High(value), Low(value));
        JoinSplit(value);
      case Vcc =>
        vccReg := Join(High(value), Low(value));
        JoinSplit(value);
      case _ =>
    }

    method ReadValue(op: Operand, lane: nat) returns (value: bv64)
      requires Valid() && Readable(State(), vgprsnum, op, lane)
      ensures value == ReadU64(State(), vgprsnum, op, lane)
      ensures ReadsAs(State(), vgprsnum, op, lane, value)
    {
      hide ReadsAs;
      hide ToU64;
      var words := ReadOperand(op, lane);
      value := ToUint64(words);
      ReadByKind(State(), vgprsnum, op, lane);
    }

    // work_item_masked
    method WorkItemMasked(lane: nat) returns (b: bool)
      requires lane < WAVEFRONT_SIZE
      ensures b == Masked(execReg, lane)
    {
      b := And(execReg, OneHot(lane)) != 0;
    }

    // get_vop1_state, get_vop2_state, get_vop3_state
    method GetVectorState(v: VectorInstr) returns (state: VectorState)
      requires Valid() && VectorOk(State(), vgprsnum, size, v)
      ensures |state.vdst| == size && |state.srcs| == size && state.vcc == vccReg
      ensures forall i: nat :: i < size ==>
                                 [state.vdst[i]] + state.srcs[i] == LaneInputs(State(), vgprsnum, size, v, i)
    {
      hide LaneInputs;
      hide ReadU64;
      var vdst: seq<bv64> := [];
      var srcs: seq<seq<bv64>> := [];
      var i := 0;
      while i < size
        invariant 0 <= i <= size && |vdst| == i && |srcs| == i
        invariant forall k: nat :: k < i ==> [vdst[k]] + srcs[k] == LaneInputs(State(), vgprsnum, size, v, k)
      {
        VectorReadable(State(), vgprsnum, size, v, i);
        InputsSplit(State(), vgprsnum, size, v, i);
        var d := ReadValue(v.dst, i);
        var s := ReadSources(v, i);
        vdst, srcs := vdst + [d], srcs + [s];
        i := i + 1;
      }
      state := VectorState(vdst, srcs, vccReg);
    }

    method ReadSources(v: VectorInstr, lane: nat) returns (s: seq<bv64>)
      requires Valid() && VectorOk(State(), vgprsnum, size, v) && lane < size
      ensures s == LaneInputs(State(), vgprsnum, size, v, lane)[1..]
    {
      hide ReadU64;
      hide ReadsAs;
      VectorReadable(State(), vgprsnum, size, v, lane);
      s := [];
      var j := 0;
      while j < |v.srcs|
        invariant 0 <= j <= |v.srcs| && |s| == j
        invariant forall k :: 0 <= k < j ==> s[k] == ReadU64(State(), vgprsnum, v.srcs[k], lane)
      {
        var x := ReadValue(v.srcs[j], lane);
        s := s + [x];
        j := j + 1;
      }
    }

    // update_with_vop1_state, update_with_vop2_state, update_with_vop3_state: VCC only for VOP2.
    method UpdateWithVectorState(v: VectorInstr, vdst: seq<bv64>, vcc: bv64, ghost r: Regs)
      requires Valid() && r == State() && VectorOk(r, vgprsnum, size, v) && |vdst| == size
      requires forall i: nat :: i < size ==> vdst[i] == LaneValue(env.sem, r, vgprsnum, size, v, i)
      requires vcc == VectorPrefix(env.sem, r, vgprsnum, size, v, size).vcc
      requires v.format != Vop2 ==> vcc == r.vcc
      modifies this`execReg, this`vccReg, scalarRegFile, vectorRegFile
      ensures Valid() && State() == Vector(env.sem, r, vgprsnum, size, v)
    {
      hide WavefrontState.WriteU64;
      hide VectorPrefix;
      hide VectorLane;
      hide LaneValue;
      PrefixStart(env.sem, r, vgprsnum, size, v);
      for i := 0 to size
        invariant Valid() && State() == VectorPrefix(env.sem, r, vgprsnum, size, v, i).(vcc := r.vcc)
      {
        PrefixWrites(env.sem, r, State(), vgprsnum, size, v, i);
        WriteOperand(v.dst, vdst[i], i);
      }
      if v.format == Vop2 {
        vccReg := vcc;
      }
    }

    // One lane of the loop: a masked lane is skipped.
    method ComputeLane(v: VectorInstr, wiInd: nat, inputs: seq<bv64>, vcc: bv64, ghost r: Regs)
      returns (value: bv64, vcc': bv64)
      requires VectorOk(r, vgprsnum, size, v) && wiInd < size && r.exec == execReg
      requires inputs == LaneInputs(r, vgprsnum, size, v, wiInd)
      requires vcc == VectorPrefix(env.sem, r, vgprsnum, size, v, wiInd).vcc
      ensures value == LaneValue(env.sem, r, vgprsnum, size, v, wiInd)
      ensures vcc' == VectorPrefix(env.sem, r, vgprsnum, size, v, wiInd + 1).vcc
      ensures v.format != Vop2 ==> vcc' == vcc
    {
      assert wiInd < WAVEFRONT_SIZE;
      assert inputs != [];
      hide *;
      PrefixCarry(env.sem, r, vgprsnum, size, v, wiInd);
      value, vcc' := inputs[0], vcc;
      var masked := WorkItemMasked(wiInd);
      if !masked {
        return;
      }
      var out := env.sem(v.op, wiInd, inputs, Masked(vcc, wiInd));
      value := out.value;
      if v.format == Vop2 && out.carry.Some? {
        vcc' := SetLane(vcc, wiInd, out.carry.value);
      }
    }

    // The loop over the lanes.
    method ComputeLanes(v: VectorInstr, state: VectorState, ghost r: Regs) returns (vdst: seq<bv64>, vcc: bv64)
      requires VectorOk(r, vgprsnum, size, v) && r.exec == execReg
      requires |state.vdst| == size && |state.srcs| == size && state.vcc == r.vcc
      requires forall i: nat :: i < size ==> [state.vdst[i]] + state.srcs[i] == LaneInputs(r, vgprsnum, size, v, i)
      ensures |vdst| == size && vcc == VectorPrefix(env.sem, r, vgprsnum, size, v, size).vcc
      ensures v.format != Vop2 ==> vcc == r.vcc
      ensures forall i: nat :: i < size ==> vdst[i] == LaneValue(env.sem, r, vgprsnum, size, v, i)
    {
      hide *;
      PrefixStart(env.sem, r, vgprsnum, size, v);
      vdst, vcc := state.vdst, state.vcc;
      for wiInd := 0 to size
        invariant |vdst| == size
        invariant vcc == VectorPrefix(env.sem, r, vgprsnum, size, v, wiInd).vcc
        invariant v.format != Vop2 ==> vcc == r.vcc
        invariant forall k: nat :: k < wiInd ==> vdst[k] == LaneValue(env.sem, r, vgprsnum, size, v, k)
        invariant forall k: nat :: wiInd <= k < size ==> vdst[k] == state.vdst[k]
      {
        var value;
        value, vcc := ComputeLane(v, wiInd, [vdst[wiInd]] + state.srcs[wiInd], vcc, r);
        vdst := vdst[wiInd := value];
      }
    }

    // run_vop1, run_vop2, run_vop3
    method RunVector(v: VectorInstr)
      requires Valid() && VectorOk(State(), vgprsnum, size, v)
      modifies this`execReg, this`vccReg, scalarRegFile, vectorRegFile
      ensures Valid() && State() == Vector(env.sem, old(State()), vgprsnum, size, v)
    {
      hide LaneInputs;
      hide VectorPrefix;
      hide LaneValue;
      hide VectorOk;
      ghost var r := State();
      var state := GetVectorState(v);
      var vdst, vcc := ComputeLanes(v, state, r);
      UpdateWithVectorState(v, vdst, vcc, r);
    }

    // s_and_saveexec_b64: EXEC and SCC are written before the destination.
    method RunAndSaveexec(dst: Operand, src: Operand)
      requires Valid() && ScalarOk(State(), dst, src)
      modifies this`execReg, this`vccReg, this`sccReg, scalarRegFile, vectorRegFile
      ensures Valid() && State() == AndSaveexec(old(State()), dst, src)
      ensures var masked := And(ReadU64(old(State()), 0, src, 0), old(execReg));
              sccReg == (masked != 0) && execReg == if dst.Exec? then old(execReg) else masked
    {
      SaveexecMasks(State(), dst, src);
      hide And;
      hide ReadsAs;
      hide WrittenTo;
      hide WavefrontState.WriteU64;
      hide ReadU64;
      ScalarStride(State(), src, vgprsnum, 0);
      var ssrc0 := ReadValue(src, 0);
      var sdst := execReg;
      var exec := And(ssrc0, execReg);
      execReg := exec;
      sccReg := exec != 0;
      ScalarStride(State(), dst, vgprsnum, sdst);
      WriteOperand(dst, sdst, 0);
    }

    method RunMovB64(dst: Operand, src: Operand)
      requires Valid() && ScalarOk(State(), dst, src)
      modifies this`execReg, this`vccReg, scalarRegFile, vectorRegFile
      ensures Valid() && State() == MovB64(old(State()), dst, src)
    {
      hide WavefrontState.WriteU64;
      hide ReadU64;
      ScalarStride(State(), src, vgprsnum, 0);
      var ssrc0 := ReadValue(src, 0);
      ScalarStride(State(), dst, vgprsnum, ssrc0);
      WriteOperand(dst, ssrc0, 0);
    }

    method RunOther(id: nat)
      requires Valid() && Runnable(env, State(), Other(id))
      modifies this`execReg, this`vccReg, this`sccReg, scalarRegFile, vectorRegFile
      ensures Valid() && State() == env.other(id, old(State()))
    {
      var r := env.other(id, Regs(scalarRegFile[..], vectorRegFile[..], execReg, vccReg, sccReg));
      WriteAll(scalarRegFile, r.sgprs);
      WriteAll(vectorRegFile, r.vgprs);
      execReg, vccReg, sccReg := r.exec, r.vcc, r.scc;
    }

    method WriteAll(file: array<bv32>, data: seq<bv32>)
      requires file.Length == |data|
      modifies file
      ensures file[..] == data
    {
      for i := 0 to |data|
        invariant file[..i] == data[..i]
      {
        file[i] := data[i];
      }
    }

    // s_branch and s_cbranch_*
    method RunBranch(cond: Condition, target: nat)
      modifies programCounter
      ensures var taken := Taken(env, State(), cond);
              && programCounter.used == (taken || old(programCounter.used))
              && programCounter.value == if taken then target else old(programCounter.value)
      ensures Taken(env, State(), cond) == match cond
                                           case Always => true
                                           case Execz => execReg == 0
                                           case Execnz => execReg != 0
                                           case Scc0 => !sccReg
                                           case Scc1 => sccReg
                                           case Vccz => vccReg == 0
                                           case Vccnz => vccReg != 0
                                           case CdbgSys => env.cdbgSys
                                           case CdbgUser => env.cdbgUser
                                           case CdbgSysAndUser => env.cdbgSys && env.cdbgUser
                                           case CdbgSysOrUser => env.cdbgSys || env.cdbgUser
    {
      if Taken(env, Regs([], [], execReg, vccReg, sccReg), cond) {
        programCounter.SetValue(target);
      }
    }

    // run_instr: only a taken branch touches the program counter.
    method RunInstr(i: Instr)
      requires Valid() && Runnable(env, State(), i)
      modifies this`execReg, this`vccReg, this`sccReg, scalarRegFile, vectorRegFile, programCounter
      ensures Valid() && State() == Execute(env, old(State()), i)
      ensures var taken := i.Branch? && Taken(env, old(State()), i.cond);
              && programCounter.used == (taken || old(programCounter.used))
              && programCounter.value == if taken then i.target else old(programCounter.value)
      ensures i.Branch? ==>
                var jumps := match i.cond
                             case Always => true
                             case Execz => old(execReg) == 0
                             case Execnz => old(execReg) != 0
                             case Scc0 => !old(sccReg)
                             case Scc1 => old(sccReg)
                             case Vccz => old(vccReg) == 0
                             case Vccnz => old(vccReg) != 0
                             case CdbgSys => env.cdbgSys
                             case CdbgUser => env.cdbgUser
                             case CdbgSysAndUser => env.cdbgSys && env.cdbgUser
                             case CdbgSysOrUser => env.cdbgSys || env.cdbgUser;
                programCounter.value == (if jumps then i.target else old(programCounter.value))
                && (!old(programCounter.used) ==> programCounter.used == jumps)
    {
      hide AndSaveexec;
      hide MovB64;
      hide Vector;
      hide VectorOk;
      hide ScalarOk;
      match i
      case AndSaveexecB64(dst, src) => RunAndSaveexec(dst, src);
      case SMovB64(dst, src) => RunMovB64(dst, src);
      case VectorOp(v) => RunVector(v);
      case Other(id) => RunOther(id);
      case Branch(cond, target) =>
        hide Taken;
        RunBranch(cond, target);
      case _ =>
    }

    method ToNextInstr() returns (stopped: bool)
      requires Valid()
      modifies programCounter
      ensures Valid() && State() == old(State())
      ensures var o := ToNext(program, old(Now())); if stopped then o.Stopped? else o == Running(Now())
    {
      var used := programCounter.WasUsed();
      if used {
        return false;
      }
      if programCounter.value !in program || program[programCounter.value].width !in {4, 8} {
        return true;
      }
      programCounter.HiddenAdd(program[programCounter.value].width);
      return false;
    }

    // One turn of the loop in run_wavefront; a failed assertion stops the process.
    method Turn() returns (stopped: bool)
      requires Valid() && !completed
      modifies this`execReg, this`vccReg, this`sccReg, this`completed, scalarRegFile, vectorRegFile, programCounter
      ensures Valid()
      ensures var o := Step(env, program, old(Now()));
              if stopped then o.Stopped? && !completed
              else o == if completed then Completed(Now()) else Running(Now())
    {
      hide Execute;
      hide Runnable;
      hide Taken;
      if programCounter.value !in program {
        return true;
      }
      var curInstr := program[programCounter.value].instr;
      if curInstr.Endpgm? {
        completed := true;
        return false;
      }
      var runnable := CheckOperands(curInstr);
      if !runnable {
        return true;
      }
      RunInstr(curInstr);
      stopped := ToNextInstr();
    }

    // The assertions an instruction makes about its operands.
    method CheckOperands(i: Instr) returns (ok: bool)
      ensures ok == Runnable(env, State(), i)
    {
      ok := Runnable(env, Regs(scalarRegFile[..], vectorRegFile[..], execReg, vccReg, sccReg), i);
    }

    /**
      run_wavefront, for a kernel whose branches all go forward: the loop ends, and it ends where
      running the instructions one by one ends.
    */
    method RunWavefront(ghost code: seq<Line>) returns (stopped: bool)
      requires Valid() && !completed
      requires WellFormed(code) && Forward(code) && Parsed(code, program) && AtHead(code, Now())
      modifies this`execReg, this`vccReg, this`sccReg, this`completed, scalarRegFile, vectorRegFile, programCounter
      ensures Valid() && stopped == !completed
      ensures exists n: nat :: n <= |code| &&
                               Run(env, program, old(Now()), n) == if stopped then Stopped else Completed(Now())
    {
      hide WellFormed;
      hide Forward;
      hide Parsed;
      hide Step;
      ghost var w := Now();
      ghost var n: nat := 0;
      stopped := false;
      while !completed && !stopped
        invariant Valid() && !(completed && stopped)
        invariant !completed && !stopped ==> AtHead(code, Now()) && n <= IndexOf(code, Now().pc)
        invariant n <= |code|
        invariant Run(env, program, w, n)
                  == if stopped then Stopped else if completed then Completed(Now()) else Running(Now())
        decreases !completed && !stopped, |code| - n
      {
        ghost var before := Now();
        StepStaysInside(env, code, program, before);
        StepMovesForward(env, code, program, before);
        RunNext(env, program, w, n);
        stopped := Turn();
        n := n + 1;
      }
    }
  }

  // What lane `lane` has in its destination slot when the results are written back.
  function LaneValue(sem: LaneSem, r: Regs, stride: nat, size: nat, v: VectorInstr, lane: nat): bv64
    requires VectorOk(r, stride, size, v) && lane < size
  {
    VectorReadable(r, stride, size, v, lane);
    if Masked(r.exec, lane)
    then sem(v.op, lane, LaneInputs(r, stride, size, v, lane),
             Masked(VectorPrefix(sem, r, stride, size, v, lane).vcc, lane)).value
    else ReadU64(r, stride, v.dst, lane)
  }

  lemma PrefixStart(sem: LaneSem, r: Regs, stride: nat, size: nat, v: VectorInstr)
    requires VectorOk(r, stride, size, v)
    ensures VectorPrefix(sem, r, stride, size, v, 0) == r
  {
  }

  lemma PrefixWrites(sem: LaneSem, r: Regs, w: Regs, stride: nat, size: nat, v: VectorInstr, i: nat)
    requires VectorOk(r, stride, size, v) && i < size
    requires w == VectorPrefix(sem, r, stride, size, v, i).(vcc := r.vcc)
    ensures Writable(w, stride, v.dst, i)
    ensures WavefrontState.WriteU64(w, stride, v.dst, i, LaneValue(sem, r, stride, size, v, i))
            == VectorPrefix(sem, r, stride, size, v, i + 1).(vcc := r.vcc)
  {
    hide SetSpan;
    hide Words;
    hide Masked;
    hide SetLane;
    hide LaneInputs;
    hide ReadU64;
    VectorReadable(r, stride, size, v, i);
    PrefixNext(sem, r, stride, size, v, i);
  }

  lemma PrefixCarry(sem: LaneSem, r: Regs, stride: nat, size: nat, v: VectorInstr, i: nat)
    requires VectorOk(r, stride, size, v) && i < size
    ensures var vcc := VectorPrefix(sem, r, stride, size, v, i).vcc;
            var out := sem(v.op, i, LaneInputs(r, stride, size, v, i), Masked(vcc, i));
            && VectorPrefix(sem, r, stride, size, v, i + 1).vcc
               == (if Masked(r.exec, i) && v.format == Vop2 && out.carry.Some? then SetLane(vcc, i, out.carry.value)
                   else vcc)
            && (Masked(r.exec, i) ==> LaneValue(sem, r, stride, size, v, i) == out.value)
            && (!Masked(r.exec, i) ==> LaneValue(sem, r, stride, size, v, i) == LaneInputs(r, stride, size, v, i)[0])
  {
    hide SetSpan;
    hide Words;
    hide Masked;
    hide SetLane;
    hide ReadU64;
    VectorReadable(r, stride, size, v, i);
    PrefixNext(sem, r, stride, size, v, i);
  }
}
