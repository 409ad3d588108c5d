/**
  The registers of a wavefront and what its instructions do to them.

  The vector register file is one array: register v of lane l is at l * stride + v, where the stride
  is the number of vector registers per lane. An operand names one or more consecutive registers;
  its value is the list of their words, most significant first.
*/
module WavefrontState {
  import opened Wrappers
  import opened MachineWords
  import opened LaneMask

  datatype Operand =
    | Const(bits: bv32)
    | SReg(first: nat, amount: nat)
    | VReg(first: nat, amount: nat)
    | Exec
    | Vcc
    | Scc

  datatype Regs = Regs(sgprs: seq<bv32>, vgprs: seq<bv32>, exec: bv64, vcc: bv64, scc: bool)

  // The registers first .. first + n - 1, most significant word first.
  function Span(regs: seq<bv32>, first: nat, n: nat): (words: seq<bv32>)
    requires first + n <= |regs|
    ensures |words| == n
  {
    seq(n, i requires 0 <= i < n => regs[first + n - 1 - i])
  }

  function SetSpan(regs: seq<bv32>, first: nat, words: seq<bv32>): (r: seq<bv32>)
    requires first + |words| <= |regs|
    ensures |r| == |regs|
    ensures forall j :: 0 <= j < |r| && !(first <= j < first + |words|) ==> r[j] == regs[j]
  {
    var n := |words|;
    seq(|regs|, j requires 0 <= j < |regs| => if first <= j < first + n then words[n - 1 - (j - first)] else regs[j])
  }

  // Registers hold what was written to them, in the same order of words.
  lemma SpanOfSetSpan(regs: seq<bv32>, first: nat, words: seq<bv32>)
    requires first + |words| <= |regs|
    ensures Span(SetSpan(regs, first, words), first, |words|) == words
  {
  }

  lemma SetSpanOfSpan(regs: seq<bv32>, first: nat, n: nat)
    requires first + n <= |regs|
    ensures SetSpan(regs, first, Span(regs, first, n)) == regs
  {
  }

  // to_uin64_t(vector): the first two words.
  function ToU64(words: seq<bv32>): bv64
    requires words != []
  {
    if |words| == 1 then words[0] as bv64 else Join(words[0], words[1])
  }

  // The words write_data_to_gpr stores for a 64-bit value in one or two registers.
  function Words(value: bv64, n: nat): (words: seq<bv32>)
    ensures |words| == if n == 2 then 2 else 1
  {
    if n == 2 then [High(value), Low(value)] else [Low(value)]
  }

  lemma WordsOfU64(words: seq<bv32>)
    requires 1 <= |words| <= 2
    ensures Words(ToU64(words), |words|) == words
  {
    if |words| == 1 {
      LowOfWord(words[0]);
    } else {
      SplitJoin(words[0], words[1]);
    }
  }

  lemma U64OfWords(value: bv64)
    ensures ToU64(Words(value, 2)) == value
  {
    JoinSplit(value);
  }

  // ---------------------------------------------------------------- operands

  predicate Readable(r: Regs, stride: nat, op: Operand, lane: nat) {
    match op
    case SReg(first, amount) => amount > 0 && first + amount <= |r.sgprs|
    case VReg(first, amount) => amount > 0 && lane * stride + first + amount <= |r.vgprs|
    case _ => true
  }

  // read_operand
  function ReadOperand(r: Regs, stride: nat, op: Operand, lane: nat): (words: seq<bv32>)
    requires Readable(r, stride, op, lane)
    ensures words != []
  {
    match op
    case Const(bits) => [bits]
    case SReg(first, amount) => Span(r.sgprs, first, amount)
    case VReg(first, amount) => Span(r.vgprs, lane * stride + first, amount)
    case Exec => [High(r.exec), Low(r.exec)]
    case Vcc => [High(r.vcc), Low(r.vcc)]
    case Scc => [if r.scc then 1 else 0]
  }

  function ReadU64(r: Regs, stride: nat, op: Operand, lane: nat): bv64
    requires Readable(r, stride, op, lane)
  {
    ToU64(ReadOperand(r, stride, op, lane))
  }

  predicate Writable(r: Regs, stride: nat, op: Operand, lane: nat) {
    match op
    case SReg(first, amount) => 1 <= amount <= 2 && first + amount <= |r.sgprs|
    case VReg(first, amount) => 1 <= amount <= 2 && lane * stride + first + amount <= |r.vgprs|
    case Exec => true
    case Vcc => true
    case Scc => true
    case Const(_) => false
  }

  // write_data_to_gpr for a 64-bit value.
  function WriteU64(r: Regs, stride: nat, op: Operand, lane: nat, value: bv64): Regs
    requires Writable(r, stride, op, lane)
  {
    match op
    case SReg(first, amount) => r.(sgprs := SetSpan(r.sgprs, first, Words(value, amount)))
    case VReg(first, amount) => r.(vgprs := SetSpan(r.vgprs, lane * stride + first, Words(value, amount)))
    case Exec => r.(exec := value)
    case Vcc => r.(vcc := value)
    // Any other register is reported as an error and left alone.
    case _ => r
  }

  // ---------------------------------------------------------------- scalar instructions

  // The operands a SOP1 instruction accepts: registers, and not vector registers.
  predicate ScalarOk(r: Regs, dst: Operand, src: Operand) {
    && !dst.VReg? && Writable(r, 0, dst, 0)
    && !src.VReg? && !src.Const? && Readable(r, 0, src, 0)
  }

  // The lane stride does not matter to an operand that is not a vector register.
  lemma ScalarStride(r: Regs, op: Operand, stride: nat, value: bv64)
    requires !op.VReg?
    ensures Readable(r, stride, op, 0) == Readable(r, 0, op, 0) && Writable(r, stride, op, 0) == Writable(r, 0, op, 0)
    ensures Readable(r, 0, op, 0) ==> ReadU64(r, stride, op, 0) == ReadU64(r, 0, op, 0)
    ensures Writable(r, 0, op, 0) ==> WriteU64(r, stride, op, 0, value) == WriteU64(r, 0, op, 0, value)
  {
  }

  // s_and_saveexec_b64 dst, src
  function AndSaveexec(r: Regs, dst: Operand, src: Operand): Regs
    requires ScalarOk(r, dst, src)
  {
    var masked := And(ReadU64(r, 0, src, 0), r.exec);
    WriteU64(r.(exec := masked, scc := masked != 0), 0, dst, 0, r.exec)
  }

  // s_mov_b64 dst, src
  function MovB64(r: Regs, dst: Operand, src: Operand): Regs
    requires ScalarOk(r, dst, src)
  {
    WriteU64(r, 0, dst, 0, ReadU64(r, 0, src, 0))
  }

  // ---------------------------------------------------------------- vector instructions

  datatype Format = Vop1 | Vop2 | Vop3

  // What a vector operation computes in one lane: a value for the destination and, for operations
  // with a carry, the lane's new VCC bit.
  datatype LaneOut = LaneOut(value: bv64, carry: Option<bool>)

  // The meaning of every vector operation: from the operation, the lane's number, its old
  // destination value followed by its source values, and its VCC bit.
  type LaneSem = (nat, nat, seq<bv64>, bool) -> LaneOut

  datatype VectorInstr = VectorInstr(format: Format, op: nat, dst: Operand, srcs: seq<Operand>)

  predicate VectorOk(r: Regs, stride: nat, size: nat, v: VectorInstr) {
    && size <= WAVEFRONT_SIZE && size * stride <= |r.vgprs|
    && v.dst.VReg? && 1 <= v.dst.amount <= 2 && v.dst.first + v.dst.amount <= stride
    && forall i :: 0 <= i < |v.srcs| ==>
                     match v.srcs[i]
                     case VReg(first, amount) => amount > 0 && first + amount <= stride
                     case SReg(first, amount) => amount > 0 && first + amount <= |r.sgprs|
                     case _ => true
  }

  lemma {:induction false} LaneInRange(lane: nat, size: nat, stride: nat)
    requires lane < size
    ensures lane * stride + stride <= size * stride
  {
    assert (lane + 1) * stride <= size * stride by { MulMono(lane + 1, size, stride); }
  }

  lemma VectorReadable(r: Regs, stride: nat, size: nat, v: VectorInstr, lane: nat)
    requires VectorOk(r, stride, size, v) && lane < size
    ensures Readable(r, stride, v.dst, lane) && Writable(r, stride, v.dst, lane)
    ensures forall i :: 0 <= i < |v.srcs| ==> Readable(r, stride, v.srcs[i], lane)
  {
    LaneInRange(lane, size, stride);
  }

  // The values one lane feeds to the operation.
  function LaneInputs(r: Regs, stride: nat, size: nat, v: VectorInstr, lane: nat): seq<bv64>
    requires VectorOk(r, stride, size, v) && lane < size
  {
    VectorReadable(r, stride, size, v, lane);
    [ReadU64(r, stride, v.dst, lane)]
    + seq(|v.srcs|, i requires 0 <= i < |v.srcs| => ReadU64(r, stride, v.srcs[i], lane))
  }

  // The destination's old value comes first.
  lemma InputsSplit(r: Regs, stride: nat, size: nat, v: VectorInstr, lane: nat)
    requires VectorOk(r, stride, size, v) && lane < size
    ensures Readable(r, stride, v.dst, lane) && LaneInputs(r, stride, size, v, lane) != []
    ensures LaneInputs(r, stride, size, v, lane)
            == [ReadU64(r, stride, v.dst, lane)] + LaneInputs(r, stride, size, v, lane)[1..]
  {
    hide ReadU64;
    VectorReadable(r, stride, size, v, lane);
  }

  // One lane of the read-compute-write loops, reading from `r` and writing to `w`.
  function VectorLane(sem: LaneSem, r: Regs, w: Regs, stride: nat, size: nat, v: VectorInstr, lane: nat): Regs
    requires VectorOk(r, stride, size, v) && lane < size && |w.vgprs| == |r.vgprs|
  {
    VectorReadable(r, stride, size, v, lane);
    if Masked(r.exec, lane) then
      var out := sem(v.op, lane, LaneInputs(r, stride, size, v, lane), Masked(w.vcc, lane));
      var w' := WriteU64(w, stride, v.dst, lane, out.value);
      if v.format == Vop2 && out.carry.Some? then w'.(vcc := SetLane(w.vcc, lane, out.carry.value)) else w'
    else
      WriteU64(w, stride, v.dst, lane, ReadU64(r, stride, v.dst, lane))
  }

  // The registers after lanes 0 .. n - 1 have been written back.
  function VectorPrefix(sem: LaneSem, r: Regs, stride: nat, size: nat, v: VectorInstr, n: nat): (w: Regs)
    requires VectorOk(r, stride, size, v) && n <= size
    ensures |w.vgprs| == |r.vgprs|
  {
    if n == 0 then r else VectorLane(sem, r, VectorPrefix(sem, r, stride, size, v, n - 1), stride, size, v, n - 1)
  }

  // run_vop1, run_vop2, run_vop3
  function Vector(sem: LaneSem, r: Regs, stride: nat, size: nat, v: VectorInstr): Regs
    requires VectorOk(r, stride, size, v)
  {
    VectorPrefix(sem, r, stride, size, v, size)
  }

  // ---------------------------------------------------------------- one lane seen alone

  datatype Lane = Lane(index: nat, regs: seq<bv32>, vcc: bool)

  function LaneOf(r: Regs, stride: nat, size: nat, lane: nat): (l: Lane)
    requires size * stride <= |r.vgprs| && lane < size <= WAVEFRONT_SIZE
    ensures |l.regs| == stride && l.index == lane
  {
    LaneInRange(lane, size, stride);
    Lane(lane, r.vgprs[lane * stride..lane * stride + stride], Masked(r.vcc, lane))
  }

  // A source a lane can read without knowing about other lanes.
  predicate LaneSource(sgprs: seq<bv32>, stride: nat, op: Operand) {
    match op
    case Const(_) => true
    case SReg(first, amount) => amount > 0 && first + amount <= |sgprs|
    case VReg(first, amount) => amount > 0 && first + amount <= stride
    case _ => false
  }

  predicate LaneInstr(sgprs: seq<bv32>, stride: nat, v: VectorInstr) {
    && v.dst.VReg? && 1 <= v.dst.amount <= 2 && v.dst.first + v.dst.amount <= stride
    && forall i :: 0 <= i < |v.srcs| ==> LaneSource(sgprs, stride, v.srcs[i])
  }

  function LaneRead(sgprs: seq<bv32>, regs: seq<bv32>, op: Operand): bv64
    requires LaneSource(sgprs, |regs|, op)
  {
    match op
    case Const(bits) => bits as bv64
    case SReg(first, amount) => ToU64(Span(sgprs, first, amount))
    case VReg(first, amount) => ToU64(Span(regs, first, amount))
  }

  function AloneInputs(sgprs: seq<bv32>, regs: seq<bv32>, v: VectorInstr): seq<bv64>
    requires LaneInstr(sgprs, |regs|, v)
  {
    [LaneRead(sgprs, regs, v.dst)]
    + seq(|v.srcs|, i requires 0 <= i < |v.srcs| => LaneRead(sgprs, regs, v.srcs[i]))
  }

  // What a vector instruction means for a lane running alone: no mask, no other lane.
  function RunLaneInstr(sem: LaneSem, sgprs: seq<bv32>, l: Lane, v: VectorInstr): (l': Lane)
    requires LaneInstr(sgprs, |l.regs|, v)
    ensures |l'.regs| == |l.regs| && l'.index == l.index
  {
    var out := sem(v.op, l.index, AloneInputs(sgprs, l.regs, v), l.vcc);
    Lane(l.index, SetSpan(l.regs, v.dst.first, Words(out.value, v.dst.amount)),
         if v.format == Vop2 && out.carry.Some? then out.carry.value else l.vcc)
  }

  // ---------------------------------------------------------------- lanes do not see each other

  lemma {:induction false} SpanOfLane(r: Regs, stride: nat, size: nat, lane: nat, first: nat, n: nat)
    requires size * stride <= |r.vgprs| && lane < size <= WAVEFRONT_SIZE && first + n <= stride
    ensures lane * stride + first + n <= |r.vgprs|
    ensures Span(r.vgprs, lane * stride + first, n) == Span(LaneOf(r, stride, size, lane).regs, first, n)
  {
    LaneInRange(lane, size, stride);
  }

  // Writing registers inside the slice at a, seen from the slice at b: the same one, or one apart.
  lemma {:induction false} SetSpanOfSlice(regs: seq<bv32>, a: nat, b: nat, n: nat, first: nat, words: seq<bv32>,
                                          same: bool)
    requires first + |words| <= n && a + n <= |regs| && b + n <= |regs|
    requires if same then a == b else a + n <= b || b + n <= a
    ensures SetSpan(regs, a + first, words)[b..b + n]
            == if same then SetSpan(regs[a..a + n], first, words) else regs[b..b + n]
  {
  }

  lemma {:induction false} SetSpanOfLane(r: Regs, stride: nat, size: nat, lane: nat, first: nat, words: seq<bv32>,
                                         other: nat)
    requires size * stride <= |r.vgprs| && lane < size <= WAVEFRONT_SIZE && other < size
    requires first + |words| <= stride
    ensures lane * stride + first + |words| <= |r.vgprs|
    ensures LaneOf(r.(vgprs := SetSpan(r.vgprs, lane * stride + first, words)), stride, size, other).regs
            == if other == lane then SetSpan(LaneOf(r, stride, size, lane).regs, first, words)
               else LaneOf(r, stride, size, other).regs
  {
    hide *;
    LaneInRange(lane, size, stride);
    LaneInRange(other, size, stride);
    LanesApart(stride, lane, other, lane * stride, other * stride);
    SetSpanAt(r, stride, size, lane, first, words, other, lane * stride, other * stride);
  }

  // The same with the products named.
  lemma SetSpanAt(r: Regs, stride: nat, size: nat, lane: nat, first: nat, words: seq<bv32>, other: nat, a: nat, b: nat)
    requires size * stride <= |r.vgprs| && lane < size <= WAVEFRONT_SIZE && other < size && first + |words| <= stride
    requires a == lane * stride && b == other * stride && a + stride <= |r.vgprs| && b + stride <= |r.vgprs|
    requires if other == lane then a == b else a + stride <= b || b + stride <= a
    ensures LaneOf(r.(vgprs := SetSpan(r.vgprs, a + first, words)), stride, size, other).regs
            == if other == lane then SetSpan(LaneOf(r, stride, size, lane).regs, first, words)
               else LaneOf(r, stride, size, other).regs
  {
    hide *;
    SetSpanOfSlice(r.vgprs, a, b, stride, first, words, other == lane);
    LaneSlice(r.(vgprs := SetSpan(r.vgprs, a + first, words)), stride, size, other, b);
    if other == lane {
      LaneSlice(r, stride, size, lane, a);
    } else {
      LaneSlice(r, stride, size, other, b);
    }
  }

  lemma LaneSlice(r: Regs, stride: nat, size: nat, lane: nat, a: nat)
    requires size * stride <= |r.vgprs| && lane < size <= WAVEFRONT_SIZE && a == lane * stride
    ensures a + stride <= |r.vgprs| && LaneOf(r, stride, size, lane).regs == r.vgprs[a..a + stride]
  {
    hide Masked;
    LaneInRange(lane, size, stride);
  }

  // The registers of two lanes are the same or apart.
  lemma LanesApart(stride: nat, lane: nat, other: nat, a: nat, b: nat)
    requires a == lane * stride && b == other * stride
    ensures if other == lane then a == b else a + stride <= b || b + stride <= a
  {
    if lane < other {
      LaneInRange(lane, other, stride);
    } else if other < lane {
      LaneInRange(other, lane, stride);
    }
  }

  lemma {:induction false} LaneReadIsRead(r: Regs, stride: nat, size: nat, op: Operand, lane: nat)
    requires size * stride <= |r.vgprs| && lane < size <= WAVEFRONT_SIZE && LaneSource(r.sgprs, stride, op)
    ensures Readable(r, stride, op, lane)
    ensures ReadU64(r, stride, op, lane) == LaneRead(r.sgprs, LaneOf(r, stride, size, lane).regs, op)
  {
    if op.VReg? {
      SpanOfLane(r, stride, size, lane, op.first, op.amount);
    }
  }

  lemma {:induction false} LaneInputAlone(r: Regs, stride: nat, size: nat, v: VectorInstr, lane: nat, i: nat)
    requires VectorOk(r, stride, size, v) && lane < size && LaneInstr(r.sgprs, stride, v) && i <= |v.srcs|
    ensures |LaneInputs(r, stride, size, v, lane)| == |v.srcs| + 1
    ensures LaneInputs(r, stride, size, v, lane)[i]
            == LaneRead(r.sgprs, LaneOf(r, stride, size, lane).regs, if i == 0 then v.dst else v.srcs[i - 1])
  {
    hide ReadU64;
    hide LaneRead;
    hide LaneOf;
    VectorReadable(r, stride, size, v, lane);
    LaneReadIsRead(r, stride, size, if i == 0 then v.dst else v.srcs[i - 1], lane);
  }

  lemma {:induction false} LaneInputsAlone(r: Regs, stride: nat, size: nat, v: VectorInstr, lane: nat)
    requires VectorOk(r, stride, size, v) && lane < size && LaneInstr(r.sgprs, stride, v)
    ensures LaneInputs(r, stride, size, v, lane) == AloneInputs(r.sgprs, LaneOf(r, stride, size, lane).regs, v)
  {
    hide LaneInputs;
    hide LaneRead;
    hide LaneOf;
    LaneInputAlone(r, stride, size, v, lane, 0);
    forall i: nat | i <= |v.srcs|
      ensures LaneInputs(r, stride, size, v, lane)[i]
              == AloneInputs(r.sgprs, LaneOf(r, stride, size, lane).regs, v)[i]
    {
      LaneInputAlone(r, stride, size, v, lane, i);
    }
  }

  // Writing one lane's destination register.
  lemma {:induction false} WriteLane(w: Regs, stride: nat, size: nat, dst: Operand, lane: nat, value: bv64, other: nat)
    requires size * stride <= |w.vgprs| && lane < size <= WAVEFRONT_SIZE && other < size
    requires dst.VReg? && 1 <= dst.amount <= 2 && dst.first + dst.amount <= stride
    ensures Writable(w, stride, dst, lane)
    ensures var w' := WriteU64(w, stride, dst, lane, value);
            && w' == w.(vgprs := w'.vgprs) && |w'.vgprs| == |w.vgprs|
            && LaneOf(w', stride, size, other)
               == if other == lane
                  then Lane(lane, SetSpan(LaneOf(w, stride, size, lane).regs, dst.first, Words(value, dst.amount)),
                            Masked(w.vcc, lane))
                  else LaneOf(w, stride, size, other)
  {
    hide Words;
    hide Masked;
    hide SetSpan;
    hide Span;
    LaneInRange(lane, size, stride);
    SetSpanOfLane(w, stride, size, lane, dst.first, Words(value, dst.amount), other);
  }

  // Setting one lane's VCC bit.
  lemma {:induction false} CarryLane(w: Regs, stride: nat, size: nat, lane: nat, b: bool, other: nat)
    requires size * stride <= |w.vgprs| && lane < size <= WAVEFRONT_SIZE && other < size
    ensures LaneOf(w.(vcc := SetLane(w.vcc, lane, b)), stride, size, other)
            == if other == lane then LaneOf(w, stride, size, other).(vcc := b) else LaneOf(w, stride, size, other)
  {
    hide Masked;
    hide SetLane;
    SetLaneMasked(w.vcc, lane, b, other);
  }

  // Writing back the destination value a lane was read with leaves the lane as it is.
  lemma {:induction false} RewriteLane(r: Regs, stride: nat, size: nat, dst: Operand, lane: nat)
    requires size * stride <= |r.vgprs| && lane < size <= WAVEFRONT_SIZE
    requires dst.VReg? && 1 <= dst.amount <= 2 && dst.first + dst.amount <= stride
    ensures Readable(r, stride, dst, lane)
    ensures var l := LaneOf(r, stride, size, lane);
            SetSpan(l.regs, dst.first, Words(ReadU64(r, stride, dst, lane), dst.amount)) == l.regs
  {
    hide Words;
    hide ToU64;
    hide SetSpan;
    LaneInRange(lane, size, stride);
    SpanOfLane(r, stride, size, lane, dst.first, dst.amount);
    WordsOfU64(Span(r.vgprs, lane * stride + dst.first, dst.amount));
    SetSpanOfSpan(LaneOf(r, stride, size, lane).regs, dst.first, dst.amount);
  }

  // What writing back one lane does to every lane.
  lemma {:induction false} VectorLaneEffect(sem: LaneSem, r: Regs, w: Regs, stride: nat, size: nat, v: VectorInstr,
                                            lane: nat, other: nat)
    requires VectorOk(r, stride, size, v) && LaneInstr(r.sgprs, stride, v) && lane < size && other < size
    requires |w.vgprs| == |r.vgprs| && w == r.(vgprs := w.vgprs, vcc := w.vcc)
    requires LaneOf(w, stride, size, lane) == LaneOf(r, stride, size, lane)
    ensures var w' := VectorLane(sem, r, w, stride, size, v, lane);
            && w' == r.(vgprs := w'.vgprs, vcc := w'.vcc) && |w'.vgprs| == |r.vgprs|
            && LaneOf(w', stride, size, other)
               == if other == lane && Masked(r.exec, lane) then RunLaneInstr(sem, r.sgprs, LaneOf(r, stride, size, lane), v)
                  else LaneOf(w, stride, size, other)
  {
    var l := LaneOf(r, stride, size, lane);
    assert Masked(w.vcc, lane) == l.vcc by {
      assert Masked(w.vcc, lane) == LaneOf(w, stride, size, lane).vcc;
    }
    hide Masked;
    hide SetLane;
    hide Words;
    hide ReadU64;
    hide WriteU64;
    hide SetSpan;
    hide LaneOf;
    hide LaneInputs;
    hide AloneInputs;
    VectorReadable(r, stride, size, v, lane);
    if Masked(r.exec, lane) {
      LaneInputsAlone(r, stride, size, v, lane);
      var out := sem(v.op, lane, LaneInputs(r, stride, size, v, lane), Masked(w.vcc, lane));
      WriteLane(w, stride, size, v.dst, lane, out.value, other);
      if v.format == Vop2 && out.carry.Some? {
        CarryLane(WriteU64(w, stride, v.dst, lane, out.value), stride, size, lane, out.carry.value, other);
      }
    } else {
      RewriteLane(r, stride, size, v.dst, lane);
      WriteLane(w, stride, size, v.dst, lane, ReadU64(r, stride, v.dst, lane), other);
    }
  }

  // In `w`, lanes below n have run the instruction if they are active; no other lane has changed.
  predicate PerLane(sem: LaneSem, r: Regs, w: Regs, stride: nat, size: nat, v: VectorInstr, n: nat, lane: nat)
    requires VectorOk(r, stride, size, v) && LaneInstr(r.sgprs, stride, v) && lane < size
  {
    && w == r.(vgprs := w.vgprs, vcc := w.vcc)
    && |w.vgprs| == |r.vgprs|
    && LaneOf(w, stride, size, lane)
       == if lane < n && Masked(r.exec, lane) then RunLaneInstr(sem, r.sgprs, LaneOf(r, stride, size, lane), v)
          else LaneOf(r, stride, size, lane)
  }

  lemma {:induction false} PerLaneNext(sem: LaneSem, r: Regs, w: Regs, stride: nat, size: nat, v: VectorInstr, n: nat,
                                       lane: nat)
    requires VectorOk(r, stride, size, v) && LaneInstr(r.sgprs, stride, v) && lane < size && n < size
    requires PerLane(sem, r, w, stride, size, v, n, lane) && PerLane(sem, r, w, stride, size, v, n, n)
    ensures PerLane(sem, r, VectorLane(sem, r, w, stride, size, v, n), stride, size, v, n + 1, lane)
  {
    hide LaneOf;
    hide VectorLane;
    hide RunLaneInstr;
    hide Masked;
    hide VectorOk;
    hide LaneInstr;
    VectorLaneEffect(sem, r, w, stride, size, v, n, lane);
  }

  /**
    A masked vector instruction over the whole wavefront does in each active lane what it does to
    that lane alone, and nothing in an inactive lane, although every lane is read and written back.
  */
  lemma {:induction false} VectorIsPerLane(sem: LaneSem, r: Regs, stride: nat, size: nat, v: VectorInstr, n: nat,
                                           lane: nat)
    requires VectorOk(r, stride, size, v) && LaneInstr(r.sgprs, stride, v) && n <= size && lane < size
    ensures PerLane(sem, r, VectorPrefix(sem, r, stride, size, v, n), stride, size, v, n, lane)
  {
    hide *;
    if n == 0 {
      PrefixNone(sem, r, stride, size, v, lane);
    } else {
      VectorIsPerLane(sem, r, stride, size, v, n - 1, lane);
      VectorIsPerLane(sem, r, stride, size, v, n - 1, n - 1);
      PerLaneNext(sem, r, VectorPrefix(sem, r, stride, size, v, n - 1), stride, size, v, n - 1, lane);
      PrefixNext(sem, r, stride, size, v, n - 1);
    }
  }

  lemma PrefixNone(sem: LaneSem, r: Regs, stride: nat, size: nat, v: VectorInstr, lane: nat)
    requires VectorOk(r, stride, size, v) && LaneInstr(r.sgprs, stride, v) && lane < size
    ensures PerLane(sem, r, VectorPrefix(sem, r, stride, size, v, 0), stride, size, v, 0, lane)
  {
    hide LaneOf;
    hide RunLaneInstr;
    hide Masked;
  }

  lemma PrefixNext(sem: LaneSem, r: Regs, stride: nat, size: nat, v: VectorInstr, n: nat)
    requires VectorOk(r, stride, size, v) && n < size
    ensures VectorPrefix(sem, r, stride, size, v, n + 1)
            == VectorLane(sem, r, VectorPrefix(sem, r, stride, size, v, n), stride, size, v, n)
  {
  }
}
