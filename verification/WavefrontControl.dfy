/**
  The fetch-execute loop of one wavefront, step by step: what one instruction does to the registers
  and to the program counter, where control can go, and when it must stop.
*/
module WavefrontControl {
  import opened MachineWords
  import opened LaneMask
  import opened WavefrontState
  import opened KernelCode

  // What the wavefront runs with: the meaning of vector operations and of every other instruction
  // that leaves control alone, the two debug condition bits, and the shape of the register file.
  datatype Env = Env(sem: LaneSem, other: (nat, Regs) -> Regs, cdbgSys: bool, cdbgUser: bool, size: nat, stride: nat)

  datatype Wave = Wave(regs: Regs, pc: nat, used: bool)

  // An assertion of the emulator stops the whole process.
  datatype Outcome = Running(wave: Wave) | Completed(wave: Wave) | Stopped

  predicate Taken(env: Env, r: Regs, cond: Condition) {
    match cond
    case Always => true
    case Execz => r.exec == 0
    case Execnz => r.exec != 0
    case Scc0 => !r.scc
    case Scc1 => r.scc
    case Vccz => r.vcc == 0
    case Vccnz => r.vcc != 0
    case CdbgSys => env.cdbgSys
    case CdbgUser => env.cdbgUser
    case CdbgSysAndUser => env.cdbgSys && env.cdbgUser
    case CdbgSysOrUser => env.cdbgSys || env.cdbgUser
  }

  // The operand assertions of one instruction hold.
  predicate Runnable(env: Env, r: Regs, i: Instr) {
    match i
    case AndSaveexecB64(dst, src) => ScalarOk(r, dst, src)
    case SMovB64(dst, src) => ScalarOk(r, dst, src)
    case VectorOp(v) => VectorOk(r, env.stride, env.size, v)
    case Other(id) => |env.other(id, r).sgprs| == |r.sgprs| && |env.other(id, r).vgprs| == |r.vgprs|
    case _ => true
  }

  // run_instr, registers only.
  function Execute(env: Env, r: Regs, i: Instr): Regs
    requires Runnable(env, r, i)
  {
    match i
    case AndSaveexecB64(dst, src) => AndSaveexec(r, dst, src)
    case SMovB64(dst, src) => MovB64(r, dst, src)
    case VectorOp(v) => Vector(env.sem, r, env.stride, env.size, v)
    case Other(id) => env.other(id, r)
    case _ => r
  }

  // to_next_instr: a branch that was taken has already set the counter.
  function ToNext(program: Program, w: Wave): Outcome {
    if w.used then Running(w.(used := false))
    else if w.pc in program && program[w.pc].width in {4, 8} then
      Running(w.(pc := (w.pc + program[w.pc].width) % SIZE_T_RANGE))
    else Stopped
  }

  // One turn of the loop in run_wavefront.
  function Step(env: Env, program: Program, w: Wave): Outcome {
    if w.pc !in program then Stopped
    else
      var i := program[w.pc].instr;
      if i.Endpgm? then Completed(w)
      else if !Runnable(env, w.regs, i) then Stopped
      else
        var w' := w.(regs := Execute(env, w.regs, i));
        ToNext(program, if i.Branch? && Taken(env, w.regs, i.cond) then w'.(pc := i.target, used := true) else w')
  }

  function Run(env: Env, program: Program, w: Wave, n: nat): Outcome
    decreases n
  {
    if n == 0 then Running(w)
    else match Step(env, program, w)
      case Running(w') => Run(env, program, w', n - 1)
      case other => other
  }

  lemma {:induction false} RunNext(env: Env, program: Program, w: Wave, n: nat)
    requires Run(env, program, w, n).Running?
    ensures Run(env, program, w, n + 1) == Step(env, program, Run(env, program, w, n).wave)
    decreases n
  {
    hide Step;
    if n > 0 {
      RunNext(env, program, Step(env, program, w).wave, n - 1);
    }
  }

  // ---------------------------------------------------------------- well-formed kernels

  // Addresses start at 0 and go up by 4 or 8, the last instruction is s_endpgm, and every branch
  // names the address of an instruction.
  ghost predicate WellFormed(code: seq<Line>) {
    && code != [] && (forall i :: 0 <= i < |code| ==> code[i].Code?)
    && code[0].address == 0 && code[|code| - 1].address < 0x8000_0000
    && code[|code| - 1].instr.Endpgm?
    && (forall i :: 0 <= i < |code| - 1 ==> code[i + 1].address - code[i].address in {4, 8})
    && forall i :: 0 <= i < |code| && code[i].instr.Branch? ==> Mentions(code, code[i].instr.target)
  }

  ghost predicate Forward(code: seq<Line>)
    requires forall i :: 0 <= i < |code| ==> code[i].Code?
  {
    forall i :: 0 <= i < |code| && code[i].instr.Branch? ==> code[i].instr.target > code[i].address
  }

  lemma {:induction false} Ascending(code: seq<Line>, i: nat, j: nat)
    requires WellFormed(code) && i < j < |code|
    ensures code[i].address < code[j].address
    decreases j
  {
    if i < j - 1 {
      Ascending(code, i, j - 1);
    }
    assert code[j - 1 + 1].address - code[j - 1].address in {4, 8};
  }

  // In a parsed well-formed kernel, entry i is instruction i, as wide as the gap to the next one.
  lemma {:induction false} EntryAt(code: seq<Line>, program: Program, i: nat)
    requires WellFormed(code) && Parsed(code, program) && i < |code|
    ensures code[i].address in program && program[code[i].address].instr == code[i].instr
    ensures i + 1 < |code| ==> code[i + 1].address == code[i].address + program[code[i].address].width
    ensures i + 1 < |code| ==> program[code[i].address].width in {4, 8}
    ensures code[i].address < 0x8000_0000
  {
    forall j | i < j < |code| ensures code[j].address != code[i].address {
      Ascending(code, i, j);
    }
    assert LastAt(code, i);
    assert Holds(code, program, i, WidthAt(code, i));
    if i + 1 < |code| {
      Ascending(code, i, |code| - 1);
    }
  }

  // At the head of the loop: the counter is at an instruction and no jump is pending.
  ghost predicate AtHead(code: seq<Line>, w: Wave) {
    Mentions(code, w.pc) && !w.used
  }

  // The position in the kernel of the instruction the counter is at.
  ghost function IndexOf(code: seq<Line>, a: nat): (i: nat)
    requires Mentions(code, a)
    ensures i < |code| && code[i].address == a
  {
    var i: nat :| i < |code| && code[i].address == a;
    i
  }

  lemma {:induction false} ToNextInside(code: seq<Line>, program: Program, w: Wave, i: nat)
    requires WellFormed(code) && Parsed(code, program) && i < |code| && !code[i].instr.Endpgm?
    requires if w.used then Mentions(code, w.pc) else w.pc == code[i].address
    ensures var o := ToNext(program, w); o.Running? && AtHead(code, o.wave)
  {
    if !w.used {
      hide Parsed;
      EntryAt(code, program, i);
      EntryAt(code, program, i + 1);
      assert code[i + 1].address == w.pc + program[w.pc].width;
      assert Mentions(code, code[i + 1].address);
    }
  }

  /**
    Control never leaves the kernel: after one turn of the loop the counter is again at an
    instruction with no jump pending; the turn can only fail on an operand of its instruction.
  */
  lemma {:induction false} StepStaysInside(env: Env, code: seq<Line>, program: Program, w: Wave)
    requires WellFormed(code) && Parsed(code, program) && AtHead(code, w)
    ensures w.pc in program
    ensures var o := Step(env, program, w);
            match o
            case Running(w') => AtHead(code, w')
            case Completed(w') => w' == w && program[w.pc].instr.Endpgm?
            case Stopped => !Runnable(env, w.regs, program[w.pc].instr)
  {
    hide Runnable;
    hide Execute;
    hide Taken;
    hide Mentions;
    hide Parsed;
    hide ToNext;
    var i := IndexOf(code, w.pc);
    EntryAt(code, program, i);
    var instr := code[i].instr;
    if !instr.Endpgm? && Runnable(env, w.regs, instr) {
      var w' := w.(regs := Execute(env, w.regs, instr));
      if instr.Branch? && Taken(env, w.regs, instr.cond) {
        ToNextInside(code, program, w'.(pc := instr.target, used := true), i);
      } else {
        ToNextInside(code, program, w', i);
      }
    }
  }

  /**
    Over a whole run of any length, the counter is at an instruction at every fetch.
  */
  lemma {:induction false} ControlStaysInside(env: Env, code: seq<Line>, program: Program, w: Wave, n: nat)
    requires WellFormed(code) && Parsed(code, program) && AtHead(code, w)
    ensures var o := Run(env, program, w, n);
            match o
            case Running(w') => AtHead(code, w')
            case Completed(w') => AtHead(code, w') && w'.pc in program && program[w'.pc].instr.Endpgm?
            case Stopped => exists w' :: AtHead(code, w') && w'.pc in program && !Runnable(env, w'.regs, program[w'.pc].instr)
    decreases n
  {
    if n > 0 {
      hide Runnable;
      StepStaysInside(env, code, program, w);
      match Step(env, program, w)
      case Running(w') => ControlStaysInside(env, code, program, w', n - 1);
      case Completed(_) =>
      case Stopped =>
        assert AtHead(code, w) && !Runnable(env, w.regs, program[w.pc].instr);
    }
  }

  // Without backward branches the counter goes up.
  lemma {:induction false} CounterGoesUp(env: Env, code: seq<Line>, program: Program, w: Wave, i: nat)
    requires WellFormed(code) && Forward(code) && Parsed(code, program)
    requires i < |code| && code[i].address == w.pc && !w.used
    ensures var o := Step(env, program, w); o.Running? ==> o.wave.pc > w.pc
  {
    EntryAt(code, program, i);
    assert code[i].instr.Branch? ==> code[i].instr.target > code[i].address;
    assert code[i].instr.Endpgm? || i + 1 < |code|;
    hide *;
    NextAddress(env, program, w);
  }

  lemma NextAddress(env: Env, program: Program, w: Wave)
    requires w.pc in program && w.pc < 0x8000_0000 && !w.used
    requires program[w.pc].instr.Endpgm? || program[w.pc].width in {4, 8}
    requires program[w.pc].instr.Branch? ==> program[w.pc].instr.target > w.pc
    ensures var o := Step(env, program, w); o.Running? ==> o.wave.pc > w.pc
  {
    hide Runnable;
    hide Execute;
    hide Taken;
    assert w.pc + program[w.pc].width < SIZE_T_RANGE || program[w.pc].instr.Endpgm?;
  }

  lemma {:induction false} StepMovesForward(env: Env, code: seq<Line>, program: Program, w: Wave)
    requires WellFormed(code) && Forward(code) && Parsed(code, program) && AtHead(code, w)
    ensures var o := Step(env, program, w); o.Running? ==> AtHead(code, o.wave) && IndexOf(code, o.wave.pc) > IndexOf(code, w.pc)
  {
    var i := IndexOf(code, w.pc);
    var o := Step(env, program, w);
    StepStaysInside(env, code, program, w);
    hide Step;
    hide Parsed;
    CounterGoesUp(env, code, program, w, i);
    if o.Running? {
      var j := IndexOf(code, o.wave.pc);
      if j < i {
        hide WellFormed;
        Ascending(code, j, i);
      }
    }
  }

  /**
    When every branch goes forward, the loop ends within as many turns as there are instructions.
  */
  lemma {:induction false} ForwardRunEnds(env: Env, code: seq<Line>, program: Program, w: Wave, n: nat)
    requires WellFormed(code) && Forward(code) && Parsed(code, program) && AtHead(code, w)
    requires n >= |code| - IndexOf(code, w.pc)
    ensures !Run(env, program, w, n).Running?
    decreases n
  {
    hide Step;
    hide Parsed;
    hide Forward;
    hide Runnable;
    hide Mentions;
    StepMovesForward(env, code, program, w);
    var o := Step(env, program, w);
    if o.Running? {
      ForwardRunEnds(env, code, program, o.wave, n - 1);
    }
  }
}
