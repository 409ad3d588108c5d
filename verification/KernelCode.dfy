/**
  Kernel code: the parsed instructions by address, and how a wavefront moves through them.
*/
module KernelCode {
  import opened MachineWords
  import opened LaneMask
  import opened WavefrontState

  datatype Condition =
    | Always | Execz | Execnz | Scc0 | Scc1 | Vccz | Vccnz
    | CdbgSys | CdbgUser | CdbgSysAndUser | CdbgSysOrUser

  datatype Instr =
    | AndSaveexecB64(dst: Operand, src: Operand)
    | SMovB64(dst: Operand, src: Operand)
    | VectorOp(v: VectorInstr)
    | Branch(cond: Condition, target: nat)
    | Waitcnt
    | Endpgm
    // Any other instruction that leaves the program counter alone.
    | Other(id: nat)

  // One disassembled line: a label, or an instruction with its address.
  datatype Line = Label(address: nat) | Code(address: nat, instr: Instr)

  datatype Entry = Entry(instr: Instr, width: nat)

  type Program = map<nat, Entry>

  // ---------------------------------------------------------------- parsing

  function Instructions(lines: seq<Line>): (code: seq<Line>)
    ensures forall i :: 0 <= i < |code| ==> code[i].Code?
  {
    if lines == [] then []
    else Instructions(lines[..|lines| - 1]) + if lines[|lines| - 1].Code? then [lines[|lines| - 1]] else []
  }

  // Labels are skipped and nothing else is.
  lemma {:induction false} InstructionIn(lines: seq<Line>, line: Line)
    ensures line in Instructions(lines) <==> line in lines && line.Code?
  {
    if lines != [] {
      var before, last := lines[..|lines| - 1], lines[|lines| - 1];
      InstructionIn(before, line);
      assert lines == before + [last];
      assert line in lines <==> line in before || line == last;
    }
  }

  // A listing without labels is all instructions.
  lemma {:induction false} AllAreInstructions(lines: seq<Line>)
    requires forall i :: 0 <= i < |lines| ==> lines[i].Code?
    ensures Instructions(lines) == lines
  {
    if lines != [] {
      AllAreInstructions(lines[..|lines| - 1]);
    }
  }

  // The width of the instruction before one at `next`, in size_t arithmetic.
  function Gap(address: nat, next: nat): nat {
    (next - address) % SIZE_T_RANGE
  }

  // Whichever way the next instruction lies, adding the gap in 64 bits leads to it.
  lemma GapLeadsOn(address: nat, next: nat)
    requires address < SIZE_T_RANGE && next < SIZE_T_RANGE
    ensures (address + Gap(address, next)) % SIZE_T_RANGE == next
    ensures address <= next ==> Gap(address, next) == next - address
  {
  }

  function WidthAt(code: seq<Line>, i: nat): nat
    requires i < |code|
  {
    if i + 1 == |code| then 4 else Gap(code[i].address, code[i + 1].address)
  }

  predicate LastAt(code: seq<Line>, i: nat)
    requires i < |code|
  {
    forall j :: i < j < |code| ==> code[j].address != code[i].address
  }

  ghost predicate Domain(code: seq<Line>, program: Program) {
    forall a :: a in program <==> Mentions(code, a)
  }

  ghost predicate Mentions(code: seq<Line>, a: nat) {
    exists i :: 0 <= i < |code| && code[i].address == a
  }

  ghost predicate Holds(code: seq<Line>, program: Program, i: nat, width: nat)
    requires i < |code| && code[i].Code?
  {
    code[i].address in program && program[code[i].address] == Entry(code[i].instr, width)
  }

  // Each address holds the last instruction given for it, as wide as the gap to the next line.
  ghost predicate Parsed(code: seq<Line>, program: Program)
    requires forall i :: 0 <= i < |code| ==> code[i].Code?
  {
    && Domain(code, program)
    && forall i: nat :: i < |code| && LastAt(code, i) ==> Holds(code, program, i, WidthAt(code, i))
  }

  // While reading, the newest instruction has no width yet.
  ghost predicate Reading(code: seq<Line>, program: Program)
    requires forall i :: 0 <= i < |code| ==> code[i].Code?
  {
    && Domain(code, program)
    && forall i: nat :: i < |code| && LastAt(code, i) ==>
                          Holds(code, program, i, if i + 1 == |code| then 0 else WidthAt(code, i))
  }

  function LastAddress(code: seq<Line>): int {
    if code == [] then -1 else code[|code| - 1].address
  }

  // The program after one more instruction line.
  function Extend(code: seq<Line>, program: Program, line: Line): Program
    requires line.Code? && (code != [] ==> code[|code| - 1].address in program)
  {
    var p := program[line.address := Entry(line.instr, 0)];
    if code == [] then p
    else var prev := code[|code| - 1].address; p[prev := p[prev].(width := Gap(prev, line.address))]
  }

  lemma {:induction false} ReadingNext(code: seq<Line>, program: Program, line: Line, after: Program)
    requires forall i :: 0 <= i < |code| ==> code[i].Code?
    requires line.Code? && Reading(code, program)
    requires code != [] ==> code[|code| - 1].address in program
    requires after == Extend(code, program, line)
    ensures Reading(code + [line], after)
  {
    var code' := code + [line];
    ExtendDomain(code, program, line);
    forall i: nat | i < |code'| && LastAt(code', i)
      ensures Holds(code', after, i, if i + 1 == |code'| then 0 else WidthAt(code', i))
    {
      ExtendEntry(code, program, line, i);
    }
  }

  lemma {:induction false} ExtendDomain(code: seq<Line>, program: Program, line: Line)
    requires line.Code? && Domain(code, program)
    requires code != [] ==> code[|code| - 1].address in program
    ensures Domain(code + [line], Extend(code, program, line))
  {
    var code' := code + [line];
    var after := Extend(code, program, line);
    forall a ensures a in after <==> Mentions(code', a) {
      if a in program {
        var i :| 0 <= i < |code| && code[i].address == a;
        assert code'[i].address == a;
      }
      assert code'[|code|].address == line.address;
      if Mentions(code', a) && a != line.address {
        var i :| 0 <= i < |code'| && code'[i].address == a;
        assert code[i].address == a;
      }
    }
  }

  lemma {:induction false} ExtendEntry(code: seq<Line>, program: Program, line: Line, i: nat)
    requires forall i :: 0 <= i < |code| ==> code[i].Code?
    requires line.Code? && Reading(code, program)
    requires code != [] ==> code[|code| - 1].address in program
    requires i <= |code| && LastAt(code + [line], i)
    ensures var code' := code + [line];
            Holds(code', Extend(code, program, line), i, if i + 1 == |code'| then 0 else WidthAt(code', i))
  {
    var code' := code + [line];
    hide Domain;
    if i < |code| {
      assert code'[|code|].address != code'[i].address;
      assert LastAt(code, i) by {
        forall j | i < j < |code| ensures code[j].address != code[i].address {
          assert code'[j] == code[j];
        }
      }
      assert Holds(code, program, i, if i + 1 == |code| then 0 else WidthAt(code, i));
      assert code'[i] == code[i];
      if i + 1 < |code| {
        assert code'[i + 1] == code[i + 1];
        assert code[|code| - 1].address != code[i].address;
      }
    }
  }

  lemma {:induction false} ReadingDone(code: seq<Line>, before: Program, program: Program)
    requires forall i :: 0 <= i < |code| ==> code[i].Code?
    requires code != [] && Reading(code, before) && code[|code| - 1].address in before
    requires var last := code[|code| - 1].address; program == before[last := before[last].(width := 4)]
    ensures Parsed(code, program)
  {
    var n := |code| - 1;
    forall i: nat | i < |code| && LastAt(code, i) ensures Holds(code, program, i, WidthAt(code, i)) {
      assert Holds(code, before, i, if i + 1 == |code| then 0 else WidthAt(code, i));
      if i < n {
        assert code[n].address != code[i].address;
      }
    }
  }

  /**
    The parser gives each instruction its width only when it meets the next one; the last is 4 wide.
  */
  method ParseKernelCode(lines: seq<Line>) returns (program: Program)
    requires Instructions(lines) != []
    ensures Parsed(Instructions(lines), program)
    // An address has an entry exactly if an instruction line names it; the last instruction is 4 wide.
    ensures forall a :: a in program <==> exists line :: line in lines && line.Code? && line.address == a
    ensures var code := Instructions(lines);
            code[|code| - 1].address in program && program[code[|code| - 1].address] == Entry(code[|code| - 1].instr, 4)
  {
    program := map[];
    var prevInstrAddr: int := -1;
    var i := 0;
    while i < |lines|
      invariant 0 <= i <= |lines|
      invariant Reading(Instructions(lines[..i]), program)
      invariant prevInstrAddr == LastAddress(Instructions(lines[..i]))
      invariant prevInstrAddr != -1 ==> prevInstrAddr in program
    {
      var line := lines[i];
      ghost var before := Instructions(lines[..i]);
      assert lines[..i + 1][..i] == lines[..i];
      assert Instructions(lines[..i + 1]) == if line.Code? then before + [line] else before;
      i := i + 1;
      if line.Label? {
        continue;
      }
      ghost var read := program;
      program := program[line.address := Entry(line.instr, 0)];
      if prevInstrAddr != -1 {
        program := program[prevInstrAddr := program[prevInstrAddr].(width := Gap(prevInstrAddr, line.address))];
      }
      assert program == Extend(before, read, line);
      ReadingNext(before, read, line, program);
      prevInstrAddr := line.address;
    }
    assert lines[..i] == lines;
    ghost var read := program;
    program := program[prevInstrAddr := program[prevInstrAddr].(width := 4)];
    ReadingDone(Instructions(lines), read, program);
    ParsedSays(lines, program);
  }

  lemma ParsedSays(lines: seq<Line>, program: Program)
    requires Instructions(lines) != [] && Parsed(Instructions(lines), program)
    ensures forall a :: a in program <==> exists line :: line in lines && line.Code? && line.address == a
    ensures var code := Instructions(lines);
            code[|code| - 1].address in program && program[code[|code| - 1].address] == Entry(code[|code| - 1].instr, 4)
  {
    var code := Instructions(lines);
    assert LastAt(code, |code| - 1);
    hide Instructions;
    forall a ensures a in program <==> exists line :: line in lines && line.Code? && line.address == a {
      if a in program {
        assert Mentions(code, a);
        var i :| 0 <= i < |code| && code[i].address == a;
        InstructionIn(lines, code[i]);
      }
      if exists line :: line in lines && line.Code? && line.address == a {
        var line :| line in lines && line.Code? && line.address == a;
        InstructionIn(lines, line);
        assert Mentions(code, a);
      }
    }
  }
}
