/**
  Uniform branching: a kernel that branches on a condition of the whole wavefront,

      s_cbranch_<cond>  else
      ...
      s_branch          end
    else:
      ...
    end:
      s_endpgm

  runs one of its two parts, from the first instruction to the last, and nothing of the other.
*/
module UniformBranches {
  import opened MachineWords
  import opened LaneMask
  import opened WavefrontState
  import opened KernelCode
  import opened WavefrontControl
  import opened Divergence
  import opened DivergenceCode

  // Where the second part starts, and where both come together.
  function ElseAt(a: Tree): nat {
    8 + Size(a)
  }

  function EndAt(a: Tree, b: Tree): nat {
    ElseAt(a) + Size(b)
  }

  function First(cond: Condition, a: Tree): (code: seq<Line>)
    ensures forall i :: 0 <= i < |code| ==> code[i].Code?
  {
    [Code(0, Branch(cond, ElseAt(a)))] + Lines(a, 4)
  }

  function Second(a: Tree, b: Tree): (code: seq<Line>)
    ensures forall i :: 0 <= i < |code| ==> code[i].Code?
  {
    [Code(4 + Size(a), Branch(Always, EndAt(a, b)))] + Lines(b, ElseAt(a))
  }

  function Choice(cond: Condition, a: Tree, b: Tree): (code: seq<Line>)
    ensures forall i :: 0 <= i < |code| ==> code[i].Code?
  {
    First(cond, a) + Second(a, b) + [Code(EndAt(a, b), Endpgm)]
  }

  // ---------------------------------------------------------------- the kernel is well-formed

  lemma {:induction false} PartChain(jump: Line, t: Tree, start: nat)
    requires jump.address == start && Widths(t)
    ensures Chain([jump] + Lines(t, start + 4), start, start + 4 + Size(t))
  {
    hide Chain;
    LinesChain(t, start + 4);
    OneChain(jump, start, 4);
    ChainConcat([jump], Lines(t, start + 4), start, start + 4, start + 4 + Size(t));
  }

  lemma {:induction false} ChoiceChain(cond: Condition, a: Tree, b: Tree)
    requires Widths(a) && Widths(b)
    ensures Chain(Choice(cond, a, b), 0, EndAt(a, b) + 4)
  {
    hide Chain;
    hide Size;
    hide Lines;
    var last := [Code(EndAt(a, b), Endpgm)];
    PartChain(Code(0, Branch(cond, ElseAt(a))), a, 0);
    PartChain(Code(4 + Size(a), Branch(Always, EndAt(a, b))), b, 4 + Size(a));
    OneChain(last[0], EndAt(a, b), 4);
    ChainConcat(First(cond, a), Second(a, b), 0, 4 + Size(a), EndAt(a, b));
    ChainConcat(First(cond, a) + Second(a, b), last, 0, EndAt(a, b), EndAt(a, b) + 4);
  }

  // Both targets are addresses of instructions.
  lemma {:induction false} TargetsMentioned(cond: Condition, a: Tree, b: Tree)
    ensures Mentions(Choice(cond, a, b), ElseAt(a)) && Mentions(Choice(cond, a, b), EndAt(a, b))
  {
    SecondWithin(cond, a, b);
    ChoiceParts(cond, a, b);
    hide *;
    var code := Choice(cond, a, b);
    Mentioned(code, |Lines(a, 4)| + 2);
    Mentioned(code, |code| - 1);
  }

  lemma Mentioned(code: seq<Line>, i: nat)
    requires i < |code|
    ensures Mentions(code, code[i].address)
  {
  }

  // The five parts of the code, one after the other.
  lemma {:induction false} ChoiceParts(cond: Condition, a: Tree, b: Tree)
    ensures var code, x, y := Choice(cond, a, b), Lines(a, 4), Lines(b, ElseAt(a));
            && |code| == |x| + |y| + 3
            && code[0] == Code(0, Branch(cond, ElseAt(a))) && code[1..1 + |x|] == x
            && code[|x| + 1] == Code(4 + Size(a), Branch(Always, EndAt(a, b)))
            && code[|x| + 2..|x| + 2 + |y|] == y && code[|x| + 2 + |y|] == Code(EndAt(a, b), Endpgm)
  {
    hide Lines;
    FiveParts(Code(0, Branch(cond, ElseAt(a))), Lines(a, 4), Code(4 + Size(a), Branch(Always, EndAt(a, b))),
              Lines(b, ElseAt(a)), Code(EndAt(a, b), Endpgm));
  }

  lemma FiveParts(first: Line, x: seq<Line>, second: Line, y: seq<Line>, last: Line)
    ensures var code := [first] + x + ([second] + y) + [last];
            && |code| == |x| + |y| + 3 && code[0] == first && code[1..|x| + 1] == x && code[|x| + 1] == second
            && code[|x| + 2..|x| + 2 + |y|] == y && code[|x| + 2 + |y|] == last
  {
  }

  lemma {:induction false} ChoiceIsWellFormed(cond: Condition, a: Tree, b: Tree)
    requires Widths(a) && Widths(b) && EndAt(a, b) < 0x8000_0000
    ensures WellFormed(Choice(cond, a, b)) && Forward(Choice(cond, a, b))
  {
    var code := Choice(cond, a, b);
    ChoiceChain(cond, a, b);
    TargetsMentioned(cond, a, b);
    forall i | 0 <= i < |code| ensures JumpsAhead(code[i], code) {
      ChoiceJumpsAhead(cond, a, b, code[i]);
    }
    hide Mentions;
    hide Lines;
  }

  lemma {:induction false} ChoiceJumpsAhead(cond: Condition, a: Tree, b: Tree, x: Line)
    requires x in Choice(cond, a, b)
    requires Mentions(Choice(cond, a, b), ElseAt(a)) && Mentions(Choice(cond, a, b), EndAt(a, b))
    ensures JumpsAhead(x, Choice(cond, a, b))
  {
    var code := Choice(cond, a, b);
    hide Mentions;
    if x in Lines(a, 4) {
      LinesJumpAhead(a, 4, code, x);
    } else if x in Lines(b, ElseAt(a)) {
      LinesJumpAhead(b, ElseAt(a), code, x);
    }
  }

  // ---------------------------------------------------------------- the parsed kernel

  // The program holds both parts and the two jumps.
  predicate Holds(program: Program, cond: Condition, a: Tree, b: Tree) {
    && At(program, 0, Branch(cond, ElseAt(a)), 4)
    && Loaded(program, a, 4)
    && At(program, 4 + Size(a), Branch(Always, EndAt(a, b)), 4)
    && Loaded(program, b, ElseAt(a))
    && EndAt(a, b) in program && program[EndAt(a, b)].instr.Endpgm?
  }

  // A part that something follows where it ends is within the code.
  lemma PartWithin(code: seq<Line>, t: Tree, start: nat, i: nat, n: nat)
    requires n == |Lines(t, start)| && i + n < |code|
    requires code[i..i + n] == Lines(t, start) && code[i + n].address == start + Size(t)
    ensures Within(code, t, start, i) && code[i].address == start
  {
    FirstAddress(t, start);
    if n > 0 {
      assert code[i] == code[i..i + n][0];
    }
    hide Lines;
    hide Size;
  }

  // The code of a tree starts where it should, and there is none only if it has no size.
  lemma FirstAddress(t: Tree, start: nat)
    ensures if Lines(t, start) == [] then Size(t) == 0 else Lines(t, start)[0].address == start
  {
  }

  lemma {:induction false} FirstWithin(cond: Condition, a: Tree, b: Tree)
    ensures Within(Choice(cond, a, b), a, 4, 1)
  {
    ChoiceParts(cond, a, b);
    hide *;
    PartWithin(Choice(cond, a, b), a, 4, 1, |Lines(a, 4)|);
  }

  lemma {:induction false} SecondWithin(cond: Condition, a: Tree, b: Tree)
    ensures Within(Choice(cond, a, b), b, ElseAt(a), |Lines(a, 4)| + 2)
    ensures |Lines(a, 4)| + 2 < |Choice(cond, a, b)|
    ensures Choice(cond, a, b)[|Lines(a, 4)| + 2].address == ElseAt(a) == 8 + Size(a)
  {
    ChoiceParts(cond, a, b);
    assert ElseAt(a) == 8 + Size(a) && EndAt(a, b) == ElseAt(a) + Size(b);
    hide *;
    PartWithin(Choice(cond, a, b), b, ElseAt(a), |Lines(a, 4)| + 2, |Lines(b, ElseAt(a))|);
  }

  lemma {:induction false} ChoiceIsLoaded(program: Program, cond: Condition, a: Tree, b: Tree)
    requires WellFormed(Choice(cond, a, b)) && Parsed(Choice(cond, a, b), program)
    ensures Holds(program, cond, a, b)
  {
    hide *;
    var code, k := Choice(cond, a, b), |Lines(a, 4)| + 1;
    FirstWithin(cond, a, b);
    SecondWithin(cond, a, b);
    ParsedIsLoaded(code, program, a, 4, 1);
    ParsedIsLoaded(code, program, b, ElseAt(a), k + 1);
    EntryAt(code, program, 0);
    EntryAt(code, program, k);
    EntryAt(code, program, |code| - 1);
    ChoiceParts(cond, a, b);
    JumpsHold(program, cond, a, b);
  }

  lemma JumpsHold(program: Program, cond: Condition, a: Tree, b: Tree)
    requires 0 in program && program[0] == Entry(Branch(cond, ElseAt(a)), 4)
    requires Loaded(program, a, 4) && Loaded(program, b, ElseAt(a))
    requires var jump := 4 + Size(a); jump in program && program[jump] == Entry(Branch(Always, EndAt(a, b)), 4)
    requires EndAt(a, b) in program && program[EndAt(a, b)].instr.Endpgm?
    ensures Holds(program, cond, a, b)
  {
  }

  // ---------------------------------------------------------------- one part runs

  lemma {:induction false} FirstPartRuns(env: Env, program: Program, r: Regs, cond: Condition, a: Tree, b: Tree)
    requires Fits(env, r) && InRange(a, r.sgprs, env.stride) && EndAt(a, b) < SIZE_T_RANGE
    requires Holds(program, cond, a, b) && !Taken(env, r, cond)
    ensures Reaches(env, program, Wave(r, 0, false), Wave(RunTree(env, r, a), EndAt(a, b), false))
  {
    hide Taken;
    hide Reaches;
    hide RunTree;
    hide Loaded;
    var r1 := RunTree(env, r, a);
    StepOn(env, program, r, 0, Branch(cond, ElseAt(a)), 4);
    CodeRunsTree(env, program, r, a, 4);
    AlwaysTaken(env, r1);
    StepJump(env, program, r1, 4 + Size(a), Always, EndAt(a, b));
    ReachesThrough(env, program, Wave(r, 0, false), Wave(r, 4, false), Wave(r1, 4 + Size(a), false));
    ReachesThrough(env, program, Wave(r, 0, false), Wave(r1, 4 + Size(a), false), Wave(r1, EndAt(a, b), false));
  }

  lemma AlwaysTaken(env: Env, r: Regs)
    ensures Taken(env, r, Always)
  {
  }

  lemma {:induction false} SecondPartRuns(env: Env, program: Program, r: Regs, cond: Condition, a: Tree, b: Tree)
    requires Fits(env, r) && InRange(b, r.sgprs, env.stride) && EndAt(a, b) < SIZE_T_RANGE
    requires Holds(program, cond, a, b) && Taken(env, r, cond)
    ensures Reaches(env, program, Wave(r, 0, false), Wave(RunTree(env, r, b), EndAt(a, b), false))
  {
    hide Taken;
    hide Reaches;
    hide RunTree;
    hide Loaded;
    StepJump(env, program, r, 0, cond, ElseAt(a));
    CodeRunsTree(env, program, r, b, ElseAt(a));
    ReachesThrough(env, program, Wave(r, 0, false), Wave(r, ElseAt(a), false),
                   Wave(RunTree(env, r, b), EndAt(a, b), false));
  }

  /**
    The kernel, as the parser leaves it, run from its first instruction on any registers, ends at
    s_endpgm within as many turns of the loop as it has instructions, and has run the first part only or
    the second part only: which one is up to SCC, VCC, EXEC or the debug bits, as the condition says.
  */
  lemma {:induction false} ChoiceRunsOnePart(env: Env, program: Program, r: Regs, cond: Condition, a: Tree, b: Tree,
                                             n: nat)
    requires Fits(env, r) && InRange(a, r.sgprs, env.stride) && InRange(b, r.sgprs, env.stride)
    requires EndAt(a, b) < 0x8000_0000 && Parsed(Instructions(Choice(cond, a, b)), program)
    requires n >= |Choice(cond, a, b)| || !Run(env, program, Wave(r, 0, false), n).Running?
    ensures var ran := match cond
                       case Always => b
                       case Execz => if r.exec == 0 then b else a
                       case Execnz => if r.exec == 0 then a else b
                       case Scc0 => if r.scc then a else b
                       case Scc1 => if r.scc then b else a
                       case Vccz => if r.vcc == 0 then b else a
                       case Vccnz => if r.vcc == 0 then a else b
                       case CdbgSys => if env.cdbgSys then b else a
                       case CdbgUser => if env.cdbgUser then b else a
                       case CdbgSysAndUser => if env.cdbgSys && env.cdbgUser then b else a
                       case CdbgSysOrUser => if env.cdbgSys || env.cdbgUser then b else a;
            Run(env, program, Wave(r, 0, false), n) == Completed(Wave(RunTree(env, r, ran), EndAt(a, b), false))
  {
    var taken := Taken(env, r, cond);
    ChoiceEnds(env, program, r, cond, a, b, n);
    hide Run;
    hide RunTree;
    hide InRange;
    hide Fits;
  }

  lemma {:induction false} ChoiceEnds(env: Env, program: Program, r: Regs, cond: Condition, a: Tree, b: Tree, n: nat)
    requires Fits(env, r) && InRange(a, r.sgprs, env.stride) && InRange(b, r.sgprs, env.stride)
    requires EndAt(a, b) < 0x8000_0000 && Parsed(Instructions(Choice(cond, a, b)), program)
    requires n >= |Choice(cond, a, b)| || !Run(env, program, Wave(r, 0, false), n).Running?
    ensures var ran := if Taken(env, r, cond) then b else a;
            Run(env, program, Wave(r, 0, false), n) == Completed(Wave(RunTree(env, r, ran), EndAt(a, b), false))
  {
    hide *;
    var code, w := Choice(cond, a, b), Wave(r, 0, false);
    AllAreInstructions(code);
    InRangeWidths(a, r.sgprs, env.stride);
    InRangeWidths(b, r.sgprs, env.stride);
    ChoiceIsWellFormed(cond, a, b);
    ChoiceIsLoaded(program, cond, a, b);
    if n >= |code| {
      KernelStart(code, w);
      ForwardRunEnds(env, code, program, w, n);
    }
    var m := PartFinishes(env, program, r, cond, a, b);
    EndsOnce(env, program, w, n, m);
  }

  lemma {:induction false} PartFinishes(env: Env, program: Program, r: Regs, cond: Condition, a: Tree, b: Tree)
    returns (m: nat)
    requires Fits(env, r) && InRange(a, r.sgprs, env.stride) && InRange(b, r.sgprs, env.stride)
    requires EndAt(a, b) < 0x8000_0000 && Holds(program, cond, a, b)
    ensures Run(env, program, Wave(r, 0, false), m)
            == Completed(Wave(RunTree(env, r, if Taken(env, r, cond) then b else a), EndAt(a, b), false))
  {
    assert EndAt(a, b) < SIZE_T_RANGE;
    hide *;
    var w, end := Wave(r, 0, false), EndAt(a, b);
    HoldsEnd(program, cond, a, b);
    if Taken(env, r, cond) {
      SecondPartRuns(env, program, r, cond, a, b);
      ReachesEnd(env, program, w, Wave(RunTree(env, r, b), end, false));
      m := FinishedAfter(env, program, w, Wave(RunTree(env, r, b), end, false));
    } else {
      FirstPartRuns(env, program, r, cond, a, b);
      ReachesEnd(env, program, w, Wave(RunTree(env, r, a), end, false));
      m := FinishedAfter(env, program, w, Wave(RunTree(env, r, a), end, false));
    }
  }

  lemma HoldsEnd(program: Program, cond: Condition, a: Tree, b: Tree)
    requires Holds(program, cond, a, b)
    ensures EndAt(a, b) in program && program[EndAt(a, b)].instr.Endpgm?
  {
  }

  lemma FinishedAfter(env: Env, program: Program, w: Wave, w': Wave) returns (m: nat)
    requires Finishes(env, program, w, w')
    ensures Run(env, program, w, m) == Completed(w')
  {
    m :| Run(env, program, w, m) == Completed(w');
  }

  /**
    The lanes see an ordinary if-else: each active one ends as if it had run the chosen part alone.
  */
  lemma {:induction false} ChoiceRunsLanesAlone(env: Env, program: Program, r: Regs, a: Tree, b: Tree, lane: nat, n: nat)
    requires Fits(env, r) && InRange(a, r.sgprs, env.stride) && InRange(b, r.sgprs, env.stride) && lane < env.size
    requires Nested(a) && Apart(a) && Nested(b) && Apart(b)
    requires EndAt(a, b) < 0x8000_0000 && Parsed(Instructions(Choice(Scc0, a, b)), program)
    requires n >= |Choice(Scc0, a, b)|
    ensures var o := Run(env, program, Wave(r, 0, false), n);
            && o.Completed? && Lockstepped(env, r.sgprs, r, o.wave.regs, if r.scc then a else b, lane)
  {
    ChoiceRunsOnePart(env, program, r, Scc0, a, b, n);
    hide *;
    LockstepIsPerLane(env, r.sgprs, r, if r.scc then a else b, lane);
  }
}
