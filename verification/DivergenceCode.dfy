/**
  Divergent blocks as kernel code: where the instructions of a tree sit, and that running them one
  by one in the fetch-execute loop does what the tree does.
*/
module DivergenceCode {
  import opened MachineWords
  import opened LaneMask
  import opened WavefrontState
  import opened KernelCode
  import opened WavefrontControl
  import opened Divergence

  // Bytes of code.
  function Size(t: Tree): nat {
    match t
    case End => 0
    case Op(_, width, rest) => width + Size(rest)
    case If(_, _, body, rest) => 12 + Size(body) + Size(rest)
  }

  // What stands before and after the body of a block.
  function Head(start: nat, save: nat, cond: Operand, end: nat): (code: seq<Line>)
    ensures |code| == 2 && code[0].Code? && code[1].Code?
  {
    [Code(start, AndSaveexecB64(SReg(save, 2), cond)), Code(start + 4, Branch(Execz, end))]
  }

  function Foot(end: nat, save: nat): (code: seq<Line>)
    ensures |code| == 1 && code[0].Code?
  {
    [Code(end, SMovB64(Exec, SReg(save, 2)))]
  }

  // The instructions of the tree, the first one at `start`.
  function Lines(t: Tree, start: nat): (code: seq<Line>)
    ensures forall i :: 0 <= i < |code| ==> code[i].Code?
  {
    match t
    case End => []
    case Op(v, width, rest) => [Code(start, VectorOp(v))] + Lines(rest, start + width)
    case If(save, cond, body, rest) =>
      var end := start + 8 + Size(body);
      Head(start, save, cond, end) + Lines(body, start + 8) + Foot(end, save) + Lines(rest, end + 4)
  }

  // A whole kernel: the tree and s_endpgm.
  function KernelOf(t: Tree): seq<Line> {
    Lines(t, 0) + [Code(Size(t), Endpgm)]
  }

  predicate At(program: Program, a: nat, instr: Instr, width: nat) {
    a in program && program[a] == Entry(instr, width)
  }

  // The program holds the tree's instructions from `start` on.
  predicate Loaded(program: Program, t: Tree, start: nat) {
    match t
    case End => true
    case Op(v, width, rest) => At(program, start, VectorOp(v), width) && Loaded(program, rest, start + width)
    case If(save, cond, body, rest) =>
      var end := start + 8 + Size(body);
      && At(program, start, AndSaveexecB64(SReg(save, 2), cond), 4)
      && At(program, start + 4, Branch(Execz, end), 4)
      && Loaded(program, body, start + 8)
      && At(program, end, SMovB64(Exec, SReg(save, 2)), 4)
      && Loaded(program, rest, end + 4)
  }

  lemma {:induction false} RunSplit(env: Env, program: Program, w: Wave, n: nat, m: nat)
    requires Run(env, program, w, n).Running?
    ensures Run(env, program, w, n + m) == Run(env, program, Run(env, program, w, n).wave, m)
    decreases n
  {
    hide Step;
    if n > 0 {
      RunSplit(env, program, Step(env, program, w).wave, n - 1, m);
    }
  }

  ghost predicate Reaches(env: Env, program: Program, w: Wave, w': Wave) {
    exists n: nat :: Run(env, program, w, n) == Running(w')
  }

  lemma {:induction false} ReachesThrough(env: Env, program: Program, a: Wave, b: Wave, c: Wave)
    requires Reaches(env, program, a, b) && Reaches(env, program, b, c)
    ensures Reaches(env, program, a, c)
  {
    hide Step;
    hide Run;
    var n: nat :| Run(env, program, a, n) == Running(b);
    var m: nat :| Run(env, program, b, m) == Running(c);
    RunSplit(env, program, a, n, m);
  }

  lemma ReachesInOne(env: Env, program: Program, a: Wave, b: Wave)
    requires Step(env, program, a) == Running(b)
    ensures Reaches(env, program, a, b)
  {
    hide Step;
    assert Run(env, program, b, 0) == Running(b);
    assert Run(env, program, a, 1) == Running(b);
  }

  lemma ReachesItself(env: Env, program: Program, a: Wave)
    ensures Reaches(env, program, a, a)
  {
    assert Run(env, program, a, 0) == Running(a);
  }

  // One instruction that is not a taken branch.
  lemma StepOn(env: Env, program: Program, r: Regs, a: nat, instr: Instr, width: nat)
    requires At(program, a, instr, width) && width in {4, 8} && a + width < SIZE_T_RANGE
    requires !instr.Endpgm? && Runnable(env, r, instr) && (instr.Branch? ==> !Taken(env, r, instr.cond))
    ensures Reaches(env, program, Wave(r, a, false), Wave(Execute(env, r, instr), a + width, false))
  {
    hide Runnable;
    hide Execute;
    hide Taken;
    hide Reaches;
    ReachesInOne(env, program, Wave(r, a, false), Wave(Execute(env, r, instr), a + width, false));
  }

  lemma StepJump(env: Env, program: Program, r: Regs, a: nat, cond: Condition, target: nat)
    requires At(program, a, Branch(cond, target), 4) && Taken(env, r, cond)
    ensures Reaches(env, program, Wave(r, a, false), Wave(r, target, false))
  {
    hide Taken;
    hide Reaches;
    ReachesInOne(env, program, Wave(r, a, false), Wave(r, target, false));
  }

  /**
    The fetch-execute loop runs through the code of a tree, wherever it is loaded, and does to the
    registers what the tree does.
  */
  lemma {:induction false} CodeRunsTree(env: Env, program: Program, r: Regs, t: Tree, start: nat)
    requires Fits(env, r) && InRange(t, r.sgprs, env.stride)
    requires Loaded(program, t, start) && start + Size(t) < SIZE_T_RANGE
    ensures Reaches(env, program, Wave(r, start, false), Wave(RunTree(env, r, t), start + Size(t), false))
    decreases t, 2
  {
    hide *;
    match t
    case End =>
      CodeRunsEnd(env, program, r, start);
    case Op(_, _, _) =>
      CodeRunsOp(env, program, r, t, start);
    case If(_, _, _, _) =>
      CodeRunsIf(env, program, r, t, start);
  }

  lemma CodeRunsEnd(env: Env, program: Program, r: Regs, start: nat)
    requires Fits(env, r) && InRange(End, r.sgprs, env.stride)
    ensures Reaches(env, program, Wave(r, start, false), Wave(RunTree(env, r, End), start + Size(End), false))
  {
    hide Reaches;
    ReachesItself(env, program, Wave(r, start, false));
  }

  lemma {:induction false} CodeRunsOp(env: Env, program: Program, r: Regs, t: Tree, start: nat)
    requires Fits(env, r) && InRange(t, r.sgprs, env.stride) && t.Op?
    requires Loaded(program, t, start) && start + Size(t) < SIZE_T_RANGE
    ensures Reaches(env, program, Wave(r, start, false), Wave(RunTree(env, r, t), start + Size(t), false))
    decreases t, 0
  {
    hide Reaches;
    hide Vector;
    hide VectorOk;
    hide LaneInstr;
    VectorFits(env, r, t.v);
    VectorShape(env, r, t.v);
    StepOn(env, program, r, start, VectorOp(t.v), t.width);
    var r1 := Vector(env.sem, r, env.stride, env.size, t.v);
    CodeRunsTree(env, program, r1, t.rest, start + t.width);
    ReachesThrough(env, program, Wave(r, start, false), Wave(r1, start + t.width, false),
                   Wave(RunTree(env, r, t), start + Size(t), false));
  }

  lemma {:induction false} CodeRunsIf(env: Env, program: Program, r: Regs, t: Tree, start: nat)
    requires Fits(env, r) && InRange(t, r.sgprs, env.stride) && t.If?
    requires Loaded(program, t, start) && start + Size(t) < SIZE_T_RANGE
    ensures Reaches(env, program, Wave(r, start, false), Wave(RunTree(env, r, t), start + Size(t), false))
    decreases t, 1
  {
    hide Reaches;
    hide RunBlock;
    var r3 := RunBlock(env, r, t);
    InRangeSize(t.rest, r.sgprs, r3.sgprs, env.stride);
    CodeRunsBlock(env, program, r, t, start);
    CodeRunsTree(env, program, r3, t.rest, start + 12 + Size(t.body));
    ReachesThrough(env, program, Wave(r, start, false), Wave(r3, start + 12 + Size(t.body), false),
                   Wave(RunTree(env, r, t), start + Size(t), false));
  }

  lemma {:induction false} CodeRunsBlock(env: Env, program: Program, r: Regs, t: Tree, start: nat)
    requires Fits(env, r) && InRange(t, r.sgprs, env.stride) && t.If?
    requires Loaded(program, t, start) && start + Size(t) < SIZE_T_RANGE
    ensures Reaches(env, program, Wave(r, start, false), Wave(RunBlock(env, r, t), start + 12 + Size(t.body), false))
    decreases t, 0
  {
    hide Reaches;
    hide AndSaveexec;
    hide MovB64;
    var end := start + 8 + Size(t.body);
    var r1 := Enter(r, t.save, t.cond);
    InRangeSize(t.body, r.sgprs, r1.sgprs, env.stride);
    var r2 := if r1.exec == 0 then r1 else RunTree(env, r1, t.body);
    var r3 := Leave(r2, t.save);
    StepOn(env, program, r, start, AndSaveexecB64(SReg(t.save, 2), t.cond), 4);
    if r1.exec == 0 {
      StepJump(env, program, r1, start + 4, Execz, end);
    } else {
      StepOn(env, program, r1, start + 4, Branch(Execz, end), 4);
      CodeRunsTree(env, program, r1, t.body, start + 8);
      ReachesThrough(env, program, Wave(r1, start + 4, false), Wave(r1, start + 8, false), Wave(r2, end, false));
    }
    StepOn(env, program, r2, end, SMovB64(Exec, SReg(t.save, 2)), 4);
    ReachesThrough(env, program, Wave(r, start, false), Wave(r1, start + 4, false), Wave(r2, end, false));
    ReachesThrough(env, program, Wave(r, start, false), Wave(r2, end, false), Wave(r3, end + 4, false));
  }

  // ---------------------------------------------------------------- the code of a tree is a well-formed kernel

  // Consecutive instructions from `start`, the last one ending at `end`.
  predicate Chain(code: seq<Line>, start: nat, end: nat) {
    if code == [] then start == end
    else
      && code[0].address == start
      && end - code[|code| - 1].address in {4, 8}
      && forall i :: 0 <= i < |code| - 1 ==> code[i + 1].address - code[i].address in {4, 8}
  }

  lemma {:induction false} ChainConcat(a: seq<Line>, b: seq<Line>, start: nat, middle: nat, end: nat)
    requires Chain(a, start, middle) && Chain(b, middle, end)
    ensures Chain(a + b, start, end)
  {
    var c := a + b;
    if a == [] {
      assert c == b;
    } else if b == [] {
      assert c == a;
    } else {
      forall i | 0 <= i < |c| - 1 ensures c[i + 1].address - c[i].address in {4, 8} {
        if i >= |a| {
          assert c[i] == b[i - |a|] && c[i + 1] == b[i - |a| + 1];
        }
      }
    }
  }

  predicate Widths(t: Tree) {
    match t
    case End => true
    case Op(_, width, rest) => width in {4, 8} && Widths(rest)
    case If(_, _, body, rest) => Widths(body) && Widths(rest)
  }

  lemma {:induction false} LinesChain(t: Tree, start: nat)
    requires Widths(t)
    ensures Chain(Lines(t, start), start, start + Size(t))
    decreases t
  {
    hide Chain;
    hide Head;
    hide Foot;
    match t
    case End =>
      NoneChain(start);
    case Op(v, width, rest) =>
      LinesChain(rest, start + width);
      OneChain(Code(start, VectorOp(v)), start, width);
      ChainConcat([Code(start, VectorOp(v))], Lines(rest, start + width), start, start + width, start + Size(t));
    case If(save, cond, body, rest) =>
      LinesChain(body, start + 8);
      LinesChain(rest, start + 12 + Size(body));
      BlockLinesChain(t, start);
  }

  lemma BlockLinesChain(t: Tree, start: nat)
    requires t.If? && Chain(Lines(t.body, start + 8), start + 8, start + 8 + Size(t.body))
    requires var rest := start + 12 + Size(t.body); Chain(Lines(t.rest, rest), rest, rest + Size(t.rest))
    ensures Chain(Lines(t, start), start, start + Size(t))
  {
    hide Chain;
    hide Head;
    hide Foot;
    var end := start + 8 + Size(t.body);
    HeadChain(start, t.save, t.cond, end);
    BlockChain(Head(start, t.save, t.cond, end), Lines(t.body, start + 8), Foot(end, t.save), Lines(t.rest, end + 4),
               start, end, start + Size(t));
  }

  lemma BlockChain(head: seq<Line>, body: seq<Line>, foot: seq<Line>, rest: seq<Line>, start: nat, end: nat, last: nat)
    requires Chain(head, start, start + 8) && Chain(body, start + 8, end)
    requires Chain(foot, end, end + 4) && Chain(rest, end + 4, last)
    ensures Chain(head + body + foot + rest, start, last)
  {
    hide Chain;
    ChainConcat(head, body, start, start + 8, end);
    ChainConcat(head + body, foot, start, end, end + 4);
    ChainConcat(head + body + foot, rest, start, end + 4, last);
  }

  lemma NoneChain(start: nat)
    ensures Chain([], start, start)
  {
  }

  lemma OneChain(line: Line, start: nat, width: nat)
    requires line.address == start && width in {4, 8}
    ensures Chain([line], start, start + width)
  {
  }

  lemma HeadChain(start: nat, save: nat, cond: Operand, end: nat)
    ensures Chain(Head(start, save, cond, end), start, start + 8) && Chain(Foot(end, save), end, end + 4)
  {
  }

  // A branch jumps forward to an instruction of the code.
  ghost predicate JumpsAhead(line: Line, code: seq<Line>) {
    line.Code? && line.instr.Branch? ==> line.instr.target > line.address && Mentions(code, line.instr.target)
  }

  lemma {:induction false} LinesJumpAhead(t: Tree, start: nat, code: seq<Line>, x: Line)
    requires forall y :: y in Lines(t, start) ==> y in code
    requires x in Lines(t, start)
    ensures JumpsAhead(x, code)
    decreases t
  {
    hide JumpsAhead;
    match t
    case Op(v, width, rest) =>
      if x in Lines(rest, start + width) {
        LinesJumpAhead(rest, start + width, code, x);
      } else {
        NoJump(x, code);
      }
    case If(save, cond, body, rest) =>
      hide Head;
      hide Foot;
      var end := start + 8 + Size(body);
      if x in Lines(body, start + 8) {
        LinesJumpAhead(body, start + 8, code, x);
      } else if x in Lines(rest, end + 4) {
        LinesJumpAhead(rest, end + 4, code, x);
      } else {
        assert Foot(end, save)[0] in code;
        HeadJumpsAhead(start, save, cond, end, code, x);
      }
  }

  lemma NoJump(x: Line, code: seq<Line>)
    requires x.Code? && !x.instr.Branch?
    ensures JumpsAhead(x, code)
  {
  }

  lemma HeadJumpsAhead(start: nat, save: nat, cond: Operand, end: nat, code: seq<Line>, x: Line)
    requires x in Head(start, save, cond, end) || x in Foot(end, save)
    requires Foot(end, save)[0] in code && end > start + 4
    ensures JumpsAhead(x, code)
  {
    var i :| 0 <= i < |code| && code[i] == Foot(end, save)[0];
    assert code[i].address == end;
  }

  /**
    The code of a tree followed by s_endpgm is a well-formed kernel whose branches all go forward.
  */
  lemma {:induction false} KernelIsWellFormed(t: Tree)
    requires Widths(t) && Size(t) < 0x8000_0000
    ensures WellFormed(KernelOf(t)) && Forward(KernelOf(t))
  {
    var code := KernelOf(t);
    var tail := [Code(Size(t), Endpgm)];
    LinesChain(t, 0);
    assert Chain(tail, Size(t), Size(t) + 4);
    ChainConcat(Lines(t, 0), tail, 0, Size(t), Size(t) + 4);
    forall i | 0 <= i < |code| && code[i].instr.Branch?
      ensures Mentions(code, code[i].instr.target) && code[i].instr.target > code[i].address
    {
      LinesJumpAhead(t, 0, code, code[i]);
    }
  }

  // The lines of the tree are those of the kernel from instruction i on, and something follows them.
  predicate Within(code: seq<Line>, t: Tree, start: nat, i: nat) {
    var n := |Lines(t, start)|;
    i + n < |code| && code[i..i + n] == Lines(t, start) && code[i + n].address == start + Size(t)
  }

  lemma {:induction false} WithinOp(code: seq<Line>, t: Tree, start: nat, i: nat)
    requires Within(code, t, start, i) && t.Op?
    ensures Within(code, t.rest, start + t.width, i + 1) && code[i] == Code(start, VectorOp(t.v))
  {
    var lines := Lines(t, start);
    var after := Lines(t.rest, start + t.width);
    assert lines[1..] == after;
    assert code[i + 1..i + 1 + |after|] == code[i..i + |lines|][1..];
    assert code[i] == code[i..i + |lines|][0];
  }

  lemma SliceOfSlice(code: seq<Line>, i: nat, n: nat, lo: nat, hi: nat)
    requires i + n <= |code| && lo <= hi <= n
    ensures code[i..i + n][lo..hi] == code[i + lo..i + hi]
    ensures lo < n ==> code[i..i + n][lo] == code[i + lo]
  {
    var a, b := code[i..i + n][lo..hi], code[i + lo..i + hi];
    assert |a| == hi - lo;
    forall j | 0 <= j < |a| ensures a[j] == b[j] {
      assert a[j] == code[i + (lo + j)];
    }
  }

  // The four parts of a block sit one after the other.
  lemma {:induction false} Quarters(code: seq<Line>, i: nat, a: seq<Line>, b: seq<Line>, c: seq<Line>, d: seq<Line>)
    requires |a| == 2 && |c| == 1 && i + |a + b + c + d| <= |code| && code[i..i + |a + b + c + d|] == a + b + c + d
    ensures var k := i + 2 + |b|;
            && code[i..i + 2] == a && code[i + 2..k] == b && code[k] == c[0]
            && code[k + 1..k + 1 + |d|] == d
  {
    var s := a + b + c + d;
    var k := 2 + |b|;
    assert s[0..2] == a && s[2..k] == b && s[k] == c[0] && s[k + 1..|s|] == d;
    SliceOfSlice(code, i, |s|, 0, 2);
    SliceOfSlice(code, i, |s|, 2, k);
    SliceOfSlice(code, i, |s|, k + 1, |s|);
    SliceOfSlice(code, i, |s|, k, k);
  }

  lemma BlockLines(t: Tree, start: nat)
    requires t.If?
    ensures var end := start + 8 + Size(t.body);
            && Lines(t, start) == Head(start, t.save, t.cond, end) + Lines(t.body, start + 8) + Foot(end, t.save)
                                  + Lines(t.rest, end + 4)
            && |Head(start, t.save, t.cond, end)| == 2 && |Foot(end, t.save)| == 1
            && Foot(end, t.save)[0].address == end
            && Size(t) == 12 + Size(t.body) + Size(t.rest)
  {
  }

  lemma {:induction false} WithinIf(code: seq<Line>, t: Tree, start: nat, i: nat)
    requires Within(code, t, start, i) && t.If?
    ensures var end := start + 8 + Size(t.body);
            var k := i + 2 + |Lines(t.body, start + 8)|;
            && i + 2 <= k && k + 1 < |code|
            && code[i..i + 2] == Head(start, t.save, t.cond, end) && code[k] == Foot(end, t.save)[0]
            && Within(code, t.body, start + 8, i + 2) && Within(code, t.rest, end + 4, k + 1)
  {
    hide Lines;
    hide Head;
    hide Foot;
    hide Size;
    var end := start + 8 + Size(t.body);
    BlockLines(t, start);
    Quarters(code, i, Head(start, t.save, t.cond, end), Lines(t.body, start + 8), Foot(end, t.save),
             Lines(t.rest, end + 4));
  }

  // The parsed kernel holds the tree, each instruction as wide as the tree says.
  lemma {:induction false} ParsedIsLoaded(code: seq<Line>, program: Program, t: Tree, start: nat, i: nat)
    requires WellFormed(code) && Parsed(code, program) && Within(code, t, start, i)
    ensures Loaded(program, t, start) && code[i].address == start
    decreases t
  {
    hide *;
    match t
    case End =>
      LoadedEnd(code, program, start, i);
    case Op(v, width, rest) =>
      WithinOp(code, t, start, i);
      ParsedIsLoaded(code, program, rest, start + width, i + 1);
      LoadedOp(code, program, t, start, i);
    case If(save, cond, body, rest) =>
      WithinIf(code, t, start, i);
      ParsedIsLoaded(code, program, rest, start + 12 + Size(body), i + 3 + |Lines(body, start + 8)|);
      ParsedIsLoaded(code, program, body, start + 8, i + 2);
      LoadedIf(code, program, t, start, i);
  }

  lemma LoadedEnd(code: seq<Line>, program: Program, start: nat, i: nat)
    requires Within(code, End, start, i)
    ensures Loaded(program, End, start) && i < |code| && code[i].address == start
  {
  }

  lemma LoadedOp(code: seq<Line>, program: Program, t: Tree, start: nat, i: nat)
    requires WellFormed(code) && Parsed(code, program) && t.Op?
    requires i + 1 < |code| && code[i] == Code(start, VectorOp(t.v)) && code[i + 1].address == start + t.width
    requires Loaded(program, t.rest, start + t.width)
    ensures Loaded(program, t, start)
  {
    hide WellFormed;
    hide Parsed;
    EntryAt(code, program, i);
  }

  lemma LoadedIf(code: seq<Line>, program: Program, t: Tree, start: nat, i: nat)
    requires WellFormed(code) && Parsed(code, program) && t.If?
    requires var end := start + 8 + Size(t.body);
             var k := i + 2 + |Lines(t.body, start + 8)|;
             && i + 2 <= k && k + 1 < |code|
             && code[i..i + 2] == Head(start, t.save, t.cond, end) && code[k] == Foot(end, t.save)[0]
             && code[i + 2].address == start + 8 && code[k + 1].address == end + 4
             && Loaded(program, t.body, start + 8) && Loaded(program, t.rest, end + 4)
    ensures Loaded(program, t, start) && code[i].address == start
  {
    hide WellFormed;
    hide Parsed;
    var head := code[i..i + 2];
    assert code[i] == head[0] && code[i + 1] == head[1];
    EntryAt(code, program, i);
    EntryAt(code, program, i + 1);
    EntryAt(code, program, i + 2 + |Lines(t.body, start + 8)|);
  }

  lemma {:induction false} InRangeWidths(t: Tree, sgprs: seq<bv32>, stride: nat)
    requires InRange(t, sgprs, stride)
    ensures Widths(t)
  {
    match t
    case End =>
    case Op(_, _, rest) =>
      InRangeWidths(rest, sgprs, stride);
    case If(_, _, body, rest) =>
      InRangeWidths(body, sgprs, stride);
      InRangeWidths(rest, sgprs, stride);
  }

  ghost predicate Finishes(env: Env, program: Program, w: Wave, w': Wave) {
    exists n: nat :: Run(env, program, w, n) == Completed(w')
  }

  lemma {:induction false} KernelFinishes(env: Env, t: Tree, program: Program, r: Regs)
    requires Fits(env, r) && InRange(t, r.sgprs, env.stride)
    requires Size(t) < 0x8000_0000 && Parsed(KernelOf(t), program)
    ensures Finishes(env, program, Wave(r, 0, false), Wave(RunTree(env, r, t), Size(t), false))
  {
    hide Parsed;
    hide WellFormed;
    hide InRange;
    hide RunTree;
    hide Loaded;
    hide Fits;
    var code := KernelOf(t);
    InRangeWidths(t, r.sgprs, env.stride);
    KernelIsWellFormed(t);
    ParsedIsLoaded(code, program, t, 0, 0);
    CodeRunsTree(env, program, r, t, 0);
    EntryAt(code, program, |code| - 1);
    ReachesEnd(env, program, Wave(r, 0, false), Wave(RunTree(env, r, t), Size(t), false));
  }

  lemma ReachesEnd(env: Env, program: Program, w: Wave, w': Wave)
    requires Reaches(env, program, w, w') && w'.pc in program && program[w'.pc].instr.Endpgm?
    ensures Finishes(env, program, w, w')
  {
    hide Runnable;
    var n: nat :| Run(env, program, w, n) == Running(w');
    RunSplit(env, program, w, n, 1);
    assert Run(env, program, w, n + 1) == Completed(w');
  }

  lemma {:induction false} EndsOnce(env: Env, program: Program, w: Wave, n: nat, m: nat)
    requires !Run(env, program, w, n).Running? && !Run(env, program, w, m).Running?
    ensures Run(env, program, w, n) == Run(env, program, w, m)
    decreases n
  {
    hide Step;
    var o := Step(env, program, w);
    if o.Running? {
      EndsOnce(env, program, o.wave, n - 1, m - 1);
    }
  }

  /**
    A kernel made of divergent blocks, as the parser leaves it, run from its first instruction on a
    wavefront with any EXEC mask, ends at s_endpgm, within as many turns of the loop as it has instructions, with
    EXEC as it started and every lane as if it had run alone.
  */
  lemma {:induction false} KernelRunsLanesAlone(env: Env, t: Tree, program: Program, r: Regs, lane: nat, n: nat)
    requires Fits(env, r) && lane < env.size && InRange(t, r.sgprs, env.stride) && Nested(t) && Apart(t)
    requires Size(t) < 0x8000_0000 && Parsed(Instructions(KernelOf(t)), program)
    requires n >= |KernelOf(t)| || !Run(env, program, Wave(r, 0, false), n).Running?
    ensures var o := Run(env, program, Wave(r, 0, false), n);
            && o.Completed? && o.wave.pc == Size(t) && !o.wave.used
            && Lockstepped(env, r.sgprs, r, o.wave.regs, t, lane)
  {
    hide Parsed;
    hide Lockstepped;
    hide WellFormed;
    hide Forward;
    hide Run;
    hide InRange;
    hide Instructions;
    var code, w := KernelOf(t), Wave(r, 0, false);
    AllAreInstructions(code);
    KernelFinishes(env, t, program, r);
    InRangeWidths(t, r.sgprs, env.stride);
    KernelIsWellFormed(t);
    if n >= |code| {
      KernelStart(code, w);
      ForwardRunEnds(env, code, program, w, n);
    }
    var m: nat :| Run(env, program, w, m) == Completed(Wave(RunTree(env, r, t), Size(t), false));
    EndsOnce(env, program, w, n, m);
    LockstepIsPerLane(env, r.sgprs, r, t, lane);
  }

  lemma KernelStart(code: seq<Line>, w: Wave)
    requires WellFormed(code) && w.pc == 0 && !w.used
    ensures AtHead(code, w)
  {
    assert code[0].address == 0;
  }
}
