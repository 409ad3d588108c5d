/**
  Multi-word addition and subtraction on scalar registers: s_add_u32 followed by s_addc_u32, and
  s_sub_u32 followed by s_subb_u32, in the 64-bit arithmetic the instructions are computed with.
*/
module CarryChain {
  import opened MachineWords

  const WORD: nat := 0x1_0000_0000

  type Word = w: nat | w < WORD

  datatype Key = SAddU32 | SAddcU32 | SSubU32 | SSubbU32

  // A source is a register or a constant.
  datatype Source = Reg(ind: nat) | Const(value: Word)

  datatype Sop2 = Sop2(key: Key, dst: nat, src0: Source, src1: Source)

  datatype State = State(regs: seq<Word>, scc: bool)

  // The 64-bit result of the operation, before it is cut down to the destination register.
  function Compute(key: Key, a: Word, b: Word, scc: bool): nat {
    var c := if scc then 1 else 0;
    match key
    case SAddU32 => a + b
    case SAddcU32 => a + b + c
    case SSubU32 => (a - b) % SIZE_T_RANGE
    case SSubbU32 => (a - b - c) % SIZE_T_RANGE
  }

  // The new SCC: something above the low word, or for s_subb the lowest bit above it.
  function Carry(key: Key, temp: nat): bool {
    if key == SSubbU32 then temp / WORD % 2 == 1 else temp / WORD != 0
  }

  predicate Readable(src: Source, regs: nat) {
    src.Reg? ==> src.ind < regs
  }

  predicate InFile(i: Sop2, regs: nat) {
    i.dst < regs && Readable(i.src0, regs) && Readable(i.src1, regs)
  }

  function ValueOf(src: Source, regs: seq<Word>): Word
    requires Readable(src, |regs|)
  {
    if src.Reg? then regs[src.ind] else src.value
  }

  function Exec(s: State, i: Sop2): (s': State)
    requires InFile(i, |s.regs|)
    ensures |s'.regs| == |s.regs|
  {
    var temp := Compute(i.key, ValueOf(i.src0, s.regs), ValueOf(i.src1, s.regs), s.scc);
    State(s.regs[i.dst := temp % WORD], Carry(i.key, temp))
  }

  function ExecAll(s: State, program: seq<Sop2>): (s': State)
    requires forall i :: i in program ==> InFile(i, |s.regs|)
    ensures |s'.regs| == |s.regs|
  {
    if program == [] then s
    else Exec(ExecAll(s, program[..|program| - 1]), program[|program| - 1])
  }

  class ScalarUnit {
    const regs: array<Word>
    var scc: bool

    constructor (regs: array<Word>)
      ensures this.regs == regs && !scc
    {
      this.regs, scc := regs, false;
    }

    ghost function Now(): State
      reads this, regs
    {
      State(regs[..], scc)
    }

    method ReadSource(src: Source) returns (value: Word)
      requires Readable(src, regs.Length)
      ensures value == ValueOf(src, regs[..])
      ensures value == match src case Reg(ind) => regs[ind] case Const(v) => v
    {
      match src
      case Reg(ind) => value := regs[ind];
      case Const(v) => value := v;
    }

    // run_sop2: read both sources, compute, then write SCC and the destination.
    method Run(i: Sop2)
      requires InFile(i, regs.Length)
      modifies this, regs
      ensures Now() == Exec(old(Now()), i)
    {
      var ssrc0 := ReadSource(i.src0);
      var ssrc1 := ReadSource(i.src1);
      var temp;
      match i.key {
        case SAddU32 => temp := ssrc0 + ssrc1;
        case SAddcU32 => temp := ssrc0 + ssrc1 + if scc then 1 else 0;
        case SSubU32 => temp := (ssrc0 - ssrc1) % SIZE_T_RANGE;
        case SSubbU32 => temp := (ssrc0 - ssrc1 - if scc then 1 else 0) % SIZE_T_RANGE;
      }
      scc := Carry(i.key, temp);
      regs[i.dst] := temp % WORD;
    }

    method RunAll(program: seq<Sop2>)
      requires forall i :: i in program ==> InFile(i, regs.Length)
      modifies this, regs
      ensures Now() == ExecAll(old(Now()), program)
    {
      for k := 0 to |program|
        invariant Now() == ExecAll(old(Now()), program[..k])
      {
        assert program[..k + 1][..k] == program[..k];
        Run(program[k]);
      }
      assert program[..|program|] == program;
    }
  }

  // ---------------------------------------------------------------- numbers in registers

  function Pow(n: nat): (p: nat)
    ensures p > 0
  {
    if n == 0 then 1 else WORD * Pow(n - 1)
  }

  // The number in n registers from `first` on, least significant first.
  function Number(regs: seq<Word>, first: nat, n: nat): nat
    requires first + n <= |regs|
  {
    if n == 0 then 0 else Number(regs, first, n - 1) + Scale(regs[first + n - 1], n - 1)
  }

  function Scale(w: nat, n: nat): nat {
    w * Pow(n)
  }

  lemma {:induction false} NumberBound(regs: seq<Word>, first: nat, n: nat)
    requires first + n <= |regs|
    ensures Number(regs, first, n) < Pow(n)
  {
    if n > 0 {
      NumberBound(regs, first, n - 1);
      var w: nat := regs[first + n - 1];
      ScaleMono(w + 1, WORD, n - 1);
      ScaleNext(w, 1, n - 1);
      ScaleWord(1, n - 1);
    }
  }

  lemma ScaleMono(a: nat, b: nat, n: nat)
    requires a <= b
    ensures Scale(a, n) <= Scale(b, n)
  {
    var p := Pow(n);
    assert (b - a) * p >= 0;
    assert b * p == a * p + (b - a) * p;
  }

  lemma ScaleNext(a: nat, b: nat, n: nat)
    ensures Scale(a + b, n) == Scale(a, n) + Scale(b, n)
  {
    var p := Pow(n);
    assert (a + b) * p == a * p + b * p;
  }

  lemma ScaleWord(a: nat, n: nat)
    ensures Scale(WORD * a, n) == Scale(a, n + 1) && Scale(1, n) == Pow(n) && Scale(0, n) == 0
  {
    var p := Pow(n);
    assert WORD * a * p == a * (WORD * p);
  }

  lemma {:induction false} NumberSame(a: seq<Word>, b: seq<Word>, first: nat, n: nat)
    requires |a| == |b| && first + n <= |a|
    requires forall i :: first <= i < first + n ==> a[i] == b[i]
    ensures Number(a, first, n) == Number(b, first, n)
  {
    if n > 0 {
      NumberSame(a, b, first, n - 1);
    }
  }

  // ---------------------------------------------------------------- the chains

  // The number some sources hold, least significant word first.
  function Held(regs: seq<Word>, src: seq<Source>): nat
    requires AllReadable(src, |regs|)
  {
    if src == [] then 0
    else
      var n := |src| - 1;
      Held(regs, src[..n]) + Scale(ValueOf(src[n], regs), n)
  }

  predicate AllReadable(src: seq<Source>, regs: nat) {
    forall k :: 0 <= k < |src| ==> Readable(src[k], regs)
  }

  // n registers from `first` on, and a number as n constants.
  function Registers(first: nat, n: nat): (src: seq<Source>)
    ensures |src| == n
  {
    seq(n, k requires 0 <= k < n => Reg(first + k))
  }

  function Constants(number: nat, n: nat): (src: seq<Source>)
    ensures |src| == n && forall k :: 0 <= k < n ==> src[k].Const?
  {
    if n == 0 then [] else Constants(number % Pow(n - 1), n - 1) + [Const(number / Pow(n - 1) % WORD)]
  }

  function AddChain(d: nat, a: seq<Source>, b: seq<Source>): seq<Sop2>
    requires |a| == |b|
  {
    Chain(SAddU32, SAddcU32, d, a, b, |a|)
  }

  function SubChain(d: nat, a: seq<Source>, b: seq<Source>): seq<Sop2>
    requires |a| == |b|
  {
    Chain(SSubU32, SSubbU32, d, a, b, |a|)
  }

  // The first n instructions: one for the lowest words, and for each following pair one with the carry.
  function Chain(first: Key, next: Key, d: nat, a: seq<Source>, b: seq<Source>, n: nat): (program: seq<Sop2>)
    requires n <= |a| == |b|
    ensures |program| == n
    ensures forall i :: i in program ==> i.dst < d + n && i.src0 in a && i.src1 in b
  {
    if n == 0 then [] else Chain(first, next, d, a, b, n - 1) + [Last(first, next, d, a, b, n)]
  }

  function Last(first: Key, next: Key, d: nat, a: seq<Source>, b: seq<Source>, n: nat): Sop2
    requires 0 < n <= |a| == |b|
  {
    Sop2(if n == 1 then first else next, d + n - 1, a[n - 1], b[n - 1])
  }

  // No source register has been overwritten by the time it is read.
  predicate ReadFirst(d: nat, src: seq<Source>) {
    forall k :: 0 <= k < |src| && src[k].Reg? ==> !(d <= src[k].ind < d + k)
  }

  // Registers with the destination itself, above it or apart from it are read in time; constants always are.
  lemma ReadInTime(d: nat, src: nat, n: nat)
    requires d <= src || src + n <= d
    ensures ReadFirst(d, Registers(src, n))
  {
  }

  // The number in n registers is what they hold as sources.
  lemma {:induction false} HeldInRegisters(regs: seq<Word>, first: nat, n: nat)
    requires first + n <= |regs|
    ensures AllReadable(Registers(first, n), |regs|)
    ensures Held(regs, Registers(first, n)) == Number(regs, first, n)
  {
    if n > 0 {
      hide Scale;
      HeldInRegisters(regs, first, n - 1);
      assert Registers(first, n)[..n - 1] == Registers(first, n - 1);
    }
  }

  // A number of up to n words is what its constants hold.
  lemma {:induction false} HeldInConstants(regs: seq<Word>, number: nat, n: nat)
    requires number < Pow(n)
    ensures AllReadable(Constants(number, n), |regs|) && Held(regs, Constants(number, n)) == number
  {
    if n > 0 {
      var p := Pow(n - 1);
      var rest, top := number % p, number / p;
      TopWord(number, p);
      var c := Constants(number, n);
      assert c[..n - 1] == Constants(rest, n - 1) && c[n - 1] == Const(top);
      HeldInConstants(regs, rest, n - 1);
      ScaleIs(top, n - 1);
      hide Scale;
      hide Constants;
      assert Held(regs, c) == Held(regs, c[..n - 1]) + Scale(top, n - 1);
    }
  }

  lemma ScaleIs(w: nat, n: nat)
    ensures Scale(w, n) == w * Pow(n)
  {
  }

  lemma TopWord(number: nat, p: nat)
    requires p > 0 && number < WORD * p
    ensures number / p < WORD && number / p % WORD == number / p && number == number % p + number / p * p
    ensures number % p < p
  {
    var q := number / p;
    assert number == q * p + number % p;
    if q >= WORD {
      MulMono(WORD, q, p);
    }
  }

  // One limb of an addition, with the carry in and out.
  lemma {:induction false} AddLimb(x: Word, y: Word, c: nat, n: nat)
    requires c <= 1
    ensures var temp := x + y + c;
            && Scale(temp % WORD, n) + Scale(temp / WORD, n + 1) == Scale(x, n) + Scale(y, n) + Scale(c, n)
            && temp / WORD <= 1
  {
    var temp := x + y + c;
    assert temp == WORD * (temp / WORD) + temp % WORD;
    ScaleNext(WORD * (temp / WORD), temp % WORD, n);
    ScaleWord(temp / WORD, n);
    ScaleNext(x + y, c, n);
    ScaleNext(x, y, n);
  }

  // Registers outside the destination have not changed.
  ghost predicate Kept(s: State, s': State, d: nat, n: nat) {
    |s'.regs| == |s.regs| && forall i :: 0 <= i < |s.regs| && !(d <= i < d + n) ==> s'.regs[i] == s.regs[i]
  }

  function Bit(b: bool): nat {
    if b then 1 else 0
  }

  // The first instruction of a chain takes no carry in.
  function CarryIn(s: State, n: nat): bool {
    n > 1 && s.scc
  }

  lemma CarryInIs(s: State, n: nat)
    requires n > 0
    ensures Scale(Bit(CarryIn(s, n)), n - 1) == if n == 1 then 0 else Scale(Bit(s.scc), n - 1)
  {
    if n == 1 {
      ScaleWord(0, 0);
    }
    hide Scale;
  }

  // A chain over sources that are all in the register file, read in time.
  ghost predicate Sound(s: State, d: nat, src: seq<Source>) {
    d + |src| <= |s.regs| && AllReadable(src, |s.regs|) && ReadFirst(d, src)
  }

  lemma ChainInFile(s: State, first: Key, next: Key, d: nat, a: seq<Source>, b: seq<Source>, n: nat)
    requires n <= |a| == |b| && Sound(s, d, a) && Sound(s, d, b)
    ensures forall i :: i in Chain(first, next, d, a, b, n) ==> InFile(i, |s.regs|)
  {
    hide Chain;
  }

  lemma {:induction false} ChainLast(s: State, first: Key, next: Key, d: nat, a: seq<Source>, b: seq<Source>, n: nat)
    requires 0 < n <= |a| == |b| && Sound(s, d, a) && Sound(s, d, b)
    ensures forall i :: i in Chain(first, next, d, a, b, n) ==> InFile(i, |s.regs|)
    ensures forall i :: i in Chain(first, next, d, a, b, n - 1) ==> InFile(i, |s.regs|)
    ensures InFile(Last(first, next, d, a, b, n), |s.regs|)
    ensures ExecAll(s, Chain(first, next, d, a, b, n))
            == Exec(ExecAll(s, Chain(first, next, d, a, b, n - 1)), Last(first, next, d, a, b, n))
    ensures ExecAll(s, []) == s && Chain(first, next, d, a, b, 0) == []
  {
    hide Exec;
    ChainInFile(s, first, next, d, a, b, n);
    ChainInFile(s, first, next, d, a, b, n - 1);
    assert Chain(first, next, d, a, b, n)[..n - 1] == Chain(first, next, d, a, b, n - 1);
    assert Chain(first, next, d, a, b, n)[n - 1] == Last(first, next, d, a, b, n);
  }

  // The last instruction of a chain reads what the sources held at the start.
  lemma LastReads(s: State, before: State, d: nat, src: seq<Source>, n: nat)
    requires 0 < n <= |src| && Sound(s, d, src) && Kept(s, before, d, n - 1)
    ensures Readable(src[n - 1], |s.regs|) && ValueOf(src[n - 1], before.regs) == ValueOf(src[n - 1], s.regs)
  {
  }

  lemma {:induction false} LastKeeps(s: State, before: State, d: nat, n: nat, i: Sop2)
    requires n > 0 && d + n <= |s.regs| && Kept(s, before, d, n - 1) && InFile(i, |s.regs|) && i.dst == d + n - 1
    ensures Kept(s, Exec(before, i), d, n)
    ensures Number(Exec(before, i).regs, d, n)
            == Number(before.regs, d, n - 1) + Scale(Exec(before, i).regs[d + n - 1], n - 1)
  {
    hide Compute;
    hide Scale;
    NumberSame(before.regs, Exec(before, i).regs, d, n - 1);
  }

  lemma HeldNext(regs: seq<Word>, src: seq<Source>, n: nat)
    requires 0 < n <= |src| && AllReadable(src, |regs|)
    ensures AllReadable(src[..n], |regs|) && AllReadable(src[..n - 1], |regs|)
    ensures Held(regs, src[..n]) == Held(regs, src[..n - 1]) + Scale(ValueOf(src[n - 1], regs), n - 1)
  {
    assert src[..n][..n - 1] == src[..n - 1];
  }

  lemma NothingYet(s: State, d: nat, src: seq<Source>)
    requires d <= |s.regs|
    ensures Kept(s, s, d, 0) && Held(s.regs, src[..0]) == 0 && Number(s.regs, d, 0) == 0
  {
  }

  // The last instruction of an addition takes one more word of each source, and the carry.
  lemma {:induction false} AddStep(s: State, before: State, d: nat, a: seq<Source>, b: seq<Source>, n: nat)
    requires 0 < n <= |a| == |b| && Sound(s, d, a) && Sound(s, d, b) && Kept(s, before, d, n - 1)
    ensures InFile(Last(SAddU32, SAddcU32, d, a, b, n), |before.regs|)
    ensures Readable(a[n - 1], |s.regs|) && Readable(b[n - 1], |s.regs|)
    ensures var s' := Exec(before, Last(SAddU32, SAddcU32, d, a, b, n));
            var x, y := Scale(ValueOf(a[n - 1], s.regs), n - 1), Scale(ValueOf(b[n - 1], s.regs), n - 1);
            && d + n <= |s.regs| && Kept(s, s', d, n)
            && Number(s'.regs, d, n) + Scale(Bit(s'.scc), n)
               == Number(before.regs, d, n - 1) + Scale(Bit(CarryIn(before, n)), n - 1) + x + y
  {
    LastReads(s, before, d, a, n);
    LastReads(s, before, d, b, n);
    LastKeeps(s, before, d, n, Last(SAddU32, SAddcU32, d, a, b, n));
    hide Scale;
    hide Number;
    hide Kept;
    hide ReadFirst;
    hide ValueOf;
    AddLimb(ValueOf(a[n - 1], s.regs), ValueOf(b[n - 1], s.regs), Bit(CarryIn(before, n)), n - 1);
    ScaleWord(1, n - 1);
    ScaleWord(1, n);
  }

  // The first n instructions of an addition.
  lemma {:induction false} AddPrefix(s: State, d: nat, a: seq<Source>, b: seq<Source>, n: nat)
    requires 0 < n <= |a| == |b| && Sound(s, d, a) && Sound(s, d, b)
    ensures forall i :: i in Chain(SAddU32, SAddcU32, d, a, b, n) ==> InFile(i, |s.regs|)
    ensures AllReadable(a[..n], |s.regs|) && AllReadable(b[..n], |s.regs|)
    ensures var s' := ExecAll(s, Chain(SAddU32, SAddcU32, d, a, b, n));
            && Number(s'.regs, d, n) + Scale(Bit(s'.scc), n) == Held(s.regs, a[..n]) + Held(s.regs, b[..n])
            && Kept(s, s', d, n)
    decreases n
  {
    hide *;
    ChainLast(s, SAddU32, SAddcU32, d, a, b, n);
    var before := ExecAll(s, Chain(SAddU32, SAddcU32, d, a, b, n - 1));
    SoundReadable(s, d, a);
    SoundReadable(s, d, b);
    HeldNext(s.regs, a, n);
    HeldNext(s.regs, b, n);
    if n == 1 {
      NothingYet(s, d, a);
      NothingYet(s, d, b);
    } else {
      AddPrefix(s, d, a, b, n - 1);
    }
    CarryInIs(before, n);
    AddStep(s, before, d, a, b, n);
  }

  /**
    The additions leave the low words of the exact sum in the destination and the carry in SCC, for any
    number of limbs, registers and constants mixed, and change no other register.
  */
  lemma {:induction false} AddChainAdds(s: State, d: nat, a: seq<Source>, b: seq<Source>)
    requires 0 < |a| == |b| && Sound(s, d, a) && Sound(s, d, b)
    ensures forall i :: i in AddChain(d, a, b) ==> InFile(i, |s.regs|)
    ensures var s', n := ExecAll(s, AddChain(d, a, b)), |a|;
            && Number(s'.regs, d, n) + Scale(Bit(s'.scc), n) == Held(s.regs, a) + Held(s.regs, b)
            && Kept(s, s', d, n)
  {
    hide *;
    AddPrefix(s, d, a, b, |a|);
    assert a[..|a|] == a && b[..|a|] == b;
    ChainIs(d, a, b);
    SoundReadable(s, d, a);
    SoundReadable(s, d, b);
  }

  lemma ChainIs(d: nat, a: seq<Source>, b: seq<Source>)
    requires |a| == |b|
    ensures AddChain(d, a, b) == Chain(SAddU32, SAddcU32, d, a, b, |a|)
    ensures SubChain(d, a, b) == Chain(SSubU32, SSubbU32, d, a, b, |a|)
  {
  }

  lemma SoundReadable(s: State, d: nat, src: seq<Source>)
    requires Sound(s, d, src)
    ensures AllReadable(src, |s.regs|) && d + |src| <= |s.regs|
  {
  }

  // One limb of a subtraction, with the borrow in and out.
  lemma {:induction false} SubLimb(x: Word, y: Word, c: nat, n: nat)
    requires c <= 1
    ensures var temp := (x - y - c) % SIZE_T_RANGE;
            var borrow := if x < y + c then 1 else 0;
            && Scale(temp % WORD, n) + Scale(y, n) + Scale(c, n) == Scale(x, n) + Scale(borrow, n + 1)
            && (temp / WORD != 0 <==> borrow == 1) && (temp / WORD % 2 == 1 <==> borrow == 1)
  {
    var temp := (x - y - c) % SIZE_T_RANGE;
    var borrow := if x < y + c then 1 else 0;
    Borrowed(x, y, c);
    ScaleNext(temp % WORD + y, c, n);
    ScaleNext(temp % WORD, y, n);
    ScaleNext(x, WORD * borrow, n);
    ScaleWord(borrow, n);
  }

  lemma Borrowed(x: Word, y: Word, c: nat)
    requires c <= 1
    ensures var temp := (x - y - c) % SIZE_T_RANGE;
            && temp % WORD == x - y - c + (if x < y + c then WORD else 0)
            && temp / WORD == if x < y + c then WORD - 1 else 0
  {
  }

  // The last instruction of a subtraction takes one more word of each source, and the borrow.
  lemma {:induction false} SubStep(s: State, before: State, d: nat, a: seq<Source>, b: seq<Source>, n: nat)
    requires 0 < n <= |a| == |b| && Sound(s, d, a) && Sound(s, d, b) && Kept(s, before, d, n - 1)
    ensures InFile(Last(SSubU32, SSubbU32, d, a, b, n), |before.regs|)
    ensures Readable(a[n - 1], |s.regs|) && Readable(b[n - 1], |s.regs|)
    ensures var s' := Exec(before, Last(SSubU32, SSubbU32, d, a, b, n));
            var x, y := Scale(ValueOf(a[n - 1], s.regs), n - 1), Scale(ValueOf(b[n - 1], s.regs), n - 1);
            && d + n <= |s.regs| && Kept(s, s', d, n)
            && Number(s'.regs, d, n) + y + Scale(Bit(CarryIn(before, n)), n - 1)
               == Number(before.regs, d, n - 1) + x + Scale(Bit(s'.scc), n)
  {
    LastReads(s, before, d, a, n);
    LastReads(s, before, d, b, n);
    LastKeeps(s, before, d, n, Last(SSubU32, SSubbU32, d, a, b, n));
    hide Scale;
    hide Number;
    hide Kept;
    hide ReadFirst;
    hide ValueOf;
    SubLimb(ValueOf(a[n - 1], s.regs), ValueOf(b[n - 1], s.regs), Bit(CarryIn(before, n)), n - 1);
    ScaleWord(1, n - 1);
    ScaleWord(1, n);
  }

  // The first n instructions of a subtraction.
  lemma {:induction false} SubPrefix(s: State, d: nat, a: seq<Source>, b: seq<Source>, n: nat)
    requires 0 < n <= |a| == |b| && Sound(s, d, a) && Sound(s, d, b)
    ensures forall i :: i in Chain(SSubU32, SSubbU32, d, a, b, n) ==> InFile(i, |s.regs|)
    ensures AllReadable(a[..n], |s.regs|) && AllReadable(b[..n], |s.regs|)
    ensures var s' := ExecAll(s, Chain(SSubU32, SSubbU32, d, a, b, n));
            && Number(s'.regs, d, n) + Held(s.regs, b[..n]) == Held(s.regs, a[..n]) + Scale(Bit(s'.scc), n)
            && Kept(s, s', d, n)
    decreases n
  {
    hide *;
    ChainLast(s, SSubU32, SSubbU32, d, a, b, n);
    var before := ExecAll(s, Chain(SSubU32, SSubbU32, d, a, b, n - 1));
    SoundReadable(s, d, a);
    SoundReadable(s, d, b);
    HeldNext(s.regs, a, n);
    HeldNext(s.regs, b, n);
    if n == 1 {
      NothingYet(s, d, a);
      NothingYet(s, d, b);
    } else {
      SubPrefix(s, d, a, b, n - 1);
    }
    CarryInIs(before, n);
    SubStep(s, before, d, a, b, n);
  }

  /**
    The subtractions leave the difference in the destination and the borrow in SCC.
  */
  lemma {:induction false} SubChainSubtracts(s: State, d: nat, a: seq<Source>, b: seq<Source>)
    requires 0 < |a| == |b| && Sound(s, d, a) && Sound(s, d, b)
    ensures forall i :: i in SubChain(d, a, b) ==> InFile(i, |s.regs|)
    ensures var s', n := ExecAll(s, SubChain(d, a, b)), |a|;
            && Number(s'.regs, d, n) + Held(s.regs, b) == Held(s.regs, a) + Scale(Bit(s'.scc), n)
            && Kept(s, s', d, n)
  {
    hide *;
    SubPrefix(s, d, a, b, |a|);
    assert a[..|a|] == a && b[..|a|] == b;
    ChainIs(d, a, b);
    SoundReadable(s, d, a);
    SoundReadable(s, d, b);
  }

  // A number in registers, as a source of a chain.
  lemma {:induction false} SoundRegisters(s: State, d: nat, src: nat, n: nat)
    requires d + n <= |s.regs| && src + n <= |s.regs| && (d <= src || src + n <= d)
    ensures Sound(s, d, Registers(src, n)) && Held(s.regs, Registers(src, n)) == Number(s.regs, src, n)
  {
    HeldInRegisters(s.regs, src, n);
    ReadInTime(d, src, n);
  }

  /**
    A constant of any number of words is added exactly.
  */
  lemma {:induction false} AddConstantAdds(s: State, d: nat, a: nat, number: nat, n: nat)
    requires n > 0 && d + n <= |s.regs| && a + n <= |s.regs| && (d <= a || a + n <= d) && number < Pow(n)
    ensures forall i :: i in AddChain(d, Registers(a, n), Constants(number, n)) ==> InFile(i, |s.regs|)
    ensures var s' := ExecAll(s, AddChain(d, Registers(a, n), Constants(number, n)));
            && Number(s'.regs, d, n) + Scale(Bit(s'.scc), n) == Number(s.regs, a, n) + number
            && Kept(s, s', d, n)
  {
    HeldInConstants(s.regs, number, n);
    assert Sound(s, d, Constants(number, n));
    hide *;
    SoundRegisters(s, d, a, n);
    AddChainAdds(s, d, Registers(a, n), Constants(number, n));
  }

  /**
    Subtracting what was added gives the first number back, and the borrow of the subtraction is the
    carry of the addition.
  */
  lemma {:induction false} SubUndoesAdd(s: State, d: nat, a: nat, b: nat, e: nat, n: nat)
    requires n > 0 && d + n <= |s.regs| && a + n <= |s.regs| && b + n <= |s.regs| && e + n <= |s.regs|
    requires (d <= a || a + n <= d) && (b + n <= d || d + n <= b)
    requires (e <= d || d + n <= e) && (e <= b || b + n <= e)
    ensures var add, sub := AddChain(d, Registers(a, n), Registers(b, n)), SubChain(e, Registers(d, n), Registers(b, n));
            && (forall i :: i in add + sub ==> InFile(i, |s.regs|))
            && var sum := ExecAll(s, add);
               var back := ExecAll(sum, sub);
               Number(back.regs, e, n) == Number(s.regs, a, n) && back.scc == sum.scc
  {
    hide *;
    SoundRegisters(s, d, a, n);
    SoundRegisters(s, d, b, n);
    AddChainAdds(s, d, Registers(a, n), Registers(b, n));
    var sum := ExecAll(s, AddChain(d, Registers(a, n), Registers(b, n)));
    SoundRegisters(sum, e, d, n);
    SoundRegisters(sum, e, b, n);
    SubChainSubtracts(sum, e, Registers(d, n), Registers(b, n));
    var back := ExecAll(sum, SubChain(e, Registers(d, n), Registers(b, n)));
    KeptNumber(s, sum, d, b, n);
    NumberBound(s.regs, a, n);
    NumberBound(back.regs, e, n);
    BitScale(sum.scc, n);
    BitScale(back.scc, n);
  }

  lemma KeptNumber(s: State, s': State, d: nat, b: nat, n: nat)
    requires Kept(s, s', d, n) && (b + n <= d || d + n <= b) && b + n <= |s.regs|
    ensures |s'.regs| == |s.regs| && Number(s'.regs, b, n) == Number(s.regs, b, n)
  {
    NumberSame(s.regs, s'.regs, b, n);
  }

  lemma BitScale(b: bool, n: nat)
    ensures Scale(Bit(b), n) == if b then Pow(n) else 0
  {
    ScaleWord(1, n);
  }
}
