/**
  What a list of buffer commands leaves in memory: bytes stay where they were put until a command
  writes over them, so a read gives back what was written.
*/
module BufferTheorems {
  import opened BufferCommands

  predicate Disjoint(a: nat, n: nat, b: nat, k: nat) {
    a + n <= b || b + k <= a
  }

  // The command writes nothing into this range of the buffer, or of host memory.
  predicate SparesBuffer(op: Operation, b: nat, offset: nat, size: nat) {
    match op
    case Read(_, _, _, _) => true
    case Write(x, at, n, _) => x != b || Disjoint(at, n, offset, size)
    case Fill(x, _, at, n) => x != b || Disjoint(at, n, offset, size)
    case Copy(_, x, _, at, n) => x != b || Disjoint(at, n, offset, size)
  }

  predicate SparesHost(op: Operation, ptr: nat, size: nat) {
    op.Read? ==> Disjoint(op.outputPtr, op.size, ptr, size)
  }

  // The range lies inside the buffer.
  predicate InBuffer(m: Memory, b: nat, offset: nat, size: nat) {
    b < |m.buffers| && offset + size <= |m.buffers[b]|
  }

  lemma SameSizes(m: Memory, r: Memory, b: nat, offset: nat, size: nat)
    requires Sizes(r) == Sizes(m) && InBuffer(m, b, offset, size)
    ensures InBuffer(r, b, offset, size)
  {
    assert Sizes(r)[b] == |r.buffers[b]| && Sizes(m)[b] == |m.buffers[b]|;
  }

  lemma {:induction false} SparedBuffer(op: Operation, m: Memory, b: nat, offset: nat, size: nat)
    requires Fits(op, m) && InBuffer(m, b, offset, size) && SparesBuffer(op, b, offset, size)
    ensures InBuffer(Apply(op, m), b, offset, size)
    ensures Apply(op, m).buffers[b][offset..offset + size] == m.buffers[b][offset..offset + size]
  {
    ApplyMoves(op, m);
    SameSizes(m, Apply(op, m), b, offset, size);
    hide Apply;
    var r := Apply(op, m);
    forall i | offset <= i < offset + size ensures r.buffers[b][i] == m.buffers[b][i] {
    }
  }

  lemma {:induction false} SparedHost(op: Operation, m: Memory, ptr: nat, size: nat)
    requires Fits(op, m) && ptr + size <= |m.host| && SparesHost(op, ptr, size)
    ensures Apply(op, m).host[ptr..ptr + size] == m.host[ptr..ptr + size]
  {
    ApplyMoves(op, m);
    hide Apply;
  }

  /**
    What no command of a list writes over stays, in a buffer and in host memory.
  */
  lemma {:induction false} BufferStays(ops: seq<Operation>, m: Memory, b: nat, offset: nat, size: nat)
    requires AllFit(ops, m) && InBuffer(m, b, offset, size)
    requires forall i :: 0 <= i < |ops| ==> SparesBuffer(ops[i], b, offset, size)
    ensures InBuffer(ApplyAll(ops, m), b, offset, size)
    ensures ApplyAll(ops, m).buffers[b][offset..offset + size] == m.buffers[b][offset..offset + size]
    decreases |ops|
  {
    if ops != [] {
      SparedBuffer(ops[0], m, b, offset, size);
      hide Apply;
      hide SparesBuffer;
      BufferStays(ops[1..], Apply(ops[0], m), b, offset, size);
    }
  }

  lemma {:induction false} HostStays(ops: seq<Operation>, m: Memory, ptr: nat, size: nat)
    requires AllFit(ops, m) && ptr + size <= |m.host|
    requires forall i :: 0 <= i < |ops| ==> SparesHost(ops[i], ptr, size)
    ensures ApplyAll(ops, m).host[ptr..ptr + size] == m.host[ptr..ptr + size]
    decreases |ops|
  {
    if ops != [] {
      SparedHost(ops[0], m, ptr, size);
      hide Apply;
      hide SparesHost;
      HostStays(ops[1..], Apply(ops[0], m), ptr, size);
    }
  }

  // The area holds these bytes after a write, and host memory after a read.
  lemma {:induction false} Written(m: Memory, b: nat, offset: nat, size: nat, ptr: nat)
    requires Fits(Write(b, offset, size, ptr), m)
    ensures InBuffer(m, b, offset, size) && InBuffer(Apply(Write(b, offset, size, ptr), m), b, offset, size)
    ensures ptr + size <= |m.host|
    ensures Apply(Write(b, offset, size, ptr), m).buffers[b][offset..offset + size] == m.host[ptr..ptr + size]
  {
    ApplyMoves(Write(b, offset, size, ptr), m);
    hide Apply;
  }

  lemma {:induction false} ReadOut(m: Memory, b: nat, offset: nat, size: nat, ptr: nat)
    requires Fits(Read(b, offset, size, ptr), m)
    ensures InBuffer(m, b, offset, size) && ptr + size <= |m.host|
    ensures Apply(Read(b, offset, size, ptr), m).host[ptr..ptr + size] == m.buffers[b][offset..offset + size]
  {
    ApplyMoves(Read(b, offset, size, ptr), m);
    hide Apply;
  }

  /**
    A write, anything that spares its range, and a read of that range: host memory holds at `to` what it
    held at `from` when the write was carried out, and still does after anything that spares that area.
  */
  lemma {:induction false} ReadGivesWritten(between: seq<Operation>, after: seq<Operation>, m: Memory, b: nat,
                                            offset: nat, size: nat, from: nat, to: nat)
    requires var w, r := Write(b, offset, size, from), Read(b, offset, size, to);
             Fits(w, m) && AllFit(between, m) && Fits(r, m) && AllFit(after, m)
    requires forall i :: 0 <= i < |between| ==> SparesBuffer(between[i], b, offset, size)
    requires forall i :: 0 <= i < |after| ==> SparesHost(after[i], to, size)
    ensures var ops := [Write(b, offset, size, from)] + between + [Read(b, offset, size, to)] + after;
            && AllFit(ops, m) && to + size <= |m.host| && from + size <= |m.host|
            && ApplyAll(ops, m).host[to..to + size] == m.host[from..from + size]
  {
    hide SparesBuffer;
    hide SparesHost;
    var w, r := Write(b, offset, size, from), Read(b, offset, size, to);
    Written(m, b, offset, size, from);
    hide Apply;
    var m1 := Apply(w, m);
    BufferStays(between, m1, b, offset, size);
    var m2 := ApplyAll(between, m1);
    ReadOut(m2, b, offset, size, to);
    var m3 := Apply(r, m2);
    HostStays(after, m3, to, size);
    hide Fits;
    InFourParts(w, between, r, after, m);
  }

  lemma InFourParts(w: Operation, between: seq<Operation>, r: Operation, after: seq<Operation>, m: Memory)
    requires AllFit([w] + between + [r] + after, m)
    ensures Fits(w, m) && AllFit(between, Apply(w, m))
    ensures var m2 := ApplyAll(between, Apply(w, m));
            && Fits(r, m2) && AllFit(after, Apply(r, m2))
            && ApplyAll([w] + between + [r] + after, m) == ApplyAll(after, Apply(r, m2))
  {
    hide *;
    OneOperation(w, m);
    ApplyAllConcat([w] + between + [r], after, m);
    ApplyAllConcat([w] + between, [r], m);
    ApplyAllConcat([w], between, m);
    OneOperation(r, ApplyAll(between, Apply(w, m)));
  }

  lemma OneOperation(op: Operation, m: Memory)
    ensures AllFit([op], m) <==> Fits(op, m)
    ensures Fits(op, m) ==> ApplyAll([op], m) == Apply(op, m)
  {
    hide Apply;
    hide Fits;
    if Fits(op, m) {
      assert [op][1..] == [];
    } else {
      assert !Fits([op][0], m);
    }
  }
}
