/**
  What the four buffer commands do to memory.

  Host memory is one sequence of bytes and a host pointer is a position in it, so host areas may
  overlap. The bytes of buffer b are `buffers[b]`.
*/
module BufferCommands {
  import opened MachineWords

  type Byte = bv8

  datatype Memory = Memory(buffers: seq<seq<Byte>>, host: seq<Byte>)

  datatype Operation =
    | Read(buffer: nat, offset: nat, size: nat, outputPtr: nat)
    | Write(buffer: nat, offset: nat, size: nat, dataPtr: nat)
    | Fill(buffer: nat, pattern: seq<Byte>, offset: nat, size: nat)
    | Copy(srcBuffer: nat, dstBuffer: nat, srcOffset: nat, dstOffset: nat, size: nat)

  // What memcpy, and the division in the fill loop, demand of a command.
  predicate Executable(op: Operation, sizes: seq<nat>, hostSize: nat) {
    match op
    case Read(b, offset, size, ptr) => b < |sizes| && offset + size <= sizes[b] && ptr + size <= hostSize
    case Write(b, offset, size, ptr) => b < |sizes| && offset + size <= sizes[b] && ptr + size <= hostSize
    case Fill(b, pattern, offset, size) => b < |sizes| && offset + size <= sizes[b] && pattern != []
    case Copy(s, d, srcOffset, dstOffset, size) =>
      && s < |sizes| && d < |sizes| && srcOffset + size <= sizes[s] && dstOffset + size <= sizes[d]
      && (s == d ==> srcOffset + size <= dstOffset || dstOffset + size <= srcOffset)
  }

  function Sizes(m: Memory): (s: seq<nat>) {
    seq(|m.buffers|, i requires 0 <= i < |m.buffers| => |m.buffers[i]|)
  }

  predicate Fits(op: Operation, m: Memory) {
    Executable(op, Sizes(m), |m.host|)
  }

  // memcpy(dst + at, data, |data|)
  function Splice(dst: seq<Byte>, at: nat, data: seq<Byte>): (r: seq<Byte>)
    requires at + |data| <= |dst|
    ensures |r| == |dst|
    ensures forall i :: 0 <= i < |r| ==> r[i] == if at <= i < at + |data| then data[i - at] else dst[i]
  {
    dst[..at] + data + dst[at + |data|..]
  }

  // The area a fill writes: whole copies of the pattern only, the rest of `size` is left alone.
  function Pattern(pattern: seq<Byte>, size: nat): (r: seq<Byte>)
    requires pattern != []
    ensures |r| <= size < |r| + |pattern| && |r| % |pattern| == 0
    ensures forall i :: 0 <= i < |r| ==> r[i] == pattern[i % |pattern|]
  {
    var n := size - size % |pattern|;
    assert n % |pattern| == 0 by { WholeMultiple(size, |pattern|); }
    seq(n, i requires 0 <= i < n => pattern[i % |pattern|])
  }

  lemma WholeCopies(pattern: seq<Byte>, size: nat)
    requires pattern != []
    ensures |Pattern(pattern, size)| == size - size % |pattern|
  {
  }

  lemma WholeMultiple(a: nat, b: nat)
    requires b > 0
    ensures (a - a % b) % b == 0 && a - a % b == a / b * b
  {
    var q := a / b;
    assert a == q * b + a % b;
    MultipleMod(q, b);
  }

  lemma {:induction false} MultipleMod(q: nat, b: nat)
    requires b > 0
    ensures (q * b) % b == 0
  {
    if q > 0 {
      MultipleMod(q - 1, b);
      assert q * b == (q - 1) * b + b;
      AddMod((q - 1) * b, b);
    }
  }

  lemma AddMod(a: nat, b: nat)
    requires b > 0
    ensures (a + b) % b == a % b
  {
    var q := a / b;
    assert a + b == (q + 1) * b + a % b;
    DivModUnique(a + b, b, q + 1, a % b);
  }

  lemma MulAway(d: int, b: nat)
    requires d != 0
    ensures d * b >= b || d * b <= 0 - b
  {
  }

  lemma DivModUnique(a: nat, b: nat, q: nat, r: nat)
    requires b > 0 && a == q * b + r && r < b
    ensures a / b == q && a % b == r
  {
    var d := a / b - q;
    assert d * b == r - a % b;
    if d != 0 {
      MulAway(d, b);
    }
  }

  // The memory after a command, as the standard describes the four commands.
  function Apply(op: Operation, m: Memory): (r: Memory)
    requires Fits(op, m)
    ensures Sizes(r) == Sizes(m) && |r.host| == |m.host|
  {
    match op
    case Read(b, offset, size, ptr) =>
      m.(host := Splice(m.host, ptr, m.buffers[b][offset..offset + size]))
    case Write(b, offset, size, ptr) =>
      m.(buffers := m.buffers[b := Splice(m.buffers[b], offset, m.host[ptr..ptr + size])])
    case Fill(b, pattern, offset, size) =>
      m.(buffers := m.buffers[b := Splice(m.buffers[b], offset, Pattern(pattern, size))])
    case Copy(s, d, srcOffset, dstOffset, size) =>
      m.(buffers := m.buffers[d := Splice(m.buffers[d], dstOffset, m.buffers[s][srcOffset..srcOffset + size])])
  }

  predicate AllFit(ops: seq<Operation>, m: Memory) {
    forall i :: 0 <= i < |ops| ==> Fits(ops[i], m)
  }

  // Running a list of commands one after the other.
  function ApplyAll(ops: seq<Operation>, m: Memory): (r: Memory)
    requires AllFit(ops, m)
    ensures Sizes(r) == Sizes(m) && |r.host| == |m.host|
  {
    if ops == [] then m else ApplyAll(ops[1..], Apply(ops[0], m))
  }

  lemma {:induction false} ApplyAllConcat(a: seq<Operation>, b: seq<Operation>, m: Memory)
    requires AllFit(a + b, m)
    ensures AllFit(a, m) && AllFit(b, m)
    ensures AllFit(b, ApplyAll(a, m)) && ApplyAll(a + b, m) == ApplyAll(b, ApplyAll(a, m))
    decreases |a|
  {
    assert forall i :: 0 <= i < |a| ==> (a + b)[i] == a[i];
    assert forall i :: 0 <= i < |b| ==> (a + b)[|a| + i] == b[i];
    if a == [] {
      assert a + b == b;
    } else {
      assert (a + b)[1..] == a[1..] + b;
      assert (a + b)[0] == a[0];
      ApplyAllConcat(a[1..], b, Apply(a[0], m));
    }
  }

  // The first `length` bytes of the area at `offset` hold copies of the pattern.
  ghost predicate Filled(r: seq<Byte>, area: seq<Byte>, pattern: seq<Byte>, offset: nat, length: nat) {
    && pattern != [] && |r| == |area|
    && forall k :: 0 <= k < |r| ==>
                     r[k] == if offset <= k < offset + length then pattern[(k - offset) % |pattern|] else area[k]
  }

  lemma {:induction false} FilledNext(r: seq<Byte>, area: seq<Byte>, pattern: seq<Byte>, offset: nat, i: nat, length: nat)
    requires Filled(r, area, pattern, offset, length) && length == i * |pattern| && offset + length + |pattern| <= |area|
    ensures Filled(Splice(r, offset + length, pattern), area, pattern, offset, length + |pattern|)
  {
    var after := Splice(r, offset + length, pattern);
    forall k | offset + length <= k < offset + length + |pattern|
      ensures after[k] == pattern[(k - offset) % |pattern|]
    {
      DivModUnique(k - offset, |pattern|, i, k - offset - length);
    }
  }

  // The loop of the fill command: one memcpy of the pattern per whole repetition.
  method FillLoop(area: seq<Byte>, pattern: seq<Byte>, offset: nat, size: nat) returns (r: seq<Byte>)
    requires pattern != [] && offset + size <= |area|
    ensures r == Splice(area, offset, Pattern(pattern, size))
  {
    var p := |pattern|;
    var n := size / p;
    r := area;
    WholeMultiple(size, p);
    var i := 0;
    while i < n
      invariant 0 <= i <= n && i * p <= n * p
      invariant Filled(r, area, pattern, offset, i * p)
    {
      assert (i + 1) * p <= n * p by { assert i + 1 <= n; MulMono(i + 1, n, p); }
      assert (i + 1) * p == i * p + p;
      hide Filled;
      FilledNext(r, area, pattern, offset, i, i * p);
      r := Splice(r, offset + i * p, pattern);
      i := i + 1;
    }
  }

  // At most buffer d has changed.
  ghost predicate OnlyBuffer(m: Memory, r: Memory, d: nat) {
    && d < |m.buffers| == |r.buffers| && |r.buffers[d]| == |m.buffers[d]| && r.host == m.host
    && forall b :: 0 <= b < |m.buffers| && b != d ==> r.buffers[b] == m.buffers[b]
  }

  // Byte by byte: what a command moves from where to where, and what it leaves alone.
  ghost predicate Moves(op: Operation, m: Memory, r: Memory)
    requires Fits(op, m)
  {
    match op
    case Read(b, offset, size, ptr) =>
      && r.buffers == m.buffers && |r.host| == |m.host|
      && forall i :: 0 <= i < |m.host| ==>
                       r.host[i] == if ptr <= i < ptr + size then m.buffers[b][offset + (i - ptr)] else m.host[i]
    case Write(b, offset, size, ptr) =>
      && OnlyBuffer(m, r, b)
      && forall i :: 0 <= i < |m.buffers[b]| ==>
                       r.buffers[b][i] == if offset <= i < offset + size then m.host[ptr + (i - offset)]
                                          else m.buffers[b][i]
    case Fill(b, pattern, offset, size) =>
      // Only whole copies of the pattern are written.
      var whole := size - size % |pattern|;
      && OnlyBuffer(m, r, b)
      && forall i :: 0 <= i < |m.buffers[b]| ==>
                       r.buffers[b][i] == if offset <= i < offset + whole then pattern[(i - offset) % |pattern|]
                                          else m.buffers[b][i]
    case Copy(s, d, srcOffset, dstOffset, size) =>
      && OnlyBuffer(m, r, d)
      && forall i :: 0 <= i < |m.buffers[d]| ==>
                       r.buffers[d][i] == if dstOffset <= i < dstOffset + size
                                          then m.buffers[s][srcOffset + (i - dstOffset)] else m.buffers[d][i]
  }

  /**
    The memory after a command is the one before with exactly these bytes moved.
  */
  lemma {:induction false} ApplyMoves(op: Operation, m: Memory)
    requires Fits(op, m)
    ensures Moves(op, m, Apply(op, m))
  {
    if op.Read? {
      ReadMoves(op, m);
    } else if op.Write? {
      WriteMoves(op, m);
    } else if op.Fill? {
      FillMoves(op, m);
    } else {
      CopyMoves(op, m);
    }
    hide *;
  }

  lemma ReadMoves(op: Operation, m: Memory)
    requires Fits(op, m) && op.Read?
    ensures Moves(op, m, Apply(op, m))
  {
    SplicedBytes(m.host, op.outputPtr, m.buffers[op.buffer], op.offset, op.size);
    hide Splice;
  }

  lemma WriteMoves(op: Operation, m: Memory)
    requires Fits(op, m) && op.Write?
    ensures Moves(op, m, Apply(op, m))
  {
    SplicedBytes(m.buffers[op.buffer], op.offset, m.host, op.dataPtr, op.size);
    hide Splice;
  }

  lemma FillMoves(op: Operation, m: Memory)
    requires Fits(op, m) && op.Fill?
    ensures Moves(op, m, Apply(op, m))
  {
    SplicedPattern(m.buffers[op.buffer], op.offset, op.pattern, op.size);
    hide Splice;
    hide Pattern;
  }

  lemma CopyMoves(op: Operation, m: Memory)
    requires Fits(op, m) && op.Copy?
    ensures Moves(op, m, Apply(op, m))
  {
    SplicedBytes(m.buffers[op.dstBuffer], op.dstOffset, m.buffers[op.srcBuffer], op.srcOffset, op.size);
    hide Splice;
  }

  lemma SplicedPattern(dst: seq<Byte>, at: nat, pattern: seq<Byte>, size: nat)
    requires pattern != [] && at + size <= |dst|
    ensures |Pattern(pattern, size)| <= size
    ensures var r := Splice(dst, at, Pattern(pattern, size));
            && |r| == |dst|
            && forall i :: 0 <= i < |dst| ==>
                             r[i] == if at <= i < at + (size - size % |pattern|) then pattern[(i - at) % |pattern|] else dst[i]
  {
    WholeCopies(pattern, size);
  }

  lemma SplicedBytes(dst: seq<Byte>, at: nat, src: seq<Byte>, from: nat, n: nat)
    requires at + n <= |dst| && from + n <= |src|
    ensures var r := Splice(dst, at, src[from..from + n]);
            && |r| == |dst|
            && forall i :: 0 <= i < |dst| ==> r[i] == if at <= i < at + n then src[from + (i - at)] else dst[i]
  {
  }

  // The virtual executeImpl of the four command classes.
  method ExecuteImpl(op: Operation, m: Memory) returns (r: Memory)
    requires Fits(op, m)
    ensures r == Apply(op, m) && Moves(op, m, r)
  {
    ApplyMoves(op, m);
    hide Moves;
    match op
    case Read(b, offset, size, ptr) =>
      r := m.(host := Splice(m.host, ptr, m.buffers[b][offset..offset + size]));
    case Write(b, offset, size, ptr) =>
      r := m.(buffers := m.buffers[b := Splice(m.buffers[b], offset, m.host[ptr..ptr + size])]);
    case Fill(b, pattern, offset, size) =>
      var filled := FillLoop(m.buffers[b], pattern, offset, size);
      r := m.(buffers := m.buffers[b := filled]);
    case Copy(s, d, srcOffset, dstOffset, size) =>
      r := m.(buffers := m.buffers[d := Splice(m.buffers[d], dstOffset, m.buffers[s][srcOffset..srcOffset + size])]);
  }
}
