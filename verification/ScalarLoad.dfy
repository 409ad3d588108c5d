/**
  Scalar loads: from bytes in the memory to words in the scalar registers.
*/
module ScalarLoad {
  import opened Wrappers
  import opened MachineWords
  import opened LaneMask
  import opened WavefrontState
  import opened Wavefronts
  import Storages

  // The 32-bit words of a run of bytes, first word first.
  function WordsOf(bytes: seq<bv8>): (words: seq<bv32>)
    requires |bytes| % 4 == 0
    ensures |words| == |bytes| / 4
    decreases |bytes|
  {
    if bytes == [] then [] else WordsOf(bytes[..|bytes| - 4]) + [Storages.Word32(bytes[|bytes| - 4..])]
  }

  // A byte moved up by 8 * k bits.
  function Place8(byte: bv8, k: nat): bv32
    requires k < 4
  {
    if k == 0 then byte as bv32
    else if k == 1 then (byte as bv32) << 8
    else if k == 2 then (byte as bv32) << 16
    else (byte as bv32) << 24
  }

  function OrWord(a: bv32, b: bv32): bv32 { a | b }

  lemma PlacesJoin(a: bv8, b: bv8, c: bv8, d: bv8)
    ensures OrWord(OrWord(OrWord(OrWord(0, Place8(a, 3)), Place8(b, 2)), Place8(c, 1)), Place8(d, 0))
            == Storages.Join32(a, b, c, d)
  {
    PlaceIsShift(a, b, c, d);
    OrZero(Place8(a, 3));
    hide Place8;
    hide OrWord;
    OrsJoin((a as bv32) << 24, (b as bv32) << 16, (c as bv32) << 8, d as bv32);
  }

  lemma PlaceIsShift(a: bv8, b: bv8, c: bv8, d: bv8)
    ensures Place8(a, 3) == (a as bv32) << 24 && Place8(b, 2) == (b as bv32) << 16
    ensures Place8(c, 1) == (c as bv32) << 8 && Place8(d, 0) == d as bv32
  {
  }

  lemma OrZero(x: bv32)
    ensures OrWord(0, x) == x
  {
  }

  lemma OrsJoin(x: bv32, y: bv32, z: bv32, w: bv32)
    ensures OrWord(OrWord(OrWord(x, y), z), w) == x | y | z | w
  {
  }

  // The inner loop of to_uint32_v: one word from four bytes.
  method JoinBytes(data: seq<bv8>, i: nat) returns (value: bv32)
    requires i + 4 <= |data|
    ensures value == Storages.Word32(data[i..i + 4])
  {
    hide Place8;
    hide OrWord;
    hide Storages.Join32;
    value := 0;
    for j := i to i + 4
      invariant j == i ==> value == 0
      invariant j == i + 1 ==> value == OrWord(0, Place8(data[i], 3))
      invariant j == i + 2 ==> value == OrWord(OrWord(0, Place8(data[i], 3)), Place8(data[i + 1], 2))
      invariant j == i + 3 ==>
                  value == OrWord(OrWord(OrWord(0, Place8(data[i], 3)), Place8(data[i + 1], 2)), Place8(data[i + 2], 1))
      invariant j == i + 4 ==> value == Storages.Join32(data[i], data[i + 1], data[i + 2], data[i + 3])
    {
      value := OrWord(value, Place8(data[j], i + 3 - j));
      if j == i + 3 {
        PlacesJoin(data[i], data[i + 1], data[i + 2], data[i + 3]);
      }
    }
  }

  // to_uint32_v
  method ToUint32V(data: seq<bv8>) returns (result: seq<bv32>)
    requires |data| % 4 == 0
    ensures result == WordsOf(data)
  {
    result := [];
    var i := 0;
    while i < |data|
      invariant 0 <= i <= |data| && i % 4 == 0
      invariant result == WordsOf(data[..i])
    {
      var value := JoinBytes(data, i);
      assert data[..i + 4][..i] == data[..i] && data[..i + 4][i..] == data[i..i + 4];
      result := result + [value];
      i := i + 4;
    }
    assert data[..i] == data;
  }

  // Word k is bytes 4 * k to 4 * k + 3.
  lemma {:induction false} WordAt(bytes: seq<bv8>, n: nat, k: nat)
    requires |bytes| == 4 * n && k < n
    ensures |WordsOf(bytes)| == n && WordsOf(bytes)[k] == Storages.Word32(bytes[4 * k..4 * k + 4])
    decreases n
  {
    WordsNext(bytes, n);
    hide *;
    if k < n - 1 {
      WordAt(bytes[..4 * (n - 1)], n - 1, k);
      SliceOfPrefix(bytes, 4 * (n - 1), 4 * k);
    }
  }

  lemma SliceOfPrefix(bytes: seq<bv8>, m: nat, i: nat)
    requires i + 4 <= m <= |bytes|
    ensures bytes[..m][i..i + 4] == bytes[i..i + 4]
  {
  }

  lemma WordsNext(bytes: seq<bv8>, n: nat)
    requires |bytes| == 4 * n && n > 0
    ensures var m := 4 * (n - 1);
            && |WordsOf(bytes)| == n && |WordsOf(bytes[..m])| == n - 1
            && WordsOf(bytes) == WordsOf(bytes[..m]) + [Storages.Word32(bytes[m..m + 4])]
  {
    hide Storages.Word32;
    assert bytes[4 * (n - 1)..] == bytes[4 * (n - 1)..4 * (n - 1) + 4];
  }

  // The words at p, the first one in the highest of the n registers; the other registers as before.
  ghost predicate HoldWords(before: seq<bv32>, after: seq<bv32>, first: nat, n: nat, data: seq<bv8>, p: nat)
    requires p + 4 * n <= |data|
  {
    && |after| == |before| && first + n <= |before|
    && (forall j: nat :: j < |before| && !(first <= j < first + n) ==> after[j] == before[j])
    && forall k: nat :: k < n ==> after[first + (n - 1 - k)] == Storages.Word32(data[p + 4 * k..p + 4 * k + 4])
  }

  lemma {:induction false} LoadedWords(r: Regs, dst: Operand, data: seq<bv8>, p: nat)
    requires dst.SReg? && p + 4 * dst.amount <= |data| && dst.first + dst.amount <= |r.sgprs|
    ensures HoldWords(r.sgprs, Loaded(r, dst, data[p..p + 4 * dst.amount]).sgprs, dst.first, dst.amount, data, p)
  {
    hide WordsOf;
    hide Storages.Word32;
    var n, bytes := dst.amount, data[p..p + 4 * dst.amount];
    var after := Loaded(r, dst, bytes).sgprs;
    forall k: nat | k < n ensures after[dst.first + (n - 1 - k)] == Storages.Word32(data[p + 4 * k..p + 4 * k + 4]) {
      WordAt(bytes, n, k);
      SubRange(data, p, 4 * n, 4 * k);
    }
  }

  /**
    s_load_dword, s_load_dwordx2, x4, x8 and x16: the loaded words go to the destination registers, the
    first word to the highest register. A load past the end of the memory throws and writes nothing.
  */
  method RunSLoadDwordN(wavefront: Wavefront, storage: Storages.Storage, dst: Operand, base: Operand, offset: Operand)
    returns (ok: bool)
    requires wavefront.Valid() && dst.SReg? && dst.amount > 0
    requires dst.first + dst.amount <= wavefront.scalarRegFile.Length
    requires !base.VReg? && Readable(wavefront.State(), wavefront.vgprsnum, base, 0)
    requires !offset.VReg? && Readable(wavefront.State(), wavefront.vgprsnum, offset, 0)
    requires storage.data.Length <= SIZE_T_RANGE
    requires LoadAddress(wavefront.State(), wavefront.vgprsnum, base, offset) + 4 * dst.amount < SIZE_T_RANGE
    modifies wavefront.scalarRegFile
    ensures wavefront.Valid()
    ensures ok == (old(LoadAddress(wavefront.State(), wavefront.vgprsnum, base, offset)) + 4 * dst.amount
                   <= storage.data.Length)
    ensures ok ==>
              var p := old(LoadAddress(wavefront.State(), wavefront.vgprsnum, base, offset));
              wavefront.State() == Loaded(old(wavefront.State()), dst, old(storage.data[p..p + 4 * dst.amount]))
    ensures ok ==>
              var p := old(LoadAddress(wavefront.State(), wavefront.vgprsnum, base, offset));
              HoldWords(old(wavefront.scalarRegFile[..]), wavefront.scalarRegFile[..], dst.first, dst.amount, storage.data[..], p)
    ensures !ok ==> wavefront.State() == old(wavefront.State())
  {
    hide Loaded;
    hide HoldWords;
    hide WordsOf;
    hide SetSpan;
    hide ReadU64;
    hide ReadsAs;
    hide LoadAddress;
    hide Storages.At;
    hide Storages.Value64;
    ghost var p := LoadAddress(wavefront.State(), wavefront.vgprsnum, base, offset);
    AddressIs(wavefront.State(), wavefront.vgprsnum, base, offset, 4 * dst.amount);
    var baseValue := wavefront.ReadValue(base, 0);
    var offsetValue := wavefront.ReadValue(offset, 0);
    var address, start := Storages.Value64(baseValue), Storages.Value64(offsetValue) % Storages.OFFSET_RANGE;
    var bytes := storage.ReadData(address, start, 4 * dst.amount, false);
    if bytes.None? {
      return false;
    }
    ghost var r := wavefront.State();
    var words := ToUint32V(bytes.value);
    wavefront.WriteRegisters(wavefront.scalarRegFile, dst.first, words);
    LoadedIs(r, wavefront.State(), dst, bytes.value);
    LoadedWords(r, dst, storage.data[..], p);
    return true;
  }

  lemma SubRange(data: seq<bv8>, p: nat, n: nat, at: nat)
    requires p + n <= |data| && at + 4 <= n
    ensures data[p..p + n][at..at + 4] == data[p + at..p + at + 4]
  {
    var a, b := data[p..p + n][at..at + 4], data[p + at..p + at + 4];
    forall i | 0 <= i < 4 ensures a[i] == b[i] {
      assert a[i] == data[p + (at + i)];
    }
    assert a == b;
  }

  // The address a load reads from.
  function LoadAddress(r: Regs, stride: nat, base: Operand, offset: Operand): nat
    requires Readable(r, stride, base, 0) && Readable(r, stride, offset, 0)
  {
    Storages.At(Storages.Value64(ReadU64(r, stride, base, 0)), Storages.Value64(ReadU64(r, stride, offset, 0)) % Storages.OFFSET_RANGE)
  }

  lemma AddressIs(r: Regs, stride: nat, base: Operand, offset: Operand, n: nat)
    requires Readable(r, stride, base, 0) && Readable(r, stride, offset, 0)
    requires LoadAddress(r, stride, base, offset) + n < SIZE_T_RANGE
    ensures LoadAddress(r, stride, base, offset)
            == Storages.At(Storages.Value64(ReadU64(r, stride, base, 0)),
                           Storages.Value64(ReadU64(r, stride, offset, 0)) % Storages.OFFSET_RANGE)
    ensures var p := LoadAddress(r, stride, base, offset); Storages.At(p, n) == p + n
  {
    hide ReadU64;
    hide Storages.Value64;
  }

  // The registers after these bytes have been loaded.
  function Loaded(r: Regs, dst: Operand, bytes: seq<bv8>): Regs
    requires dst.SReg? && |bytes| == 4 * dst.amount && dst.first + dst.amount <= |r.sgprs|
  {
    r.(sgprs := SetSpan(r.sgprs, dst.first, WordsOf(bytes)))
  }

  lemma LoadedIs(r: Regs, r': Regs, dst: Operand, bytes: seq<bv8>)
    requires dst.SReg? && |bytes| == 4 * dst.amount && dst.first + dst.amount <= |r.sgprs|
    requires r' == r.(sgprs := SetSpan(r.sgprs, dst.first, WordsOf(bytes)))
    ensures r' == Loaded(r, dst, bytes)
  {
  }

  // ---------------------------------------------------------------- memory to registers and back

  lemma WordsOfOne(v: bv32)
    ensures WordsOf(Storages.BytesOf32(v)) == [v]
  {
    Storages.Word32OfBytes(v);
    hide Storages.Word32;
    hide Storages.BytesOf32;
    var bytes := Storages.BytesOf32(v);
    assert bytes[..0] == [] && bytes[0..] == bytes;
  }

  lemma WordsOfTwo(v: bv64)
    ensures WordsOf(Storages.BytesOf64(v)) == [High(v), Low(v)]
  {
    hide Storages.Word32;
    hide Storages.BytesOf32;
    WordsOfOne(High(v));
    Storages.Word32OfBytes(Low(v));
    var hi, lo := Storages.BytesOf32(High(v)), Storages.BytesOf32(Low(v));
    assert (hi + lo)[..4] == hi && (hi + lo)[4..] == lo;
  }

  /**
    A word stored in memory and loaded into a register, and a double word loaded into a register pair,
    is what the operand then reads as, and no other register has changed.
  */
  lemma {:induction false} LoadedWordIsStored(r: Regs, data: seq<bv8>, addr: nat, offset: nat, first: nat, v: bv32)
    requires Storages.InRange(data, addr, offset, 4) && first < |r.sgprs|
    ensures var p := addr + offset;
            var memory := Storages.Store(data, addr, offset, Storages.BytesOf32(v)).data;
            var r' := r.(sgprs := r.sgprs[first := v]);
            && Loaded(r, SReg(first, 1), memory[p..p + 4]) == r'
            && ReadOperand(r', 0, SReg(first, 1), 0) == [v] && ReadU64(r', 0, SReg(first, 1), 0) == v as bv64
  {
    hide Storages.Store;
    hide Storages.BytesOf32;
    hide WordsOf;
    var p := addr + offset;
    Storages.StoreInRange(data, addr, offset, Storages.BytesOf32(v));
    Storages.InTheMiddle(data[..p], Storages.BytesOf32(v), data[p + 4..]);
    WordsOfOne(v);
    SpanOfSetSpan(r.sgprs, first, [v]);
    assert SetSpan(r.sgprs, first, [v]) == r.sgprs[first := v];
  }

  lemma {:induction false} LoadedDoubleIsStored(r: Regs, data: seq<bv8>, addr: nat, offset: nat, first: nat, v: bv64)
    requires Storages.InRange(data, addr, offset, 8) && first + 2 <= |r.sgprs|
    ensures var p := addr + offset;
            var memory := Storages.Store(data, addr, offset, Storages.BytesOf64(v)).data;
            var r' := r.(sgprs := r.sgprs[first := Low(v)][first + 1 := High(v)]);
            && Loaded(r, SReg(first, 2), memory[p..p + 8]) == r'
            && ReadU64(r', 0, SReg(first, 2), 0) == v
  {
    hide Storages.Store;
    hide Storages.BytesOf64;
    hide WordsOf;
    hide Join;
    hide High;
    hide Low;
    var p := addr + offset;
    Storages.StoreInRange(data, addr, offset, Storages.BytesOf64(v));
    Storages.InTheMiddle(data[..p], Storages.BytesOf64(v), data[p + 8..]);
    WordsOfTwo(v);
    SpanOfSetSpan(r.sgprs, first, [High(v), Low(v)]);
    JoinSplit(v);
    assert SetSpan(r.sgprs, first, [High(v), Low(v)]) == r.sgprs[first := Low(v)][first + 1 := High(v)];
  }

  // ---------------------------------------------------------------- the instruction on the objects

  // Base and offset are added in 64 bits, the offset cut to 32.
  lemma AddressIsSum(r: Regs, stride: nat, base: Operand, offset: Operand)
    requires Readable(r, stride, base, 0) && Readable(r, stride, offset, 0)
    ensures LoadAddress(r, stride, base, offset)
            == (ReadU64(r, stride, base, 0) as nat + ReadU64(r, stride, offset, 0) as nat % 0x1_0000_0000) % SIZE_T_RANGE
  {
    hide ReadU64;
    hide Storages.Value64;
    Storages.ValueIsNumber(ReadU64(r, stride, base, 0));
    Storages.ValueIsNumber(ReadU64(r, stride, offset, 0));
  }

  // The operands of a load of n dwords, which name this address in the memory. Value64 is the word as a
  // number (Storages.ValueIsNumber).
  ghost predicate Addresses(wavefront: Wavefront, n: nat, dst: Operand, base: Operand, offset: Operand, address: nat)
    reads wavefront, wavefront.scalarRegFile, wavefront.vectorRegFile
  {
    var r, stride := wavefront.State(), wavefront.vgprsnum;
    && wavefront.Valid() && dst.SReg? && dst.amount == n && dst.first + n <= |r.sgprs|
    && !base.VReg? && Readable(r, stride, base, 0) && !offset.VReg? && Readable(r, stride, offset, 0)
    && var x, y := Storages.Value64(ReadU64(r, stride, base, 0)), Storages.Value64(ReadU64(r, stride, offset, 0));
       y < 0x1_0000_0000 && x + y == address
  }

  lemma AddressGiven(r: Regs, stride: nat, base: Operand, offset: Operand, address: nat)
    requires Readable(r, stride, base, 0) && Readable(r, stride, offset, 0)
    requires var x, y := Storages.Value64(ReadU64(r, stride, base, 0)), Storages.Value64(ReadU64(r, stride, offset, 0));
             y < 0x1_0000_0000 && x + y == address < SIZE_T_RANGE
    ensures LoadAddress(r, stride, base, offset) == address
  {
    hide ReadU64;
    hide Storages.Value64;
    SumFits(Storages.Value64(ReadU64(r, stride, base, 0)), Storages.Value64(ReadU64(r, stride, offset, 0)));
  }

  lemma SumFits(a: nat, b: nat)
    requires b < 0x1_0000_0000 && a + b < SIZE_T_RANGE
    ensures (a + b % 0x1_0000_0000) % SIZE_T_RANGE == a + b
  {
  }

  /**
    A word written at address addr + offset and loaded by an s_load_dword whose base and offset operands
    add up to that address, however they split it, is what the destination register then holds; no
    other register has changed.
  */
  method StoreThenLoad(storage: Storages.Storage, addr: nat, offset: nat, v: bv32, wavefront: Wavefront, dst: Operand,
                       base: Operand, loadOffset: Operand) returns (ok: bool)
    requires Addresses(wavefront, 1, dst, base, loadOffset, addr + offset)
    requires addr + offset + 4 <= storage.data.Length < SIZE_T_RANGE && offset + 4 <= 0x1_0000_0000
    modifies storage.data, wavefront.scalarRegFile
    ensures ok && wavefront.scalarRegFile[..] == old(wavefront.scalarRegFile[..])[dst.first := v]
  {
    hide LoadAddress;
    hide ReadU64;
    hide Loaded;
    hide Storages.Store;
    hide Storages.Value64;
    ghost var r, before := wavefront.State(), storage.data[..];
    AddressGiven(r, wavefront.vgprsnum, base, loadOffset, addr + offset);
    Storages.StoreInRange(before, addr, offset, Storages.BytesOf32(v));
    ok := storage.Write32(addr, offset, v);
    assert wavefront.State() == r;
    ok := RunSLoadDwordN(wavefront, storage, dst, base, loadOffset);
    LoadedWordIsStored(r, before, addr, offset, dst.first, v);
  }

  /**
    The same for a double word and s_load_dwordx2: the low word goes to the first register.
  */
  method StoreThenLoadX2(storage: Storages.Storage, addr: nat, offset: nat, v: bv64, wavefront: Wavefront, dst: Operand,
                         base: Operand, loadOffset: Operand) returns (ok: bool)
    requires Addresses(wavefront, 2, dst, base, loadOffset, addr + offset)
    requires addr + offset + 8 <= storage.data.Length < SIZE_T_RANGE && offset + 8 <= 0x1_0000_0000
    modifies storage.data, wavefront.scalarRegFile
    ensures ok
    ensures wavefront.scalarRegFile[..] == old(wavefront.scalarRegFile[..])[dst.first := Low(v)][dst.first + 1 := High(v)]
  {
    hide LoadAddress;
    hide ReadU64;
    hide Loaded;
    hide Storages.Store;
    hide Storages.Value64;
    hide High;
    hide Low;
    ghost var r, before := wavefront.State(), storage.data[..];
    AddressGiven(r, wavefront.vgprsnum, base, loadOffset, addr + offset);
    Storages.StoreInRange(before, addr, offset, Storages.BytesOf64(v));
    ok := storage.Write64(addr, offset, v);
    assert wavefront.State() == r;
    ok := RunSLoadDwordN(wavefront, storage, dst, base, loadOffset);
    LoadedDoubleIsStored(r, before, addr, offset, dst.first, v);
  }
}
