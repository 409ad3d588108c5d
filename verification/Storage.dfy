/**
  The emulated memory: bytes addressed by a 64-bit base and a 32-bit offset, words stored with the
  highest byte first.
*/
module Storages {
  import opened Wrappers
  import opened MachineWords

  const OFFSET_RANGE: nat := 0x1_0000_0000

  // addr + offset, in 64 bits; offset + k, in 32 bits.
  function At(addr: nat, offset: nat): nat {
    (addr + offset) % SIZE_T_RANGE
  }

  function Further(offset: nat, k: nat): nat {
    (offset + k) % OFFSET_RANGE
  }

  // ---------------------------------------------------------------- words and bytes

  function High8(v: bv16): bv8 { ((v >> 8) & 0xff) as bv8 }
  function Low8(v: bv16): bv8 { (v & 0xff) as bv8 }

  function BytesOf16(v: bv16): (bytes: seq<bv8>)
    ensures |bytes| == 2
  {
    [High8(v), Low8(v)]
  }

  function High16(v: bv32): bv16 { ((v >> 16) & 0xffff) as bv16 }
  function Low16(v: bv32): bv16 { (v & 0xffff) as bv16 }

  function BytesOf32(v: bv32): (bytes: seq<bv8>)
    ensures |bytes| == 4
  {
    BytesOf16(High16(v)) + BytesOf16(Low16(v))
  }

  function BytesOf64(v: bv64): (bytes: seq<bv8>)
    ensures |bytes| == 8
  {
    BytesOf32(High(v)) + BytesOf32(Low(v))
  }

  // read_4_bytes and read_8_bytes put the bytes together.
  function Join32(a: bv8, b: bv8, c: bv8, d: bv8): bv32 {
    ((a as bv32) << 24) | ((b as bv32) << 16) | ((c as bv32) << 8) | (d as bv32)
  }

  function Word32(bytes: seq<bv8>): bv32
    requires |bytes| == 4
  {
    Join32(bytes[0], bytes[1], bytes[2], bytes[3])
  }

  function Join64(b0: bv8, b1: bv8, b2: bv8, b3: bv8, b4: bv8, b5: bv8, b6: bv8, b7: bv8): bv64 {
    ((b0 as bv64) << 56) | ((b1 as bv64) << 48) | ((b2 as bv64) << 40) | ((b3 as bv64) << 32)
    | ((b4 as bv64) << 24) | ((b5 as bv64) << 16) | ((b6 as bv64) << 8) | (b7 as bv64)
  }

  function Word64(bytes: seq<bv8>): bv64
    requires |bytes| == 8
  {
    Join64(bytes[0], bytes[1], bytes[2], bytes[3], bytes[4], bytes[5], bytes[6], bytes[7])
  }

  function Word16(bytes: seq<bv8>): bv16
    requires |bytes| == 2
  {
    ((bytes[0] as bv16) << 8) | (bytes[1] as bv16)
  }

  lemma Word16OfBytes(v: bv16)
    ensures Word16(BytesOf16(v)) == v
  {
  }

  lemma Join32OfBytes(v: bv32)
    ensures Join32(High8(High16(v)), Low8(High16(v)), High8(Low16(v)), Low8(Low16(v))) == v
  {
  }

  lemma Word32OfBytes(v: bv32)
    ensures Word32(BytesOf32(v)) == v
  {
    Join32OfBytes(v);
    hide Join32;
    hide High16;
    hide Low16;
    hide High8;
    hide Low8;
  }

  lemma Join64IsPair(b0: bv8, b1: bv8, b2: bv8, b3: bv8, b4: bv8, b5: bv8, b6: bv8, b7: bv8)
    ensures Join64(b0, b1, b2, b3, b4, b5, b6, b7) == Join(Join32(b0, b1, b2, b3), Join32(b4, b5, b6, b7))
  {
  }

  lemma Word64OfBytes(v: bv64)
    ensures Word64(BytesOf64(v)) == v
  {
    var hi, lo := BytesOf32(High(v)), BytesOf32(Low(v));
    Word32OfBytes(High(v));
    Word32OfBytes(Low(v));
    Join64IsPair(hi[0], hi[1], hi[2], hi[3], lo[0], lo[1], lo[2], lo[3]);
    JoinSplit(v);
    hide BytesOf32;
    hide Join32;
    hide Join64;
    hide Join;
    hide High;
    hide Low;
  }

  // ---------------------------------------------------------------- words and numbers

  // The number some bytes stand for, and a number below 256^k as k bytes.
  function ValueOf(bytes: seq<bv8>): nat {
    if bytes == [] then 0 else ValueOf(bytes[..|bytes| - 1]) * 256 + bytes[|bytes| - 1] as nat
  }

  // A number below 256 as a byte, by counting up.
  function ToByte(n: nat): bv8 {
    if n == 0 then 0 else ToByte(n - 1) + 1
  }

  function BytesOf(n: nat, k: nat): (bytes: seq<bv8>)
    ensures |bytes| == k
  {
    if k == 0 then [] else BytesOf(n / 256, k - 1) + [ToByte(n % 256)]
  }

  function Value64(v: bv64): nat {
    ValueOf(BytesOf64(v))
  }

  // n as a 64-bit word.
  function ToWord64(n: nat): bv64 {
    Word64(BytesOf(n % SIZE_T_RANGE, 8))
  }

  function Pow256(k: nat): (p: nat)
    ensures p > 0
  {
    if k == 0 then 1 else 256 * Pow256(k - 1)
  }

  lemma ByteNext(b: bv8)
    requires b as nat < 255
    ensures (b + 1) as nat == b as nat + 1
  {
  }

  lemma {:induction false} ByteValue(n: nat)
    requires n < 256
    ensures ToByte(n) as nat == n
  {
    if n > 0 {
      ByteValue(n - 1);
      ByteNext(ToByte(n - 1));
    }
  }

  lemma {:induction false} ValueBound(bytes: seq<bv8>)
    ensures ValueOf(bytes) < Pow256(|bytes|)
  {
    if bytes != [] {
      ValueBound(bytes[..|bytes| - 1]);
    }
  }

  function Pair16(hi: bv8, lo: bv8): bv16 {
    ((hi as bv16) << 8) | (lo as bv16)
  }

  function Pair32(hi: bv16, lo: bv16): bv32 {
    ((hi as bv32) << 16) | (lo as bv32)
  }

  lemma Pair16Value(a: bv8, b: bv8)
    ensures Pair16(a, b) as nat == a as nat * 0x100 + b as nat
  {
    PairsShift(a, b, 0, 0);
    Shifted16(a, b);
    hide Pair16;
  }

  lemma PairsShift(a: bv8, b: bv8, x: bv16, y: bv16)
    ensures Pair16(a, b) == ((a as bv16) << 8) | (b as bv16)
    ensures Pair32(x, y) == ((x as bv32) << 16) | (y as bv32)
  {
  }

  lemma Shifted16(a: bv8, b: bv8)
    ensures (((a as bv16) << 8) | (b as bv16)) as nat == a as nat * 0x100 + b as nat
  {
  }

  lemma Pair32Value(x: bv16, y: bv16)
    ensures Pair32(x, y) as nat == x as nat * 0x1_0000 + y as nat
  {
    PairsShift(0, 0, x, y);
    Shifted32(x, y);
    hide Pair32;
  }

  lemma Shifted32(x: bv16, y: bv16)
    ensures (((x as bv32) << 16) | (y as bv32)) as nat == x as nat * 0x1_0000 + y as nat
  {
  }

  lemma HalvesPair(v: bv16, w: bv32)
    ensures Pair16(High8(v), Low8(v)) == v && Pair32(High16(w), Low16(w)) == w
  {
  }

  /**
    A stored word has its highest byte first: as a number it is its bytes to the base 256.
  */
  lemma BytesAreDigits16(v: bv16)
    ensures var b := BytesOf16(v); v as nat == b[0] as nat * 0x100 + b[1] as nat
  {
    HalvesPair(v, 0);
    Pair16Value(High8(v), Low8(v));
    hide Pair16;
    hide High8;
    hide Low8;
  }

  lemma BytesAreDigits32(v: bv32)
    ensures v as nat == Digits4(BytesOf32(v), 0)
  {
    HalvesPair(0, v);
    Pair32Value(High16(v), Low16(v));
    BytesAreDigits16(High16(v));
    BytesAreDigits16(Low16(v));
    hide Pair32;
    hide High16;
    hide Low16;
    hide BytesOf16;
  }

  lemma BytesAreDigits64(v: bv64)
    ensures v as nat == Digits4(BytesOf64(v), 0) * 0x1_0000_0000 + Digits4(BytesOf64(v), 4)
  {
    JoinSplit(v);
    JoinValue(High(v), Low(v));
    BytesAreDigits32(High(v));
    BytesAreDigits32(Low(v));
    hide Join;
    hide High;
    hide Low;
    hide BytesOf32;
  }

  // Four bytes from the i-th on, the first one counting most.
  function Digits4(b: seq<bv8>, i: nat): nat
    requires i + 4 <= |b|
  {
    ((b[i] as nat * 0x100 + b[i + 1] as nat) * 0x100 + b[i + 2] as nat) * 0x100 + b[i + 3] as nat
  }

  // The value of a word is the word as a number.
  lemma ValueIsNumber(v: bv64)
    ensures Value64(v) == v as nat
  {
    BytesAreDigits64(v);
    hide BytesOf64;
    ValueOfEight(BytesOf64(v));
  }

  lemma ValueOfFour(b: seq<bv8>)
    requires |b| == 4
    ensures ValueOf(b) == Digits4(b, 0)
  {
    assert b[..3][..2] == b[..2] && b[..2][..1] == b[..1] && b[..1][..0] == [];
    assert ValueOf(b[..1]) == b[0] as nat;
    assert ValueOf(b[..2]) == ValueOf(b[..1]) * 0x100 + b[1] as nat;
    assert ValueOf(b[..3]) == ValueOf(b[..2]) * 0x100 + b[2] as nat;
  }

  lemma ValueOfEight(b: seq<bv8>)
    requires |b| == 8
    ensures ValueOf(b) == Digits4(b, 0) * 0x1_0000_0000 + Digits4(b, 4)
  {
    var a := b[..4];
    ValueOfFour(a);
    assert b[..7][..6] == b[..6] && b[..6][..5] == b[..5] && b[..5][..4] == a;
    assert ValueOf(b[..5]) == ValueOf(a) * 0x100 + b[4] as nat;
    assert ValueOf(b[..6]) == ValueOf(b[..5]) * 0x100 + b[5] as nat;
    assert ValueOf(b[..7]) == ValueOf(b[..6]) * 0x100 + b[6] as nat;
    assert ValueOf(b) == ValueOf(b[..7]) * 0x100 + b[7] as nat;
  }

  lemma {:induction false} ValueOfBytesOf(n: nat, k: nat)
    requires n < Pow256(k)
    ensures ValueOf(BytesOf(n, k)) == n
  {
    if k > 0 {
      ValueOfBytesOf(n / 256, k - 1);
      ByteValue(n % 256);
      var bytes := BytesOf(n, k);
      assert bytes[..k - 1] == BytesOf(n / 256, k - 1);
    }
  }

  lemma Pow256Eight()
    ensures Pow256(8) == SIZE_T_RANGE
  {
    assert Pow256(4) == OFFSET_RANGE;
  }

  lemma Split16(a: bv8, b: bv8, c: bv8, d: bv8)
    ensures var v := Join32(a, b, c, d);
            High8(High16(v)) == a && Low8(High16(v)) == b && High8(Low16(v)) == c && Low8(Low16(v)) == d
  {
  }

  lemma BytesOfWord32(bytes: seq<bv8>)
    requires |bytes| == 4
    ensures BytesOf32(Word32(bytes)) == bytes
  {
    Split16(bytes[0], bytes[1], bytes[2], bytes[3]);
    hide Join32;
    hide High16;
    hide Low16;
    hide High8;
    hide Low8;
  }

  lemma BytesOfWord64(bytes: seq<bv8>)
    requires |bytes| == 8
    ensures BytesOf64(Word64(bytes)) == bytes
  {
    hide Join32;
    hide Join64;
    hide Join;
    hide High;
    hide Low;
    hide BytesOf32;
    BytesOfWord32(bytes[..4]);
    BytesOfWord32(bytes[4..]);
    Join64IsPair(bytes[0], bytes[1], bytes[2], bytes[3], bytes[4], bytes[5], bytes[6], bytes[7]);
    SplitJoin(Word32(bytes[..4]), Word32(bytes[4..]));
    assert bytes == bytes[..4] + bytes[4..];
  }

  /**
    A number below 2^64 is the value of its word.
  */
  lemma ValueOfWord(n: nat)
    requires n < SIZE_T_RANGE
    ensures Value64(ToWord64(n)) == n
  {
    hide Word64;
    hide BytesOf64;
    hide BytesOf;
    hide ValueOf;
    Pow256Eight();
    ValueOfBytesOf(n, 8);
    BytesOfWord64(BytesOf(n, 8));
  }

  // ---------------------------------------------------------------- storing

  datatype Stored = Stored(data: seq<bv8>, ok: bool)

  // Bytes written one after the other; the first one outside the memory stops with an exception.
  function Store(data: seq<bv8>, addr: nat, offset: nat, bytes: seq<bv8>): (r: Stored)
    ensures |r.data| == |data|
    decreases |bytes|
  {
    if bytes == [] then Stored(data, true)
    else
      var p := At(addr, offset);
      if p >= |data| then Stored(data, false)
      else Store(data[p := bytes[0]], addr, Further(offset, 1), bytes[1..])
  }

  lemma {:induction false} StoreConcat(data: seq<bv8>, addr: nat, offset: nat, a: seq<bv8>, b: seq<bv8>)
    ensures var first := Store(data, addr, offset, a);
            Store(data, addr, offset, a + b)
            == if first.ok then Store(first.data, addr, if a == [] then offset else Further(offset, |a|), b) else first
    decreases |a|
  {
    if a == [] {
      assert a + b == b;
    } else {
      hide At;
      assert (a + b)[1..] == a[1..] + b;
      var p := At(addr, offset);
      if p < |data| {
        StoreConcat(data[p := a[0]], addr, Further(offset, 1), a[1..], b);
        FurtherTwice(offset, 1, |a| - 1);
      }
    }
  }

  lemma FurtherTwice(offset: nat, j: nat, k: nat)
    ensures Further(Further(offset, j), k) == Further(offset, j + k)
  {
  }

  lemma PutFirst(data: seq<bv8>, p: nat, bytes: seq<bv8>)
    requires bytes != [] && p + |bytes| <= |data|
    ensures var data' := data[p := bytes[0]];
            data'[..p + 1] + bytes[1..] + data'[p + |bytes|..] == data[..p] + bytes + data[p + |bytes|..]
  {
  }

  /**
    A write that stays inside the memory puts the bytes in place and leaves every other byte alone.
  */
  lemma {:induction false} StoreInRange(data: seq<bv8>, addr: nat, offset: nat, bytes: seq<bv8>)
    requires addr + offset + |bytes| <= |data| <= SIZE_T_RANGE && offset + |bytes| <= OFFSET_RANGE
    ensures var p := addr + offset;
            Store(data, addr, offset, bytes) == Stored(data[..p] + bytes + data[p + |bytes|..], true)
    decreases |bytes|
  {
    var p := addr + offset;
    if bytes == [] {
      assert data[..p] + [] + data[p..] == data;
    } else if |bytes| == 1 {
      StoreLast(data, addr, offset, bytes[0]);
      assert bytes == [bytes[0]];
      PutFirst(data, p, bytes);
      assert data[p := bytes[0]] == data[..p] + bytes + data[p + 1..];
    } else {
      StoreNext(data, addr, offset, bytes);
      hide Store;
      StoreInRange(data[p := bytes[0]], addr, offset + 1, bytes[1..]);
      PutFirst(data, p, bytes);
    }
  }

  lemma StoreLast(data: seq<bv8>, addr: nat, offset: nat, b: bv8)
    requires addr + offset < |data| <= SIZE_T_RANGE
    ensures Store(data, addr, offset, [b]) == Stored(data[addr + offset := b], true)
  {
    assert [b][1..] == [];
  }

  lemma StoreNext(data: seq<bv8>, addr: nat, offset: nat, bytes: seq<bv8>)
    requires addr + offset < |data| <= SIZE_T_RANGE && |bytes| > 1 && offset + |bytes| <= OFFSET_RANGE
    ensures Store(data, addr, offset, bytes) == Store(data[addr + offset := bytes[0]], addr, offset + 1, bytes[1..])
  {
    assert At(addr, offset) == addr + offset && Further(offset, 1) == offset + 1;
  }

  /**
    A write that runs over the end puts the bytes that fit in place, and stops with an exception.
  */
  lemma {:induction false} StoreStopsAtEnd(data: seq<bv8>, addr: nat, offset: nat, bytes: seq<bv8>)
    requires addr + offset <= |data| < addr + offset + |bytes| && |data| < SIZE_T_RANGE
    requires offset + |bytes| <= OFFSET_RANGE
    ensures var p := addr + offset;
            Store(data, addr, offset, bytes) == Stored(data[..p] + bytes[..|data| - p], false)
  {
    var p := addr + offset;
    var fit, rest := bytes[..|data| - p], bytes[|data| - p..];
    var data' := data[..p] + fit;
    assert bytes == fit + rest && |data'| == |data| && data[|data|..] == [];
    var next := if fit == [] then offset else Further(offset, |fit|);
    assert data[..p] + fit + data[|data|..] == data';
    assert At(addr, next) == |data|;
    StoreOutside(data', addr, next, rest);
    hide Store;
    StoreConcat(data, addr, offset, fit, rest);
    StoreInRange(data, addr, offset, fit);
    hide *;
  }

  lemma StoreOutside(data: seq<bv8>, addr: nat, offset: nat, bytes: seq<bv8>)
    requires At(addr, offset) >= |data| && bytes != []
    ensures Store(data, addr, offset, bytes) == Stored(data, false)
  {
  }

  // Offsets count in 32 bits: the byte after offset 2^32 - 1 goes to offset 0.
  lemma OffsetWraps(data: seq<bv8>, addr: nat, a: bv8, b: bv8)
    requires addr + 0xffff_ffff < |data| <= SIZE_T_RANGE
    ensures Store(data, addr, 0xffff_ffff, [a, b]) == Stored(data[addr + 0xffff_ffff := a][addr := b], true)
  {
    var data' := data[addr + 0xffff_ffff := a];
    assert [a, b][1..] == [b] && [b][1..] == [];
    assert At(addr, 0xffff_ffff) == addr + 0xffff_ffff && Further(0xffff_ffff, 1) == 0 && At(addr, 0) == addr;
    assert Store(data', addr, 0, [b]) == Store(data'[addr := b], addr, Further(0, 1), []);
  }

  /**
    The memory object.
  */
  class Storage {
    const data: array<bv8>

    constructor (size: nat)
      requires size <= SIZE_T_RANGE
      ensures data.Length == size && fresh(data) && forall i :: 0 <= i < size ==> data[i] == 0
    {
      data := new bv8[size](_ => 0);
    }

    predicate ValidateAddrSafe(addr: nat) {
      addr < data.Length
    }

    method WriteByte(addr: nat, offset: nat, value: bv8) returns (ok: bool)
      modifies data
      ensures Stored(data[..], ok) == Store(old(data[..]), addr, offset, [value])
    {
      var p := At(addr, offset);
      if !ValidateAddrSafe(p) {
        return false;
      }
      data[p] := value;
      return true;
    }

    method Write16(addr: nat, offset: nat, value: bv16) returns (ok: bool)
      modifies data
      ensures Stored(data[..], ok) == Store(old(data[..]), addr, offset, BytesOf16(value))
    {
      hide High8;
      hide Low8;
      var bytes := BytesOf16(value);
      StoreConcat(data[..], addr, offset, [bytes[0]], [bytes[1]]);
      ok := WriteByte(addr, offset, High8(value));
      if ok {
        ok := WriteByte(addr, Further(offset, 1), Low8(value));
      }
    }

    method Write32(addr: nat, offset: nat, value: bv32) returns (ok: bool)
      modifies data
      ensures Stored(data[..], ok) == Store(old(data[..]), addr, offset, BytesOf32(value))
    {
      hide Store;
      StoreConcat(data[..], addr, offset, BytesOf16(High16(value)), BytesOf16(Low16(value)));
      ok := Write16(addr, offset, High16(value));
      if ok {
        ok := Write16(addr, Further(offset, 2), Low16(value));
      }
    }

    method Write64(addr: nat, offset: nat, value: bv64) returns (ok: bool)
      modifies data
      ensures Stored(data[..], ok) == Store(old(data[..]), addr, offset, BytesOf64(value))
    {
      hide Store;
      StoreConcat(data[..], addr, offset, BytesOf32(High(value)), BytesOf32(Low(value)));
      ok := Write32(addr, offset, High(value));
      if ok {
        ok := Write32(addr, Further(offset, 4), Low(value));
      }
    }

    /**
      Reads byteSize bytes. Past the end an unsafe read throws and a safe one stops; a range that
      wraps around the address space is empty.
    */
    method ReadData(address: nat, offset: nat, byteSize: nat, safe: bool) returns (result: Option<seq<bv8>>)
      requires data.Length <= SIZE_T_RANGE
      ensures var from := At(address, offset);
              var to := At(from, byteSize);
              if to <= from then result == Some([])
              else if to <= data.Length then result == Some(data[from..to])
              else if safe then result == Some(if from < data.Length then data[from..] else [])
              else result == None
    {
      var bytes := [];
      var addr := At(address, offset);
      var end := At(addr, byteSize);
      var curAddr := addr;
      while curAddr < end
        invariant addr <= curAddr && (curAddr <= end || (curAddr == addr && end <= addr))
        invariant curAddr <= data.Length || curAddr == addr
        invariant bytes == if addr <= data.Length then data[addr..curAddr] else []
      {
        if !ValidateAddrSafe(curAddr) {
          if safe {
            break;
          }
          return None;
        }
        bytes := bytes + [data[curAddr]];
        curAddr := curAddr + 1;
      }
      assert data.Length >= addr ==> data[addr..data.Length] == data[addr..];
      return Some(bytes);
    }

    // The result is put together from its bytes, so the range must not wrap to an empty one.
    method Read4Bytes(address: nat, offset: nat) returns (result: Option<bv32>)
      requires data.Length <= SIZE_T_RANGE && At(address, offset) + 4 < SIZE_T_RANGE
      ensures var p := At(address, offset);
              result == if p + 4 <= data.Length then Some(Word32(data[p..p + 4])) else None
    {
      var bytes := ReadData(address, offset, 4, false);
      if bytes.None? {
        return None;
      }
      return Some(Word32(bytes.value));
    }

    method Read8Bytes(address: nat) returns (result: Option<bv64>)
      requires data.Length <= SIZE_T_RANGE && address + 8 < SIZE_T_RANGE
      ensures result == if address + 8 <= data.Length then Some(Word64(data[address..address + 8])) else None
    {
      var bytes := ReadData(address, 0, 8, false);
      if bytes.None? {
        return None;
      }
      return Some(Word64(bytes.value));
    }
  }

  // ---------------------------------------------------------------- what is written is read back

  predicate InRange(data: seq<bv8>, addr: nat, offset: nat, n: nat) {
    addr + offset + n <= |data| && |data| < SIZE_T_RANGE && offset + n <= OFFSET_RANGE
  }

  /**
    A word stored in range is what the matching read returns, and no other byte has changed.
  */
  lemma {:induction false} StoredByteReadsBack(data: seq<bv8>, addr: nat, offset: nat, v: bv8)
    requires InRange(data, addr, offset, 1)
    ensures var p := addr + offset;
            var stored := Store(data, addr, offset, [v]);
            && stored.ok && stored.data[p] == v
            && stored.data[..p] == data[..p] && stored.data[p + 1..] == data[p + 1..]
  {
    hide Store;
    var p := addr + offset;
    StoreInRange(data, addr, offset, [v]);
    InTheMiddle(data[..p], [v], data[p + 1..]);
  }

  lemma {:induction false} StoredHalfReadsBack(data: seq<bv8>, addr: nat, offset: nat, v: bv16)
    requires InRange(data, addr, offset, 2)
    ensures var p := addr + offset;
            var stored := Store(data, addr, offset, BytesOf16(v));
            && stored.ok && stored.data[p..p + 2] == BytesOf16(v)
            && Word16(stored.data[p..p + 2]) == v
            && stored.data[..p] == data[..p] && stored.data[p + 2..] == data[p + 2..]
  {
    hide Store;
    var p := addr + offset;
    StoreInRange(data, addr, offset, BytesOf16(v));
    Word16OfBytes(v);
    hide Word16;
    hide BytesOf16;
    InTheMiddle(data[..p], BytesOf16(v), data[p + 2..]);
  }

  lemma {:induction false} StoredWordReadsBack(data: seq<bv8>, addr: nat, offset: nat, v: bv32)
    requires InRange(data, addr, offset, 4)
    ensures var p := addr + offset;
            var stored := Store(data, addr, offset, BytesOf32(v));
            && stored.ok && Word32(stored.data[p..p + 4]) == v
            && stored.data[..p] == data[..p] && stored.data[p + 4..] == data[p + 4..]
  {
    hide Word32;
    hide BytesOf32;
    hide Store;
    var p := addr + offset;
    StoreInRange(data, addr, offset, BytesOf32(v));
    Word32OfBytes(v);
    InTheMiddle(data[..p], BytesOf32(v), data[p + 4..]);
  }

  lemma {:induction false} StoredDoubleReadsBack(data: seq<bv8>, addr: nat, offset: nat, v: bv64)
    requires InRange(data, addr, offset, 8)
    ensures var p := addr + offset;
            var stored := Store(data, addr, offset, BytesOf64(v));
            && stored.ok && Word64(stored.data[p..p + 8]) == v
            && stored.data[..p] == data[..p] && stored.data[p + 8..] == data[p + 8..]
  {
    hide Word64;
    hide BytesOf64;
    hide Store;
    var p := addr + offset;
    StoreInRange(data, addr, offset, BytesOf64(v));
    Word64OfBytes(v);
    InTheMiddle(data[..p], BytesOf64(v), data[p + 8..]);
  }

  lemma InTheMiddle(a: seq<bv8>, b: seq<bv8>, c: seq<bv8>)
    ensures var s := a + b + c; s[|a|..|a| + |b|] == b && s[..|a|] == a && s[|a| + |b|..] == c
  {
  }
}
