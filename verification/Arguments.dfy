/**
  Kernel arguments in memory: a table of pointers from byte 48 on, and the data they point at.
*/
module Arguments {
  import opened Wrappers
  import opened MachineWords
  import opened Storages

  const TABLE: nat := 48

  datatype Kind = ScalarKind | VectorKind | StructKind | ImageKind | SamplerKind | EventKind | PointerKind

  datatype Argument =
    Argument(kind: Kind, size: nat, readPermission: bool, writePermission: bool, data: Option<seq<bv8>>)

  // The source reads `size` bytes of the data when there is any.
  predicate HasBytes(a: Argument) {
    a.data.Some? ==> a.size <= |a.data.value|
  }

  predicate AllHaveBytes(args: seq<Argument>) {
    forall i :: 0 <= i < |args| ==> HasBytes(args[i])
  }

  function Bytes(a: Argument): seq<bv8>
    requires a.data.Some? && HasBytes(a)
  {
    a.data.value[..a.size]
  }

  // A position as the word stored in the table, and as the 32-bit offset of a write.
  function Pointer(n: nat): bv64 {
    ToWord64(n)
  }

  function Offset32(n: nat): nat {
    n % OFFSET_RANGE
  }

  // ---------------------------------------------------------------- evaluateArgSize

  function ArgSize(a: Argument): Option<nat> {
    if a.data.None? then Some(0)
    else match a.kind
      case PointerKind => Some(8)
      case ScalarKind => Some(a.size)
      case _ => None
  }

  // The space before the values: eight bytes a pointer; nothing if an argument is of another kind.
  function ArgsSize(args: seq<Argument>): Option<nat> {
    if args == [] then Some(0)
    else
      var before := ArgsSize(args[..|args| - 1]);
      var last := ArgSize(args[|args| - 1]);
      if before.Some? && last.Some? then Some(before.value + last.value) else None
  }

  // Something other than a pointer or a scalar is refused.
  method EvaluateArgSize(args: seq<Argument>) returns (result: Option<nat>)
    ensures result == ArgsSize(args)
    ensures result.Some? <==> forall i :: 0 <= i < |args| && args[i].data.Some? ==> args[i].kind in {ScalarKind, PointerKind}
    ensures result.Some? ==> result.value == Space(args)
  {
    SizeOfArguments(args, |args|);
    assert args[..|args|] == args;
    var sum := 0;
    for i := 0 to |args|
      invariant ArgsSize(args[..i]) == Some(sum)
    {
      assert args[..i + 1][..i] == args[..i];
      if args[i].data.None? {
        continue;
      }
      match args[i].kind {
        case PointerKind => sum := sum + 8;
        case ScalarKind => sum := sum + args[i].size;
        case _ =>
          NoSizeFor(args, i);
          return None;
      }
    }
    assert args[..|args|] == args;
    return Some(sum);
  }

  lemma {:induction false} NoSizeFor(args: seq<Argument>, i: nat)
    requires i < |args| && ArgSize(args[i]).None?
    ensures ArgsSize(args).None?
  {
    if i < |args| - 1 {
      NoSizeFor(args[..|args| - 1], i);
    }
  }

  // ---------------------------------------------------------------- writeArg

  // The memory and the two running positions; an exception leaves them where they are.
  datatype Progress = Progress(data: seq<bv8>, addr: nat, offset: nat, ok: bool)

  function WriteValue(p: Progress, bytes: seq<bv8>): Progress {
    var s := Store(p.data, p.addr, Offset32(p.offset), bytes);
    if s.ok then Progress(s.data, p.addr, p.offset + |bytes|, true) else Progress(s.data, p.addr, p.offset, false)
  }

  function WritePointer(p: Progress): Progress {
    var s := Store(p.data, p.addr, 0, BytesOf64(Pointer(p.addr + p.offset)));
    p.(data := s.data, ok := s.ok)
  }

  function NextEntry(p: Progress): Progress {
    if p.ok then p.(addr := (p.addr + 8) % SIZE_T_RANGE) else p
  }

  function Write(p: Progress, a: Argument): Progress
    requires HasBytes(a)
  {
    if a.data.None? then p
    else match a.kind
      case PointerKind =>
        var q := WritePointer(p);
        NextEntry(if q.ok && a.readPermission then WriteValue(q, Bytes(a)) else q)
      case ScalarKind => WriteValue(p, Bytes(a))
      case _ => p.(ok := false)
  }

  lemma {:induction false} OffsetFurther(offset: nat, i: nat)
    ensures (if i == 0 then Offset32(offset) else Further(Offset32(offset), i)) == Offset32(offset + i)
  {
    FurtherTwice(0, offset, i);
  }

  // The loop over the bytes of a value.
  method WriteBytes(storage: Storage, addr: nat, offsetForValue: nat, bytes: seq<bv8>) returns (offset: nat, ok: bool)
    modifies storage.data
    ensures Stored(storage.data[..], ok) == Store(old(storage.data[..]), addr, Offset32(offsetForValue), bytes)
    ensures ok ==> offset == offsetForValue + |bytes|
  {
    hide *;
    ghost var before := storage.data[..];
    ghost var from := Offset32(offsetForValue);
    offset, ok := offsetForValue, true;
    StoreNothing(before, addr, from);
    for i := 0 to |bytes|
      invariant offset == offsetForValue + i && ok
      invariant Store(before, addr, from, bytes[..i]) == Stored(storage.data[..], true)
    {
      OffsetFurther(offsetForValue, i);
      StoreConcat(before, addr, from, bytes[..i], [bytes[i]]);
      assert bytes[..i] + [bytes[i]] == bytes[..i + 1];
      ok := storage.WriteByte(addr, Offset32(offset), bytes[i]);
      if !ok {
        StoreStops(before, addr, from, bytes[..i + 1], bytes[i + 1..]);
        assert bytes[..i + 1] + bytes[i + 1..] == bytes;
        return;
      }
      offset := offset + 1;
    }
    assert bytes[..|bytes|] == bytes;
  }

  lemma StoreStops(data: seq<bv8>, addr: nat, offset: nat, a: seq<bv8>, b: seq<bv8>)
    requires !Store(data, addr, offset, a).ok
    ensures Store(data, addr, offset, a + b) == Store(data, addr, offset, a)
  {
    StoreConcat(data, addr, offset, a, b);
  }

  lemma StoreNothing(data: seq<bv8>, addr: nat, offset: nat)
    ensures Store(data, addr, offset, []) == Stored(data, true)
  {
  }

  method WriteArg(storage: Storage, addr: nat, offsetForValue: nat, arg: Argument)
    returns (addr': nat, offset': nat, ok: bool)
    requires HasBytes(arg)
    modifies storage.data
    ensures var p := Write(Progress(old(storage.data[..]), addr, offsetForValue, true), arg);
            && storage.data[..] == p.data && ok == p.ok
            && (ok ==> addr' == p.addr && offset' == p.offset)
  {
    hide Store;
    hide Pointer;
    hide BytesOf64;
    hide Offset32;
    addr', offset', ok := addr, offsetForValue, true;
    if arg.data.None? {
      return;
    }
    match arg.kind {
      case PointerKind =>
        ok := storage.Write64(addr, 0, Pointer(addr + offsetForValue));
        if ok && arg.readPermission {
          offset', ok := WriteBytes(storage, addr, offsetForValue, arg.data.value[..arg.size]);
        }
        addr' := (addr + 8) % SIZE_T_RANGE;
      case ScalarKind =>
        offset', ok := WriteBytes(storage, addr, offsetForValue, arg.data.value[..arg.size]);
      case _ =>
        ok := false;
    }
  }

  // ---------------------------------------------------------------- all arguments

  function WriteAll(p: Progress, args: seq<Argument>): Progress
    requires AllHaveBytes(args)
  {
    if args == [] then p
    else
      var q := WriteAll(p, args[..|args| - 1]);
      if q.ok then Write(q, args[|args| - 1]) else q
  }

  // The argument part of executeKernel: the values start after the table, one entry an argument.
  method WriteArgs(storage: Storage, args: seq<Argument>) returns (argAddresses: seq<nat>, ok: bool)
    requires AllHaveBytes(args)
    modifies storage.data
    ensures ArgsSize(args).None? ==> !ok && storage.data[..] == old(storage.data[..])
    ensures ArgsSize(args).Some? ==>
              var p := WriteAll(Progress(old(storage.data[..]), TABLE, ArgsSize(args).value, true), args);
              storage.data[..] == p.data && ok == p.ok
    ensures ok ==> |argAddresses| == |args| && ArgsSize(args).Some?
    ensures ok && Fit(old(storage.data[..]), args) ==> forall i :: 0 <= i < |args| ==> argAddresses[i] == EntryAt(args, i)
    ensures ok ==> forall i :: 0 <= i < |args| ==>
                                 argAddresses[i] == WriteAll(Progress(old(storage.data[..]), TABLE, ArgsSize(args).value, true), args[..i]).addr
  {
    hide Write;
    argAddresses, ok := [], true;
    var size := EvaluateArgSize(args);
    if size.None? {
      return argAddresses, false;
    }
    var addr, offsetForValues := TABLE, size.value;
    ghost var start := Progress(storage.data[..], TABLE, size.value, true);
    for i := 0 to |args|
      invariant ok && WriteAll(start, args[..i]) == Progress(storage.data[..], addr, offsetForValues, true)
      invariant |argAddresses| == i
      invariant forall j :: 0 <= j < i ==> argAddresses[j] == WriteAll(start, args[..j]).addr
    {
      assert args[..i + 1][..i] == args[..i];
      argAddresses := argAddresses + [addr];
      addr, offsetForValues, ok := WriteArg(storage, addr, offsetForValues, args[i]);
      if !ok {
        FailureStays(start, args, i + 1);
        return;
      }
    }
    assert args[..|args|] == args;
    if Fit(old(storage.data[..]), args) {
      AddressesAreEntries(old(storage.data[..]), args);
    }
  }

  lemma {:induction false} AddressesAreEntries(data: seq<bv8>, args: seq<Argument>)
    requires Fit(data, args)
    ensures AllHaveBytes(args)
    ensures forall i :: 0 <= i < |args| ==>
                          WriteAll(Progress(data, TABLE, Space(args), true), args[..i]).addr == EntryAt(args, i)
  {
    PassableSize(args);
    hide *;
    forall i | 0 <= i < |args|
      ensures WriteAll(Progress(data, TABLE, Space(args), true), args[..i]).addr == EntryAt(args, i)
    {
      ArgsArePlaced(data, args, i);
    }
  }

  lemma {:induction false} FailureStays(p: Progress, args: seq<Argument>, i: nat)
    requires AllHaveBytes(args)
    requires i <= |args| && !WriteAll(p, args[..i]).ok
    ensures WriteAll(p, args) == WriteAll(p, args[..i])
    decreases |args|
  {
    hide Write;
    if i == |args| {
      assert args[..i] == args;
    } else {
      assert args[..|args| - 1][..i] == args[..i];
      FailureStays(p, args[..|args| - 1], i);
    }
  }

  lemma WithoutOffset(p: bv64)
    ensures At(Value64(p), 0) == Value64(p)
  {
    ValueBound(BytesOf64(p));
    Pow256Eight();
    hide ValueOf;
    hide BytesOf64;
  }

  // The bytes from one address to another; nothing if the range has wrapped around.
  function Range(data: seq<bv8>, from: nat, to: nat): Option<seq<bv8>> {
    if to <= from then Some([]) else if to <= |data| then Some(data[from..to]) else None
  }

  /**
    readArgs: a writable pointer argument is read back through its table entry, with its size cut to
    32 bits. A scalar argument with data is asserted away.
  */
  method ReadArgs(storage: Storage, addr: nat, arg: Argument) returns (output: Option<seq<bv8>>, ok: bool)
    requires storage.data.Length <= SIZE_T_RANGE && addr + 8 < SIZE_T_RANGE
    requires arg.data.Some? ==> arg.kind != ScalarKind
    ensures arg.data.Some? && arg.kind == PointerKind && arg.writePermission ==>
              if addr + 8 <= storage.data.Length then
                var p := Value64(Word64(storage.data[addr..addr + 8]));
                output == Range(storage.data[..], p, At(p, Offset32(arg.size))) && ok == output.Some?
              else !ok && output == None
    ensures arg.data.None? || (arg.kind == PointerKind && !arg.writePermission) ==> ok && output == None
    ensures arg.data.Some? && arg.kind != PointerKind ==> !ok && output == None
  {
    if arg.data.None? {
      return None, true;
    }
    match arg.kind {
      case PointerKind =>
        if !arg.writePermission {
          return None, true;
        }
        var realAddr := storage.Read8Bytes(addr);
        if realAddr.None? {
          return None, false;
        }
        WithoutOffset(realAddr.value);
        hide Word64;
        hide Value64;
        hide At;
        var data := storage.ReadData(Value64(realAddr.value), 0, Offset32(arg.size), false);
        return data, data.Some?;
      case _ =>
        return None, false;
    }
  }

  // ---------------------------------------------------------------- what an argument takes

  predicate HasEntry(a: Argument) {
    a.data.Some? && a.kind == PointerKind
  }

  predicate IsStored(a: Argument) {
    a.data.Some? && (a.kind == ScalarKind || (a.kind == PointerKind && a.readPermission))
  }

  function StoredBytes(a: Argument): (bytes: seq<bv8>)
    requires HasBytes(a)
    ensures |bytes| == if IsStored(a) then a.size else 0
  {
    if IsStored(a) then Bytes(a) else []
  }

  // The code knows what to do with the argument.
  predicate Passable(a: Argument) {
    HasBytes(a) && (a.data.Some? ==> a.kind == ScalarKind || a.kind == PointerKind)
  }

  predicate AllPassable(args: seq<Argument>) {
    forall i :: 0 <= i < |args| ==> Passable(args[i])
  }

  // Among the first k arguments: entries, bytes of scalars, bytes stored.
  function Entries(args: seq<Argument>, k: nat): nat
    requires k <= |args|
  {
    if k == 0 then 0 else Entries(args, k - 1) + if HasEntry(args[k - 1]) then 1 else 0
  }

  function Scalars(args: seq<Argument>, k: nat): nat
    requires k <= |args|
  {
    if k == 0 then 0
    else Scalars(args, k - 1) + if args[k - 1].data.Some? && args[k - 1].kind == ScalarKind then args[k - 1].size else 0
  }

  function Sum(args: seq<Argument>, k: nat): nat
    requires k <= |args|
  {
    if k == 0 then 0 else Sum(args, k - 1) + if IsStored(args[k - 1]) then args[k - 1].size else 0
  }

  // The space left for the table: eight bytes an entry, and the size of every scalar.
  function Space(args: seq<Argument>): nat {
    8 * Entries(args, |args|) + Scalars(args, |args|)
  }

  // Where the next entry of the table is, and where the bytes of argument i start.
  function EntryAt(args: seq<Argument>, i: nat): nat
    requires i <= |args|
  {
    TABLE + 8 * Entries(args, i)
  }

  function AreaAt(args: seq<Argument>, i: nat): nat
    requires i <= |args|
  {
    EntryAt(args, i) + Space(args) + Sum(args, i)
  }

  /**
    Space is set aside exactly if every argument with data is a pointer or a scalar: eight bytes for each
    pointer, whatever it points at, and its size for each scalar.
  */
  lemma {:induction false} SizeOfArguments(args: seq<Argument>, k: nat)
    requires k <= |args|
    ensures ArgsSize(args[..k]).Some? <==>
              forall i :: 0 <= i < k && args[i].data.Some? ==> args[i].kind in {ScalarKind, PointerKind}
    ensures ArgsSize(args[..k]).Some? ==> ArgsSize(args[..k]).value == 8 * Entries(args, k) + Scalars(args, k)
  {
    if k > 0 {
      SizeOfArguments(args, k - 1);
      assert args[..k][..k - 1] == args[..k - 1];
    }
  }

  lemma PassableSize(args: seq<Argument>)
    requires AllPassable(args)
    ensures ArgsSize(args) == Some(Space(args)) && AllHaveBytes(args)
  {
    SizeOfArguments(args, |args|);
    assert args[..|args|] == args;
  }

  lemma {:induction false} EntriesGrow(args: seq<Argument>, i: nat, j: nat)
    requires i <= j <= |args|
    ensures Entries(args, i) <= Entries(args, j)
    ensures i < j && HasEntry(args[i]) ==> Entries(args, i) < Entries(args, j)
    ensures Sum(args, i) <= Sum(args, j)
    ensures i < j && IsStored(args[i]) ==> Sum(args, i) + args[i].size <= Sum(args, j)
    decreases j
  {
    if i < j {
      EntriesGrow(args, i, j - 1);
    }
  }

  // ---------------------------------------------------------------- the layout

  // Arguments that fit in the memory: the table, and the bytes of every argument that has some.
  ghost predicate Fit(data: seq<bv8>, args: seq<Argument>) {
    && AllPassable(args) && EntryAt(args, |args|) <= |data| < OFFSET_RANGE
    && forall i: nat :: i < |args| && StoredBytes(args[i]) != [] ==> AreaAt(args, i) + args[i].size <= |data|
  }

  predicate Holds(data: seq<bv8>, p: nat, bytes: seq<bv8>) {
    bytes != [] ==> p + |bytes| <= |data| && data[p..p + |bytes|] == bytes
  }

  function Put(data: seq<bv8>, p: nat, bytes: seq<bv8>): (after: seq<bv8>)
    requires bytes != [] ==> p + |bytes| <= |data|
    ensures |after| == |data|
  {
    if bytes == [] then data else data[..p] + bytes + data[p + |bytes|..]
  }

  lemma PutHolds(data: seq<bv8>, p: nat, bytes: seq<bv8>)
    requires bytes != [] ==> p + |bytes| <= |data|
    ensures Holds(Put(data, p, bytes), p, bytes)
  {
  }

  lemma PutElsewhere(data: seq<bv8>, p: nat, bytes: seq<bv8>, q: nat, other: seq<bv8>)
    requires bytes != [] ==> p + |bytes| <= |data|
    requires Holds(data, q, other) && (p + |bytes| <= q || q + |other| <= p)
    ensures Holds(Put(data, p, bytes), q, other)
  {
    var after := Put(data, p, bytes);
    if bytes != [] && other != [] {
      forall i | 0 <= i < |other| ensures after[q + i] == other[i] {
        assert data[q..q + |other|][i] == other[i];
      }
      assert after[q..q + |other|] == other;
    }
  }

  lemma HeaderStays(data: seq<bv8>, p: nat, bytes: seq<bv8>)
    requires TABLE <= p && TABLE <= |data| && (bytes != [] ==> p + |bytes| <= |data|)
    ensures Put(data, p, bytes)[..TABLE] == data[..TABLE]
  {
  }

  // A whole write inside the memory, in terms of Put.
  lemma StoreIsPut(data: seq<bv8>, addr: nat, offset: nat, bytes: seq<bv8>)
    requires |data| < OFFSET_RANGE && (bytes != [] ==> addr + offset + |bytes| <= |data|)
    ensures Store(data, addr, Offset32(offset), bytes) == Stored(Put(data, addr + offset, bytes), true)
  {
    hide Store;
    if bytes == [] {
      StoreNothing(data, addr, Offset32(offset));
    } else {
      assert Offset32(offset) == offset;
      hide Offset32;
      StoreInRange(data, addr, offset, bytes);
    }
  }

  // The entry of an argument that has one.
  function EntryBytes(args: seq<Argument>, i: nat): seq<bv8>
    requires i < |args|
  {
    if HasEntry(args[i]) then BytesOf64(Pointer(AreaAt(args, i))) else []
  }

  // There is room for the entry and the bytes of argument k.
  predicate Room(data: seq<bv8>, args: seq<Argument>, k: nat)
    requires k < |args| && Passable(args[k])
  {
    && (HasEntry(args[k]) ==> EntryAt(args, k) + 8 <= |data|)
    && (StoredBytes(args[k]) != [] ==> AreaAt(args, k) + |StoredBytes(args[k])| <= |data|)
  }

  // Memory after argument k.
  function WithArgument(data: seq<bv8>, args: seq<Argument>, k: nat): (after: seq<bv8>)
    requires k < |args| && Passable(args[k]) && Room(data, args, k)
    ensures |after| == |data|
  {
    Put(Put(data, EntryAt(args, k), EntryBytes(args, k)), AreaAt(args, k), StoredBytes(args[k]))
  }

  lemma {:induction false} ArgumentFits(data: seq<bv8>, args: seq<Argument>, k: nat)
    requires k < |args| && Fit(data, args)
    ensures Passable(args[k]) && Room(data, args, k)
    ensures HasEntry(args[k]) ==> EntryAt(args, k) + 8 == EntryAt(args, k + 1) < SIZE_T_RANGE
  {
    EntriesGrow(args, k, |args|);
    EntriesGrow(args, k + 1, |args|);
  }

  /**
    One argument: a pointer gets an entry that points at where its bytes go, or would go, and the next
    entry is eight bytes on; a scalar gets no entry; only bytes written move the position for the next.
  */
  lemma {:induction false} WriteOne(p: Progress, args: seq<Argument>, k: nat)
    requires k < |args| && Fit(p.data, args) && p.ok && Passable(args[k])
    requires p.addr == EntryAt(args, k) && p.offset == Space(args) + Sum(args, k)
    ensures Room(p.data, args, k)
    ensures Write(p, args[k])
            == Progress(WithArgument(p.data, args, k), EntryAt(args, k + 1), Space(args) + Sum(args, k + 1), true)
  {
    hide Store;
    hide BytesOf64;
    hide Pointer;
    ArgumentFits(p.data, args, k);
    hide Fit;
    hide Space;
    var entry, bytes := EntryBytes(args, k), StoredBytes(args[k]);
    StoreIsPut(p.data, p.addr, 0, entry);
    StoreIsPut(Put(p.data, EntryAt(args, k), entry), p.addr, p.offset, bytes);
    hide Put;
  }

  // Entry and bytes of argument j are in place.
  predicate Placed(data: seq<bv8>, args: seq<Argument>, j: nat)
    requires j < |args| && Passable(args[j])
  {
    Holds(data, EntryAt(args, j), EntryBytes(args, j)) && Holds(data, AreaAt(args, j), StoredBytes(args[j]))
  }

  ghost predicate AllPlaced(data: seq<bv8>, args: seq<Argument>, k: nat)
    requires k <= |args| && AllPassable(args)
  {
    forall j: nat :: j < k ==> Placed(data, args, j)
  }

  // The bytes of all arguments lie behind the table, and those of each behind those of the ones before.
  lemma {:induction false} AreasApart(args: seq<Argument>, i: nat, j: nat)
    requires i < j <= |args| && Passable(args[i])
    ensures EntryAt(args, i) + |EntryBytes(args, i)| <= EntryAt(args, j)
    ensures AreaAt(args, i) + |StoredBytes(args[i])| <= AreaAt(args, j)
    ensures EntryAt(args, |args|) <= AreaAt(args, i)
    ensures EntryAt(args, i) <= EntryAt(args, |args|) && EntryAt(args, j) <= EntryAt(args, |args|)
  {
    EntriesGrow(args, i, j);
    EntriesGrow(args, j, |args|);
  }

  lemma {:induction false} PlacedAfter(data: seq<bv8>, args: seq<Argument>, k: nat, j: nat)
    requires j <= k < |args| && Fit(data, args) && Passable(args[j]) && (j < k ==> Placed(data, args, j))
    requires Passable(args[k]) && Room(data, args, k)
    ensures var after := WithArgument(data, args, k); Placed(after, args, j) && after[..TABLE] == data[..TABLE]
  {
    AreasApart(args, k, |args|);
    if j < k {
      AreasApart(args, j, k);
    }
    hide Fit;
    hide AreaAt;
    hide EntryAt;
    hide Put;
    hide Holds;
    var entry, bytes := EntryBytes(args, k), StoredBytes(args[k]);
    var middle := Put(data, EntryAt(args, k), entry);
    EntryInTable(args, k);
    hide EntryBytes;
    hide StoredBytes;
    PutHolds(data, EntryAt(args, k), entry);
    PutHolds(middle, AreaAt(args, k), bytes);
    HeaderStays(data, EntryAt(args, k), entry);
    HeaderStays(middle, AreaAt(args, k), bytes);
    if j < k {
      PutElsewhere(data, EntryAt(args, k), entry, EntryAt(args, j), EntryBytes(args, j));
      PutElsewhere(data, EntryAt(args, k), entry, AreaAt(args, j), StoredBytes(args[j]));
      PutElsewhere(middle, AreaAt(args, k), bytes, AreaAt(args, j), StoredBytes(args[j]));
      PutElsewhere(middle, AreaAt(args, k), bytes, EntryAt(args, j), EntryBytes(args, j));
    } else {
      PutElsewhere(middle, AreaAt(args, k), bytes, EntryAt(args, k), entry);
    }
  }

  lemma EntryInTable(args: seq<Argument>, k: nat)
    requires k < |args|
    ensures TABLE <= EntryAt(args, k) <= AreaAt(args, k)
    ensures |EntryBytes(args, k)| == if HasEntry(args[k]) then 8 else 0
  {
  }

  lemma {:induction false} MorePlaced(data: seq<bv8>, args: seq<Argument>, k: nat)
    requires k < |args| && Fit(data, args) && AllPlaced(data, args, k) && Passable(args[k]) && Room(data, args, k)
    ensures var after := WithArgument(data, args, k); AllPlaced(after, args, k + 1) && after[..TABLE] == data[..TABLE]
  {
    hide Placed;
    hide WithArgument;
    hide Room;
    hide Sum;
    var after := WithArgument(data, args, k);
    forall j: nat | j < k + 1 ensures Placed(after, args, j) {
      PlacedAfter(data, args, k, j);
    }
    PlacedAfter(data, args, k, k);
  }

  lemma {:induction false} ArgsArePlaced(data: seq<bv8>, args: seq<Argument>, k: nat)
    requires Fit(data, args) && k <= |args|
    ensures AllHaveBytes(args)
    ensures var p := WriteAll(Progress(data, TABLE, Space(args), true), args[..k]);
            && p.ok && |p.data| == |data| && p.addr == EntryAt(args, k) && p.offset == Space(args) + Sum(args, k)
            && p.data[..TABLE] == data[..TABLE]
            && AllPlaced(p.data, args, k)
  {
    if k > 0 {
      ArgsArePlaced(data, args, k - 1);
      var p := WriteAll(Progress(data, TABLE, Space(args), true), args[..k - 1]);
      assert args[..k][..k - 1] == args[..k - 1];
      assert Passable(args[k - 1]);
      hide Write;
      hide Placed;
      hide WithArgument;
      hide Room;
      hide Space;
      WriteOne(p, args, k - 1);
      MorePlaced(p.data, args, k - 1);
    }
  }

  /**
    The argument layout, for any list of pointers, scalars and arguments without data that fits: writing
    succeeds, the bytes of all arguments lie behind the table and apart from each other, and the entry of
    argument i is at the address the code remembers for it. What they hold is ArgumentReadsBack.
  */
  lemma {:induction false} ArgumentLayout(data: seq<bv8>, args: seq<Argument>, i: nat, j: nat)
    requires Fit(data, args) && i < j < |args|
    ensures ArgsSize(args) == Some(Space(args)) && AllHaveBytes(args)
    ensures AreaAt(args, i) + (if IsStored(args[i]) then args[i].size else 0) <= AreaAt(args, j)
    ensures EntryAt(args, i) + (if HasEntry(args[i]) then 8 else 0) <= EntryAt(args, j)
    ensures 48 <= EntryAt(args, i) && EntryAt(args, |args|) <= AreaAt(args, i)
    ensures WriteAll(Progress(data, TABLE, Space(args), true), args).ok
    ensures WriteAll(Progress(data, TABLE, Space(args), true), args[..i]).addr == EntryAt(args, i)
  {
    PassableSize(args);
    ArgsArePlaced(data, args, |args|);
    ArgsArePlaced(data, args, i);
    assert args[..|args|] == args;
    assert Passable(args[i]);
    hide *;
    AreasApart(args, i, j);
    EntryInTable(args, i);
  }

  lemma PointerFits(n: nat)
    requires n < SIZE_T_RANGE
    ensures Value64(Pointer(n)) == n
  {
    ValueOfWord(n);
  }

  /**
    Every pointer's entry points at the place of its own bytes, and there is what was written; so are the
    bytes of every scalar at theirs. What is below the table is untouched.
  */
  lemma {:induction false} ArgumentReadsBack(data: seq<bv8>, args: seq<Argument>, i: nat)
    requires Fit(data, args) && i < |args|
    ensures AllHaveBytes(args)
    ensures var p := WriteAll(Progress(data, TABLE, Space(args), true), args);
            && p.ok && |data| == |p.data| >= TABLE && p.data[..TABLE] == data[..TABLE]
            && (HasEntry(args[i]) && AreaAt(args, i) < SIZE_T_RANGE ==>
                  && EntryAt(args, i) + 8 <= |p.data|
                  && Value64(Word64(p.data[EntryAt(args, i)..EntryAt(args, i) + 8])) == AreaAt(args, i))
            && (IsStored(args[i]) && args[i].size > 0 ==>
                  && AreaAt(args, i) + args[i].size <= |p.data|
                  && p.data[AreaAt(args, i)..AreaAt(args, i) + args[i].size] == args[i].data.value[..args[i].size])
  {
    ArgsArePlaced(data, args, |args|);
    assert args[..|args|] == args;
    var p := WriteAll(Progress(data, TABLE, Space(args), true), args);
    assert Passable(args[i]) && Placed(p.data, args, i);
    assert EntryAt(args, |args|) >= TABLE;
    hide *;
    PlacedSays(p.data, args, i);
  }

  lemma {:induction false} PlacedSays(data: seq<bv8>, args: seq<Argument>, i: nat)
    requires i < |args| && Passable(args[i]) && Placed(data, args, i)
    ensures HasEntry(args[i]) && AreaAt(args, i) < SIZE_T_RANGE ==>
              && EntryAt(args, i) + 8 <= |data|
              && Value64(Word64(data[EntryAt(args, i)..EntryAt(args, i) + 8])) == AreaAt(args, i)
    ensures IsStored(args[i]) && args[i].size > 0 ==>
              && AreaAt(args, i) + args[i].size <= |data|
              && data[AreaAt(args, i)..AreaAt(args, i) + args[i].size] == args[i].data.value[..args[i].size]
  {
    hide AreaAt;
    hide EntryAt;
    hide BytesOf64;
    hide Word64;
    hide Value64;
    hide Pointer;
    if HasEntry(args[i]) && AreaAt(args, i) < SIZE_T_RANGE {
      Word64OfBytes(Pointer(AreaAt(args, i)));
      PointerFits(AreaAt(args, i));
    }
  }

  lemma Forward(a: nat, n: nat)
    requires a + n < OFFSET_RANGE
    ensures At(a, Offset32(n)) == a + n
  {
  }

  /**
    Reading an argument back through its table entry, as a writable one is, gives exactly the bytes written.
  */
  lemma {:induction false} ArgumentIsReadBack(data: seq<bv8>, args: seq<Argument>, i: nat)
    requires Fit(data, args) && i < |args| && HasEntry(args[i]) && IsStored(args[i]) && args[i].size > 0
    ensures AllHaveBytes(args)
    ensures var p := WriteAll(Progress(data, TABLE, Space(args), true), args);
            && p.ok && EntryAt(args, i) + 8 <= |p.data|
            && var area := Value64(Word64(p.data[EntryAt(args, i)..EntryAt(args, i) + 8]));
               Range(p.data, area, At(area, Offset32(args[i].size))) == Some(Bytes(args[i]))
  {
    hide Space;
    hide WriteAll;
    hide AreaAt;
    hide EntryAt;
    hide Word64;
    hide Value64;
    hide At;
    ArgumentFits(data, args, i);
    hide Fit;
    ArgumentReadsBack(data, args, i);
    Forward(AreaAt(args, i), args[i].size);
  }

  // ---------------------------------------------------------------- areas of arguments only written to

  // The areas two pointers point at share a byte.
  predicate Overlap(args: seq<Argument>, i: nat, j: nat)
    requires i < |args| && j < |args|
  {
    AreaAt(args, i) < AreaAt(args, j) + args[j].size && AreaAt(args, j) < AreaAt(args, i) + args[i].size
  }

  ghost predicate NoOverlap(args: seq<Argument>) {
    forall i: nat, j: nat :: i < j < |args| ==> !Overlap(args, i, j)
  }

  // A pointer without read permission that is no more than an entry long, or has read permission.
  predicate Reserved(a: Argument) {
    a.readPermission || a.size <= 8
  }

  lemma {:induction false} NextArea(args: seq<Argument>, i: nat)
    requires i < |args| && HasEntry(args[i])
    ensures AreaAt(args, i + 1) == AreaAt(args, i) + 8 + if args[i].readPermission then args[i].size else 0
  {
  }

  lemma {:induction false} AreasGrow(args: seq<Argument>, i: nat, j: nat)
    requires i <= j <= |args|
    ensures AreaAt(args, i) <= AreaAt(args, j)
    decreases j
  {
    if i < j {
      AreasGrow(args, i, j - 1);
    }
  }

  /**
    No space is set aside for a pointer without read permission: the areas the kernel is given, for any
    list of pointers to something, are apart from each other if and only if every such argument but the
    last is at most eight bytes long.
  */
  lemma {:induction false} AreasApartIff(args: seq<Argument>)
    requires forall i :: 0 <= i < |args| ==> HasEntry(args[i]) && args[i].size > 0
    ensures NoOverlap(args) <==> forall i :: 0 <= i < |args| - 1 ==> Reserved(args[i])
  {
    hide AreaAt;
    if NoOverlap(args) {
      forall i | 0 <= i < |args| - 1 ensures Reserved(args[i]) {
        NextArea(args, i);
        assert !Overlap(args, i, i + 1);
      }
    }
    if forall i :: 0 <= i < |args| - 1 ==> Reserved(args[i]) {
      forall i: nat, j: nat | i < j < |args| ensures !Overlap(args, i, j) {
        NextArea(args, i);
        AreasGrow(args, i + 1, j);
        assert Reserved(args[i]);
      }
    }
  }

  // Two results of sixteen bytes share eight of them.
  lemma TwoResultsOverlap(bytes: seq<bv8>)
    requires |bytes| == 16
    ensures var a := Argument(PointerKind, 16, false, true, Some(bytes)); Overlap([a, a], 0, 1)
  {
    var a := Argument(PointerKind, 16, false, true, Some(bytes));
    NextArea([a, a], 0);
  }
}
