/**
  Counting bits with a few masked additions and one multiplication, against counting them one by one.
*/
module BitCount {
  import opened LaneMask

  // ---------------------------------------------------------------- the code's own form

  // A count in the 16 bits it is returned in.
  function Narrow(x: bv64): bv16 { (x & 0xffff) as bv16 }
  function Narrow32(x: bv32): bv16 { (x & 0xffff) as bv16 }

  // bit_count for 32 and for 64 bits, in their four stages.
  function Pairs32(n: bv32): bv32 { n - ((n >> 1) & 0x5555_5555) }
  function Nibbles32(n: bv32): bv32 { (n & 0x3333_3333) + ((n >> 2) & 0x3333_3333) }
  function Bytes32(n: bv32): bv32 { (n + (n >> 4)) & 0x0F0F_0F0F }
  function Gather32(n: bv32): bv32 { (n * 0x0101_0101) >> 24 }

  function BitCount32(n: bv32): bv16 {
    Narrow32(Gather32(Bytes32(Nibbles32(Pairs32(n)))))
  }

  function Pairs64(n: bv64): bv64 { n - ((n >> 1) & 0x5555_5555_5555_5555) }
  function Nibbles64(n: bv64): bv64 { (n & 0x3333_3333_3333_3333) + ((n >> 2) & 0x3333_3333_3333_3333) }
  function Bytes64(n: bv64): bv64 { (n + (n >> 4)) & 0x0F0F_0F0F_0F0F_0F0F }
  function Gather64(n: bv64): bv64 { (n * 0x0101_0101_0101_0101) >> 56 }

  function BitCount64(n: bv64): bv16 {
    Narrow(Gather64(Bytes64(Nibbles64(Pairs64(n)))))
  }

  // ---------------------------------------------------------------- byte by byte

  function Bit(n: bv64): bv64 { n & 1 }
  function Half(n: bv64): bv64 { n >> 1 }

  // The bits of the lowest byte, added up.
  function ByteSum(n: bv64): bv64 {
    (n & 1) + ((n >> 1) & 1) + ((n >> 2) & 1) + ((n >> 3) & 1)
    + ((n >> 4) & 1) + ((n >> 5) & 1) + ((n >> 6) & 1) + ((n >> 7) & 1)
  }

  function Bytes(n: bv64): bv64 { Bytes64(Nibbles64(Pairs64(n))) }

  // Each byte of the third stage holds the sum of that byte's bits.
  lemma Byte0(n: bv64) ensures Bytes(n) & 0xff == ByteSum(n) {}
  lemma Byte1(n: bv64) ensures (Bytes(n) >> 8) & 0xff == ByteSum(n >> 8) {}
  lemma Byte2(n: bv64) ensures (Bytes(n) >> 16) & 0xff == ByteSum(n >> 16) {}
  lemma Byte3(n: bv64) ensures (Bytes(n) >> 24) & 0xff == ByteSum(n >> 24) {}
  lemma Byte4(n: bv64) ensures (Bytes(n) >> 32) & 0xff == ByteSum(n >> 32) {}
  lemma Byte5(n: bv64) ensures (Bytes(n) >> 40) & 0xff == ByteSum(n >> 40) {}
  lemma Byte6(n: bv64) ensures (Bytes(n) >> 48) & 0xff == ByteSum(n >> 48) {}
  lemma Byte7(n: bv64) ensures (Bytes(n) >> 56) & 0xff == ByteSum(n >> 56) {}

  lemma BytesAreSmall(n: bv64)
    ensures Bytes(n) & 0xf0f0_f0f0_f0f0_f0f0 == 0
  {
  }

  // Addition of words, named so that proofs can keep sums apart.
  function Add(x: bv64, y: bv64): bv64 { x + y }

  // The multiplication adds up the bytes, in two halves.
  function Four(c: bv64): bv64 { c * 0x0101_0101 }
  function Top(e: bv64): bv64 { (e * 0x1_0000_0001) >> 56 }

  lemma GatherHalves(e: bv64)
    requires e & 0xc0c0_c0c0_c0c0_c0c0 == 0
    ensures Top(e) == Add((e >> 56) & 0xff, (e >> 24) & 0xff)
  {
  }

  lemma GatherFour(c: bv64)
    requires c & 0xf0f0_f0f0_f0f0_f0f0 == 0
    ensures Four(c) & 0xc0c0_c0c0_c0c0_c0c0 == 0
    ensures (Four(c) >> 56) & 0xff
            == Add(Add((c >> 56) & 0xff, (c >> 48) & 0xff), Add((c >> 40) & 0xff, (c >> 32) & 0xff))
    ensures (Four(c) >> 24) & 0xff
            == Add(Add((c >> 24) & 0xff, (c >> 16) & 0xff), Add((c >> 8) & 0xff, c & 0xff))
  {
  }

  lemma GatherFactors(c: bv64)
    ensures Gather64(c) == Top(c * 0x0101_0101)
  {
  }

  lemma GatherInTwo(c: bv64)
    ensures Gather64(c) == Top(Four(c))
  {
    hide Gather64;
    hide Top;
    GatherFactors(c);
  }

  lemma GatherAll(c: bv64)
    requires c & 0xf0f0_f0f0_f0f0_f0f0 == 0
    ensures Gather64(c)
            == Add(Add(Add((c >> 56) & 0xff, (c >> 48) & 0xff), Add((c >> 40) & 0xff, (c >> 32) & 0xff)),
                   Add(Add((c >> 24) & 0xff, (c >> 16) & 0xff), Add((c >> 8) & 0xff, c & 0xff)))
  {
    hide *;
    GatherInTwo(c);
    GatherFour(c);
    GatherHalves(Four(c));
  }

  // ---------------------------------------------------------------- from words to numbers

  lemma Increment(x: bv64)
    requires x <= 200
    ensures (x + 1) as nat == x as nat + 1
  {
  }

  lemma Decrement(x: bv64, y: bv64)
    requires 0 < x <= 64 && y <= 64
    ensures x - 1 < x && x - 1 <= 64 && x - 1 + y <= 200 && (x - 1) + 1 == x && (x - 1 + y) + 1 == x + y
  {
  }

  // Small words add up as numbers do.
  lemma {:induction false} AddSmall(x: bv64, y: bv64)
    requires x <= 64 && y <= 64
    ensures Add(x, y) as nat == x as nat + y as nat
    decreases x
  {
    if x == 0 {
      assert Add(0, y) == y;
    } else {
      Decrement(x, y);
      AddSmall(x - 1, y);
      Increment(x - 1);
      assert Add(x - 1, y) == x - 1 + y;
      Increment(x - 1 + y);
      assert Add(x, y) == x + y;
    }
  }

  lemma AddBound(x: bv64, y: bv64)
    ensures x <= 1 && y <= 1 ==> Add(x, y) <= 2
    ensures x <= 2 && y <= 2 ==> Add(x, y) <= 4
    ensures x <= 4 && y <= 4 ==> Add(x, y) <= 8
    ensures x <= 8 && y <= 8 ==> Add(x, y) <= 16
    ensures x <= 16 && y <= 16 ==> Add(x, y) <= 32
    ensures x <= 32 && y <= 32 ==> Add(x, y) <= 64
  {
  }

  function Add4(a: bv64, b: bv64, c: bv64, d: bv64): bv64 { Add(Add(a, b), Add(c, d)) }

  lemma Add4Small(a: bv64, b: bv64, c: bv64, d: bv64)
    requires a <= 8 && b <= 8 && c <= 8 && d <= 8
    ensures Add4(a, b, c, d) as nat == a as nat + b as nat + c as nat + d as nat && Add4(a, b, c, d) <= 32
    ensures a <= 1 && b <= 1 && c <= 1 && d <= 1 ==> Add4(a, b, c, d) <= 4
  {
    Within(a);
    Within(b);
    Within(c);
    Within(d);
    hide Add;
    AddBound(a, b);
    AddBound(c, d);
    AddBound(Add(a, b), Add(c, d));
    AddSmall(a, b);
    AddSmall(c, d);
    Within(Add(a, b));
    Within(Add(c, d));
    AddSmall(Add(a, b), Add(c, d));
  }

  // One word at a time.
  lemma Within(x: bv64)
    ensures x <= 1 ==> x <= 2 && x <= 8
    ensures x <= 2 ==> x <= 4
    ensures x <= 4 ==> x <= 8
    ensures x <= 8 ==> x <= 16 && x <= 64
    ensures x <= 16 ==> x <= 32 && x <= 64
    ensures x <= 32 ==> x <= 64
  {
  }

  function Value(bit: bv64): nat {
    if bit == 0 then 0 else 1
  }

  lemma BitValue(n: bv64)
    ensures Bit(n) as nat == Value(Bit(n)) && Bit(n) <= 1 && Bit(n) <= 8
  {
  }

  function Half4(n: bv64): bv64 { Half(Half(Half(Half(n)))) }
  function Sum4(n: bv64): bv64 { Add4(Bit(n), Bit(Half(n)), Bit(Half(Half(n))), Bit(Half(Half(Half(n))))) }

  function Value4(n: bv64): nat {
    Value(Bit(n)) + Value(Bit(Half(n))) + Value(Bit(Half(Half(n)))) + Value(Bit(Half(Half(Half(n)))))
  }

  lemma Sum4IsValue4(n: bv64)
    ensures Sum4(n) as nat == Value4(n) && Sum4(n) <= 4 && Sum4(n) <= 64
  {
    hide Bit;
    hide Half;
    hide Value;
    hide Add4;
    BitValue(n);
    BitValue(Half(n));
    BitValue(Half(Half(n)));
    BitValue(Half(Half(Half(n))));
    Add4Small(Bit(n), Bit(Half(n)), Bit(Half(Half(n))), Bit(Half(Half(Half(n)))));
    Within(Sum4(n));
  }

  // The sum of the lowest byte, and that byte bit by bit.
  lemma ByteIsBits(n: bv64)
    ensures ByteSum(n) == Add(Sum4(n), Sum4(Half4(n))) && Half4(Half4(n)) == n >> 8
  {
  }

  lemma ByteSumValue(n: bv64)
    ensures ByteSum(n) as nat == Value4(n) + Value4(Half4(n)) && ByteSum(n) <= 8
  {
    ByteIsBits(n);
    hide *;
    Sum4IsValue4(n);
    Sum4IsValue4(Half4(n));
    AddBound(Sum4(n), Sum4(Half4(n)));
    AddSmall(Sum4(n), Sum4(Half4(n)));
  }

  // ---------------------------------------------------------------- the number of set bits

  lemma HalfMeets(n: bv64, m: bv64)
    requires Small(m)
    ensures And(Half(n), m) != 0 <==> And(n, Twice(m)) != 0
  {
  }

  lemma HalfMasked(n: bv64, i: nat)
    requires i < 63
    ensures Masked(Half(n), i) == Masked(n, i + 1)
  {
    hide And;
    hide Half;
    hide Small;
    hide OneHot;
    OneHotNext(i);
    OneHotFacts(i);
    HalfMeets(n, OneHot(i));
  }

  lemma BitMasked(n: bv64)
    ensures Value(Bit(n)) == if Masked(n, 0) then 1 else 0
  {
    OneHotZero();
  }

  // Counting from the bottom bit up.
  lemma {:induction false} OnesFromBelow(n: bv64, k: nat)
    requires k < 64
    ensures Ones(n, k + 1) == Value(Bit(n)) + Ones(Half(n), k)
  {
    hide Masked;
    hide Half;
    hide Bit;
    hide Value;
    BitMasked(n);
    if k > 0 {
      OnesFromBelow(n, k - 1);
      HalfMasked(n, k - 1);
    }
  }

  lemma OnesFour(n: bv64, k: nat)
    requires k + 4 <= 64
    ensures Ones(n, k + 4) == Value4(n) + Ones(Half4(n), k)
  {
    hide Half;
    hide Bit;
    hide Value;
    hide Ones;
    OnesFromBelow(n, k + 3);
    OnesFromBelow(Half(n), k + 2);
    OnesFromBelow(Half(Half(n)), k + 1);
    OnesFromBelow(Half(Half(Half(n))), k);
  }

  function Drop(n: bv64): bv64 { n >> 8 }

  // What is left after dropping two, and four, bytes.
  function Drop2(n: bv64): bv64 { Drop(Drop(n)) }
  function Drop4(n: bv64): bv64 { Drop2(Drop2(n)) }

  function ByteOnes(n: bv64): nat { ByteSum(n) as nat }

  lemma OnesByte(n: bv64, k: nat)
    requires k + 8 <= 64
    ensures Ones(n, k + 8) == ByteOnes(n) + Ones(Drop(n), k)
  {
    ByteIsBits(n);
    hide ByteSum;
    hide Half4;
    hide Ones;
    hide Value4;
    ByteSumValue(n);
    OnesFour(n, k + 4);
    OnesFour(Half4(n), k);
  }

  lemma NoneLeft(n: bv64)
    ensures Ones(n, 0) == 0
  {
  }

  lemma OnesInTwoBytes(n: bv64, k: nat)
    requires k + 16 <= 64
    ensures Ones(n, k + 16) == ByteOnes(n) + ByteOnes(Drop(n)) + Ones(Drop2(n), k)
  {
    hide Ones;
    hide ByteOnes;
    hide Drop;
    OnesByte(n, k + 8);
    OnesByte(Drop(n), k);
  }

  lemma OnesInFourBytes(n: bv64, k: nat)
    requires k + 32 <= 64
    ensures Ones(n, k + 32)
            == ByteOnes(n) + ByteOnes(Drop(n)) + ByteOnes(Drop2(n)) + ByteOnes(Drop(Drop2(n))) + Ones(Drop4(n), k)
  {
    hide Ones;
    hide ByteOnes;
    hide Drop;
    hide Drop2;
    OnesInTwoBytes(n, k + 16);
    OnesInTwoBytes(Drop2(n), k);
  }

  function FourBytesOnes(n: bv64): nat {
    ByteOnes(n) + ByteOnes(Drop(n)) + ByteOnes(Drop2(n)) + ByteOnes(Drop(Drop2(n)))
  }

  lemma OnesInBytes(n: bv64)
    ensures Ones(n, 64) == FourBytesOnes(n) + FourBytesOnes(Drop4(n))
  {
    hide ByteOnes;
    hide Drop;
    hide Drop2;
    hide Drop4;
    hide Ones;
    OnesInFourBytes(n, 32);
    OnesInFourBytes(Drop4(n), 0);
    NoneLeft(Drop4(Drop4(n)));
  }

  function FourByteSums(n: bv64): bv64 {
    Add4(ByteSum(Drop(Drop2(n))), ByteSum(Drop2(n)), ByteSum(Drop(n)), ByteSum(n))
  }

  lemma FourByteSumsValue(n: bv64)
    ensures FourByteSums(n) as nat == FourBytesOnes(n) && FourByteSums(n) <= 32
  {
    assert FourByteSums(n) == Add4(ByteSum(Drop(Drop2(n))), ByteSum(Drop2(n)), ByteSum(Drop(n)), ByteSum(n));
    assert FourBytesOnes(n)
           == ByteSum(n) as nat + ByteSum(Drop(n)) as nat + ByteSum(Drop2(n)) as nat + ByteSum(Drop(Drop2(n))) as nat;
    hide *;
    ByteSumValue(n);
    ByteSumValue(Drop(n));
    ByteSumValue(Drop2(n));
    ByteSumValue(Drop(Drop2(n)));
    Add4Small(ByteSum(Drop(Drop2(n))), ByteSum(Drop2(n)), ByteSum(Drop(n)), ByteSum(n));
  }

  lemma DropShifts(n: bv64)
    ensures Drop(n) == n >> 8 && Drop2(n) == n >> 16 && Drop(Drop2(n)) == n >> 24 && Drop4(n) == n >> 32
    ensures var h := Drop4(n); Drop(h) == n >> 40 && Drop2(h) == n >> 48 && Drop(Drop2(h)) == n >> 56
  {
  }

  lemma GatherBytes(n: bv64)
    ensures Gather64(Bytes(n)) == Add(FourByteSums(Drop4(n)), FourByteSums(n))
  {
    DropShifts(n);
    hide ByteSum;
    hide Bytes;
    hide Gather64;
    hide Add;
    hide Drop;
    hide Drop2;
    hide Drop4;
    Byte0(n); Byte1(n); Byte2(n); Byte3(n);
    Byte4(n); Byte5(n); Byte6(n); Byte7(n);
    BytesAreSmall(n);
    GatherAll(Bytes(n));
  }

  lemma GatherIsOnes(n: bv64)
    ensures Gather64(Bytes(n)) as nat == Ones(n, 64)
  {
    hide *;
    GatherBytes(n);
    FourByteSumsValue(n);
    FourByteSumsValue(Drop4(n));
    Within(FourByteSums(n));
    Within(FourByteSums(Drop4(n)));
    AddSmall(FourByteSums(Drop4(n)), FourByteSums(n));
    OnesInBytes(n);
  }

  lemma NarrowSmall(x: bv64)
    requires x as nat <= 64
    ensures Narrow(x) as nat == x as nat
  {
  }

  /**
    The masked additions and the multiplication count the set bits, for every 64-bit word.
  */
  lemma BitCount64IsOnes(n: bv64)
    ensures BitCount64(n) as nat == Ones(n, 64)
  {
    assert BitCount64(n) == Narrow(Gather64(Bytes(n)));
    hide *;
    GatherIsOnes(n);
    NarrowSmall(Gather64(Bytes(n)));
  }

  // ---------------------------------------------------------------- the 32-bit form

  function Wide(n: bv32): bv64 { n as bv64 }

  // The first stage without its subtraction.
  function Fields32(n: bv32): bv32 { (n & 0x5555_5555) + ((n >> 1) & 0x5555_5555) }
  function Fields64(n: bv64): bv64 { (n & 0x5555_5555_5555_5555) + ((n >> 1) & 0x5555_5555_5555_5555) }

  lemma PairsAreFields32(n: bv32) ensures Pairs32(n) == Fields32(n) {}
  lemma PairsAreFields64(n: bv64) ensures Pairs64(n) == Fields64(n) {}
  lemma FieldsExtend(n: bv32) ensures Fields64(Wide(n)) == Wide(Fields32(n)) {}

  lemma PairsExtend(n: bv32)
    ensures Pairs64(Wide(n)) == Wide(Pairs32(n))
  {
    hide *;
    PairsAreFields32(n);
    PairsAreFields64(Wide(n));
    FieldsExtend(n);
  }

  lemma NibblesExtend(n: bv32)
    ensures Nibbles64(Wide(n)) == Wide(Nibbles32(n))
  {
  }

  // No field of the second stage exceeds four; no byte of the third exceeds eight.
  predicate SmallNibbles(n: bv32) { n & 0x8888_8888 == 0 }
  predicate SmallBytes(n: bv32) { n & 0xf0f0_f0f0 == 0 }

  lemma NibblesSmall(n: bv32)
    ensures SmallNibbles(Nibbles32(Pairs32(n)))
  {
  }

  lemma BytesExtend(n: bv32)
    requires SmallNibbles(n)
    ensures Bytes64(Wide(n)) == Wide(Bytes32(n)) && SmallBytes(Bytes32(n))
  {
  }

  lemma GatherExtends(c: bv32)
    requires SmallBytes(c)
    ensures Gather64(Wide(c)) == Wide(Gather32(c))
  {
    HighBytes(c);
    WordMask(c);
    hide *;
    Gather32Adds(c);
    GatherAll(Wide(c));
    AddZeros(Add(Add((Wide(c) >> 24) & 0xff, (Wide(c) >> 16) & 0xff), Add((Wide(c) >> 8) & 0xff, Wide(c) & 0xff)));
  }

  lemma AddZeros(x: bv64)
    ensures Add(Add(Add(0, 0), Add(0, 0)), x) == x
  {
  }

  lemma WordMask(c: bv32)
    requires SmallBytes(c)
    ensures Wide(c) & 0xf0f0_f0f0_f0f0_f0f0 == 0
  {
  }

  lemma HighBytes(c: bv32)
    ensures (Wide(c) >> 56) & 0xff == 0 && (Wide(c) >> 48) & 0xff == 0
    ensures (Wide(c) >> 40) & 0xff == 0 && (Wide(c) >> 32) & 0xff == 0
  {
  }

  lemma Gather32Adds(c: bv32)
    requires SmallBytes(c)
    ensures Wide(Gather32(c))
            == Add(Add((Wide(c) >> 24) & 0xff, (Wide(c) >> 16) & 0xff), Add((Wide(c) >> 8) & 0xff, Wide(c) & 0xff))
  {
  }

  lemma NarrowExtends(x: bv32)
    ensures Narrow(Wide(x)) == Narrow32(x)
  {
  }

  lemma BitCountExtends(n: bv32)
    ensures BitCount32(n) == BitCount64(Wide(n))
  {
    hide Pairs32;
    hide Pairs64;
    hide Nibbles32;
    hide Nibbles64;
    hide Bytes32;
    hide Bytes64;
    hide Gather32;
    hide Gather64;
    hide Narrow;
    hide Narrow32;
    hide Wide;
    hide SmallNibbles;
    hide SmallBytes;
    PairsExtend(n);
    NibblesExtend(Pairs32(n));
    NibblesSmall(n);
    BytesExtend(Nibbles32(Pairs32(n)));
    GatherExtends(Bytes32(Nibbles32(Pairs32(n))));
    NarrowExtends(Gather32(Bytes32(Nibbles32(Pairs32(n)))));
  }

  lemma HighMissing(n: bv32, m: bv64)
    requires m & 0xffff_ffff == 0
    ensures And(Wide(n), m) == 0
  {
  }

  lemma TwiceHigh(m: bv64)
    requires m & 0xffff_ffff == 0
    ensures Twice(m) & 0xffff_ffff == 0
  {
  }

  lemma {:induction false} OneHotHigh(i: nat)
    requires 32 <= i < 64
    ensures OneHot(i) & 0xffff_ffff == 0
  {
    if i == 32 {
      OneHotIsShift(32);
      assert (32 as bv6) as nat == 32;
    } else {
      hide Twice;
      hide OneHot;
      OneHotHigh(i - 1);
      OneHotNext(i - 1);
      TwiceHigh(OneHot(i - 1));
    }
  }

  lemma {:induction false} OnesOfWord(n: bv32, k: nat)
    requires 32 <= k <= 64
    ensures Ones(Wide(n), k) == Ones(Wide(n), 32)
  {
    if k > 32 {
      hide And;
      hide OneHot;
      OnesOfWord(n, k - 1);
      OneHotHigh(k - 1);
      HighMissing(n, OneHot(k - 1));
    }
  }

  /**
    The same for every 32-bit word.
  */
  lemma BitCount32IsOnes(n: bv32)
    ensures BitCount32(n) as nat == Ones(Wide(n), 32)
  {
    hide *;
    BitCountExtends(n);
    BitCount64IsOnes(Wide(n));
    OnesOfWord(n, 64);
  }
}
