/**
  Words of the host machine: the range of size_t, and 64-bit values as pairs of 32-bit words.
*/
module MachineWords {
  const SIZE_T_RANGE: nat := 0x1_0000_0000_0000_0000

  lemma MulMono(a: nat, b: nat, p: nat)
    requires a <= b
    ensures a * p <= b * p
  {
  }

  // to_uin64_t({msb, lsb})
  function Join(msb: bv32, lsb: bv32): bv64 {
    ((msb as bv64) << 32) | (lsb as bv64)
  }

  function High(x: bv64): bv32 {
    (x >> 32) as bv32
  }

  function Low(x: bv64): bv32 {
    (x & 0xffff_ffff) as bv32
  }

  lemma JoinSplit(x: bv64)
    ensures Join(High(x), Low(x)) == x
  {
  }

  lemma SplitJoin(msb: bv32, lsb: bv32)
    ensures High(Join(msb, lsb)) == msb && Low(Join(msb, lsb)) == lsb
  {
  }

  // The first word is the upper half of the number.
  lemma JoinValue(msb: bv32, lsb: bv32)
    ensures Join(msb, lsb) as nat == msb as nat * 0x1_0000_0000 + lsb as nat
  {
    JoinIsShift(msb, lsb);
    ShiftedPair(msb, lsb);
    hide Join;
  }

  lemma JoinIsShift(msb: bv32, lsb: bv32)
    ensures Join(msb, lsb) == ((msb as bv64) << 32) | (lsb as bv64)
  {
  }

  lemma ShiftedPair(msb: bv32, lsb: bv32)
    ensures (((msb as bv64) << 32) | (lsb as bv64)) as nat == msb as nat * 0x1_0000_0000 + lsb as nat
  {
  }

  lemma LowOfWord(x: bv32)
    ensures Low(x as bv64) == x
  {
  }
}
