/**
  Bit reversal by swapping ever smaller halves, and the scalar instructions that look for bits.
*/
module BitReverse {
  import opened MachineWords
  import opened LaneMask
  import opened BitCount

  // ---------------------------------------------------------------- the code's own form

  // rev_bit for 64 and for 32 bits
  function RevBit64(n: bv64): bv64 {
    var a := (n >> 32) | (n << 32);
    var b := ((a & 0xffff_0000_ffff_0000) >> 16) | ((a & 0x0000_ffff_0000_ffff) << 16);
    var c := ((b & 0xff00_ff00_ff00_ff00) >> 8) | ((b & 0x00ff_00ff_00ff_00ff) << 8);
    var d := ((c & 0xf0f0_f0f0_f0f0_f0f0) >> 4) | ((c & 0x0f0f_0f0f_0f0f_0f0f) << 4);
    var e := ((d & 0xcccc_cccc_cccc_cccc) >> 2) | ((d & 0x3333_3333_3333_3333) << 2);
    ((e & 0xaaaa_aaaa_aaaa_aaaa) >> 1) | ((e & 0x5555_5555_5555_5555) << 1)
  }

  function RevBit32(n: bv32): bv32 {
    var a := (n >> 16) | (n << 16);
    var b := ((a & 0xff00_ff00) >> 8) | ((a & 0x00ff_00ff) << 8);
    var c := ((b & 0xf0f0_f0f0) >> 4) | ((b & 0x0f0f_0f0f) << 4);
    var d := ((c & 0xcccc_cccc) >> 2) | ((c & 0x3333_3333) << 2);
    ((d & 0xaaaa_aaaa) >> 1) | ((d & 0x5555_5555) << 1)
  }

  // ---------------------------------------------------------------- 64 bits

  lemma RevAnd(a: bv64, b: bv64)
    ensures RevBit64(And(a, b)) == And(RevBit64(a), RevBit64(b))
  {
  }

  lemma RevShift(m: bv64, x: bv64, y: bv64)
    requires x == RevBit64(m << 1) && y == RevBit64(m)
    ensures x == y >> 1
  {
  }

  lemma RevTwice(m: bv64)
    ensures RevBit64(Twice(m)) == Half(RevBit64(m))
  {
    hide RevBit64;
    RevShift(m, RevBit64(m << 1), RevBit64(m));
  }

  lemma RevOne()
    ensures RevBit64(1) == 0x8000_0000_0000_0000 && RevBit64(0) == 0
  {
  }

  /**
    Reversing twice gives the word back, for 64 and for 32 bits.
  */
  lemma RevRev64(n: bv64)
    ensures RevBit64(RevBit64(n)) == n
  {
  }

  lemma RevRev32(n: bv32)
    ensures RevBit32(RevBit32(n)) == n
  {
  }

  lemma HalfTwice(m: bv64)
    requires Small(m)
    ensures Half(Twice(m)) == m
  {
  }

  // The reversed one-hot words are the one-hot words.
  lemma {:induction false} RevOneHot(i: nat)
    requires i < WAVEFRONT_SIZE
    ensures RevBit64(OneHot(i)) == OneHot(63 - i)
  {
    if i == 0 {
      OneHotZero();
      RevOne();
      TopLane();
    } else {
      hide *;
      RevOneHot(i - 1);
      OneHotNext(i - 1);
      RevTwice(OneHot(i - 1));
      OneHotNext(63 - i);
      OneHotFacts(63 - i);
      HalfTwice(OneHot(63 - i));
    }
  }

  /**
    Bit i of the reversed word is bit 63 - i of the word.
  */
  lemma {:induction false} RevMasked(n: bv64, i: nat)
    requires i < WAVEFRONT_SIZE
    ensures Masked(RevBit64(n), i) == Masked(n, 63 - i)
  {
    hide And;
    hide OneHot;
    hide RevBit64;
    var m := OneHot(63 - i);
    RevOneHot(63 - i);
    RevAnd(n, m);
    RevRev64(And(n, m));
    RevOne();
  }

  // ---------------------------------------------------------------- 32 bits

  function Raise(n: bv64): bv64 { n << 32 }

  lemma RevWord(n: bv32, x: bv64, y: bv32)
    requires x == RevBit64(n as bv64) && y == RevBit32(n)
    ensures x == (y as bv64) << 32
  {
  }

  lemma RevExtends(n: bv32)
    ensures RevBit64(Wide(n)) == Raise(Wide(RevBit32(n)))
  {
    hide RevBit64;
    hide RevBit32;
    RevWord(n, RevBit64(n as bv64), RevBit32(n));
  }

  lemma RaiseMeets(n: bv32, m: bv64)
    ensures And(Raise(Wide(n)), Raise(m)) != 0 <==> And(Wide(n), m) != 0
  {
  }

  lemma {:induction false} OneHotRaised(i: nat)
    requires i < 32
    ensures OneHot(i + 32) == Raise(OneHot(i))
  {
    if i == 0 {
      OneHotZero();
      OneHotIsShift(32);
      assert (32 as bv6) as nat == 32;
    } else {
      hide OneHot;
      hide Raise;
      hide Twice;
      OneHotRaised(i - 1);
      OneHotNext(i - 1);
      OneHotNext(i + 31);
      TwiceRaised(OneHot(i - 1));
    }
  }

  lemma TwiceRaised(m: bv64)
    ensures Twice(Raise(m)) == Raise(Twice(m))
  {
    hide *;
    RaiseIsShift(m);
    ShiftsCommute(m, Raise(m), Twice(m));
  }

  lemma RaiseIsShift(m: bv64)
    ensures Raise(m) == m << 32 && Twice(m) == m << 1
  {
  }

  lemma ShiftsCommute(m: bv64, x: bv64, y: bv64)
    requires x == m << 32 && y == m << 1
    ensures Twice(x) == Raise(y)
  {
  }

  lemma {:induction false} RevMasked32(n: bv32, i: nat)
    requires i < 32
    ensures Masked(Wide(RevBit32(n)), i) == Masked(Wide(n), 31 - i)
  {
    hide And;
    hide OneHot;
    hide RevBit64;
    hide RevBit32;
    hide Wide;
    hide Raise;
    RevExtends(n);
    OneHotRaised(i);
    RaiseMeets(RevBit32(n), OneHot(i));
    RevMasked(Wide(n), i + 32);
  }

  // ---------------------------------------------------------------- searching for a set bit

  // The lowest set bit of the lowest w, or -1.
  ghost predicate LowestSet(n: bv64, w: nat, r: int)
    requires w <= WAVEFRONT_SIZE
  {
    && -1 <= r < w
    && (r >= 0 ==> Masked(n, r))
    && forall j :: 0 <= j < (if r >= 0 then r else w) ==> !Masked(n, j)
  }

  // How far below the top the highest set bit of the lowest w is, or -1.
  ghost predicate HighestSet(n: bv64, w: nat, r: int)
    requires w <= WAVEFRONT_SIZE
  {
    && -1 <= r < w
    && (r >= 0 ==> Masked(n, w - 1 - r))
    && forall j :: 0 <= j < w && (r >= 0 ==> j > w - 1 - r) ==> !Masked(n, j)
  }

  // s_ff1_i32_b64 and s_flbit_i32_b64; -1 becomes a word of ones.
  method Ff1B64(ssrc0: bv64) returns (sdst: int)
    ensures LowestSet(ssrc0, 64, sdst)
  {
    sdst := -1;
    var i := 0;
    while i < 64
      invariant 0 <= i <= 64 && sdst == -1
      invariant forall j :: 0 <= j < i ==> !Masked(ssrc0, j)
    {
      hide OneHot;
      if Masked(ssrc0, i) {
        sdst := i;
        break;
      }
      i := i + 1;
    }
  }

  method FlbitB64(ssrc0: bv64) returns (sdst: int)
    ensures HighestSet(ssrc0, 64, sdst)
  {
    sdst := -1;
    var i := 63;
    while i >= 0
      invariant -1 <= i < 64 && sdst == -1
      invariant forall j :: i < j < 64 ==> !Masked(ssrc0, j)
    {
      hide OneHot;
      if Masked(ssrc0, i) {
        sdst := 63 - i;
        break;
      }
      i := i - 1;
    }
  }

  // The 32-bit forms look at the low word only.
  method Ff1B32(ssrc0: bv64) returns (sdst: int)
    ensures LowestSet(Wide(Low(ssrc0)), 32, sdst)
  {
    sdst := -1;
    var i := 0;
    while i < 32
      invariant 0 <= i <= 32 && sdst == -1
      invariant forall j :: 0 <= j < i ==> !Masked(Wide(Low(ssrc0)), j)
    {
      hide OneHot;
      if Masked(Wide(Low(ssrc0)), i) {
        sdst := i;
        break;
      }
      i := i + 1;
    }
  }

  method FlbitB32(ssrc0: bv64) returns (sdst: int)
    ensures HighestSet(Wide(Low(ssrc0)), 32, sdst)
  {
    sdst := -1;
    var i := 31;
    while i >= 0
      invariant -1 <= i < 32 && sdst == -1
      invariant forall j :: i < j < 32 ==> !Masked(Wide(Low(ssrc0)), j)
    {
      hide OneHot;
      if Masked(Wide(Low(ssrc0)), i) {
        sdst := 31 - i;
        break;
      }
      i := i - 1;
    }
  }

  lemma {:induction false} LowestUnique(n: bv64, w: nat, r: int, r': int)
    requires w <= WAVEFRONT_SIZE && LowestSet(n, w, r) && LowestSet(n, w, r')
    ensures r == r'
  {
    hide Masked;
  }

  /**
    s_flbit of a word is s_ff1 of the reversed word, whatever the word, for 64 and for 32 bits.
  */
  lemma {:induction false} FlbitIsFf1OfReversed64(n: bv64, flbit: int, ff1: int)
    requires HighestSet(n, 64, flbit) && LowestSet(RevBit64(n), 64, ff1)
    ensures flbit == ff1
  {
    hide Masked;
    hide RevBit64;
    forall j | 0 <= j < 64 ensures Masked(RevBit64(n), j) == Masked(n, 63 - j) {
      RevMasked(n, j);
    }
    assert LowestSet(RevBit64(n), 64, flbit);
    LowestUnique(RevBit64(n), 64, flbit, ff1);
  }

  lemma {:induction false} FlbitIsFf1OfReversed32(n: bv32, flbit: int, ff1: int)
    requires HighestSet(Wide(n), 32, flbit) && LowestSet(Wide(RevBit32(n)), 32, ff1)
    ensures flbit == ff1
  {
    hide Masked;
    hide RevBit32;
    hide Wide;
    forall j | 0 <= j < 32 ensures Masked(Wide(RevBit32(n)), j) == Masked(Wide(n), 31 - j) {
      RevMasked32(n, j);
    }
    assert LowestSet(Wide(RevBit32(n)), 32, flbit);
    LowestUnique(Wide(RevBit32(n)), 32, flbit, ff1);
  }

  // ---------------------------------------------------------------- counting zeros and ones

  // s_bcnt0 and s_bcnt1
  function Bcnt0B64(n: bv64): bv16 { BitCount64(!n) }
  function Bcnt1B64(n: bv64): bv16 { BitCount64(n) }
  function Bcnt0B32(n: bv32): bv16 { BitCount32(!n) }
  function Bcnt1B32(n: bv32): bv16 { BitCount32(n) }

  lemma NotMeets(n: bv64, m: bv64)
    requires Power(m) && m != 0
    ensures And(!n, m) != 0 <==> And(n, m) == 0
  {
  }

  lemma NotMasked(n: bv64, i: nat)
    requires i < WAVEFRONT_SIZE
    ensures Masked(!n, i) == !Masked(n, i)
  {
    hide And;
    hide OneHot;
    hide Power;
    OneHotFacts(i);
    NotMeets(n, OneHot(i));
  }

  lemma {:induction false} OnesOfNot(n: bv64, k: nat)
    requires k <= 64
    ensures Ones(!n, k) + Ones(n, k) == k
  {
    hide Masked;
    if k > 0 {
      OnesOfNot(n, k - 1);
      NotMasked(n, k - 1);
    }
  }

  predicate LowWord(m: bv64) { m & 0xffff_ffff_0000_0000 == 0 }

  lemma {:induction false} OneHotLow(i: nat)
    requires i < 32
    ensures LowWord(OneHot(i))
  {
    OneHotRaised(i);
    hide OneHot;
    OneHotFacts(i);
    OneHotFacts(i + 32);
    RaisedNonZero(OneHot(i));
  }

  lemma RaisedNonZero(m: bv64)
    requires Power(m) && Raise(m) != 0
    ensures LowWord(m)
  {
  }

  lemma NotWideMeets(n: bv32, m: bv64)
    requires Power(m) && m != 0 && LowWord(m)
    ensures And(Wide(!n), m) != 0 <==> And(Wide(n), m) == 0
  {
    hide *;
    NotWideAnd(n, m);
    NotMeets(Wide(n), m);
  }

  lemma NotWideAnd(n: bv32, m: bv64)
    requires LowWord(m)
    ensures And(Wide(!n), m) == And(!Wide(n), m)
  {
    hide And;
    NotWord(n, m, Wide(!n), Wide(n));
  }

  lemma NotWord(n: bv32, m: bv64, x: bv64, y: bv64)
    requires x == (!n) as bv64 && y == n as bv64 && LowWord(m)
    ensures And(x, m) == And(!y, m)
  {
  }

  lemma {:induction false} OnesOfNot32(n: bv32, k: nat)
    requires k <= 32
    ensures Ones(Wide(!n), k) + Ones(Wide(n), k) == k
  {
    OnesNext(Wide(!n), k);
    OnesNext(Wide(n), k);
    if k > 0 {
      NotWideMasked(n, k - 1);
      hide *;
      OnesOfNot32(n, k - 1);
    }
  }

  lemma OnesNext(n: bv64, k: nat)
    requires k <= WAVEFRONT_SIZE
    ensures Ones(n, k) == if k == 0 then 0 else Ones(n, k - 1) + if Masked(n, k - 1) then 1 else 0
  {
    hide Masked;
  }

  lemma NotWideMasked(n: bv32, i: nat)
    requires i < 32
    ensures Masked(Wide(!n), i) <==> !Masked(Wide(n), i)
  {
    hide And;
    hide OneHot;
    hide Wide;
    hide Power;
    hide LowWord;
    OneHotFacts(i);
    OneHotLow(i);
    NotWideMeets(n, OneHot(i));
  }

  /**
    s_bcnt1 counts the ones and s_bcnt0 the zeros, which make up the width of the word.
  */
  lemma ZerosAndOnes64(n: bv64)
    ensures Bcnt0B64(n) as nat + Bcnt1B64(n) as nat == 64
    ensures Bcnt1B64(n) as nat == Ones(n, 64) && Bcnt0B64(n) as nat == 64 - Ones(n, 64)
  {
    hide BitCount64;
    hide Ones;
    BitCount64IsOnes(n);
    BitCount64IsOnes(!n);
    OnesOfNot(n, 64);
  }

  lemma ZerosAndOnes32(n: bv32)
    ensures Bcnt0B32(n) as nat + Bcnt1B32(n) as nat == 32
    ensures Bcnt1B32(n) as nat == Ones(Wide(n), 32) && Bcnt0B32(n) as nat == 32 - Ones(Wide(n), 32)
  {
    hide BitCount32;
    hide Ones;
    hide Wide;
    BitCount32IsOnes(n);
    BitCount32IsOnes(!n);
    OnesOfNot32(n, 32);
  }
}
