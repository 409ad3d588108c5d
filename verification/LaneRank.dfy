/**
  v_mbcnt_lo followed by v_mbcnt_hi: each lane counts the set bits of a mask below its own, which
  numbers the set lanes without gaps.
*/
module LaneRank {
  import opened MachineWords
  import opened LaneMask
  import opened BitCount
  import opened BitReverse

  // The bits below a lane, as the instructions compute them.
  function ThreadMask(lane: nat): bv64
    requires lane < WAVEFRONT_SIZE
  {
    Pred(OneHot(lane))
  }

  function CountWord(n: bv32): bv64 { BitCount32(n) as bv64 }

  function AndWord(a: bv32, b: bv32): bv32 { a & b }

  function MbcntLo(src0: bv64, src1: bv64, lane: nat): bv64
    requires lane < WAVEFRONT_SIZE
  {
    Add(src1, CountWord(AndWord(Low(src0), Low(ThreadMask(lane)))))
  }

  function MbcntHi(src0: bv64, src1: bv64, lane: nat): bv64
    requires lane < WAVEFRONT_SIZE
  {
    Add(src1, CountWord(AndWord(Low(src0), High(ThreadMask(lane)))))
  }

  // The two instructions on the two halves of a mask, starting from 0.
  function RankOf(mask: bv64, lane: nat): bv64
    requires lane < WAVEFRONT_SIZE
  {
    MbcntHi(Wide(High(mask)), MbcntLo(Wide(Low(mask)), 0, lane), lane)
  }

  // ---------------------------------------------------------------- the halves of a word

  lemma LowMeets(n: bv64, m: bv64)
    requires LowWord(m)
    ensures And(Wide(Low(n)), m) == And(n, m)
  {
  }

  lemma HighMeets(n: bv64, m: bv64)
    requires LowWord(m)
    ensures And(Wide(High(n)), m) != 0 <==> And(n, Raise(m)) != 0
  {
  }

  lemma HalvesOfAnd(a: bv64, b: bv64)
    ensures AndWord(Low(Wide(Low(a))), Low(b)) == Low(And(a, b))
    ensures AndWord(Low(Wide(High(a))), High(b)) == High(And(a, b))
  {
  }

  lemma {:induction false} OnesOfLow(n: bv64, k: nat)
    requires k <= 32
    ensures Ones(Wide(Low(n)), k) == Ones(n, k)
  {
    if k > 0 {
      hide And;
      hide OneHot;
      hide Wide;
      hide Low;
      hide LowWord;
      OnesOfLow(n, k - 1);
      OneHotLow(k - 1);
      LowMeets(n, OneHot(k - 1));
    }
  }

  lemma {:induction false} OnesOfHigh(n: bv64, k: nat)
    requires k <= 32
    ensures Ones(n, 32 + k) == Ones(n, 32) + Ones(Wide(High(n)), k)
  {
    if k > 0 {
      hide And;
      hide OneHot;
      hide Wide;
      hide High;
      hide Raise;
      hide LowWord;
      OnesOfHigh(n, k - 1);
      OneHotLow(k - 1);
      OneHotRaised(k - 1);
      HighMeets(n, OneHot(k - 1));
    }
  }

  lemma {:induction false} OnesBelow(mask: bv64, lane: nat, k: nat)
    requires lane < WAVEFRONT_SIZE && k <= 64
    ensures Ones(And(mask, ThreadMask(lane)), k) == Ones(mask, if k < lane then k else lane)
  {
    if k > 0 {
      hide And;
      hide OneHot;
      hide Masked;
      hide Pred;
      assert ThreadMask(lane) == LowLanes(lane);
      OnesBelow(mask, lane, k - 1);
      AndMasked(mask, ThreadMask(lane), k - 1);
      LowLanesMasked(lane, k - 1);
    }
  }

  // ---------------------------------------------------------------- the count

  lemma CountIsOnes(n: bv32)
    ensures CountWord(n) as nat == Ones(Wide(n), 32) && CountWord(n) <= 32
  {
    BitCount32IsOnes(n);
    hide BitCount32;
    hide Ones;
    hide Wide;
    WordOfCount(BitCount32(n));
  }

  lemma WordOfCount(x: bv16)
    requires x as nat <= 32
    ensures (x as bv64) as nat == x as nat && x as bv64 <= 32
  {
  }

  lemma AddZero(x: bv64)
    ensures Add(0, x) == x && (x <= 32 ==> x <= 64)
  {
  }

  /**
    The two instructions give every lane the number of set bits of the mask below it.
  */
  lemma {:induction false} RankIsCount(mask: bv64, lane: nat)
    requires lane < WAVEFRONT_SIZE
    ensures RankOf(mask, lane) as nat == Ones(mask, lane)
  {
    hide And;
    hide AndWord;
    hide Low;
    hide High;
    hide Wide;
    hide Ones;
    hide ThreadMask;
    hide CountWord;
    hide Add;
    var m := And(mask, ThreadMask(lane));
    HalvesOfAnd(mask, ThreadMask(lane));
    CountIsOnes(Low(m));
    CountIsOnes(High(m));
    AddZero(CountWord(Low(m)));
    AddZero(CountWord(High(m)));
    AddSmall(CountWord(Low(m)), CountWord(High(m)));
    OnesOfLow(m, 32);
    OnesOfHigh(m, 32);
    OnesBelow(mask, lane, 64);
  }

  // ---------------------------------------------------------------- the set lanes are numbered

  lemma {:induction false} OnesGrow(mask: bv64, i: nat, j: nat)
    requires i <= j <= WAVEFRONT_SIZE
    ensures Ones(mask, i) <= Ones(mask, j)
    ensures i < j && Masked(mask, i) ==> Ones(mask, i) < Ones(mask, j)
    decreases j
  {
    hide Masked;
    if i < j {
      OnesGrow(mask, i, j - 1);
    }
  }

  lemma {:induction false} RankTaken(mask: bv64, r: nat, n: nat) returns (lane: nat)
    requires n <= WAVEFRONT_SIZE && r < Ones(mask, n)
    ensures lane < n && Masked(mask, lane) && Ones(mask, lane) == r
  {
    hide Masked;
    if r < Ones(mask, n - 1) {
      lane := RankTaken(mask, r, n - 1);
    } else {
      lane := n - 1;
    }
  }

  predicate HasRank(mask: bv64, lane: nat, r: nat) {
    lane < WAVEFRONT_SIZE && Masked(mask, lane) && RankOf(mask, lane) as nat == r
  }

  ghost predicate RankUsed(mask: bv64, r: nat) {
    exists lane :: HasRank(mask, lane, r)
  }

  lemma {:induction false} RankInRange(mask: bv64, lane: nat, r: nat)
    requires HasRank(mask, lane, r)
    ensures r == Ones(mask, lane) < Ones(mask, WAVEFRONT_SIZE)
  {
    hide Masked;
    hide RankOf;
    hide Ones;
    RankIsCount(mask, lane);
    OnesGrow(mask, lane, 64);
  }

  lemma {:induction false} RankOnce(mask: bv64, i: nat, j: nat, r: nat)
    requires HasRank(mask, i, r) && HasRank(mask, j, r)
    ensures i == j
  {
    RankInRange(mask, i, r);
    RankInRange(mask, j, r);
    RankOfSet(mask, i, r);
    RankOfSet(mask, j, r);
    hide *;
    if i < j {
      OnesGrow(mask, i, j);
    } else {
      OnesGrow(mask, j, i);
    }
  }

  lemma RankOfSet(mask: bv64, lane: nat, r: nat)
    requires HasRank(mask, lane, r)
    ensures lane < WAVEFRONT_SIZE && Masked(mask, lane)
  {
    hide Masked;
    hide RankOf;
  }

  lemma {:induction false} RankReached(mask: bv64, r: nat)
    requires r < Ones(mask, WAVEFRONT_SIZE)
    ensures RankUsed(mask, r)
  {
    hide Masked;
    hide RankOf;
    hide Ones;
    var lane := RankTaken(mask, r, 64);
    RankIsCount(mask, lane);
    assert HasRank(mask, lane, r);
  }

  /**
    On the set lanes of any mask the ranks are a bijection onto 0 .. popcount - 1.
  */
  lemma {:induction false} RanksNumberSetLanes(mask: bv64)
    ensures BitCount64(mask) as nat == Ones(mask, WAVEFRONT_SIZE)
    ensures forall lane: nat, r: nat :: HasRank(mask, lane, r) ==> r < Ones(mask, WAVEFRONT_SIZE)
    ensures forall i: nat, j: nat, r: nat :: HasRank(mask, i, r) && HasRank(mask, j, r) ==> i == j
    ensures forall r: nat :: r < Ones(mask, WAVEFRONT_SIZE) ==> RankUsed(mask, r)
  {
    BitCount64IsOnes(mask);
    assert WAVEFRONT_SIZE == 64;
    hide *;
    forall lane: nat, r: nat | HasRank(mask, lane, r) ensures r < Ones(mask, WAVEFRONT_SIZE) {
      RankInRange(mask, lane, r);
    }
    forall i: nat, j: nat, r: nat | HasRank(mask, i, r) && HasRank(mask, j, r) ensures i == j {
      RankOnce(mask, i, j, r);
    }
    forall r: nat | r < Ones(mask, WAVEFRONT_SIZE) ensures RankUsed(mask, r) {
      RankReached(mask, r);
    }
  }
}
