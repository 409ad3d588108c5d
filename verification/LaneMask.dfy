/**
  64-bit lane masks: the EXEC and VCC registers hold one bit per lane of a wavefront.
*/
module LaneMask {

  const WAVEFRONT_SIZE: nat := 64

  // The three bitwise operations the masks need, named so that proofs can keep them apart.
  function And(a: bv64, b: bv64): bv64 { a & b }
  function Or(a: bv64, b: bv64): bv64 { a | b }
  function AndNot(a: bv64, b: bv64): bv64 { a & !b }
  function Twice(a: bv64): bv64 { a << 1 }
  function TwicePlusOne(a: bv64): bv64 { (a << 1) | 1 }
  function Pred(a: bv64): bv64 { a - 1 }

  // 1ull << lane, by doubling; see OneHotIsShift.
  function OneHot(lane: nat): bv64
    requires lane < WAVEFRONT_SIZE
  {
    if lane == 0 then 1 else Twice(OneHot(lane - 1))
  }

  // work_item_masked, and the carry test of the vector instructions.
  predicate Masked(mask: bv64, lane: nat)
    requires lane < WAVEFRONT_SIZE
  {
    And(mask, OneHot(lane)) != 0
  }

  // `VCC |= mask` or `VCC &= ~mask`.
  function SetLane(mask: bv64, lane: nat, b: bool): bv64
    requires lane < WAVEFRONT_SIZE
  {
    if b then Or(mask, OneHot(lane)) else AndNot(mask, OneHot(lane))
  }

  // evaluate_exec_reg_value
  function LowLanes(n: nat): bv64
    requires n <= WAVEFRONT_SIZE
  {
    if n == 64 then 0xffff_ffff_ffff_ffff else Pred(OneHot(n))
  }

  // The set bits among the lowest n.
  function Ones(mask: bv64, n: nat): (count: nat)
    requires n <= WAVEFRONT_SIZE
    ensures count <= n
  {
    if n == 0 then 0 else Ones(mask, n - 1) + if Masked(mask, n - 1) then 1 else 0
  }

  // ---------------------------------------------------------------- facts about words

  function Shifted(i: bv6): bv64 { (1 as bv64) << i }

  lemma ShiftNext(i: bv6)
    requires i != 0
    ensures Shifted(i) == Twice(Shifted(i - 1)) && i - 1 < i
  {
  }

  lemma Predecessor(i: bv6)
    requires i != 0
    ensures i as nat == (i - 1) as nat + 1 && i as nat < 64
  {
  }

  lemma ShiftZero()
    ensures Shifted(0) == 1 && OneHot((0 as bv6) as nat) == 1
  {
  }

  // The doubled words are the shifted ones.
  lemma {:induction false} OneHotIsShift(i: bv6)
    ensures i as nat < WAVEFRONT_SIZE && OneHot(i as nat) == Shifted(i)
    decreases i
  {
    hide Twice;
    hide Shifted;
    if i == 0 {
      ShiftZero();
    } else {
      Predecessor(i);
      ShiftNext(i);
      OneHotIsShift(i - 1);
      OneHotNext((i - 1) as nat);
      hide OneHot;
    }
  }

  lemma TwiceMeet(m: bv64, n: bv64)
    requires And(m, n) == 0
    ensures And(Twice(m), Twice(n)) == 0
  {
  }

  lemma TwiceMeetOne(m: bv64)
    ensures And(Twice(m), 1) == 0
  {
  }

  lemma AndCommutes(m: bv64, n: bv64)
    ensures And(m, n) == And(n, m)
  {
  }

  lemma AndAssociates(a: bv64, b: bv64, m: bv64)
    ensures And(And(a, b), m) == And(And(a, m), And(b, m))
  {
  }

  lemma AndSelf(m: bv64)
    ensures And(m, m) == m && And(m, 0) == 0 && And(0, m) == 0
  {
  }

  lemma OrMeets(x: bv64, m: bv64)
    requires m != 0
    ensures And(Or(x, m), m) != 0
  {
  }

  lemma AndNotMisses(x: bv64, m: bv64)
    ensures And(AndNot(x, m), m) == 0
  {
  }

  lemma OrElsewhere(x: bv64, m: bv64, n: bv64)
    requires And(m, n) == 0
    ensures And(Or(x, m), n) == And(x, n)
  {
  }

  lemma AndNotElsewhere(x: bv64, m: bv64, n: bv64)
    requires And(m, n) == 0
    ensures And(AndNot(x, m), n) == And(x, n)
  {
  }

  // m has at most one bit set.
  predicate Power(m: bv64) {
    m & (m - 1) == 0
  }

  lemma TwicePower(m: bv64)
    requires Power(m)
    ensures Power(Twice(m))
  {
  }

  lemma OnePower()
    ensures Power(1)
  {
  }

  lemma PowerMeet(a: bv64, m: bv64)
    requires Power(m)
    ensures And(a, m) == 0 || And(a, m) == m
  {
  }

  predicate Small(m: bv64) {
    m & 0x8000_0000_0000_0000 == 0
  }

  lemma TwiceNonZero(m: bv64)
    requires Small(m)
    ensures Twice(m) == 0 <==> m == 0
  {
  }

  lemma SmallMeet(x: bv64, m: bv64)
    requires Small(m)
    ensures Small(And(x, m))
  {
  }

  lemma LastIsTop(m: bv64)
    requires And(OneHot(63), m) == 0
    ensures Small(m)
  {
    TopLane();
    TopMeet(m);
  }

  lemma TopMeet(m: bv64)
    ensures And(0x8000_0000_0000_0000, m) == 0 ==> Small(m)
  {
  }

  lemma TwicePlusOneMeet(x: bv64, m: bv64)
    ensures And(TwicePlusOne(x), Twice(m)) == Twice(And(x, m))
    ensures And(TwicePlusOne(x), 1) == 1
  {
  }

  lemma TwicePred(m: bv64)
    ensures TwicePlusOne(Pred(m)) == Pred(Twice(m))
  {
  }

  lemma PredZero()
    ensures Pred(0) == 0xffff_ffff_ffff_ffff && Pred(1) == 0
  {
  }

  lemma TwiceTop()
    ensures Twice(0x8000_0000_0000_0000) == 0
  {
  }

  lemma {:induction false} LowLanesNext(n: nat)
    requires n < WAVEFRONT_SIZE
    ensures LowLanes(n + 1) == TwicePlusOne(LowLanes(n))
  {
    hide Twice;
    hide TwicePlusOne;
    hide Pred;
    TwicePred(OneHot(n));
    if n == 63 {
      TopLane();
      TwiceTop();
      PredZero();
    }
  }

  lemma TopLane()
    ensures OneHot(63) == 0x8000_0000_0000_0000
  {
    OneHotIsShift(63);
    assert (63 as bv6) as nat == 63;
  }

  // ---------------------------------------------------------------- facts about lanes

  lemma OneHotNext(i: nat)
    requires i < 63
    ensures OneHot(i + 1) == Twice(OneHot(i))
  {
  }

  lemma OneHotZero()
    ensures OneHot(0) == 1
  {
  }

  lemma {:induction false} OneHotDisjoint(i: nat, j: nat)
    requires j < i < WAVEFRONT_SIZE
    ensures And(OneHot(i), OneHot(j)) == 0
  {
    hide And;
    hide Twice;
    hide OneHot;
    OneHotNext(i - 1);
    if j == 0 {
      OneHotZero();
      TwiceMeetOne(OneHot(i - 1));
    } else {
      OneHotNext(j - 1);
      OneHotDisjoint(i - 1, j - 1);
      TwiceMeet(OneHot(i - 1), OneHot(j - 1));
    }
  }

  lemma {:induction false} OneHotFacts(i: nat)
    requires i < WAVEFRONT_SIZE
    ensures OneHot(i) != 0 && Power(OneHot(i)) && (i < 63 ==> Small(OneHot(i)))
  {
    hide And;
    hide Twice;
    hide OneHot;
    hide Power;
    hide Small;
    if i == 0 {
      OneHotZero();
      OnePower();
    } else {
      OneHotFacts(i - 1);
      OneHotNext(i - 1);
      TwiceNonZero(OneHot(i - 1));
      TwicePower(OneHot(i - 1));
    }
    if i < 63 {
      OneHotDisjoint(63, i);
      LastIsTop(OneHot(i));
    }
  }

  // Setting or clearing the bit of one lane leaves every other lane's bit as it was.
  lemma {:induction false} SetLaneMasked(x: bv64, i: nat, b: bool, j: nat)
    requires i < WAVEFRONT_SIZE && j < WAVEFRONT_SIZE
    ensures Masked(SetLane(x, i, b), j) == if i == j then b else Masked(x, j)
  {
    hide And;
    hide Or;
    hide AndNot;
    hide OneHot;
    OneHotFacts(i);
    if i == j {
      OrMeets(x, OneHot(i));
      AndNotMisses(x, OneHot(i));
    } else {
      if j < i {
        OneHotDisjoint(i, j);
      } else {
        OneHotDisjoint(j, i);
        AndCommutes(OneHot(i), OneHot(j));
      }
      OrElsewhere(x, OneHot(i), OneHot(j));
      AndNotElsewhere(x, OneHot(i), OneHot(j));
    }
  }

  lemma {:induction false} AndMasked(a: bv64, b: bv64, i: nat)
    requires i < WAVEFRONT_SIZE
    ensures Masked(And(a, b), i) <==> Masked(a, i) && Masked(b, i)
  {
    hide And;
    hide OneHot;
    var m := OneHot(i);
    OneHotFacts(i);
    PowerMeet(a, m);
    PowerMeet(b, m);
    AndAssociates(a, b, m);
    AndSelf(m);
    AndSelf(0);
  }

  lemma ZeroMasked(i: nat)
    requires i < WAVEFRONT_SIZE
    ensures !Masked(0, i)
  {
    hide And;
    hide OneHot;
    AndSelf(OneHot(i));
  }

  lemma LowNone()
    ensures LowLanes(0) == 0
  {
    OneHotZero();
    PredZero();
  }

  // EXEC of a wavefront of n work items has exactly the bits of lanes 0..n-1.
  lemma {:induction false} LowLanesMasked(n: nat, i: nat)
    requires n <= WAVEFRONT_SIZE && i < WAVEFRONT_SIZE
    ensures Masked(LowLanes(n), i) <==> i < n
  {
    if n == 0 {
      LowNone();
      ZeroMasked(i);
    } else {
      hide And;
      hide Twice;
      hide TwicePlusOne;
      hide OneHot;
      hide LowLanes;
      hide Small;
      LowLanesNext(n - 1);
      if i == 0 {
        OneHotZero();
        TwicePlusOneMeet(LowLanes(n - 1), 1);
      } else {
        var m := OneHot(i - 1);
        TwicePlusOneMeet(LowLanes(n - 1), m);
        OneHotNext(i - 1);
        OneHotFacts(i - 1);
        LowLanesMasked(n - 1, i - 1);
        SmallMeet(LowLanes(n - 1), m);
        TwiceNonZero(And(LowLanes(n - 1), m));
      }
    }
  }
}
