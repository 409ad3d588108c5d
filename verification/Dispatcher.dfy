/**
  The dispatcher: one work group after another, in 64-bit machine arithmetic.
*/
module Dispatchers {
  import opened Wrappers
  import opened MachineWords
  import opened NDRange

  // Subtraction and multiplication of size_t.
  function Minus(a: nat, b: nat): nat {
    (a - b) % SIZE_T_RANGE
  }

  function Times(a: nat, b: nat): nat {
    (a * b) % SIZE_T_RANGE
  }

  class Dispatcher {
    const range: Vec
    const group: Vec
    var curIdX: nat
    var curIdY: nat
    var curIdZ: nat
    var dispatchedWg: nat
    var wgAmount: nat

    constructor (range: Vec, group: Vec)
      requires Sizes(range, group)
      ensures this.range == range && this.group == group && Valid() && dispatchedWg == 0
    {
      this.range, this.group := range, group;
      curIdX, curIdY, curIdZ, dispatchedWg := 0, 0, 0, 0;
      var wgAmountX := (range.x - 1) / group.x + 1;
      var wgAmountY := (range.y - 1) / group.y + 1;
      var wgAmountZ := (range.z - 1) / group.z + 1;
      wgAmount := Times(Times(wgAmountX, wgAmountY), wgAmountZ);
      TimesThree(wgAmountX, wgAmountY, wgAmountZ);
      FirstGroup(range, group);
      EndRank(Amounts(range, group));
    }

    ghost function WgAmounts(): Vec
      requires Sizes(range, group)
    {
      Amounts(range, group)
    }

    ghost function Current(): Vec
      reads this
    {
      Vec(curIdX, curIdY, curIdZ)
    }

    // The counter and the current id agree, up to the number of groups a machine word can count.
    ghost predicate Valid()
      reads this
    {
      && Sizes(range, group)
      && wgAmount == Total(WgAmounts()) % SIZE_T_RANGE
      && dispatchedWg == Rank(Current(), WgAmounts())
      && (Inside(Current(), WgAmounts()) || Current() == Vec(0, 0, WgAmounts().z))
    }

    predicate HasNextWg()
      reads this
    {
      dispatchedWg < wgAmount
    }

    /**
      Gives the next group, with the next number in x-fastest order. Asked once more after the last
      group, it gives nothing only if the group size divides the range along z: otherwise the
      remainder wraps around and a group beyond the range comes out.
    */
    method NextWg() returns (workGroup: Option<Group>)
      requires Valid()
      modifies this
      ensures old(Inside(Current(), WgAmounts())) ==>
                Valid() && workGroup.Some? && Numbered(range, group, workGroup.value, old(dispatchedWg))
                && dispatchedWg == old(dispatchedWg) + 1
      ensures !old(Inside(Current(), WgAmounts())) ==> (workGroup.None? <==> range.z % group.z == 0)
    {
      hide Rank;
      hide Amount;
      hide Total;
      var leftWISizeX := Minus(range.x, Times(curIdX, group.x));
      var leftWISizeY := Minus(range.y, Times(curIdY, group.y));
      var leftWISizeZ := Minus(range.z, Times(curIdZ, group.z));
      ghost var id := Current();
      ghost var inside := Inside(id, WgAmounts());
      if inside {
        LeftOnAxis(range.x, group.x, curIdX);
        LeftOnAxis(range.y, group.y, curIdY);
        LeftOnAxis(range.z, group.z, curIdZ);
        RankNext(id, WgAmounts());
      } else {
        LeftAtStart(range.x, group.x);
        LeftAtStart(range.y, group.y);
        LeftPastEnd(range.z, group.z);
      }
      if leftWISizeX <= 0 || leftWISizeY <= 0 || leftWISizeZ <= 0 {
        return None;
      }
      var size := Vec(Min(group.x, leftWISizeX), Min(group.y, leftWISizeY), Min(group.z, leftWISizeZ));
      workGroup := Some(Group(Vec(curIdX, curIdY, curIdZ), size));
      curIdX := curIdX + 1;
      if leftWISizeX - size.x == 0 {
        curIdY := curIdY + 1;
        curIdX := 0;
        if leftWISizeY - size.y == 0 {
          curIdZ := curIdZ + 1;
          curIdY := 0;
        }
      }
      dispatchedWg := dispatchedWg + 1;
    }

    /**
      The dispatch loop. It emits the groups in order, and it emits all of them exactly when their
      number fits a machine word.
    */
    method DispatchAll() returns (groups: seq<Group>)
      requires Valid() && dispatchedWg == 0
      modifies this
      ensures InOrder(range, group, groups) && |groups| == Total(WgAmounts()) % SIZE_T_RANGE
      ensures |groups| == Total(WgAmounts()) <==> Total(WgAmounts()) < SIZE_T_RANGE
    {
      hide Rank;
      hide Amount;
      hide Total;
      groups := [];
      while HasNextWg()
        invariant Valid() && dispatchedWg == |groups| && |groups| <= wgAmount
        invariant InOrder(range, group, groups)
        decreases wgAmount - dispatchedWg
      {
        EndRank(WgAmounts());
        WrapsDown(Total(WgAmounts()));
        assert Inside(Current(), WgAmounts());
        var wg := NextWg();
        groups := groups + [wg.value];
      }
      WrapsDown(Total(WgAmounts()));
    }
  }

  // A range of 2^32 by 2^32 items in groups of one has as many groups as a word counts to: none is dispatched.
  lemma HugeRangeHasNoGroups()
    ensures var range, group := Vec(0x1_0000_0000, 0x1_0000_0000, 1), Vec(1, 1, 1);
            Sizes(range, group) && Total(Amounts(range, group)) % SIZE_T_RANGE == 0
  {
    hide Amount;
    hide Total;
    GroupsOfOne(0x1_0000_0000);
    GroupsOfOne(1);
    HugeTotal();
    assert Amounts(Vec(0x1_0000_0000, 0x1_0000_0000, 1), Vec(1, 1, 1)) == Vec(0x1_0000_0000, 0x1_0000_0000, 1);
  }

  lemma HugeTotal()
    ensures Total(Vec(0x1_0000_0000, 0x1_0000_0000, 1)) == SIZE_T_RANGE && SIZE_T_RANGE % SIZE_T_RANGE == 0
  {
  }

  lemma GroupsOfOne(n: nat)
    requires n > 0
    ensures Amount(n, 1) == n
  {
  }

  // Past the end of 3 items in groups of 2, what seems to be left has wrapped around.
  lemma PastTheEndWraps()
    ensures Minus(3, Times(Amount(3, 2), 2)) == SIZE_T_RANGE - 1
  {
  }

  lemma WrapsDown(t: nat)
    ensures t % SIZE_T_RANGE <= t && t % SIZE_T_RANGE < SIZE_T_RANGE && (t % SIZE_T_RANGE == t <==> t < SIZE_T_RANGE)
  {
  }

  lemma {:induction false} WrapOnce(a: nat, m: nat)
    requires m > 0
    ensures exists q: nat :: a == q * m + a % m
  {
    DivMul(a, m);
    assert a == a / m * m + a % m;
  }

  // Multiplying in two steps wraps to the same word as multiplying at once.
  lemma {:induction false} TimesThree(a: nat, b: nat, c: nat)
    ensures Times(Times(a, b), c) == (a * b * c) % SIZE_T_RANGE
  {
    var m, p := SIZE_T_RANGE, a * b;
    WrapOnce(p, m);
    var q: nat :| p == q * m + p % m;
    WrapOnce(p % m * c, m);
    var q': nat :| p % m * c == q' * m + (p % m * c) % m;
    assert p * c == q * c * m + p % m * c by {
      assert (q * m + p % m) * c == q * m * c + p % m * c;
      assert q * m * c == q * c * m;
    }
    assert p * c == (q * c + q') * m + (p % m * c) % m by {
      assert (q * c + q') * m == q * c * m + q' * m;
    }
    QuotientUnique(p * c, q * c + q', (p % m * c) % m, m);
  }

  lemma {:induction false} Small(a: nat, m: nat)
    requires a < m
    ensures a % m == a
  {
  }

  // Inside the range nothing wraps.
  lemma {:induction false} LeftOnAxis(n: nat, l: nat, i: nat)
    requires 0 < n < SIZE_T_RANGE && l > 0 && i < Amount(n, l)
    ensures var left := Minus(n, Times(i, l));
            left > 0 && Min(l, left) == Extent(n, l, i) && (left - Min(l, left) == 0 <==> i + 1 == Amount(n, l))
  {
    LastOnAxis(n, l, i);
    Small(i * l, SIZE_T_RANGE);
    Small(n - i * l, SIZE_T_RANGE);
  }

  lemma {:induction false} LeftAtStart(n: nat, l: nat)
    requires 0 < n < SIZE_T_RANGE && l > 0
    ensures Minus(n, Times(0, l)) > 0
  {
    DivMul(n - 1, l);
    LeftOnAxis(n, l, 0);
  }

  // Past the last group what is left is zero or has wrapped around.
  lemma {:induction false} LeftPastEnd(n: nat, l: nat)
    requires 0 < n < SIZE_T_RANGE && 0 < l < SIZE_T_RANGE
    ensures Minus(n, Times(Amount(n, l), l)) == 0 <==> n % l == 0
  {
    var a := Amount(n, l);
    DivMul(n - 1, l);
    assert a * l == (n - 1) / l * l + l;
    var over := a * l - n;
    assert 0 <= over < l;
    DivMul(n, l);
    if n % l == 0 {
      MultipleFits(n, l);
      assert over == 0;
      Small(n, SIZE_T_RANGE);
    } else {
      assert over > 0 by {
        if over == 0 {
          QuotientUnique(n, a, 0, l);
        }
      }
      WrapNegative(n, over);
    }
  }

  // When l divides n the last group is full.
  lemma {:induction false} MultipleFits(n: nat, l: nat)
    requires n > 0 && l > 0 && n % l == 0
    ensures Amount(n, l) * l == n
  {
    DivMul(n, l);
    var q := n / l;
    assert q > 0;
    assert n - 1 == (q - 1) * l + (l - 1) by {
      assert (q - 1) * l == q * l - l;
    }
    QuotientUnique(n - 1, q - 1, l - 1, l);
  }

  // n - (n + over), with the product taken modulo the word size.
  lemma {:induction false} WrapNegative(n: nat, over: nat)
    requires 0 < n < SIZE_T_RANGE && 0 < over < SIZE_T_RANGE
    ensures Minus(n, (n + over) % SIZE_T_RANGE) != 0
  {
  }
}
