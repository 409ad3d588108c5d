/**
  Cutting a three-dimensional range of work items into work groups, x fastest, with smaller groups at
  the far ends.
*/
module NDRange {

  import opened MachineWords

  datatype Vec = Vec(x: nat, y: nat, z: nat)

  datatype Group = Group(id: Vec, size: Vec)

  // The range and the group size, all non-zero machine words.
  predicate Sizes(range: Vec, group: Vec) {
    && 0 < range.x < SIZE_T_RANGE && 0 < range.y < SIZE_T_RANGE && 0 < range.z < SIZE_T_RANGE
    && 0 < group.x < SIZE_T_RANGE && 0 < group.y < SIZE_T_RANGE && 0 < group.z < SIZE_T_RANGE
  }

  // ---------------------------------------------------------------- one axis

  // How many groups of l cover n items.
  function Amount(n: nat, l: nat): (a: nat)
    requires n > 0 && l > 0
    ensures a > 0
  {
    (n - 1) / l + 1
  }

  // How many items group i has.
  function Extent(n: nat, l: nat, i: nat): nat
    requires n > 0 && l > 0 && i < Amount(n, l)
  {
    InsideAxis(n, l, i);
    Min(l, n - i * l)
  }

  function Min(a: nat, b: nat): nat {
    if b < a then b else a
  }

  lemma DivMul(a: nat, l: nat)
    requires l > 0
    ensures a / l * l <= a < a / l * l + l && a == a / l * l + a % l
  {
  }

  lemma MulStep(a: nat, b: nat, l: nat)
    ensures a < b ==> a * l + l <= b * l
  {
    if a < b {
      MulMono(a + 1, b, l);
      assert (a + 1) * l == a * l + l;
    }
  }

  lemma {:induction false} InsideAxis(n: nat, l: nat, i: nat)
    requires n > 0 && l > 0 && i < Amount(n, l)
    ensures i * l < n
  {
    MulMono(i, (n - 1) / l, l);
    DivMul(n - 1, l);
  }

  // Only the last group can be smaller, and it ends where the range ends.
  lemma {:induction false} LastOnAxis(n: nat, l: nat, i: nat)
    requires n > 0 && l > 0 && i < Amount(n, l)
    ensures i * l < n && Extent(n, l, i) > 0
    ensures i + 1 < Amount(n, l) ==> Extent(n, l, i) == l && i * l + l == (i + 1) * l < n
    ensures i + 1 == Amount(n, l) ==> i * l + Extent(n, l, i) == n
  {
    InsideAxis(n, l, i);
    assert i * l + l == (i + 1) * l;
    if i + 1 < Amount(n, l) {
      InsideAxis(n, l, i + 1);
    } else {
      DivMul(n - 1, l);
    }
  }

  lemma {:induction false} QuotientUnique(a: nat, q: nat, r: nat, l: nat)
    requires r < l && a == q * l + r
    ensures q == a / l && r == a % l
  {
    DivMul(a, l);
    MulStep(q, a / l, l);
    MulStep(a / l, q, l);
  }

  // Every item is in the group its quotient names, at the place its remainder names.
  lemma {:induction false} ItemOnAxis(n: nat, l: nat, p: nat)
    requires n > 0 && l > 0 && p < n
    ensures p / l < Amount(n, l) && p % l < Extent(n, l, p / l) && p / l * l + p % l == p
  {
    DivMul(p, l);
    DivMul(n - 1, l);
    MulStep((n - 1) / l, p / l, l);
  }

  // ---------------------------------------------------------------- group numbers

  function Amounts(range: Vec, group: Vec): Vec
    requires Sizes(range, group)
  {
    Vec(Amount(range.x, group.x), Amount(range.y, group.y), Amount(range.z, group.z))
  }

  predicate Inside(v: Vec, limits: Vec) {
    v.x < limits.x && v.y < limits.y && v.z < limits.z
  }

  // The place of an id in the order of dispatch: x fastest, then y, then z.
  function Rank(id: Vec, amounts: Vec): nat {
    (id.z * amounts.y + id.y) * amounts.x + id.x
  }

  function Total(amounts: Vec): nat {
    amounts.x * amounts.y * amounts.z
  }

  function GroupAt(range: Vec, group: Vec, id: Vec): Group
    requires Sizes(range, group) && Inside(id, Amounts(range, group))
  {
    Group(id, Vec(Extent(range.x, group.x, id.x), Extent(range.y, group.y, id.y), Extent(range.z, group.z, id.z)))
  }

  // The id after this one; the one after the last is at the end of the z axis.
  function Advance(id: Vec, amounts: Vec): Vec {
    if id.x + 1 < amounts.x then Vec(id.x + 1, id.y, id.z)
    else if id.y + 1 < amounts.y then Vec(0, id.y + 1, id.z)
    else Vec(0, 0, id.z + 1)
  }

  lemma {:induction false} RankNext(id: Vec, amounts: Vec)
    requires Inside(id, amounts)
    ensures Rank(Advance(id, amounts), amounts) == Rank(id, amounts) + 1
    ensures Inside(Advance(id, amounts), amounts) || Advance(id, amounts) == Vec(0, 0, amounts.z)
  {
    var row := id.z * amounts.y + id.y;
    assert (row + 1) * amounts.x == row * amounts.x + amounts.x;
    assert (id.z + 1) * amounts.y == id.z * amounts.y + amounts.y;
  }

  lemma {:induction false} RankInjective(a: Vec, b: Vec, amounts: Vec)
    requires Inside(a, amounts) && Inside(b, amounts) && Rank(a, amounts) == Rank(b, amounts)
    ensures a == b
  {
    var row, row' := a.z * amounts.y + a.y, b.z * amounts.y + b.y;
    QuotientUnique(Rank(a, amounts), row, a.x, amounts.x);
    QuotientUnique(Rank(a, amounts), row', b.x, amounts.x);
    QuotientUnique(row, a.z, a.y, amounts.y);
    QuotientUnique(row, b.z, b.y, amounts.y);
  }

  /**
    The groups are numbered with x fastest, then y, then z.
  */
  lemma {:induction false} GroupNumber(range: Vec, group: Vec, groups: seq<Group>, id: Vec)
    requires Sizes(range, group) && InOrder(range, group, groups) && Inside(id, Amounts(range, group))
    requires (id.z * Amounts(range, group).y + id.y) * Amounts(range, group).x + id.x < |groups|
    ensures groups[(id.z * Amounts(range, group).y + id.y) * Amounts(range, group).x + id.x].id == id
  {
    var k := Rank(id, Amounts(range, group));
    assert Numbered(range, group, groups[k], k);
    hide Rank;
    hide Amounts;
    RankInjective(groups[k].id, id, Amounts(range, group));
  }

  lemma {:induction false} RankBelowTotal(id: Vec, amounts: Vec)
    requires Inside(id, amounts)
    ensures Rank(id, amounts) < Total(amounts)
  {
    var row := id.z * amounts.y + id.y;
    MulMono(id.z + 1, amounts.z, amounts.y);
    assert (id.z + 1) * amounts.y == id.z * amounts.y + amounts.y;
    MulMono(row + 1, amounts.z * amounts.y, amounts.x);
    assert (row + 1) * amounts.x == row * amounts.x + amounts.x;
    EndRank(amounts);
  }

  lemma EndRank(amounts: Vec)
    ensures Rank(Vec(0, 0, amounts.z), amounts) == Total(amounts) == amounts.z * amounts.y * amounts.x
  {
    assert amounts.z * amounts.y * amounts.x == amounts.x * amounts.y * amounts.z;
  }

  // ---------------------------------------------------------------- tiling

  // Item p of the range is item `local` of the group.
  predicate Places(group: Vec, g: Group, local: Vec, p: Vec) {
    && Inside(local, g.size)
    && g.id.x * group.x + local.x == p.x && g.id.y * group.y + local.y == p.y && g.id.z * group.z + local.z == p.z
  }

  // The groups are all there, in the order of dispatch.
  ghost predicate InOrder(range: Vec, group: Vec, groups: seq<Group>)
    requires Sizes(range, group)
  {
    forall k :: 0 <= k < |groups| ==> Numbered(range, group, groups[k], k)
  }

  predicate Numbered(range: Vec, group: Vec, g: Group, k: nat)
    requires Sizes(range, group)
  {
    var amounts := Amounts(range, group);
    Inside(g.id, amounts) && Rank(g.id, amounts) == k && g == GroupAt(range, group, g.id)
  }

  function Quotient(p: Vec, group: Vec): Vec
    requires group.x > 0 && group.y > 0 && group.z > 0
  {
    Vec(p.x / group.x, p.y / group.y, p.z / group.z)
  }

  function Remainder(p: Vec, group: Vec): Vec
    requires group.x > 0 && group.y > 0 && group.z > 0
  {
    Vec(p.x % group.x, p.y % group.y, p.z % group.z)
  }

  lemma {:induction false} PlacedByDivision(range: Vec, group: Vec, p: Vec)
    requires Sizes(range, group) && Inside(p, range)
    ensures Inside(Quotient(p, group), Amounts(range, group))
    ensures Places(group, GroupAt(range, group, Quotient(p, group)), Remainder(p, group), p)
  {
    ItemOnAxis(range.x, group.x, p.x);
    ItemOnAxis(range.y, group.y, p.y);
    ItemOnAxis(range.z, group.z, p.z);
  }

  lemma {:induction false} PlacedOnlyByDivision(range: Vec, group: Vec, g: Group, k: nat, local: Vec, p: Vec)
    requires Sizes(range, group) && Numbered(range, group, g, k) && Places(group, g, local, p)
    ensures g.id == Quotient(p, group) && local == Remainder(p, group) && Inside(p, range)
  {
    LastOnAxis(range.x, group.x, g.id.x);
    LastOnAxis(range.y, group.y, g.id.y);
    LastOnAxis(range.z, group.z, g.id.z);
    QuotientUnique(p.x, g.id.x, local.x, group.x);
    QuotientUnique(p.y, g.id.y, local.y, group.y);
    QuotientUnique(p.z, g.id.z, local.z, group.z);
  }

  /**
    When all the groups have been dispatched, every item of the range is in exactly one of them, at
    exactly one local position, and no group has an item outside the range.
  */
  lemma {:induction false} GroupsTileRange(range: Vec, group: Vec, groups: seq<Group>, p: Vec)
    requires Sizes(range, group) && InOrder(range, group, groups) && |groups| == Total(Amounts(range, group))
    ensures Inside(p, range) ==>
              exists k: nat, local :: k < |groups| && Places(group, groups[k], local, p)
    ensures forall k: nat, local :: k < |groups| && Places(group, groups[k], local, p) ==>
                                      Inside(p, range) && k == Rank(Quotient(p, group), Amounts(range, group))
                                      && local == Remainder(p, group)
  {
    var amounts := Amounts(range, group);
    if Inside(p, range) {
      var id := Quotient(p, group);
      PlacedByDivision(range, group, p);
      RankBelowTotal(id, amounts);
      var k := Rank(id, amounts);
      assert Numbered(range, group, groups[k], k);
      RankInjective(groups[k].id, id, amounts);
      assert Places(group, groups[k], Remainder(p, group), p);
    }
    forall k: nat, local | k < |groups| && Places(group, groups[k], local, p)
      ensures Inside(p, range) && k == Rank(Quotient(p, group), amounts) && local == Remainder(p, group)
    {
      assert Numbered(range, group, groups[k], k);
      PlacedOnlyByDivision(range, group, groups[k], k, local, p);
    }
  }

  // ---------------------------------------------------------------- no item is counted twice

  function Volume(x: nat, y: nat, z: nat): nat {
    x * y * z
  }

  function Items(size: Vec): nat {
    Volume(size.x, size.y, size.z)
  }

  function ItemsOf(groups: seq<Group>): nat {
    if groups == [] then 0 else ItemsOf(groups[..|groups| - 1]) + Items(groups[|groups| - 1].size)
  }

  function Offset(i: nat, l: nat): nat {
    i * l
  }

  lemma {:induction false} AxisEnd(n: nat, l: nat, i: nat)
    requires n > 0 && l > 0 && i < Amount(n, l)
    ensures Offset(0, l) == 0
    ensures Offset(i, l) + Extent(n, l, i) == if i + 1 < Amount(n, l) then Offset(i + 1, l) else n
  {
    LastOnAxis(n, l, i);
  }

  // Items in the planes, rows and groups dispatched before group `id`.
  function Before(range: Vec, group: Vec, id: Vec): nat
    requires Sizes(range, group) && Inside(id, Amounts(range, group))
  {
    var size := GroupAt(range, group, id).size;
    Volume(range.x, range.y, Offset(id.z, group.z)) + Volume(range.x, Offset(id.y, group.y), size.z)
    + Volume(Offset(id.x, group.x), size.y, size.z)
  }

  lemma VolumeAdds(a: nat, b: nat, c: nat, d: nat)
    ensures Volume(a + b, c, d) == Volume(a, c, d) + Volume(b, c, d)
    ensures Volume(c, a + b, d) == Volume(c, a, d) + Volume(c, b, d)
    ensures Volume(c, d, a + b) == Volume(c, d, a) + Volume(c, d, b)
  {
    assert (a + b) * c == a * c + b * c;
    assert (a * c + b * c) * d == a * c * d + b * c * d;
    assert c * (a + b) == c * a + c * b;
    assert (c * a + c * b) * d == c * a * d + c * b * d;
    assert c * d * (a + b) == c * d * a + c * d * b;
  }

  lemma VolumeZero(c: nat, d: nat)
    ensures Volume(0, c, d) == 0 && Volume(c, 0, d) == 0 && Volume(c, d, 0) == 0
  {
  }

  lemma {:induction false} BeforeNext(range: Vec, group: Vec, id: Vec)
    requires Sizes(range, group) && Inside(id, Amounts(range, group))
    ensures var amounts := Amounts(range, group);
            var next := Advance(id, amounts);
            Before(range, group, id) + Items(GroupAt(range, group, id).size)
            == if Inside(next, amounts) then Before(range, group, next) else Items(range)
  {
    hide Extent;
    hide Amount;
    hide Volume;
    var amounts := Amounts(range, group);
    var next := Advance(id, amounts);
    var size := GroupAt(range, group, id).size;
    hide Offset;
    AxisEnd(range.x, group.x, id.x);
    AxisEnd(range.y, group.y, id.y);
    AxisEnd(range.z, group.z, id.z);
    VolumeAdds(Offset(id.x, group.x), size.x, size.y, size.z);
    VolumeAdds(Offset(id.y, group.y), size.y, range.x, size.z);
    VolumeAdds(Offset(id.z, group.z), size.z, range.x, range.y);
    if Inside(next, amounts) {
      var after := GroupAt(range, group, next).size;
      VolumeZero(after.y, after.z);
      VolumeZero(range.x, after.z);
    }
  }

  /**
    The groups dispatched hold, together, as many items as the range.
  */
  lemma {:induction false} GroupsHoldRange(range: Vec, group: Vec, groups: seq<Group>)
    requires Sizes(range, group) && InOrder(range, group, groups)
    ensures |groups| == Total(Amounts(range, group)) ==> ItemsOf(groups) == Items(range)
    ensures forall id :: Inside(id, Amounts(range, group)) && Rank(id, Amounts(range, group)) == |groups| ==>
                           ItemsOf(groups) == Before(range, group, id)
  {
    var amounts := Amounts(range, group);
    hide Before;
    hide Amount;
    hide Total;
    hide Rank;
    if groups == [] {
      FirstGroup(range, group);
    } else {
      var rest, g := groups[..|groups| - 1], groups[|groups| - 1];
      assert InOrder(range, group, rest);
      GroupsHoldRange(range, group, rest);
      assert Numbered(range, group, g, |rest|);
      var next := Advance(g.id, amounts);
      BeforeNext(range, group, g.id);
      RankNext(g.id, amounts);
      EndRank(amounts);
      if Inside(next, amounts) {
        RankBelowTotal(next, amounts);
      }
      forall id | Inside(id, amounts) && Rank(id, amounts) == |groups|
        ensures ItemsOf(groups) == Before(range, group, id)
      {
        RankBelowTotal(id, amounts);
        RankInjective(id, next, amounts);
      }
    }
  }

  lemma {:induction false} FirstGroup(range: Vec, group: Vec)
    requires Sizes(range, group)
    ensures Total(Amounts(range, group)) > 0
    ensures forall id :: Inside(id, Amounts(range, group)) && Rank(id, Amounts(range, group)) == 0 ==>
                           Before(range, group, id) == 0
  {
    var amounts := Amounts(range, group);
    RankBelowTotal(Vec(0, 0, 0), amounts);
    forall id | Inside(id, amounts) && Rank(id, amounts) == 0 ensures Before(range, group, id) == 0 {
      hide Amount;
      RankInjective(id, Vec(0, 0, 0), amounts);
    }
  }
}
