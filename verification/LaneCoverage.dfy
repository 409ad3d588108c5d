/**
  Which lanes of a launch run which items of the range: what EXEC and the first three vector registers
  say in the wavefronts of all groups when they start.
*/
module LaneCoverage {
  import opened MachineWords
  import opened LaneMask
  import opened WavefrontState
  import opened WavefrontControl
  import opened KernelCode
  import opened NDRange
  import WorkGroups
  import Dispatchers

  // The wavefronts of this group start with these registers.
  ghost predicate Starts(waves: seq<Regs>, vgprsnum: nat, size: Vec) {
    exists items :: WorkGroups.Enumerates(items, size) && WorkGroups.GroupStarts(waves, vgprsnum, items)
  }

  // The same for all groups of a launch.
  ghost predicate AllStart(groups: seq<Group>, launch: seq<seq<Regs>>, vgprsnum: nat) {
    |launch| == |groups| && forall k :: 0 <= k < |groups| ==> Starts(launch[k], vgprsnum, groups[k].size)
  }

  /**
    Launches the groups one after another, as the dispatcher gives them, and remembers the registers
    every wavefront starts with.
  */
  method LaunchAll(dispatcher: Dispatchers.Dispatcher, env: Env, program: Program, sgprsnum: nat, vgprsnum: nat)
    returns (groups: seq<Group>, ghost launch: seq<seq<Regs>>)
    requires dispatcher.Valid() && dispatcher.dispatchedWg == 0 && vgprsnum >= 3
    modifies dispatcher
    ensures InOrder(dispatcher.range, dispatcher.group, groups) && AllStart(groups, launch, vgprsnum)
    ensures |groups| == Total(dispatcher.WgAmounts()) % SIZE_T_RANGE
  {
    hide InOrder;
    hide WorkGroups.Enumerates;
    hide WorkGroups.GroupStarts;
    hide WorkGroups.RegistersFit;
    groups := dispatcher.DispatchAll();
    launch := [];
    for k := 0 to |groups|
      invariant |launch| == k && forall j :: 0 <= j < k ==> Starts(launch[j], vgprsnum, groups[j].size)
    {
      var workGroup := new WorkGroups.WorkGroup(groups[k], env, program);
      workGroup.InitWorkitems();
      forall w | 0 <= w < WorkGroups.Waves(|workGroup.workItems|)
        ensures WorkGroups.RegistersFit(WorkGroups.WaveSize(|workGroup.workItems|, w), vgprsnum)
      {
        WorkGroups.ThreeRegistersFit(WorkGroups.WaveSize(|workGroup.workItems|, w), vgprsnum);
      }
      ghost var waves := workGroup.InitWavefronts(sgprsnum, vgprsnum);
      launch := launch + [waves];
    }
  }

  // ---------------------------------------------------------------- EXEC counts the items

  lemma {:induction false} LowLanesActive(size: nat, n: nat)
    requires size <= WAVEFRONT_SIZE && n <= WAVEFRONT_SIZE
    ensures Ones(LowLanes(size), n) == Min(size, n)
  {
    hide Masked;
    hide LowLanes;
    if n > 0 {
      LowLanesActive(size, n - 1);
      LowLanesMasked(size, n - 1);
    }
  }

  // The set EXEC bits of some wavefronts, and of the wavefronts of some groups.
  function ActiveLanes(waves: seq<Regs>): nat {
    if waves == [] then 0
    else ActiveLanes(waves[..|waves| - 1]) + Ones(waves[|waves| - 1].exec, WAVEFRONT_SIZE)
  }

  function ActiveInLaunch(launch: seq<seq<Regs>>): nat {
    if launch == [] then 0
    else ActiveInLaunch(launch[..|launch| - 1]) + ActiveLanes(launch[|launch| - 1])
  }

  lemma {:induction false} WavesHoldItems(waves: seq<Regs>, vgprsnum: nat, items: seq<Vec>, w: nat)
    requires WorkGroups.GroupStarts(waves, vgprsnum, items) && w <= |waves|
    ensures ActiveLanes(waves[..w]) == Min(w * 64, |items|)
    ensures w == |waves| ==> ActiveLanes(waves) == |items|
  {
    hide Ones;
    hide LowLanes;
    hide WorkGroups.LaneHolds;
    if w > 0 {
      WavesHoldItems(waves, vgprsnum, items, w - 1);
      assert waves[..w][..w - 1] == waves[..w - 1];
      assert WorkGroups.Starts(waves[w - 1], WorkGroups.WaveSize(|items|, w - 1), vgprsnum, items);
      LowLanesActive(WorkGroups.WaveSize(|items|, w - 1), 64);
    }
    assert waves[..|waves|] == waves;
  }

  lemma {:induction false} LaunchHoldsItems(groups: seq<Group>, launch: seq<seq<Regs>>, vgprsnum: nat)
    requires AllStart(groups, launch, vgprsnum)
    ensures ActiveInLaunch(launch) == ItemsOf(groups)
  {
    hide *;
    if groups != [] {
      var n := |groups| - 1;
      GroupHoldsItems(groups, launch, vgprsnum, n);
      FewerStart(groups, launch, vgprsnum, n);
      LaunchHoldsItems(groups[..n], launch[..n], vgprsnum);
      assert launch == launch[..n] + [launch[n]] && groups == groups[..n] + [groups[n]];
      OneMore(launch[..n], launch[n], groups[..n], groups[n]);
    } else {
      NoneActive(groups, launch, vgprsnum);
    }
  }

  lemma NoneActive(groups: seq<Group>, launch: seq<seq<Regs>>, vgprsnum: nat)
    requires AllStart(groups, launch, vgprsnum) && groups == []
    ensures ActiveInLaunch(launch) == ItemsOf(groups)
  {
  }

  lemma OneMore(launch: seq<seq<Regs>>, waves: seq<Regs>, groups: seq<Group>, g: Group)
    ensures ActiveInLaunch(launch + [waves]) == ActiveInLaunch(launch) + ActiveLanes(waves)
    ensures ItemsOf(groups + [g]) == ItemsOf(groups) + Items(g.size)
  {
    assert (launch + [waves])[..|launch|] == launch && (groups + [g])[..|groups|] == groups;
  }

  lemma FewerStart(groups: seq<Group>, launch: seq<seq<Regs>>, vgprsnum: nat, n: nat)
    requires AllStart(groups, launch, vgprsnum) && n <= |groups|
    ensures |launch| == |groups| && AllStart(groups[..n], launch[..n], vgprsnum)
  {
    hide Starts;
  }

  lemma {:induction false} GroupHoldsItems(groups: seq<Group>, launch: seq<seq<Regs>>, vgprsnum: nat, k: nat)
    requires AllStart(groups, launch, vgprsnum) && k < |groups|
    ensures |launch| == |groups| && ActiveLanes(launch[k]) == Items(groups[k].size)
  {
    assert Starts(launch[k], vgprsnum, groups[k].size);
    var items :| WorkGroups.Enumerates(items, groups[k].size) && WorkGroups.GroupStarts(launch[k], vgprsnum, items);
    assert |items| == Items(groups[k].size);
    hide *;
    WavesHoldItems(launch[k], vgprsnum, items, |launch[k]|);
  }

  /**
    Over all wavefronts of all groups of a launch, as many lanes start active as the range has items.
  */
  lemma {:induction false} ActiveLanesAreItems(range: Vec, group: Vec, groups: seq<Group>, launch: seq<seq<Regs>>,
                                               vgprsnum: nat)
    requires Sizes(range, group) && InOrder(range, group, groups) && |groups| == Total(Amounts(range, group))
    requires AllStart(groups, launch, vgprsnum)
    ensures ActiveInLaunch(launch) == Items(range)
  {
    LaunchHoldsItems(groups, launch, vgprsnum);
    GroupsHoldRange(range, group, groups);
  }

  // ---------------------------------------------------------------- which items the lanes run

  // Lane `lane` is active and v0, v1 and v2 hold these numbers.
  predicate Runs(regs: Regs, vgprsnum: nat, lane: nat, item: Vec) {
    && lane < WAVEFRONT_SIZE && Masked(regs.exec, lane)
    && lane * vgprsnum + 2 < |regs.vgprs|
    && regs.vgprs[lane * vgprsnum] as nat == item.x
    && regs.vgprs[lane * vgprsnum + 1] as nat == item.y
    && regs.vgprs[lane * vgprsnum + 2] as nat == item.z
  }

  predicate RunsIn(waves: seq<Regs>, vgprsnum: nat, w: nat, lane: nat, item: Vec) {
    w < |waves| && Runs(waves[w], vgprsnum, lane, item)
  }

  // Every item of the group is run, and run once.
  ghost predicate EachItemOnce(waves: seq<Regs>, vgprsnum: nat, size: Vec) {
    && (forall item :: Inside(item, size) ==> exists w, lane :: RunsIn(waves, vgprsnum, w, lane, item))
    && forall item, w, lane, w', lane' ::
         Inside(item, size) && RunsIn(waves, vgprsnum, w, lane, item) && RunsIn(waves, vgprsnum, w', lane', item) ==>
           w == w' && lane == lane'
  }

  // A number below 64 is what its word says: through six bits and back.
  lemma WordIs(n: nat)
    requires n < 64
    ensures WorkGroups.Word(n) as nat == n
  {
    SixBits(n);
    Widened(n as bv6);
    var x := (n as bv6) as bv32;
    assert x as nat == n;
    ThereAndBack(x);
  }

  lemma SixBits(n: nat)
    requires n < 64
    ensures (n as bv6) as nat == n
  {
  }

  lemma Widened(w: bv6)
    ensures (w as bv32) as nat == w as nat
  {
  }

  lemma ThereAndBack(x: bv32)
    ensures (x as nat) as bv32 == x
  {
  }

  // An active lane runs the item with its own number.
  lemma {:induction false} LaneRuns(regs: Regs, size: nat, vgprsnum: nat, items: seq<Vec>, lane: nat)
    requires WorkGroups.Starts(regs, size, vgprsnum, items) && vgprsnum >= 3 && lane < size
    requires items[lane].x < 64 && items[lane].y < 64 && items[lane].z < 64
    ensures Runs(regs, vgprsnum, lane, items[lane])
    ensures forall item :: Runs(regs, vgprsnum, lane, item) ==> item == items[lane]
  {
    var item := items[lane];
    assert Masked(regs.exec, lane) by { LowLanesMasked(size, lane); }
    assert WorkGroups.LaneHolds(regs.vgprs, vgprsnum, lane, item);
    hide WorkGroups.LaneHolds;
    hide WorkGroups.Word;
    RegisterIs(regs.vgprs, vgprsnum, lane, item, 0);
    RegisterIs(regs.vgprs, vgprsnum, lane, item, 1);
    RegisterIs(regs.vgprs, vgprsnum, lane, item, 2);
  }

  lemma {:induction false} RegisterIs(file: seq<bv32>, vgprsnum: nat, lane: nat, item: Vec, j: nat)
    requires WorkGroups.LaneHolds(file, vgprsnum, lane, item) && j < 3 <= vgprsnum
    requires WorkGroups.Coordinate(item, j) < 64
    ensures lane * vgprsnum + j < |file| && file[lane * vgprsnum + j] as nat == WorkGroups.Coordinate(item, j)
  {
    hide WorkGroups.Word;
    assert WorkGroups.RegisterHolds(file, lane * vgprsnum + j, WorkGroups.Coordinate(item, j));
    WordIs(WorkGroups.Coordinate(item, j));
  }

  lemma {:induction false} ItemRankFits(item: Vec, size: Vec)
    requires Inside(item, size)
    ensures WorkGroups.ItemRank(item, size) < Items(size)
  {
    RankBelowTotal(WorkGroups.Turned(item), WorkGroups.Turned(size));
    assert Items(size) == Total(WorkGroups.Turned(size)) by {
      assert size.x * size.y * size.z == size.z * size.y * size.x;
    }
  }

  lemma {:induction false} SideFits(size: Vec)
    requires size.x > 0 && size.y > 0 && size.z > 0
    ensures size.x <= Items(size) && size.y <= Items(size) && size.z <= Items(size)
  {
    var xy := size.x * size.y;
    MulMono(1, size.y, size.x);
    MulMono(1, size.x, size.y);
    MulMono(1, size.z, xy);
    MulMono(1, xy, size.z);
  }

  // The items of a group of at most 64 fit the registers.
  lemma {:induction false} ItemFitsRegisters(items: seq<Vec>, size: Vec, i: nat)
    requires WorkGroups.Enumerates(items, size) && i < |items| && |items| <= WAVEFRONT_SIZE
    ensures Inside(items[i], size)
    ensures items[i].x < 64 && items[i].y < 64 && items[i].z < 64
  {
    assert WorkGroups.IsItem(items[i], size, i);
    hide Items;
    SideFits(size);
  }

  // In a group of at most 64 items the lanes of the only wavefront run its items, each its own.
  lemma {:induction false} OneWave(waves: seq<Regs>, vgprsnum: nat, items: seq<Vec>, size: Vec, w: nat, lane: nat,
                                   item: Vec)
    requires WorkGroups.Enumerates(items, size) && WorkGroups.GroupStarts(waves, vgprsnum, items)
    requires vgprsnum >= 3 && |items| <= WAVEFRONT_SIZE
    ensures RunsIn(waves, vgprsnum, w, lane, item) <==> w == 0 && lane < |items| && item == items[lane]
  {
    hide WorkGroups.LaneHolds;
    hide LowLanes;
    hide Masked;
    hide Items;
    if w < |waves| && lane < WAVEFRONT_SIZE {
      assert w == 0 && WorkGroups.Starts(waves[0], |items|, vgprsnum, items);
      LowLanesMasked(|items|, lane);
      if lane < |items| {
        ItemFitsRegisters(items, size, lane);
        LaneRuns(waves[0], |items|, vgprsnum, items, lane);
      }
    }
  }

  // The items are listed with z fastest, then y, then x.
  lemma {:induction false} ItemAt(items: seq<Vec>, size: Vec, item: Vec)
    requires WorkGroups.Enumerates(items, size) && Inside(item, size)
    ensures WorkGroups.ItemRank(item, size) < |items| && items[WorkGroups.ItemRank(item, size)] == item
    ensures var i := (item.x * size.y + item.y) * size.z + item.z; i < |items| && items[i] == item
  {
    ItemRankFits(item, size);
    var i := WorkGroups.ItemRank(item, size);
    assert WorkGroups.IsItem(items[i], size, i);
    hide Rank;
    RankInjective(WorkGroups.Turned(items[i]), WorkGroups.Turned(item), WorkGroups.Turned(size));
  }

  // In a larger group the first two wavefronts both start with item 0.
  lemma {:induction false} TwoWaves(waves: seq<Regs>, vgprsnum: nat, items: seq<Vec>, size: Vec)
    requires WorkGroups.Enumerates(items, size) && WorkGroups.GroupStarts(waves, vgprsnum, items)
    requires vgprsnum >= 3 && |items| > WAVEFRONT_SIZE
    ensures Inside(Vec(0, 0, 0), size)
    ensures RunsIn(waves, vgprsnum, 0, 0, Vec(0, 0, 0)) && RunsIn(waves, vgprsnum, 1, 0, Vec(0, 0, 0))
  {
    assert WorkGroups.IsItem(items[0], size, 0);
    ItemAt(items, size, Vec(0, 0, 0));
    assert WorkGroups.ItemRank(Vec(0, 0, 0), size) == 0;
    hide WorkGroups.LaneHolds;
    hide LowLanes;
    hide WorkGroups.IsItem;
    forall w: nat | w < 2 ensures RunsIn(waves, vgprsnum, w, 0, Vec(0, 0, 0)) {
      assert WorkGroups.Starts(waves[w], WorkGroups.WaveSize(|items|, w), vgprsnum, items);
      hide WorkGroups.Starts;
      LaneRuns(waves[w], WorkGroups.WaveSize(|items|, w), vgprsnum, items, 0);
    }
  }

  /**
    The active lanes of a group run each of its items exactly once if and only if the group has at most
    64: after that, later wavefronts run the first items again.
  */
  lemma {:induction false} EachItemOnceIffOneWavefront(waves: seq<Regs>, vgprsnum: nat, size: Vec)
    requires Starts(waves, vgprsnum, size) && vgprsnum >= 3
    ensures EachItemOnce(waves, vgprsnum, size) <==> Items(size) <= WAVEFRONT_SIZE
  {
    var items :| WorkGroups.Enumerates(items, size) && WorkGroups.GroupStarts(waves, vgprsnum, items);
    assert |items| == Items(size);
    hide *;
    if |items| <= WAVEFRONT_SIZE {
      OnceIfOneWave(waves, vgprsnum, items, size);
    } else {
      TwoWaves(waves, vgprsnum, items, size);
      TwiceIsNotOnce(waves, vgprsnum, size, Vec(0, 0, 0));
    }
  }

  lemma TwiceIsNotOnce(waves: seq<Regs>, vgprsnum: nat, size: Vec, item: Vec)
    requires Inside(item, size) && RunsIn(waves, vgprsnum, 0, 0, item) && RunsIn(waves, vgprsnum, 1, 0, item)
    ensures !EachItemOnce(waves, vgprsnum, size)
  {
    hide RunsIn;
  }

  lemma {:induction false} OnceIfOneWave(waves: seq<Regs>, vgprsnum: nat, items: seq<Vec>, size: Vec)
    requires WorkGroups.Enumerates(items, size) && WorkGroups.GroupStarts(waves, vgprsnum, items)
    requires vgprsnum >= 3 && |items| <= WAVEFRONT_SIZE
    ensures EachItemOnce(waves, vgprsnum, size)
  {
    hide RunsIn;
    hide WorkGroups.GroupStarts;
    hide WorkGroups.ItemRank;
    forall item | Inside(item, size) ensures exists w, lane :: RunsIn(waves, vgprsnum, w, lane, item) {
      ItemAt(items, size, item);
      OneWave(waves, vgprsnum, items, size, 0, WorkGroups.ItemRank(item, size), item);
    }
    forall item, w: nat, lane: nat, w': nat, lane': nat
      | Inside(item, size) && RunsIn(waves, vgprsnum, w, lane, item) && RunsIn(waves, vgprsnum, w', lane', item)
      ensures w == w' && lane == lane'
    {
      OneWave(waves, vgprsnum, items, size, w, lane, item);
      OneWave(waves, vgprsnum, items, size, w', lane', item);
      assert WorkGroups.IsItem(items[lane], size, lane) && WorkGroups.IsItem(items[lane'], size, lane');
    }
  }

  // ---------------------------------------------------------------- the whole range

  // Lane `lane` of wavefront w of group k is active, and its group id times the group size plus its
  // first three registers is p.
  ghost predicate RunsPoint(group: Vec, groups: seq<Group>, launch: seq<seq<Regs>>, vgprsnum: nat,
                            k: nat, w: nat, lane: nat, p: Vec) {
    && k < |groups| && k < |launch|
    && exists item :: RunsIn(launch[k], vgprsnum, w, lane, item) && Offsets(group, groups[k].id, item, p)
  }

  predicate Offsets(group: Vec, id: Vec, item: Vec, p: Vec) {
    id.x * group.x + item.x == p.x && id.y * group.y + item.y == p.y && id.z * group.z + item.z == p.z
  }

  // The active lanes of the launch run every point of the range exactly once, and nothing outside.
  ghost predicate EachPointOnce(range: Vec, group: Vec, groups: seq<Group>, launch: seq<seq<Regs>>, vgprsnum: nat) {
    && (forall p :: Inside(p, range) ==> exists k, w, lane :: RunsPoint(group, groups, launch, vgprsnum, k, w, lane, p))
    && (forall p, k, w, lane :: RunsPoint(group, groups, launch, vgprsnum, k, w, lane, p) ==> Inside(p, range))
    && forall p, k, w, lane, k', w', lane' ::
         RunsPoint(group, groups, launch, vgprsnum, k, w, lane, p)
         && RunsPoint(group, groups, launch, vgprsnum, k', w', lane', p) ==>
           k == k' && w == w' && lane == lane'
  }

  // In a small group, a lane runs a point exactly where division puts it.
  lemma {:induction false} PointRunsHere(range: Vec, group: Vec, groups: seq<Group>, launch: seq<seq<Regs>>,
                                         vgprsnum: nat, k: nat, w: nat, lane: nat, p: Vec)
    requires Sizes(range, group) && InOrder(range, group, groups) && |groups| == Total(Amounts(range, group))
    requires AllStart(groups, launch, vgprsnum) && vgprsnum >= 3
    requires k < |groups| && Items(groups[k].size) <= WAVEFRONT_SIZE
    requires RunsPoint(group, groups, launch, vgprsnum, k, w, lane, p)
    ensures Inside(p, range) && w == 0 && k == Rank(Quotient(p, group), Amounts(range, group))
    ensures lane == WorkGroups.ItemRank(Remainder(p, group), groups[k].size)
  {
    var item :| RunsIn(launch[k], vgprsnum, w, lane, item) && Offsets(group, groups[k].id, item, p);
    assert Starts(launch[k], vgprsnum, groups[k].size);
    var items :| WorkGroups.Enumerates(items, groups[k].size) && WorkGroups.GroupStarts(launch[k], vgprsnum, items);
    assert |items| == Items(groups[k].size);
    OneWave(launch[k], vgprsnum, items, groups[k].size, w, lane, item);
    assert WorkGroups.IsItem(items[lane], groups[k].size, lane);
    assert Places(group, groups[k], item, p);
    hide *;
    GroupsTileRange(range, group, groups, p);
  }

  lemma {:induction false} PointIsRun(range: Vec, group: Vec, groups: seq<Group>, launch: seq<seq<Regs>>,
                                      vgprsnum: nat, p: Vec)
    requires Sizes(range, group) && InOrder(range, group, groups) && |groups| == Total(Amounts(range, group))
    requires AllStart(groups, launch, vgprsnum) && vgprsnum >= 3
    requires forall k :: 0 <= k < |groups| ==> Items(groups[k].size) <= WAVEFRONT_SIZE
    requires Inside(p, range)
    ensures exists k, w, lane :: RunsPoint(group, groups, launch, vgprsnum, k, w, lane, p)
  {
    hide Amount;
    hide Rank;
    hide Items;
    hide InOrder;
    GroupsTileRange(range, group, groups, p);
    var k: nat, local :| k < |groups| && Places(group, groups[k], local, p);
    assert Starts(launch[k], vgprsnum, groups[k].size);
    var items :| WorkGroups.Enumerates(items, groups[k].size) && WorkGroups.GroupStarts(launch[k], vgprsnum, items);
    assert |items| == Items(groups[k].size) <= WAVEFRONT_SIZE;
    hide WorkGroups.Enumerates;
    hide WorkGroups.GroupStarts;
    hide WorkGroups.ItemRank;
    hide RunsIn;
    var lane := WorkGroups.ItemRank(local, groups[k].size);
    ItemAt(items, groups[k].size, local);
    OneWave(launch[k], vgprsnum, items, groups[k].size, 0, lane, local);
    assert Offsets(group, groups[k].id, local, p);
    assert RunsPoint(group, groups, launch, vgprsnum, k, 0, lane, p);
  }

  // The corner of a group of more than 64 items is run twice.
  lemma {:induction false} CornerRunsTwice(group: Vec, groups: seq<Group>, launch: seq<seq<Regs>>, vgprsnum: nat, k: nat)
    requires AllStart(groups, launch, vgprsnum) && vgprsnum >= 3
    requires k < |groups| && Items(groups[k].size) > WAVEFRONT_SIZE
    ensures exists p :: RunsPoint(group, groups, launch, vgprsnum, k, 0, 0, p)
                        && RunsPoint(group, groups, launch, vgprsnum, k, 1, 0, p)
  {
    var id, origin := groups[k].id, Vec(0, 0, 0);
    var p := Vec(id.x * group.x, id.y * group.y, id.z * group.z);
    assert Starts(launch[k], vgprsnum, groups[k].size);
    var items :| WorkGroups.Enumerates(items, groups[k].size) && WorkGroups.GroupStarts(launch[k], vgprsnum, items);
    assert |items| == Items(groups[k].size);
    hide WorkGroups.GroupStarts;
    hide WorkGroups.Enumerates;
    hide Items;
    hide RunsIn;
    TwoWaves(launch[k], vgprsnum, items, groups[k].size);
    assert Offsets(group, id, origin, p);
    assert RunsPoint(group, groups, launch, vgprsnum, k, 0, 0, p);
    assert RunsPoint(group, groups, launch, vgprsnum, k, 1, 0, p);
  }

  /**
    The active lanes of a launch list every point of the range exactly once, as group id times group
    size plus (v0, v1, v2), if and only if no group has more than 64 items.
  */
  lemma {:induction false} EachPointOnceIff(range: Vec, group: Vec, groups: seq<Group>, launch: seq<seq<Regs>>,
                                            vgprsnum: nat)
    requires Sizes(range, group) && InOrder(range, group, groups) && |groups| == Total(Amounts(range, group))
    requires AllStart(groups, launch, vgprsnum) && vgprsnum >= 3
    ensures EachPointOnce(range, group, groups, launch, vgprsnum)
            <==> forall k :: 0 <= k < |groups| ==> Items(groups[k].size) <= WAVEFRONT_SIZE
  {
    hide InOrder;
    hide AllStart;
    hide RunsPoint;
    hide Items;
    hide Amount;
    if forall k :: 0 <= k < |groups| ==> Items(groups[k].size) <= WAVEFRONT_SIZE {
      EveryPointRunsOnce(range, group, groups, launch, vgprsnum);
    } else {
      var k :| 0 <= k < |groups| && Items(groups[k].size) > WAVEFRONT_SIZE;
      CornerRunsTwice(group, groups, launch, vgprsnum, k);
    }
  }

  lemma {:induction false} EveryPointRunsOnce(range: Vec, group: Vec, groups: seq<Group>, launch: seq<seq<Regs>>,
                                              vgprsnum: nat)
    requires Sizes(range, group) && InOrder(range, group, groups) && |groups| == Total(Amounts(range, group))
    requires AllStart(groups, launch, vgprsnum) && vgprsnum >= 3
    requires forall k :: 0 <= k < |groups| ==> Items(groups[k].size) <= WAVEFRONT_SIZE
    ensures EachPointOnce(range, group, groups, launch, vgprsnum)
  {
    hide InOrder;
    hide AllStart;
    hide Items;
    hide Amount;
    hide Rank;
    hide WorkGroups.ItemRank;
    forall p, k: nat, w: nat, lane: nat | RunsPoint(group, groups, launch, vgprsnum, k, w, lane, p)
      ensures Inside(p, range) && w == 0 && k == Rank(Quotient(p, group), Amounts(range, group))
      ensures k < |groups| && lane == WorkGroups.ItemRank(Remainder(p, group), groups[k].size)
    {
      PointRunsHere(range, group, groups, launch, vgprsnum, k, w, lane, p);
    }
    hide RunsPoint;
    hide Inside;
    forall p | Inside(p, range) ensures exists k, w, lane :: RunsPoint(group, groups, launch, vgprsnum, k, w, lane, p) {
      PointIsRun(range, group, groups, launch, vgprsnum, p);
    }
  }
}
