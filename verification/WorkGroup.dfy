/**
  A work group at launch: its work items in order, cut into wavefronts of up to 64 lanes, each lane
  given the local id of an item in its first three vector registers.
*/
module WorkGroups {
  import opened MachineWords
  import opened LaneMask
  import opened WavefrontState
  import opened KernelCode
  import opened WavefrontControl
  import opened Wavefronts
  import NDRange

  type Vec = NDRange.Vec

  // The number of a work item: z fastest, then y, then x.
  function ItemRank(item: Vec, size: Vec): nat {
    NDRange.Rank(Turned(item), Turned(size))
  }

  function Turned(v: Vec): Vec {
    NDRange.Vec(v.z, v.y, v.x)
  }

  function Items(size: Vec): nat {
    NDRange.Items(size)
  }

  // The work items of a group of this size, in order.
  ghost predicate Enumerates(items: seq<Vec>, size: Vec) {
    && |items| == Items(size)
    && forall i :: 0 <= i < |items| ==> IsItem(items[i], size, i)
  }

  predicate IsItem(item: Vec, size: Vec, i: nat) {
    NDRange.Inside(item, size) && ItemRank(item, size) == i
  }

  // How many wavefronts n items take, and how large wavefront w is.
  function Waves(n: nat): nat {
    (n + 63) / 64
  }

  function WaveSize(n: nat, w: nat): nat
    requires w < Waves(n)
  {
    if n - w * 64 >= 64 then 64 else n - w * 64
  }

  // A local id as the 32-bit register holds it.
  function Word(n: nat): bv32 {
    (n % 0x1_0000_0000) as bv32
  }

  // Lane i starts with the local id of the item in its first three registers, as far as it has them.
  ghost predicate LaneHolds(file: seq<bv32>, vgprsnum: nat, i: nat, item: Vec) {
    forall j: nat :: j < 3 && j < vgprsnum ==> RegisterHolds(file, i * vgprsnum + j, Coordinate(item, j))
  }

  predicate RegisterHolds(file: seq<bv32>, ind: nat, n: nat) {
    ind < |file| && file[ind] == Word(n)
  }

  function Coordinate(v: Vec, j: nat): nat {
    if j == 0 then v.x else if j == 1 then v.y else v.z
  }

  // No register written at launch is outside the file, which set_vgpr asserts.
  predicate RegistersFit(size: nat, vgprsnum: nat) {
    size > 0 ==> (size - 1) * vgprsnum + 2 < WAVEFRONT_SIZE * vgprsnum
  }

  lemma {:induction false} ThreeRegistersFit(size: nat, vgprsnum: nat)
    requires size <= WAVEFRONT_SIZE && vgprsnum >= 3
    ensures RegistersFit(size, vgprsnum)
  {
    if size > 0 {
      LaneInRange(size - 1, WAVEFRONT_SIZE, vgprsnum);
    }
  }

  // The registers of a wavefront ready to run the first `size` items of the group.
  ghost predicate Starts(regs: Regs, size: nat, vgprsnum: nat, items: seq<Vec>) {
    && size <= |items| && size <= WAVEFRONT_SIZE && |regs.vgprs| == WAVEFRONT_SIZE * vgprsnum
    && regs.exec == LowLanes(size)
    && forall i: nat :: i < size ==> LaneHolds(regs.vgprs, vgprsnum, i, items[i])
  }

  ghost predicate Launched(wf: Wavefront, size: nat, vgprsnum: nat, items: seq<Vec>)
    reads wf, wf.scalarRegFile, wf.vectorRegFile
  {
    wf.Valid() && wf.size == size && wf.vgprsnum == vgprsnum && Starts(wf.State(), size, vgprsnum, items)
  }

  // The registers with which the wavefronts of a group start.
  ghost predicate GroupStarts(waves: seq<Regs>, vgprsnum: nat, items: seq<Vec>) {
    && |waves| == Waves(|items|)
    && forall w :: 0 <= w < |waves| ==> Starts(waves[w], WaveSize(|items|, w), vgprsnum, items)
  }

  // Writing the three registers of one lane.
  lemma {:induction false} LaneWritten(file: seq<bv32>, after: seq<bv32>, vgprsnum: nat, i: nat, item: Vec)
    requires vgprsnum > 0 && i * vgprsnum + 2 < |file|
    requires after == file[i * vgprsnum := Word(item.x)][i * vgprsnum + 1 := Word(item.y)][i * vgprsnum + 2 := Word(item.z)]
    ensures LaneHolds(after, vgprsnum, i, item)
    ensures forall k: nat, other :: k < i && LaneHolds(file, vgprsnum, k, other) ==> LaneHolds(after, vgprsnum, k, other)
  {
    hide Word;
    forall k: nat, other | k < i && LaneHolds(file, vgprsnum, k, other) ensures LaneHolds(after, vgprsnum, k, other) {
      LaneInRange(k, i, vgprsnum);
      forall j: nat | j < 3 && j < vgprsnum
        ensures RegisterHolds(after, k * vgprsnum + j, Coordinate(other, j))
      {
        assert RegisterHolds(file, k * vgprsnum + j, Coordinate(other, j));
      }
    }
  }

  class WorkGroup {
    const size: Vec
    const id: Vec
    const env: Env
    const program: Program
    var workItems: seq<Vec>
    var wavefronts: seq<Wavefront>

    constructor (g: NDRange.Group, env: Env, program: Program)
      ensures size == g.size && id == g.id && workItems == [] && wavefronts == []
      ensures this.env == env && this.program == program
    {
      size, id := g.size, g.id;
      this.env, this.program := env, program;
      workItems, wavefronts := [], [];
    }

    method InitWorkitems()
      requires workItems == []
      modifies this`workItems
      ensures Enumerates(workItems, size)
    {
      for x := 0 to size.x
        invariant |workItems| == x * size.y * size.z
        invariant forall i :: 0 <= i < |workItems| ==> IsItem(workItems[i], size, i)
      {
        hide IsItem;
        for y := 0 to size.y
          invariant |workItems| == (x * size.y + y) * size.z
          invariant forall i :: 0 <= i < |workItems| ==> IsItem(workItems[i], size, i)
        {
          for z := 0 to size.z
            invariant |workItems| == (x * size.y + y) * size.z + z
            invariant forall i :: 0 <= i < |workItems| ==> IsItem(workItems[i], size, i)
          {
            ItemHere(size, x, y, z);
            workItems := workItems + [NDRange.Vec(x, y, z)];
          }
          RowDone(x * size.y + y, size.z);
        }
        PlaneDone(x, size.y, size.z);
      }
    }

    // get_workitem_for_wf
    method GetWorkitemForWf(wiId: nat, wfId: nat) returns (item: Vec)
      requires wfId * WAVEFRONT_SIZE + wiId < |workItems|
      ensures item == workItems[wfId * WAVEFRONT_SIZE + wiId]
    {
      item := workItems[wfId * WAVEFRONT_SIZE + wiId];
    }

    // The lane part of init_wf_regs, for the wavefront's local id `localId`.
    method InitWfRegs(wavefront: Wavefront, localId: nat)
      requires wavefront.Valid() && localId == 0 && wavefront.size <= |workItems|
      requires wavefront.vectorRegFile.Length == WAVEFRONT_SIZE * wavefront.vgprsnum
      requires RegistersFit(wavefront.size, wavefront.vgprsnum)
      modifies wavefront.vectorRegFile
      ensures forall i: nat :: i < wavefront.size ==>
                                 LaneHolds(wavefront.vectorRegFile[..], wavefront.vgprsnum, i, workItems[i])
    {
      for i := 0 to wavefront.size
        invariant forall k: nat :: k < i ==>
                                     LaneHolds(wavefront.vectorRegFile[..], wavefront.vgprsnum, k, workItems[k])
      {
        hide LaneHolds;
        var workItem := GetWorkitemForWf(i, localId);
        MulMono(i, wavefront.size - 1, wavefront.vgprsnum);
        ghost var file := wavefront.vectorRegFile[..];
        wavefront.SetVgpr(i, 0, Word(workItem.x));
        wavefront.SetVgpr(i, 1, Word(workItem.y));
        wavefront.SetVgpr(i, 2, Word(workItem.z));
        LaneWritten(file, wavefront.vectorRegFile[..], wavefront.vgprsnum, i, workItem);
      }
    }

    /**
      Cuts the items into wavefronts. The wavefront number is never advanced, so every wavefront
      starts from item 0 of the group. `waves` remembers the registers they start with.
    */
    method InitWavefronts(sgprsnum: nat, vgprsnum: nat) returns (ghost waves: seq<Regs>)
      requires wavefronts == []
      requires forall w :: 0 <= w < Waves(|workItems|) ==> RegistersFit(WaveSize(|workItems|, w), vgprsnum)
      modifies this`wavefronts
      ensures |wavefronts| == Waves(|workItems|)
      ensures forall w: nat :: w < |wavefronts| ==>
                                 Launched(wavefronts[w], WaveSize(|workItems|, w), vgprsnum, workItems)
      ensures GroupStarts(waves, vgprsnum, workItems)
      ensures |waves| == |wavefronts| && forall w: nat :: w < |wavefronts| ==> waves[w] == wavefronts[w].State()
    {
      hide Starts;
      hide LaneHolds;
      hide LowLanes;
      hide RegistersFit;
      var workitemInd := 0;
      var wfInd := 0;
      waves := [];
      while workitemInd < |workItems|
        invariant wfInd == 0
        invariant workitemInd == if |wavefronts| * 64 <= |workItems| then |wavefronts| * 64 else |workItems|
        invariant |wavefronts| <= Waves(|workItems|)
        invariant forall w: nat :: w < |wavefronts| ==>
                                     Launched(wavefronts[w], WaveSize(|workItems|, w), vgprsnum, workItems)
        invariant |waves| == |wavefronts| && forall w: nat :: w < |wavefronts| ==> waves[w] == wavefronts[w].State()
      {
        var wiLeft := |workItems| - workitemInd;
        var wfSize := if wiLeft >= WAVEFRONT_SIZE then WAVEFRONT_SIZE else wiLeft;
        assert wfSize == WaveSize(|workItems|, |wavefronts|);
        var curWf := LaunchWavefront(wfSize, wfInd, sgprsnum, vgprsnum);
        waves := waves + [curWf.State()];
        wavefronts := wavefronts + [curWf];
        workitemInd := workitemInd + wfSize;
      }
    }

    method LaunchWavefront(wfSize: nat, wfInd: nat, sgprsnum: nat, vgprsnum: nat) returns (curWf: Wavefront)
      requires wfSize <= WAVEFRONT_SIZE && wfSize <= |workItems| && wfInd == 0 && RegistersFit(wfSize, vgprsnum)
      ensures Launched(curWf, wfSize, vgprsnum, workItems)
    {
      curWf := new Wavefront(env.(size := wfSize, stride := vgprsnum), program, wfSize, sgprsnum, vgprsnum);
      InitWfRegs(curWf, wfInd);
      curWf.SetExecReg(LowLanes(wfSize));
    }
  }

  lemma {:induction false} ItemHere(size: Vec, x: nat, y: nat, z: nat)
    requires x < size.x && y < size.y && z < size.z
    ensures IsItem(NDRange.Vec(x, y, z), size, (x * size.y + y) * size.z + z)
  {
  }

  lemma RowDone(row: nat, n: nat)
    ensures (row + 1) * n == row * n + n
  {
  }

  lemma PlaneDone(x: nat, y: nat, z: nat)
    ensures (x * y + y) * z == (x + 1) * y * z
  {
    assert x * y + y == (x + 1) * y;
  }
}
