/** The delay-chain registers of one DQS group and the memory test that reads them,
    with the two edge sweeps that the read and the write deskew share. */
module DelayChains {
  import opened Windows

  /** Which deskew runs: they differ in which bits the right sweep waits for and in what it
      does when it stops at once. */
  datatype Direction = Read | Write

  /** Every bit of an n-bit group is in the mask. */
  predicate Full(mask: set<nat>, n: nat) {
    forall i: nat | i < n :: i in mask
  }

  class Group {
    /** Data bits in the group, number of the first one, and the largest DQ and DQS delays. */
    const bits: nat
    const base: nat
    const dqMax: nat
    const dqsMax: nat
    /** What the memory test answers: each bit's passing window of skew. */
    const windows: seq<Window>

    /** The registers: one DQ delay per pin, and the DQS delay of the group. */
    const dq: array<int>
    var dqs: int

    constructor (bits: nat, base: nat, dqMax: nat, dqsMax: nat, windows: seq<Window>, dq: array<int>, dqs: int)
      requires 0 < bits == |windows| && base + bits <= dq.Length
      requires forall p :: 0 <= p < dq.Length ==> 0 <= dq[p] <= dqMax
      requires 0 <= dqs <= dqsMax
      ensures Valid()
      ensures this.bits == bits && this.base == base && this.dqMax == dqMax && this.dqsMax == dqsMax
      ensures this.windows == windows && this.dq == dq && this.dqs == dqs
    {
      this.bits, this.base, this.dqMax, this.dqsMax := bits, base, dqMax, dqsMax;
      this.windows, this.dq, this.dqs := windows, dq, dqs;
    }

    /** Register values the delay chains can hold. */
    ghost predicate Valid()
      reads this, dq
    {
      && 0 < bits == |windows|
      && base + bits <= dq.Length
      && 0 <= dqs <= dqsMax
      && forall p :: 0 <= p < dq.Length ==> 0 <= dq[p] <= dqMax
    }

    /** The DQ delay of bit i. */
    function Dq(i: nat): int
      requires i < bits && base + bits <= dq.Length
      reads dq
    {
      dq[base + i]
    }

    /** Skew of bit i at the present register values. */
    function Skew(i: nat): int
      requires i < bits && base + bits <= dq.Length
      reads this, dq
    {
      dqs - Dq(i)
    }

    /** Every DQ register of the group holds d. */
    ghost predicate GroupAt(d: int)
      requires base + bits <= dq.Length
      reads dq
    {
      forall p :: base <= p < base + bits ==> dq[p] == d
    }

    /** Registers outside the group are as they were. */
    ghost predicate OthersKept(was: seq<int>)
      requires |was| == dq.Length
      reads dq
    {
      forall p :: 0 <= p < dq.Length && !(base <= p < base + bits) ==> dq[p] == was[p]
    }

    /** scc_mgr_apply_group_dq_in_delay, scc_mgr_apply_group_dq_out1_delay */
    method ApplyGroupDelay(d: int)
      requires Valid() && 0 <= d <= dqMax
      modifies dq
      ensures Valid() && GroupAt(d)
      ensures OthersKept(old(dq[..]))
    {
      for i := 0 to bits
        invariant forall p :: base <= p < base + i ==> dq[p] == d
        invariant forall p :: 0 <= p < dq.Length && !(base <= p < base + i) ==> dq[p] == old(dq[p])
      {
        dq[base + i] := d;
      }
    }

    /** The pass mask of one memory test at the present register values. */
    method Test(rightSweep: bool) returns (mask: set<nat>)
      requires Valid()
      ensures mask == set i: nat | i < bits && windows[i].Passes(Skew(i), rightSweep)
    {
      mask := set i: nat | i < bits && windows[i].Passes(Skew(i), rightSweep);
    }

    ghost predicate LeftProgress(left: array<int>, right: array<int>, start: int, k: nat)
      requires |windows| == left.Length == right.Length == bits
      reads left, right
    {
      forall i :: 0 <= i < bits ==> AfterLeft(windows[i].From(start), k, Edges(left[i], right[i]), dqMax + 1)
    }

    /** Left sweep: raise the DQ delay of the whole group from 0, note each bit's edges, and
        stop at a setting where nothing passes once every bit has passed somewhere. */
    method LeftSweep(left: array<int>, right: array<int>)
      requires Valid()
      requires left.Length == right.Length == bits
      requires left != right && left != dq && right != dq
      modifies dq, left, right
      ensures Valid() && GroupAt(0)
      ensures OthersKept(old(dq[..]))
      ensures LeftProgress(left, right, dqs, dqMax + 1)
    {
      ClearEdges(left, right);
      var sticky: set<nat> := {};
      var d := 0;
      while d <= dqMax
        invariant 0 <= d <= dqMax + 1
        invariant Valid()
        invariant OthersKept(old(dq[..]))
        invariant LeftProgress(left, right, dqs, d)
        invariant forall i: nat :: i in sticky ==> i < bits && SeenLeft(windows[i].From(dqs), d)
      {
        var mask := DelayAndTest(d);
        sticky := sticky + mask;
        if mask == {} && Full(sticky, bits) {
          StopLeft(left, right, d, sticky);
          break;
        }
        NoteLeft(left, right, mask, d, dqs);
        d := d + 1;
      }
      ApplyGroupDelay(0);
    }

    method DelayAndTest(d: nat) returns (mask: set<nat>)
      requires Valid() && d <= dqMax
      modifies dq
      ensures Valid() && GroupAt(d)
      ensures OthersKept(old(dq[..]))
      ensures forall i: nat :: i in mask <==> i < bits && windows[i].From(dqs).Passes(0 - d, false)
    {
      ApplyGroupDelay(d);
      mask := Test(false);
    }

    /** Set every edge to a value that no sweep records. */
    method ClearEdges(left: array<int>, right: array<int>)
      requires left.Length == right.Length == bits && left != right
      modifies left, right
      ensures forall i :: 0 <= i < bits ==> left[i] == right[i] == dqMax + 1
    {
      for i := 0 to bits
        invariant forall j :: 0 <= j < i ==> left[j] == right[j] == dqMax + 1
      {
        left[i], right[i] := dqMax + 1, dqMax + 1;
      }
    }

    lemma StopLeft(left: array<int>, right: array<int>, d: nat, sticky: set<nat>)
      requires Valid() && left.Length == right.Length == bits
      requires d <= dqMax && LeftProgress(left, right, dqs, d)
      requires forall i: nat :: i in sticky ==> i < bits && SeenLeft(windows[i].From(dqs), d)
      requires Full(sticky, bits)
      requires forall i: nat :: i < bits ==> !windows[i].From(dqs).Passes(0 - d, false)
      ensures LeftProgress(left, right, dqs, dqMax + 1)
    {
      forall i | 0 <= i < bits
        ensures AfterLeft(windows[i].From(dqs), dqMax + 1, Edges(left[i], right[i]), dqMax + 1)
      {
        assert i in sticky;
        LeftStopIsComplete(windows[i].From(dqs), d, Edges(left[i], right[i]), dqMax);
      }
    }

    method NoteLeft(left: array<int>, right: array<int>, mask: set<nat>, d: nat, ghost start: int)
      requires |windows| == left.Length == right.Length == bits && left != right
      requires d <= dqMax && LeftProgress(left, right, start, d)
      requires forall i: nat :: i < bits ==> (i in mask <==> windows[i].From(start).Passes(0 - d, false))
      modifies left, right
      ensures LeftProgress(left, right, start, d + 1)
    {
      ghost var l, r := left[..], right[..];
      for i := 0 to bits
        invariant forall j :: 0 <= j < i ==>
                    Edges(left[j], right[j]) == LeftStep(Edges(l[j], r[j]), j in mask, d, dqMax + 1)
        invariant forall j :: i <= j < bits ==> left[j] == l[j] && right[j] == r[j]
      {
        if i in mask {
          left[i] := d;
        } else if left[i] == dqMax + 1 {
          right[i] := -(d + 1);
        }
      }
      forall i | 0 <= i < bits
        ensures AfterLeft(windows[i].From(start), d + 1, Edges(left[i], right[i]), dqMax + 1)
      {
        LeftStepKeeps(windows[i].From(start), d, Edges(l[i], r[i]), dqMax + 1);
      }
    }

    /** Between the sweeps: forget right edges of bits that never passed, and start the mask of
        settled bits.  The read direction settles a bit with both edges known, the write
        direction one with a left edge. */
    method ResetUnseen(left: array<int>, right: array<int>, dir: Direction) returns (sticky: set<nat>)
      requires Valid()
      requires left.Length == right.Length == bits
      requires left != right && left != dq && right != dq
      requires LeftProgress(left, right, dqs, dqMax + 1)
      modifies right
      ensures forall i :: 0 <= i < bits ==>
                Between(windows[i].From(dqs), Edges(left[i], right[i]), dqMax)
      ensures forall i: nat :: i in sticky <==>
                i < bits && SeenLeft(windows[i].From(dqs), dqMax + 1) && (dir == Read ==> windows[i].From(dqs).hi < 0)
    {
      sticky := {};
      for i := bits downto 0
        invariant forall j :: 0 <= j < i ==>
                    AfterLeft(windows[j].From(dqs), dqMax + 1, Edges(left[j], right[j]), dqMax + 1)
        invariant forall j :: i <= j < bits ==>
                    Between(windows[j].From(dqs), Edges(left[j], right[j]), dqMax)
        invariant forall j: nat :: j in sticky <==>
                    && i <= j < bits && SeenLeft(windows[j].From(dqs), dqMax + 1)
                    && (dir == Read ==> windows[j].From(dqs).hi < 0)
      {
        if left[i] == dqMax + 1 && right[i] != dqMax + 1 {
          right[i] := dqMax + 1;
        }
        if left[i] != dqMax + 1 && (dir == Write || right[i] != dqMax + 1) {
          sticky := sticky + {i};
        }
      }
    }

    /** The bits that pass at DQS shift d, with the DQ delays at 0. */
    ghost predicate PassesAt(mask: set<nat>, start: int, d: nat)
      requires |windows| == bits
    {
      forall i: nat :: i in mask <==> i < bits && windows[i].From(start).Passes(d, true)
    }

    ghost predicate RightProgress(left: array<int>, right: array<int>, start: int, k: nat)
      requires |windows| == left.Length == right.Length == bits
      reads left, right
    {
      forall i :: 0 <= i < bits ==> AfterRight(windows[i].From(start), k, Edges(left[i], right[i]), dqMax)
    }

    /** Why a bit may be in the mask of settled bits after k settings of the right sweep. */
    ghost predicate Settled(sticky: set<nat>, start: int, k: nat, dir: Direction)
      requires |windows| == bits
    {
      forall i: nat :: i in sticky ==>
        && i < bits
        && (|| SeenRight(windows[i].From(start), k)
            || (&& SeenLeft(windows[i].From(start), dqMax + 1)
                && (dir == Read && k == 0 ==> windows[i].From(start).hi < 0)))
    }

    /** Right sweep: with the DQ delays at 0, raise the DQS delay from its present value. */
    method RightSweep(left: array<int>, right: array<int>, dir: Direction)
      requires Valid() && GroupAt(0)
      requires dqsMax - dqs <= dqMax
      requires left.Length == right.Length == bits
      requires left != right && left != dq && right != dq
      requires LeftProgress(left, right, dqs, dqMax + 1)
      modifies this`dqs, left, right
      ensures Valid()
      ensures RightProgress(left, right, old(dqs), dqsMax - old(dqs) + 1)
    {
      var start := dqs;
      var sticky := ResetUnseen(left, right, dir);
      var d := 0;
      while d <= dqsMax - start
        invariant 0 <= d <= dqsMax - start + 1
        invariant Valid()
        invariant RightProgress(left, right, start, d)
        invariant Settled(sticky, start, d, dir)
      {
        var mask := ShiftAndTest(start, d);
        SettledStep(sticky, mask, start, d, dir);
        sticky := sticky + mask;
        if mask == {} && Full(sticky, bits) {
          StopRight(left, right, d, dir, start, sticky);
          break;
        }
        NoteRight(left, right, mask, d, start);
        d := d + 1;
      }
    }

    method ShiftAndTest(start: int, d: nat) returns (mask: set<nat>)
      requires Valid() && GroupAt(0) && 0 <= d + start <= dqsMax
      modifies this`dqs
      ensures Valid() && dqs == d + start
      ensures PassesAt(mask, start, d)
    {
      dqs := d + start;
      mask := Test(true);
    }

    lemma SettledStep(sticky: set<nat>, mask: set<nat>, start: int, d: nat, dir: Direction)
      requires |windows| == bits
      requires Settled(sticky, start, d, dir) && PassesAt(mask, start, d)
      ensures Settled(sticky + mask, start, d + 1, dir)
      ensures mask == {} ==> sticky + mask == sticky
    {
      forall i: nat | i in sticky + mask
        ensures i < bits
        ensures SeenRight(windows[i].From(start), d + 1) || SeenLeft(windows[i].From(start), dqMax + 1)
      {
      }
    }

    /** The right sweep stops at setting d.  The write direction, stopping at once, first closes
        the right edge of every bit that the left sweep saw pass. */
    method StopRight(left: array<int>, right: array<int>, d: nat, dir: Direction,
                     ghost start: int, ghost sticky: set<nat>)
      requires |windows| == left.Length == right.Length == bits && left != right
      requires d <= dqsMax - start <= dqMax
      requires RightProgress(left, right, start, d)
      requires PassesAt({}, start, d) && Settled(sticky, start, d, dir) && Full(sticky, bits)
      modifies right
      ensures RightProgress(left, right, start, dqsMax - start + 1)
    {
      ghost var l, r := left[..], right[..];
      if dir == Write && d == 0 {
        for i := 0 to bits
          invariant forall j :: 0 <= j < i ==>
                      right[j] == if r[j] == dqMax + 1 && left[j] != dqMax + 1 then -1 else r[j]
          invariant forall j :: i <= j < bits ==> right[j] == r[j]
        {
          if right[i] == dqMax + 1 && left[i] != dqMax + 1 {
            right[i] := -1;
          }
        }
      }
      forall i | 0 <= i < bits
        ensures AfterRight(windows[i].From(start), dqsMax - start + 1, Edges(left[i], right[i]), dqMax)
      {
        assert i in sticky;
        RightStopIsComplete(windows[i].From(start), d, Edges(l[i], r[i]), dqMax, dqsMax - start);
      }
    }

    method NoteRight(left: array<int>, right: array<int>, mask: set<nat>, d: nat, ghost start: int)
      requires |windows| == left.Length == right.Length == bits && left != right
      requires d <= dqMax && PassesAt(mask, start, d)
      requires RightProgress(left, right, start, d)
      modifies left, right
      ensures RightProgress(left, right, start, d + 1)
    {
      ghost var l, r := left[..], right[..];
      for i := 0 to bits
        invariant forall j :: 0 <= j < i ==>
                    Edges(left[j], right[j]) == RightStep(Edges(l[j], r[j]), j in mask, d, dqMax + 1)
        invariant forall j :: i <= j < bits ==> left[j] == l[j] && right[j] == r[j]
      {
        if i in mask {
          right[i] := d;
        } else if d != 0 {
          if right[i] == dqMax + 1 {
            left[i] := -(d + 1);
          }
        } else if right[i] == dqMax + 1 && left[i] != dqMax + 1 {
          right[i] := -1;
        } else if right[i] == dqMax + 1 {
          left[i] := -(d + 1);
        }
      }
      forall i | 0 <= i < bits
        ensures AfterRight(windows[i].From(start), d + 1, Edges(left[i], right[i]), dqMax)
      {
        RightStepKeeps(windows[i].From(start), d, Edges(l[i], r[i]), dqMax);
      }
    }
  }
}
