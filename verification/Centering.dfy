/** Centring the data bits of a group on the strobe once the sweeps have found their edges:
    rw_mgr_mem_calibrate_vfifo_center and the DQ part of rw_mgr_mem_calibrate_writes_center. */
module Centering {
  import opened CInt
  import opened Windows
  import opened DelayChains

  // ---------- what the result should be ----------

  /** The edges that sweeping from DQS delay start finds, one entry a bit. */
  function Observed(windows: seq<Window>, start: int, dqMax: nat, reach: nat): (es: seq<Edges>)
    ensures |es| == |windows|
  {
    seq(|windows|, i requires 0 <= i < |windows| =>
      Edges(windows[i].From(start).LeftEdge(dqMax), windows[i].From(start).RightEdge(reach)))
  }

  ghost predicate AllVisible(windows: seq<Window>, start: int, dqMax: nat, reach: nat) {
    forall i :: 0 <= i < |windows| ==> windows[i].From(start).Visible(dqMax, reach)
  }

  /** failed names the first bit that no swept setting passes, and is -1 when there is none. */
  ghost predicate FirstBlind(failed: int, windows: seq<Window>, start: int, dqMax: nat, reach: nat) {
    if failed == -1 then AllVisible(windows, start, dqMax, reach)
    else
      && 0 <= failed < |windows|
      && !windows[failed].From(start).Visible(dqMax, reach)
      && AllVisible(windows[..failed], start, dqMax, reach)
  }

  /** Twice the distance from a window's centre to zero skew. */
  function Mid(e: Edges): int {
    e.left - e.right
  }

  function MinMid(es: seq<Edges>): int
    requires |es| > 0
  {
    if |es| == 1 then Mid(es[0]) else Min(MinMid(es[..|es| - 1]), Mid(es[|es| - 1]))
  }

  /** The least doubled distance: no bit has a smaller one, and some bit has it. */
  lemma {:induction false} MinMidIsLeast(es: seq<Edges>)
    requires |es| > 0
    ensures forall i :: 0 <= i < |es| ==> MinMid(es) <= Mid(es[i])
    ensures exists i :: 0 <= i < |es| && MinMid(es) == Mid(es[i])
  {
    if |es| > 1 {
      var front := es[..|es| - 1];
      MinMidIsLeast(front);
      assert forall i :: 0 <= i < |es| - 1 ==> front[i] == es[i];
    } else {
      assert MinMid(es) == Mid(es[0]);
    }
  }

  /** How far a bit's skew moves left in all, by DQS and DQ together. */
  function Offset(es: seq<Edges>, i: nat): int
    requires i < |es|
  {
    (Mid(es[i]) - MinMid(es)) / 2 + (MinMid(es) + 1) / 2
  }

  /** The DQS delay that the read direction settles on. */
  function CentredDqs(es: seq<Edges>, start: int, dqsMax: nat): int
    requires |es| > 0
  {
    Clamp(start - (MinMid(es) + 1) / 2, 0, dqsMax)
  }

  /** The DQ delay of bit i once the DQS delay has moved left by moved. */
  function CentredDq(es: seq<Edges>, i: nat, moved: int, dqMax: nat): int
    requires i < |es|
  {
    Clamp(Offset(es, i) - moved, 0, dqMax)
  }

  ghost predicate Inside(e: Edges, skew: int) {
    -e.left <= skew <= e.right
  }

  /** Rounding is balanced: whichever bit sets the DQS delay, each bit moves by its own half-distance, an odd
      one rounded up when the least distance is odd and down otherwise, so its two margins differ by at most
      one. */
  lemma OffsetBalanced(es: seq<Edges>, i: nat)
    requires i < |es|
    ensures var twice := es[i].left - es[i].right;
            2 * Offset(es, i) == if twice % 2 == 0 then twice else if MinMid(es) % 2 == 0 then twice - 1 else twice + 1
    ensures var l, r := es[i].left - Offset(es, i), es[i].right + Offset(es, i);
            -1 <= l - r <= 1 && l + r == es[i].left + es[i].right
  {
    Halves(Mid(es[i]), MinMid(es));
  }

  lemma Halves(m: int, n: int)
    ensures 2 * ((m - n) / 2 + (n + 1) / 2) == if m % 2 == 0 then m else if n % 2 == 0 then m - 1 else m + 1
  {
    if n % 2 == 0 {
      assert (m - n) % 2 == m % 2;
    } else {
      assert (m - n) % 2 == 1 - m % 2;
    }
  }

  /** The observed edges are those of the window cut to the swept skews; a window that reaches the strobe's
      starting delay counts as the right sweep saw it. */
  lemma InsideMeansPassing(windows: seq<Window>, start: int, dqMax: nat, reach: nat, i: nat, skew: int)
    requires i < |windows|
    ensures Inside(Observed(windows, start, dqMax, reach)[i], skew)
            <==> -(dqMax as int) <= skew <= reach && windows[i].Passes(skew + start, windows[i].hi >= start)
  {
  }

  // ---------- the code ----------

  /** The first bit without a window, or -1. */
  method CheckWindows(g: Group, left: array<int>, right: array<int>, ghost start: int) returns (failed: int)
    requires g.Valid() && left.Length == right.Length == g.bits
    requires 0 <= g.dqsMax - start <= g.dqMax
    requires g.RightProgress(left, right, start, g.dqsMax - start + 1)
    ensures FirstBlind(failed, g.windows, start, g.dqMax, g.dqsMax - start)
    ensures failed == -1 ==>
              forall i :: 0 <= i < g.bits ==>
                Edges(left[i], right[i]) == Observed(g.windows, start, g.dqMax, g.dqsMax - start)[i]
  {
    for i := 0 to g.bits
      invariant forall j :: 0 <= j < i ==> g.windows[j].From(start).Visible(g.dqMax, g.dqsMax - start)
      invariant forall j :: 0 <= j < i ==>
                  Edges(left[j], right[j]) == Observed(g.windows, start, g.dqMax, g.dqsMax - start)[j]
    {
      EdgesAreExact(g.windows[i].From(start), Edges(left[i], right[i]), g.dqMax, g.dqsMax - start);
      if left[i] == g.dqMax + 1 || right[i] == g.dqMax + 1 {
        return i;
      }
    }
    return -1;
  }

  /** Both sweeps, and the first bit without a window. */
  method FindWindows(g: Group, dir: Direction) returns (failed: int, left: array<int>, right: array<int>)
    requires g.Valid() && g.dqsMax - g.dqs <= g.dqMax
    modifies g`dqs, g.dq
    ensures g.Valid() && g.GroupAt(0) && g.OthersKept(old(g.dq[..]))
    ensures fresh(left) && fresh(right) && left.Length == right.Length == g.bits
    ensures FirstBlind(failed, g.windows, old(g.dqs), g.dqMax, g.dqsMax - old(g.dqs))
    ensures failed == -1 ==>
              forall i :: 0 <= i < g.bits ==>
                Edges(left[i], right[i]) == Observed(g.windows, old(g.dqs), g.dqMax, g.dqsMax - old(g.dqs))[i]
  {
    var start := g.dqs;
    left, right := new int[g.bits], new int[g.bits];
    g.LeftSweep(left, right);
    g.RightSweep(left, right, dir);
    failed := CheckWindows(g, left, right, start);
  }

  lemma MinMidGrows(es: seq<Edges>, i: nat)
    requires 0 < i < |es|
    ensures MinMid(es[..i + 1]) == Min(MinMid(es[..i]), Mid(es[i]))
    ensures forall j :: 0 <= j < i ==> MinMid(es[..i]) <= Mid(es[j])
  {
    assert es[..i + 1][..i] == es[..i];
    MinMidIsLeast(es[..i]);
    assert forall j :: 0 <= j < i ==> es[..i][j] == es[j];
  }

  /** The bit whose window lies furthest right, the first one when several do. */
  method FindMinMid(left: array<int>, right: array<int>, ghost es: seq<Edges>) returns (midMin: int, minIndex: nat)
    requires left.Length == right.Length == |es| > 0
    requires forall i :: 0 <= i < |es| ==> es[i] == Edges(left[i], right[i])
    ensures minIndex < |es| && midMin == MinMid(es) == Mid(es[minIndex])
    ensures forall i :: 0 <= i < minIndex ==> midMin < Mid(es[i])
  {
    midMin, minIndex := left[0] - right[0], 0;
    for i := 1 to left.Length
      invariant minIndex < i && midMin == MinMid(es[..i]) == Mid(es[minIndex])
      invariant forall j :: 0 <= j < minIndex ==> midMin < Mid(es[j])
    {
      MinMidGrows(es, i);
      var mid := left[i] - right[i];
      if mid < midMin {
        midMin, minIndex := mid, i;
      }
    }
    assert es[..left.Length] == es;
  }

  /** The code's rounding: differences are never negative, so truncation rounds down. */
  lemma OffsetFromMin(es: seq<Edges>, i: nat, minIndex: nat)
    requires i < |es| && minIndex < |es| && Mid(es[minIndex]) == MinMid(es)
    ensures Half(Mid(es[i]) - Mid(es[minIndex])) + (MinMid(es) + 1) / 2 == Offset(es, i)
  {
    MinMidIsLeast(es);
    HalfRoundsDown(Mid(es[i]) - MinMid(es));
  }

  lemma HalfRoundsDown(x: nat)
    ensures Half(x) == x / 2
  {
  }

  /** The DQ delay that bit i is given: the centred one, except that the upper clamp takes off the value of
      the register numbered i instead of the one numbered base + i that it sets.  was holds the registers
      as they were before the alignment, in which the group's own start from 0. */
  function GivenDq(es: seq<Edges>, i: nat, mid: int, base: nat, dqMax: nat, was: seq<int>): int
    requires i < |es| <= |was|
    decreases i, 1
  {
    if Offset(es, i) - mid <= dqMax then Max(Offset(es, i) - mid, 0)
    else dqMax - Misread(es, i, mid, base, dqMax, was)
  }

  /** What the register numbered i holds when bit i is aligned: another group's delay, or one given to an
      earlier bit of this group, or, the register being bit i's own, 0. */
  function Misread(es: seq<Edges>, i: nat, mid: int, base: nat, dqMax: nat, was: seq<int>): int
    requires i < |es| <= |was|
    decreases i, 0
  {
    if i < base then was[i] else if base == 0 then 0 else GivenDq(es, i - base, mid, base, dqMax, was)
  }

  /** A bit gets its centred delay exactly when the upper clamp does not fire or the register it reads
      holds 0, as it does in a group whose pins are numbered from 0. */
  lemma GivenIsCentredIff(es: seq<Edges>, i: nat, mid: int, base: nat, dqMax: nat, was: seq<int>)
    requires i < |es| <= |was|
    ensures GivenDq(es, i, mid, base, dqMax, was) == CentredDq(es, i, mid, dqMax)
            <==> Offset(es, i) - mid <= dqMax || Misread(es, i, mid, base, dqMax, was) == 0
    ensures base == 0 ==> GivenDq(es, i, mid, base, dqMax, was) == CentredDq(es, i, mid, dqMax)
  {
  }

  /** A second read group, with pins 2 and 3, while pin 1 of the first holds 20: its second bit would pass
      with the largest delay, and is put outside its edges. */
  lemma MisreadSpoils()
    ensures var es := [Edges(-10, 27), Edges(31, -5)];
            var was := [0, 20, 0, 0];
            var moved := 4 - CentredDqs(es, 4, 31);
            && CentredDq(es, 1, moved, 31) == 31 && Inside(es[1], -(moved + 31))
            && GivenDq(es, 1, moved, 2, 31, was) == 11 && !Inside(es[1], -(moved + 11))
  {
    var es := [Edges(-10, 27), Edges(31, -5)];
    assert es[..1] == [Edges(-10, 27)];
    assert MinMid(es[..1]) == -37;
    assert MinMid(es) == -37;
    assert CentredDqs(es, 4, 31) == 22;
    assert Offset(es, 1) == 18;
  }

  /** One pass of the alignment loop: add delay to bit i, kept within what its delay chain can
      hold, and lower the two margins to its own. */
  method AlignBit(g: Group, left: array<int>, right: array<int>, i: nat, minIndex: nat, origMid: int, mid: int,
                  dqWas: int, dqsWas: int, ghost es: seq<Edges>, ghost was: seq<int>)
      returns (shift: int, dqMargin: int, dqsMargin: int)
    requires g.Valid() && i < g.bits && g.Dq(i) == 0
    requires left != g.dq && right != g.dq
    requires left.Length == right.Length == |es| == g.bits
    requires forall j :: 0 <= j < |es| ==> es[j] == Edges(left[j], right[j])
    requires minIndex < g.bits && Mid(es[minIndex]) == MinMid(es)
    requires origMid == (MinMid(es) + 1) / 2
    requires |was| == g.dq.Length && g.dq[i] == Misread(es, i, mid, g.base, g.dqMax, was)
    modifies g.dq
    ensures g.Valid() && shift == g.Dq(i) == GivenDq(es, i, mid, g.base, g.dqMax, was)
    ensures g.OthersKept(old(g.dq[..]))
    ensures forall j: nat :: j < g.bits && j != i ==> g.Dq(j) == old(g.Dq(j))
    ensures dqMargin >= 0 && dqsMargin >= 0 <==>
              dqWas >= 0 && dqsWas >= 0 && Inside(es[i], -(mid + shift))
  {
    var p := g.base + i;
    var now := g.dq[p];
    shift := Half(left[i] - right[i] - (left[minIndex] - right[minIndex])) + (origMid - mid);
    OffsetFromMin(es, i, minIndex);
    if shift + now > g.dqMax {
      shift := g.dqMax - g.dq[i];
    } else if shift + now < 0 {
      shift := -now;
    }
    g.dq[p] := now + shift;
    dqMargin := Min(dqWas, left[i] - shift + (-mid));
    dqsMargin := Min(dqsWas, right[i] + shift - (-mid));
  }

  /** Add delay to each bit to bring its window to the common centre. */
  method Align(g: Group, left: array<int>, right: array<int>, minIndex: nat, origMid: int, mid: int,
               ghost es: seq<Edges>, ghost was: seq<int>) returns (dqMargin: int, dqsMargin: int)
    requires g.Valid() && g.GroupAt(0)
    requires left != g.dq && right != g.dq
    requires left.Length == right.Length == |es| == g.bits
    requires forall i :: 0 <= i < |es| ==> es[i] == Edges(left[i], right[i])
    requires minIndex < g.bits && Mid(es[minIndex]) == MinMid(es)
    requires origMid == (MinMid(es) + 1) / 2
    requires |was| == g.dq.Length && g.OthersKept(was)
    modifies g.dq
    ensures g.Valid() && g.OthersKept(was)
    ensures forall i: nat :: i < g.bits ==> g.Dq(i) == GivenDq(es, i, mid, g.base, g.dqMax, was)
    ensures dqMargin >= 0 && dqsMargin >= 0 <==>
              forall i: nat :: i < g.bits ==> Inside(es[i], -(mid + g.Dq(i)))
  {
    dqMargin, dqsMargin := g.dqMax + 1, g.dqMax + 1;
    ghost var shifts := [];
    for i := 0 to g.bits
      invariant g.Valid() && |shifts| == i
      invariant g.OthersKept(was)
      invariant forall j: nat :: i <= j < g.bits ==> g.Dq(j) == 0
      invariant forall j: nat :: j < i ==> g.Dq(j) == shifts[j]
      invariant forall j: nat :: j < i ==> shifts[j] == GivenDq(es, j, mid, g.base, g.dqMax, was)
      invariant dqMargin >= 0 && dqsMargin >= 0 <==> forall j: nat :: j < i ==> Inside(es[j], -(mid + shifts[j]))
    {
      ghost var shift;
      ReadsRegister(g, es, i, mid, was, shifts);
      shift, dqMargin, dqsMargin := AlignBit(g, left, right, i, minIndex, origMid, mid, dqMargin, dqsMargin, es, was);
      shifts := shifts + [shift];
    }
  }

  lemma ReadsRegister(g: Group, es: seq<Edges>, i: nat, mid: int, was: seq<int>, shifts: seq<int>)
    requires g.Valid() && i < g.bits == |es| && |was| == g.dq.Length && |shifts| == i
    requires g.OthersKept(was) && g.Dq(i) == 0
    requires forall j: nat :: j < i ==> g.Dq(j) == shifts[j] == GivenDq(es, j, mid, g.base, g.dqMax, was)
    ensures g.dq[i] == Misread(es, i, mid, g.base, g.dqMax, was)
  {
    if g.base == 0 {
      assert g.dq[i] == g.Dq(i);
    } else if i >= g.base {
      assert g.dq[i] == g.Dq(i - g.base);
    }
  }

  /** Every bit has been given its delay, the strobe its new one; was are the registers before. */
  ghost predicate ReadsCentred(g: Group, start: int, es: seq<Edges>, was: seq<int>)
    requires g.Valid() && |es| == g.bits && |was| == g.dq.Length
    reads g, g.dq
  {
    && g.dqs == CentredDqs(es, start, g.dqsMax)
    && forall i: nat :: i < g.bits ==> g.Dq(i) == GivenDq(es, i, start - g.dqs, g.base, g.dqMax, was)
  }

  /** The registers put every bit inside its own passing window; in the stricter sense, which leaves out a
      marginal top setting, if the window reaches the delay that the strobe began with. */
  ghost predicate AllPass(g: Group, start: int)
    requires g.Valid()
    reads g, g.dq
  {
    forall i: nat :: i < g.bits ==> g.windows[i].Passes(g.Skew(i), g.windows[i].hi >= start)
  }

  /** Every bit's skew lies within its observed edges. */
  ghost predicate AllInside(g: Group, start: int, es: seq<Edges>)
    requires g.Valid() && |es| == g.bits
    reads g, g.dq
  {
    forall i: nat :: i < g.bits ==> Inside(es[i], g.Skew(i) - start)
  }

  lemma MarginsMean(g: Group, start: int, es: seq<Edges>, mid: int)
    requires g.Valid() && |es| == g.bits && g.dqs == start - mid
    ensures AllInside(g, start, es) <==> forall i: nat :: i < g.bits ==> Inside(es[i], -(mid + g.Dq(i)))
  {
  }

  /** Centring once every bit has both edges. */
  method SettleReads(g: Group, left: array<int>, right: array<int>, start: int, ghost es: seq<Edges>,
                     ghost was: seq<int>) returns (ok: bool)
    requires g.Valid() && g.GroupAt(0) && 0 <= start <= g.dqsMax
    requires left != g.dq && right != g.dq
    requires left.Length == right.Length == |es| == g.bits
    requires forall i :: 0 <= i < |es| ==> es[i] == Edges(left[i], right[i])
    requires |was| == g.dq.Length && g.OthersKept(was)
    modifies g`dqs, g.dq
    ensures g.Valid() && g.OthersKept(was) && ReadsCentred(g, start, es, was)
    ensures ok <==> AllInside(g, start, es)
  {
    var midMin, minIndex := FindMinMid(left, right, es);
    var origMid := RoundUp(midMin);
    var newDqs := MoveStrobe(start, origMid, g.dqsMax);
    var mid := start - newDqs;
    var dqMargin, dqsMargin := Align(g, left, right, minIndex, origMid, mid, es, was);
    g.dqs := newDqs;
    ok := dqMargin >= 0 && dqsMargin >= 0;
    MarginsMean(g, start, es, mid);
  }

  /** How read centring from DQS delay start ends, the registers having been was.  Either some bit has no
      window: the first such bit is reported and the DQS delay put back.  Or every register has what the
      alignment gives, and it is a success if that puts every bit inside its edges. */
  ghost predicate ReadsEnd(g: Group, start: int, was: seq<int>, failed: int, ok: bool)
    requires g.Valid() && 0 <= start <= g.dqsMax && |was| == g.dq.Length
    reads g, g.dq
  {
    && FirstBlind(failed, g.windows, start, g.dqMax, g.dqsMax - start)
    && if failed != -1 then !ok && g.dqs == start && g.GroupAt(0)
       else
         var es := Observed(g.windows, start, g.dqMax, g.dqsMax - start);
         ReadsCentred(g, start, es, was) && (ok <==> AllInside(g, start, es))
  }

  /** rw_mgr_mem_calibrate_vfifo_center.  failed is the bit reported when some bit has no window,
      and -1 otherwise. */
  method CentreReads(g: Group) returns (ok: bool, failed: int)
    requires g.Valid() && g.dqsMax - g.dqs <= g.dqMax
    modifies g`dqs, g.dq
    ensures g.Valid() && g.OthersKept(old(g.dq[..]))
    ensures ok ==> AllPass(g, old(g.dqs))
    ensures ReadsEnd(g, old(g.dqs), old(g.dq[..]), failed, ok)
  {
    var start := g.dqs;
    ghost var was := g.dq[..];
    ghost var es := Observed(g.windows, start, g.dqMax, g.dqsMax - start);
    var left, right;
    failed, left, right := FindWindows(g, Read);
    if failed != -1 {
      g.dqs := start;
      return false, failed;
    }
    ok := SettleReads(g, left, right, start, es, was);
    if ok {
      AllInsidePass(g, start, es);
    }
  }

  lemma AllInsidePass(g: Group, start: int, es: seq<Edges>)
    requires g.Valid() && 0 <= start <= g.dqsMax
    requires es == Observed(g.windows, start, g.dqMax, g.dqsMax - start)
    requires AllInside(g, start, es)
    ensures AllPass(g, start)
  {
    forall i: nat | i < g.bits
      ensures g.windows[i].Passes(g.Skew(i), g.windows[i].hi >= start)
    {
      InsideMeansPassing(g.windows, start, g.dqMax, g.dqsMax - start, i, g.Skew(i) - start);
    }
  }

  /** The DQS delay moved left by origMid as far as its delay chain goes. */
  method MoveStrobe(start: int, origMid: int, dqsMax: nat) returns (newDqs: int)
    ensures newDqs == Clamp(start - origMid, 0, dqsMax)
  {
    newDqs := start - origMid;
    if newDqs > dqsMax {
      newDqs := dqsMax;
    } else if newDqs < 0 {
      newDqs := 0;
    }
  }

  /** Half of a doubled distance, as the code rounds it: always up. */
  method RoundUp(midMin: int) returns (mid: int)
    ensures mid == (midMin + 1) / 2
  {
    var m := midMin;
    if m > 0 {
      m := m + 1;
    }
    mid := Half(m);
  }

  /** Every bit has been centred as far as its DQ delay allows, the strobe back where it was. */
  ghost predicate WritesCentred(g: Group, start: int, es: seq<Edges>)
    requires g.Valid() && |es| == g.bits
    reads g, g.dq
  {
    && g.dqs == start
    && forall i: nat :: i < g.bits ==> g.Dq(i) == CentredDq(es, i, 0, g.dqMax)
  }

  /** In a group whose pins are numbered from 0 every bit gets its centred delay. */
  lemma FromZero(g: Group, es: seq<Edges>, mid: int, was: seq<int>)
    requires g.Valid() && g.base == 0 && |es| == g.bits <= |was|
    requires forall i: nat :: i < g.bits ==> g.Dq(i) == GivenDq(es, i, mid, 0, g.dqMax, was)
    ensures forall i: nat :: i < g.bits ==> g.Dq(i) == CentredDq(es, i, mid, g.dqMax)
  {
    forall i: nat | i < g.bits
      ensures g.Dq(i) == CentredDq(es, i, mid, g.dqMax)
    {
      GivenIsCentredIff(es, i, mid, 0, g.dqMax, was);
    }
  }

  method SettleWrites(g: Group, left: array<int>, right: array<int>, start: int, ghost es: seq<Edges>)
      returns (ok: bool)
    requires g.Valid() && g.GroupAt(0) && 0 <= start <= g.dqsMax && g.base == 0
    requires left != g.dq && right != g.dq
    requires left.Length == right.Length == |es| == g.bits
    requires forall i :: 0 <= i < |es| ==> es[i] == Edges(left[i], right[i])
    modifies g`dqs, g.dq
    ensures g.Valid() && g.OthersKept(old(g.dq[..])) && WritesCentred(g, start, es)
    ensures ok <==> AllInside(g, start, es)
  {
    var midMin, minIndex := FindMinMid(left, right, es);
    var origMid := RoundUp(midMin);
    ghost var was := g.dq[..];
    var dqMargin, dqsMargin := Align(g, left, right, minIndex, origMid, 0, es, was);
    FromZero(g, es, 0, was);
    g.dqs := start;
    ok := dqMargin >= 0 && dqsMargin >= 0;
  }

  /** How it ends in the write direction, where the strobe stays put. */
  ghost predicate WritesEnd(g: Group, start: int, failed: int, ok: bool)
    requires g.Valid() && 0 <= start <= g.dqsMax
    reads g, g.dq
  {
    && FirstBlind(failed, g.windows, start, g.dqMax, g.dqsMax - start)
    && if failed != -1 then !ok && g.GroupAt(0)
       else
         var es := Observed(g.windows, start, g.dqMax, g.dqsMax - start);
         WritesCentred(g, start, es) && (ok <==> AllInside(g, start, es))
  }

  /** The DQ part of rw_mgr_mem_calibrate_writes_center, where the strobe stays put.  When some bit
      has no window the DQS delay is left where the sweep ended. */
  method CentreWrites(g: Group) returns (ok: bool, failed: int)
    requires g.Valid() && g.base == 0 && g.dqMax == g.dqsMax
    modifies g`dqs, g.dq
    ensures g.Valid() && g.OthersKept(old(g.dq[..]))
    ensures ok ==> AllPass(g, old(g.dqs))
    ensures WritesEnd(g, old(g.dqs), failed, ok)
  {
    var start := g.dqs;
    ghost var es := Observed(g.windows, start, g.dqMax, g.dqsMax - start);
    var left, right;
    failed, left, right := FindWindows(g, Write);
    if failed != -1 {
      return false, failed;
    }
    ok := SettleWrites(g, left, right, start, es);
    if ok {
      AllInsidePass(g, start, es);
    }
  }

  // ---------- exactly when centring succeeds ----------

  /** Observed edges lie in the swept range, and only a marginal one-setting window has a gap. */
  lemma EdgeBounds(windows: seq<Window>, start: int, dqMax: nat, reach: nat, i: nat)
    requires i < |windows| && 0 < dqMax && reach <= dqMax
    requires windows[i].From(start).Visible(dqMax, reach)
    ensures var e := Observed(windows, start, dqMax, reach)[i];
            && -(reach as int) <= e.left <= dqMax && -(dqMax as int) <= e.right <= reach
            && (e.left + e.right < 0 ==> e == Edges(0, -1))
  {
  }

  /** The DQS delay never saturates high. */
  lemma NeverTooLate(windows: seq<Window>, start: int, dqMax: nat, dqsMax: nat, i: nat)
    requires i < |windows| && 0 < dqMax && 0 <= start <= dqsMax <= dqMax + start
    requires AllVisible(windows, start, dqMax, dqsMax - start)
    ensures var es := Observed(windows, start, dqMax, dqsMax - start);
            start - (MinMid(es) + 1) / 2 <= dqsMax && MinMid(es) <= Mid(es[i])
  {
    var es := Observed(windows, start, dqMax, dqsMax - start);
    MinMidIsLeast(es);
    var k :| 0 <= k < |es| && MinMid(es) == Mid(es[k]);
    EdgeBounds(windows, start, dqMax, dqsMax - start, k);
  }

  /** No DQ delay is ever cut off at 0: what the strobe's move leaves for a bit is not negative. */
  lemma StrobeLeaves(windows: seq<Window>, start: int, dqMax: nat, dqsMax: nat, es: seq<Edges>, i: nat)
    requires i < |windows| && 0 < dqMax && 0 <= start <= dqsMax <= dqMax + start
    requires AllVisible(windows, start, dqMax, dqsMax - start)
    requires es == Observed(windows, start, dqMax, dqsMax - start)
    ensures Offset(es, i) - (start - CentredDqs(es, start, dqsMax)) >= 0
  {
    NeverTooLate(windows, start, dqMax, dqsMax, i);
    EdgeBounds(windows, start, dqMax, dqsMax - start, i);
    OffsetBalanced(es, i);
  }

  /** The strobe makes as much of the move as it can: unless it ends at 0, some bit is left nothing. */
  lemma StrobeMovesMost(windows: seq<Window>, start: int, dqMax: nat, dqsMax: nat, es: seq<Edges>)
    requires 0 < |windows| && 0 < dqMax && 0 <= start <= dqsMax <= dqMax + start
    requires AllVisible(windows, start, dqMax, dqsMax - start)
    requires es == Observed(windows, start, dqMax, dqsMax - start)
    ensures CentredDqs(es, start, dqsMax) == 0
            || exists i :: 0 <= i < |es| && Offset(es, i) == start - CentredDqs(es, start, dqsMax)
  {
    NeverTooLate(windows, start, dqMax, dqsMax, 0);
    MinMidIsLeast(es);
    var k :| 0 <= k < |es| && MinMid(es) == Mid(es[k]);
    assert Offset(es, k) == (MinMid(es) + 1) / 2;
  }

  /** The read direction: the strobe's saturation is made up exactly by the DQ delay, unless that is cut off at
      its maximum; so each bit ends up inside its observed edges exactly when they do not cross and its
      right edge can be reached with the largest DQ delay. */
  lemma ReadBitCentredIff(windows: seq<Window>, start: int, dqMax: nat, dqsMax: nat, es: seq<Edges>, i: nat)
    requires i < |windows| && 0 < dqMax && 0 <= start <= dqsMax <= dqMax + start
    requires AllVisible(windows, start, dqMax, dqsMax - start)
    requires es == Observed(windows, start, dqMax, dqsMax - start)
    ensures var moved := start - CentredDqs(es, start, dqsMax);
            var given := CentredDq(es, i, moved, dqMax);
            && (Offset(es, i) - moved <= dqMax <==> moved + given == Offset(es, i))
            && (Inside(es[i], -(moved + given)) <==>
                es[i].left + es[i].right >= 0 && es[i].right + moved + dqMax >= 0)
  {
    StrobeLeaves(windows, start, dqMax, dqsMax, es, i);
    OffsetBalanced(es, i);
  }

  /** The write direction cannot move the strobe: a bit ends up inside its observed edges exactly
      when they do not cross and its window does not lie wholly to the right of zero skew. */
  lemma WriteBitCentredIff(windows: seq<Window>, start: int, dqMax: nat, reach: nat, i: nat)
    requires i < |windows| && 0 < dqMax && reach <= dqMax
    requires AllVisible(windows, start, dqMax, reach)
    ensures var es := Observed(windows, start, dqMax, reach);
            && Offset(es, i) <= dqMax
            && (Inside(es[i], -CentredDq(es, i, 0, dqMax)) <==>
                es[i].left + es[i].right >= 0 && es[i].left >= 0)
  {
    var es := Observed(windows, start, dqMax, reach);
    EdgeBounds(windows, start, dqMax, reach, i);
    OffsetBalanced(es, i);
  }

  /** Every bit's edges do not cross, and if the upper clamp fires its right edge can still be reached. */
  ghost predicate ReadsReachable(es: seq<Edges>, moved: int, base: nat, dqMax: nat, was: seq<int>)
    requires |es| <= |was|
  {
    forall i :: 0 <= i < |es| ==> ReadReachable(es, i, moved, base, dqMax, was)
  }

  ghost predicate ReadReachable(es: seq<Edges>, i: nat, moved: int, base: nat, dqMax: nat, was: seq<int>)
    requires i < |es| <= |was|
  {
    && es[i].left + es[i].right >= 0
    && (Offset(es, i) - moved > dqMax ==>
          es[i].right + moved + dqMax - Misread(es, i, moved, base, dqMax, was) >= 0)
  }

  /** When read centring succeeds, in terms of what it finds: the edges, the strobe's old and new delay, and
      the registers before. */
  lemma ReadsSucceedIff(g: Group, start: int, es: seq<Edges>, was: seq<int>)
    requires g.Valid() && 0 < g.dqMax && 0 <= start <= g.dqsMax <= g.dqMax + start
    requires AllVisible(g.windows, start, g.dqMax, g.dqsMax - start)
    requires es == Observed(g.windows, start, g.dqMax, g.dqsMax - start) && |was| == g.dq.Length
    requires ReadsCentred(g, start, es, was)
    ensures AllInside(g, start, es)
            <==> ReadsReachable(es, start - CentredDqs(es, start, g.dqsMax), g.base, g.dqMax, was)
  {
    forall i: nat | i < g.bits
      ensures Inside(es[i], g.Skew(i) - start) <==> ReadReachable(es, i, start - g.dqs, g.base, g.dqMax, was)
    {
      ReadBitSucceedsIff(g, start, es, was, i);
    }
    assert g.bits == |es|;
  }

  lemma ReadBitSucceedsIff(g: Group, start: int, es: seq<Edges>, was: seq<int>, i: nat)
    requires g.Valid() && 0 < g.dqMax && 0 <= start <= g.dqsMax <= g.dqMax + start && i < g.bits
    requires AllVisible(g.windows, start, g.dqMax, g.dqsMax - start)
    requires es == Observed(g.windows, start, g.dqMax, g.dqsMax - start) && |was| == g.dq.Length
    requires ReadsCentred(g, start, es, was)
    ensures Inside(es[i], g.Skew(i) - start) <==> ReadReachable(es, i, start - g.dqs, g.base, g.dqMax, was)
  {
    StrobeLeaves(g.windows, start, g.dqMax, g.dqsMax, es, i);
    LeftBitSucceedsIff(g, start, es, was, i);
  }

  lemma LeftBitSucceedsIff(g: Group, start: int, es: seq<Edges>, was: seq<int>, i: nat)
    requires g.Valid() && i < g.bits == |es| && |was| == g.dq.Length && ReadsCentred(g, start, es, was)
    requires Offset(es, i) - (start - CentredDqs(es, start, g.dqsMax)) >= 0
    ensures Inside(es[i], g.Skew(i) - start) <==> ReadReachable(es, i, start - g.dqs, g.base, g.dqMax, was)
  {
    BitGiven(g, start, es, was, i);
    GivenInsideIff(es, i, start - g.dqs, g.base, g.dqMax, was, g.Dq(i));
  }

  lemma BitGiven(g: Group, start: int, es: seq<Edges>, was: seq<int>, i: nat)
    requires g.Valid() && i < g.bits == |es| && |was| == g.dq.Length && ReadsCentred(g, start, es, was)
    ensures g.Dq(i) == GivenDq(es, i, start - g.dqs, g.base, g.dqMax, was) && 0 <= g.Dq(i) <= g.dqMax
    ensures g.dqs == CentredDqs(es, start, g.dqsMax)
  {
  }

  /** Whether the delay a bit is given puts it inside its edges. */
  lemma GivenInsideIff(es: seq<Edges>, i: nat, moved: int, base: nat, dqMax: nat, was: seq<int>, given: int)
    requires i < |es| <= |was| && Offset(es, i) - moved >= 0
    requires given == GivenDq(es, i, moved, base, dqMax, was) >= 0 && given <= dqMax
    ensures Inside(es[i], 0 - moved - given) <==> ReadReachable(es, i, moved, base, dqMax, was)
  {
    OffsetBalanced(es, i);
  }

  /** Every bit's edges do not cross and reach zero skew from the left. */
  ghost predicate WritesReachable(es: seq<Edges>) {
    forall i :: 0 <= i < |es| ==> es[i].left + es[i].right >= 0 && es[i].left >= 0
  }

  /** When the DQ part of write centring succeeds. */
  lemma WritesSucceedIff(g: Group, start: int, es: seq<Edges>)
    requires g.Valid() && 0 < g.dqMax == g.dqsMax && 0 <= start <= g.dqsMax
    requires AllVisible(g.windows, start, g.dqMax, g.dqsMax - start)
    requires es == Observed(g.windows, start, g.dqMax, g.dqsMax - start)
    requires WritesCentred(g, start, es)
    ensures AllInside(g, start, es) <==> WritesReachable(es)
  {
    forall i: nat | i < g.bits
      ensures Inside(es[i], g.Skew(i) - start) <==> es[i].left + es[i].right >= 0 && es[i].left >= 0
    {
      WriteBitCentredIff(g.windows, start, g.dqMax, g.dqsMax - start, i);
    }
  }
}
