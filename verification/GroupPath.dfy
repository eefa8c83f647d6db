/** One group's calibration without retries, down to the registers: the DQS-enable search, read centring with
    the read test, write centring, and read centring again with the write test. */
module GroupPath {
  import opened CInt
  import opened Windows
  import opened DelayChains
  import opened Centering
  import opened DataMask
  import opened DqsEnable
  import opened WritePath

  // ---------- what each stage needs ----------

  /** Read centring from DQS delay start succeeds: some position passes each bit, and the registers can put
      every bit inside its edges. */
  ghost predicate ReadsGood(windows: seq<Window>, start: int, base: nat, dqMax: nat, dqsMax: nat, was: seq<int>)
    requires 0 <= start <= dqsMax && 0 < |windows| <= |was|
  {
    && AllVisible(windows, start, dqMax, dqsMax - start)
    && ReadsReachable(Observed(windows, start, dqMax, dqsMax - start),
                      start - ReadsDqs(windows, start, dqMax, dqsMax), base, dqMax, was)
  }

  /** The DQS delay it then leaves. */
  function ReadsDqs(windows: seq<Window>, start: int, dqMax: nat, dqsMax: nat): (dqs: int)
    requires 0 <= start <= dqsMax && 0 < |windows|
    ensures 0 <= dqs <= dqsMax
  {
    CentredDqs(Observed(windows, start, dqMax, dqsMax - start), start, dqsMax)
  }

  /** The first longest run of the mask pin reaches zero skew or begins left of it. */
  ghost predicate MaskGood(pass: int -> bool, start: int, max: nat) {
    exists b: int, e: int, win: nat :: MaskRun(pass, start, max, b, e, win) && b <= 0
  }

  ghost predicate MaskRun(pass: int -> bool, start: int, max: nat, b: int, e: int, win: nat) {
    FirstLongest(From(pass, start), -(max as int), max - start, b, e, win) && win > 0
  }

  /** Write centring from DQS delay start succeeds. */
  ghost predicate WritesGood(windows: seq<Window>, pass: int -> bool, start: int, max: nat)
    requires 0 <= start <= max
  {
    DataGood(windows, start, max) && MaskGood(pass, start, max)
  }

  ghost predicate DataGood(windows: seq<Window>, start: int, max: nat)
    requires 0 <= start <= max
  {
    && AllVisible(windows, start, max, max - start)
    && WritesReachable(Observed(windows, start, max, max - start))
  }

  /** A bit's delay depends only on the registers of pins before the group's. */
  lemma {:induction false} MisreadBelow(es: seq<Edges>, i: nat, mid: int, base: nat, dqMax: nat,
                                        was: seq<int>, was': seq<int>)
    requires i < |es| <= |was| == |was'| && forall j :: 0 <= j < base && j < |was| ==> was[j] == was'[j]
    ensures Misread(es, i, mid, base, dqMax, was) == Misread(es, i, mid, base, dqMax, was')
    decreases i
  {
    if i >= base > 0 {
      MisreadBelow(es, i - base, mid, base, dqMax, was, was');
    }
  }

  lemma ReadsGoodBelow(windows: seq<Window>, start: int, base: nat, dqMax: nat, dqsMax: nat,
                       was: seq<int>, was': seq<int>)
    requires 0 <= start <= dqsMax && 0 < |windows| <= |was| == |was'|
    requires forall j :: 0 <= j < base && j < |was| ==> was[j] == was'[j]
    ensures ReadsGood(windows, start, base, dqMax, dqsMax, was)
            <==> ReadsGood(windows, start, base, dqMax, dqsMax, was')
  {
    var es := Observed(windows, start, dqMax, dqsMax - start);
    var moved := start - ReadsDqs(windows, start, dqMax, dqsMax);
    forall i: nat | i < |es|
      ensures ReadReachable(es, i, moved, base, dqMax, was) <==> ReadReachable(es, i, moved, base, dqMax, was')
    {
      MisreadBelow(es, i, moved, base, dqMax, was, was');
    }
  }

  lemma MaskGoodIff(pass: int -> bool, start: int, max: nat, s: Search)
    requires FirstLongest(From(pass, start), -(max as int), max - start, s.bgnBest, s.endBest, s.winBest)
    ensures MaskGood(pass, start, max) <==> s.winBest > 0 && s.bgnBest <= 0
  {
    if MaskGood(pass, start, max) {
      var b: int, e: int, win: nat :| MaskRun(pass, start, max, b, e, win) && b <= 0;
      FirstLongestIsUnique(From(pass, start), -(max as int), max - start,
                           s.bgnBest, s.endBest, s.winBest, b, e, win);
    } else if s.winBest > 0 {
      assert MaskRun(pass, start, max, s.bgnBest, s.endBest, s.winBest);
    }
  }

  // ---------- the stages ----------

  /** The DQ delay of bit i while the enable setting is searched: the bits spread over the whole chain. */
  function Staggered(g: Group, i: nat): int
    requires g.bits > 1
  {
    i * (g.dqMax / (g.bits - 1))
  }

  lemma StaggeredFits(g: Group, i: nat)
    requires g.bits > 1 && i < g.bits
    ensures 0 <= Staggered(g, i) <= g.dqMax
  {
    var step, rest := DivMod(g.dqMax, g.bits - 1);
    assert i * step <= (g.bits - 1) * step;
  }

  /** The bits are evenly spread from 0 up, in the largest steps that keep the last within the chain. */
  lemma StaggeredEvenly(g: Group, i: nat)
    requires g.bits > 1 && i + 1 < g.bits
    ensures Staggered(g, 0) == 0
    ensures Staggered(g, i + 1) - Staggered(g, i) == Staggered(g, 1)
    ensures (g.bits - 1) * Staggered(g, 1) <= g.dqMax < (g.bits - 1) * (Staggered(g, 1) + 1)
  {
    var step, rest := DivMod(g.dqMax, g.bits - 1);
    assert (i + 1) * step == i * step + step;
  }

  /** Spread the DQ delays. */
  method Stagger(g: Group)
    requires g.Valid() && g.bits > 1
    modifies g.dq
    ensures g.Valid() && g.OthersKept(old(g.dq[..]))
    ensures forall i: nat :: i < g.bits ==> g.Dq(i) == Staggered(g, i)
  {
    var step := g.dqMax / (g.bits - 1);
    for i := 0 to g.bits
      invariant g.Valid() && g.OthersKept(old(g.dq[..]))
      invariant forall j: nat :: j < i ==> g.Dq(j) == Staggered(g, j)
    {
      StaggeredFits(g, i);
      g.dq[g.base + i] := i * step;
    }
  }

  /** rw_mgr_mem_calibrate_vfifo_find_dqs_en_phase_sweep_dq_in_delay.  strobe.pass is the read test with the
      DQ delays spread, which they are only during the search; nothing is said of it afterwards. */
  method FindEnable(strobe: Strobe, g: Group) returns (ok: bool, ghost course: Course, ghost bgn: nat, ghost end: nat)
    requires strobe.Valid() && g.Valid() && g.bits > 1
    modifies strobe, g.dq
    ensures strobe.Valid() && g.Valid() && g.GroupAt(0) && g.OthersKept(old(g.dq[..]))
    ensures 0 < strobe.Period() && strobe.Goes(old(strobe.fifo), course, bgn, end, strobe.phase, strobe.delay)
    ensures ok <==> course == Found
  {
    Stagger(g);
    var v;
    ok, v, course, bgn, end := strobe.FindPhase();
    g.ApplyGroupDelay(0);
  }

  method ReadBits(g: Group) returns (ok: bool)
    requires g.Valid() && 0 < g.dqMax && g.dqsMax <= g.dqMax
    modifies g`dqs, g.dq
    ensures g.Valid() && g.OthersKept(old(g.dq[..]))
    ensures ok <==> ReadsGood(g.windows, old(g.dqs), g.base, g.dqMax, g.dqsMax, old(g.dq[..]))
    ensures ok ==> g.dqs == ReadsDqs(g.windows, old(g.dqs), g.dqMax, g.dqsMax) && AllPass(g, old(g.dqs))
  {
    ghost var start, was := g.dqs, g.dq[..];
    var failed;
    ok, failed := CentreReads(g);
    ReadsOutcome(g, start, was, failed, ok);
  }

  lemma ReadsOutcome(g: Group, start: int, was: seq<int>, failed: int, ok: bool)
    requires g.Valid() && 0 < g.dqMax && 0 <= start <= g.dqsMax <= g.dqMax && |was| == g.dq.Length
    requires ReadsEnd(g, start, was, failed, ok)
    ensures ok <==> ReadsGood(g.windows, start, g.base, g.dqMax, g.dqsMax, was)
    ensures failed == -1 ==> g.dqs == ReadsDqs(g.windows, start, g.dqMax, g.dqsMax)
  {
    if failed == -1 {
      ReadsSucceedIff(g, start, Observed(g.windows, start, g.dqMax, g.dqsMax - start), was);
    } else {
      BlindIsNotAll(failed, g.windows, start, g.dqMax, g.dqsMax - start);
    }
  }

  lemma BlindIsNotAll(failed: int, windows: seq<Window>, start: int, dqMax: nat, reach: nat)
    requires FirstBlind(failed, windows, start, dqMax, reach) && failed != -1
    ensures !AllVisible(windows, start, dqMax, reach)
  {
  }

  method WriteBits(g: Group, mask: MaskPin) returns (ok: bool)
    requires g.Valid() && g.base == 0 && mask.Valid() && 0 < g.dqMax
    requires g.dqMax == g.dqsMax == mask.max && mask.dqs == g.dqs
    modifies g`dqs, g.dq, mask
    ensures g.Valid() && mask.Valid()
    ensures ok <==> WritesGood(g.windows, mask.pass, old(g.dqs), g.dqMax)
    ensures ok ==> AllPass(g, old(g.dqs)) && mask.pass(mask.dqs - mask.dm) && mask.dqs == g.dqs == old(g.dqs)
  {
    ghost var start := g.dqs;
    var failed, s;
    ghost var centred;
    ok, failed, s, centred := CentreGroupWrites(g, mask);
    WritesOutcome(g, start, failed, centred);
    if failed == -1 {
      MaskGoodIff(mask.pass, start, g.dqMax, s);
    }
  }

  lemma WritesOutcome(g: Group, start: int, failed: int, ok: bool)
    requires g.Valid() && 0 < g.dqMax == g.dqsMax && 0 <= start <= g.dqMax
    requires WritesEnd(g, start, failed, ok)
    ensures ok <==> DataGood(g.windows, start, g.dqMax)
    ensures failed != -1 ==> !DataGood(g.windows, start, g.dqMax)
  {
    if failed == -1 {
      WritesSucceedIff(g, start, Observed(g.windows, start, g.dqMax, g.dqMax - start));
    } else {
      BlindIsNotAll(failed, g.windows, start, g.dqMax, g.dqMax - start);
    }
  }

  /** The enable setting, and the first read centring. */
  method EnableAndRead(strobe: Strobe, g: Group)
      returns (ok: bool, ghost course: Course, ghost bgn: nat, ghost end: nat)
    requires strobe.Valid() && g.Valid() && g.bits > 1 && 0 < g.dqMax && g.dqsMax <= g.dqMax
    modifies strobe, g`dqs, g.dq
    ensures strobe.Valid() && g.Valid() && g.OthersKept(old(g.dq[..])) && 0 < strobe.Period()
    ensures strobe.Goes(old(strobe.fifo), course, bgn, end, strobe.phase, strobe.delay)
    ensures ok <==> course == Found && ReadsGood(g.windows, old(g.dqs), g.base, g.dqMax, g.dqsMax, old(g.dq[..]))
    ensures ok ==> g.dqs == ReadsDqs(g.windows, old(g.dqs), g.dqMax, g.dqsMax)
  {
    ghost var was := g.dq[..];
    ok, course, bgn, end := FindEnable(strobe, g);
    ReadsGoodBelow(g.windows, g.dqs, g.base, g.dqMax, g.dqsMax, was, g.dq[..]);
    if ok {
      ok := ReadBits(g);
    }
  }

  /** Two views of the same pins and registers. */
  ghost predicate SamePins(g: Group, g': Group) {
    && g != g' && g.dq == g'.dq && g.bits == g'.bits == |g'.windows| && g.base == g'.base
    && g.dqMax == g'.dqMax && g.dqsMax == g'.dqsMax
  }

  /** The second read centring, of the same pins as the write test sees them; was are the registers as they
      were at the start. */
  method ReadAgain(g: Group, again: Group, ghost was: seq<int>) returns (ok: bool)
    requires g.Valid() && SamePins(g, again) && 0 < g.dqMax && g.dqsMax <= g.dqMax
    requires |was| == g.dq.Length && g.OthersKept(was)
    modifies g`dqs, again`dqs, g.dq
    ensures g.Valid() && again.Valid() && g.dqs == again.dqs
    ensures ok <==> ReadsGood(again.windows, old(g.dqs), g.base, g.dqMax, g.dqsMax, was)
    ensures ok ==> AllPass(again, old(g.dqs))
  {
    again.dqs := g.dqs;
    ReadsGoodBelow(again.windows, again.dqs, again.base, again.dqMax, again.dqsMax, was, again.dq[..]);
    ok := ReadBits(again);
    g.dqs := again.dqs;
  }

  /** Write centring, and read centring again. */
  method WriteAndReadAgain(readBits: Group, again: Group, writeBits: Group, mask: MaskPin, ghost was: seq<int>)
      returns (ok: bool)
    requires readBits.Valid() && 0 < readBits.dqMax && readBits.dqsMax <= readBits.dqMax
    requires |was| == readBits.dq.Length && readBits.OthersKept(was)
    requires writeBits.Valid() && mask.Valid()
    requires SamePins(readBits, again) && writeBits !in {readBits, again} && readBits.dq != writeBits.dq
    requires writeBits.base == 0 && 0 < writeBits.dqMax == writeBits.dqsMax == mask.max && mask.dqs == writeBits.dqs
    modifies readBits`dqs, again`dqs, readBits.dq, writeBits`dqs, writeBits.dq, mask
    ensures ok <==>
              && WritesGood(writeBits.windows, mask.pass, old(writeBits.dqs), writeBits.dqMax)
              && ReadsGood(again.windows, old(readBits.dqs), readBits.base, readBits.dqMax, readBits.dqsMax, was)
    ensures ok ==> again.Valid() && readBits.dqs == again.dqs && AllPass(again, old(readBits.dqs))
    ensures ok ==> writeBits.Valid() && AllPass(writeBits, old(writeBits.dqs))
    ensures ok ==> mask.pass(mask.dqs - mask.dm) && mask.dqs == writeBits.dqs
  {
    ok := WriteBits(writeBits, mask);
    if ok {
      ok := ReadAgain(readBits, again, was);
    }
  }

  /** The stages in turn; again is readBits as the write test sees it.  They succeed exactly when an enable
      setting is found and every centring can succeed, judged by the windows and the registers at the start.
      The read bits then pass the write test, and the write bits and the mask pin theirs, at what is left. */
  method CalibrateGroup(strobe: Strobe, readBits: Group, again: Group, writeBits: Group, mask: MaskPin)
      returns (ok: bool, ghost course: Course, ghost bgn: nat, ghost end: nat)
    requires strobe.Valid() && readBits.Valid() && writeBits.Valid() && mask.Valid()
    requires readBits.bits > 1 && 0 < readBits.dqMax && readBits.dqsMax <= readBits.dqMax
    requires SamePins(readBits, again) && writeBits !in {readBits, again} && readBits.dq != writeBits.dq
    requires writeBits.base == 0 && 0 < writeBits.dqMax == writeBits.dqsMax == mask.max && mask.dqs == writeBits.dqs
    modifies strobe, readBits`dqs, again`dqs, readBits.dq, writeBits`dqs, writeBits.dq, mask
    ensures 0 < strobe.Period() && strobe.Goes(old(strobe.fifo), course, bgn, end, strobe.phase, strobe.delay)
    ensures ok <==>
              && course == Found
              && ReadsGood(readBits.windows, old(readBits.dqs), readBits.base, readBits.dqMax, readBits.dqsMax,
                           old(readBits.dq[..]))
              && WritesGood(writeBits.windows, mask.pass, old(writeBits.dqs), writeBits.dqMax)
              && ReadsGood(again.windows,
                           ReadsDqs(readBits.windows, old(readBits.dqs), readBits.dqMax, readBits.dqsMax),
                           readBits.base, readBits.dqMax, readBits.dqsMax, old(readBits.dq[..]))
    ensures ok ==> again.Valid() && readBits.dqs == again.dqs
    ensures ok ==> AllPass(again, ReadsDqs(readBits.windows, old(readBits.dqs), readBits.dqMax, readBits.dqsMax))
    ensures ok ==> writeBits.Valid() && AllPass(writeBits, old(writeBits.dqs))
    ensures ok ==> mask.pass(mask.dqs - mask.dm) && mask.dqs == writeBits.dqs
  {
    ghost var was := readBits.dq[..];
    ok, course, bgn, end := EnableAndRead(strobe, readBits);
    if ok {
      ok := WriteAndReadAgain(readBits, again, writeBits, mask, was);
    }
  }
}
