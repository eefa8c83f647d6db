/** The DQS-enable search: rw_mgr_mem_calibrate_vfifo_find_dqs_en_phase and the read-valid FIFO ring,
    in the build that never uses phase 0. */
module DqsEnable {
  import opened CInt

  /** A FIFO position, counted from where step 2 starts, and a phase. */
  datatype Setting = Setting(f: nat, p: nat)

  /** How the search goes: the ring has fewer than two failing positions; no setting of the grid passes; no
      end of the window is found; the end found is before the begin; no position passes at the centre; or a
      setting is found. */
  datatype Course = FewFailures | NoEdge | NoEnd | EmptyWindow | NoPosition | Found

  class Strobe {
    const phaseMax: nat
    const delayMax: nat
    /** Delay of one phase step and of one delay-chain step. */
    const ptap: nat
    const dtap: nat
    const ring: nat
    /** What the read test answers for a FIFO position, phase and delay. */
    const pass: (nat, nat, nat) -> bool

    var fifo: nat
    var phase: nat
    var delay: nat

    constructor (phaseMax: nat, delayMax: nat, ptap: nat, dtap: nat, ring: nat,
                 pass: (nat, nat, nat) -> bool, fifo: nat)
      requires 0 < phaseMax && 0 < ptap && 0 < dtap && fifo < ring
      ensures Valid()
      ensures this.phaseMax == phaseMax && this.delayMax == delayMax && this.ptap == ptap && this.dtap == dtap
      ensures this.ring == ring && this.pass == pass && this.fifo == fifo
    {
      this.phaseMax, this.delayMax, this.ptap, this.dtap := phaseMax, delayMax, ptap, dtap;
      this.ring, this.pass := ring, pass;
      this.fifo, this.phase, this.delay := fifo, 0, 0;
    }

    ghost predicate Valid()
      reads this`fifo
    {
      0 < phaseMax && 0 < ptap && 0 < dtap && fifo < ring
    }

    method Test() returns (ok: bool)
      ensures ok == pass(fifo, phase, delay)
    {
      ok := pass(fifo, phase, delay);
    }

    /** The FIFO position i steps on from h. */
    function At(h: nat, i: nat): nat
      requires h < ring
    {
      (h + i) % ring
    }

    /** The hardware position agrees with the caller's count v of steps from home. */
    ghost predicate InStep(home: nat, v: nat)
      reads this`fifo
    {
      home < ring && fifo == At(home, v)
    }

    /** rw_mgr_incr_vfifo: one position on, in hardware and in the caller's count. */
    method Incr(v: nat, ghost home: nat) returns (v': nat)
      requires Valid() && InStep(home, v)
      modifies this`fifo
      ensures Valid() && InStep(home, v') && v' == v + 1
      ensures fifo == (old(fifo) + 1) % ring
    {
      RingStep(home + v, ring);
      RingNext(fifo, ring);
      fifo := if fifo + 1 == ring then 0 else fifo + 1;
      v' := v + 1;
    }

    /** rw_mgr_decr_vfifo: one position back, by going all the way round.  The count goes up all the
        same; one step on undoes it. */
    method Decr(v: nat, ghost home: nat) returns (v': nat)
      requires Valid() && InStep(home, v)
      modifies this`fifo
      ensures Valid() && InStep(home, v') && v' == v + ring - 1
      ensures (fifo + 1) % ring == old(fifo) && fifo == At(old(fifo), ring - 1)
    {
      v' := v;
      for i := 0 to ring - 1
        invariant Valid() && InStep(home, v') && v' == v + i
        invariant fifo == At(old(fifo), i)
      {
        Onward(old(fifo), i);
        v' := Incr(v', home);
      }
      Onward(old(fifo), ring - 1);
      RingLap(old(fifo), ring);
    }

    lemma Onward(h: nat, i: nat)
      requires h < ring
      ensures (At(h, i) + 1) % ring == At(h, i + 1)
      ensures i == 0 ==> At(h, i) == h
    {
      RingStep(h + i, ring);
      RingLap(h, ring);
    }

    /** The largest number of delay steps that come short of a phase step. */
    function Dtaps(): nat
      requires 0 < ptap && 0 < dtap
    {
      (ptap - 1) / dtap
    }

    /** Step 0: delay steps in a phase step. */
    method DtapsPerPtap() returns (dtaps: nat)
      requires Valid()
      ensures dtaps == Dtaps() && dtaps * dtap < ptap <= (dtaps + 1) * dtap
    {
      var n, tmp := 0, 0;
      while tmp < ptap
        invariant tmp == n * dtap
        invariant n > 0 ==> (n - 1) * dtap < ptap
        decreases ptap - tmp
      {
        n := n + 1;
        tmp := tmp + dtap;
      }
      dtaps := n - 1;
      DivModIs(ptap - 1, dtap, dtaps, ptap - 1 - dtaps * dtap);
    }

    /** Grid points the first-edge search has tried before (d, i, p), all without a pass. */
    ghost predicate NothingBefore(h: nat, d: nat, i: nat, p: nat)
      requires h < ring
    {
      && (forall d', i', p' :: 0 <= d' < d && 0 <= i' < ring && 1 <= p' <= phaseMax ==> !pass(At(h, i'), p', d'))
      && (forall i', p' :: 0 <= i' < i && i' < ring && 1 <= p' <= phaseMax ==> !pass(At(h, i'), p', d))
      && (forall p' :: 1 <= p' < p && p' <= phaseMax && i < ring ==> !pass(At(h, i), p', d))
    }

    /** Delay of a grid point: d delay steps, i FIFO positions of phaseMax + 1 phases, p phases. */
    function Delay(d: nat, i: nat, p: nat): nat {
      d * dtap + (i * (phaseMax + 1) + p) * ptap
    }

    /** One row of step 2: phases 1..phaseMax at the present FIFO position and delay. */
    method Row(ghost h: nat, d: nat, i: nat, bgn: nat) returns (found: bool, p: nat, workBgn: nat)
      requires Valid() && h < ring && i < ring
      requires fifo == At(h, i) && delay == d && bgn == Delay(d, i, 0)
      requires NothingBefore(h, d, i, 0)
      modifies this`phase
      ensures NothingBefore(h, d, i, p)
      ensures found ==> 1 <= p <= phaseMax && phase == p && pass(fifo, phase, delay) && workBgn == Delay(d, i, p)
      ensures !found ==> p == phaseMax + 1 && workBgn == Delay(d, i + 1, 0)
    {
      p, workBgn := 0, bgn;
      while p <= phaseMax
        invariant p <= phaseMax + 1 && workBgn == Delay(d, i, p)
        invariant NothingBefore(h, d, i, p)
      {
        if p != 0 {
          phase := p;
          var ok := Test();
          if ok {
            return true, p, workBgn;
          }
        }
        DelayStep(d, i, p);
        p, workBgn := p + 1, workBgn + ptap;
      }
      found := false;
      RowEnd(d, i);
    }

    lemma RowEnd(d: nat, i: nat)
      ensures Delay(d, i, phaseMax + 1) == Delay(d, i + 1, 0)
    {
      assert i * (phaseMax + 1) + phaseMax + 1 == (i + 1) * (phaseMax + 1);
    }

    lemma DelayStep(d: nat, i: nat, p: nat)
      ensures Delay(d, i, p + 1) == Delay(d, i, p) + ptap
    {
      assert (i * (phaseMax + 1) + p + 1) * ptap == (i * (phaseMax + 1) + p) * ptap + ptap;
    }

    /** The search has stopped at a passing grid point, with the registers on it. */
    ghost predicate FoundAt(h: nat, d: nat, i: nat, p: nat, workBgn: nat)
      requires h < ring
      reads this
    {
      && 1 <= p <= phaseMax && workBgn == Delay(d, i, p)
      && fifo == At(h, i) && phase == p && delay == d && pass(fifo, phase, delay)
      && NothingBefore(h, d, i, p)
    }

    /** All rows of step 2 for one delay; i is ring when none of them passes. */
    method Rows(d: nat, v0: nat, ghost home: nat) returns (i: nat, p: nat, workBgn: nat, v: nat)
      requires Valid() && InStep(home, v0) && delay == d
      requires NothingBefore(fifo, d, 0, 0)
      modifies this`fifo, this`phase
      ensures Valid() && InStep(home, v) && i <= ring
      ensures i < ring ==> FoundAt(old(fifo), d, i, p, workBgn)
      ensures i == ring ==> fifo == old(fifo) && NothingBefore(fifo, d + 1, 0, 0)
    {
      ghost var h := fifo;
      AtHome(h);
      RingLap(h, ring);
      i, p, workBgn, v := 0, 0, d * dtap, v0;
      while i < ring
        invariant Valid() && i <= ring
        invariant fifo == At(h, i) && InStep(home, v)
        invariant workBgn == Delay(d, i, 0)
        invariant NothingBefore(h, d, i, 0)
      {
        var found;
        found, p, workBgn := Row(h, d, i, workBgn);
        if found {
          return;
        }
        Onward(h, i);
        v := Incr(v, home);
        NextRow(h, d, i);
        i := i + 1;
      }
      NextDelay(h, d);
    }

    lemma NextRow(h: nat, d: nat, i: nat)
      requires h < ring && NothingBefore(h, d, i, phaseMax + 1)
      ensures NothingBefore(h, d, i + 1, 0)
    {
    }

    lemma NextDelay(h: nat, d: nat)
      requires h < ring && NothingBefore(h, d, ring, 0)
      ensures NothingBefore(h, d + 1, 0, 0)
    {
    }

    /** Step 2: the first passing grid point, delay step by delay step, position by position, phase by
        phase.  i is ring when there is none. */
    method FirstEdge(dtaps: nat, v0: nat, ghost home: nat)
        returns (d: nat, i: nat, p: nat, workBgn: nat, v: nat)
      requires Valid() && InStep(home, v0)
      modifies this
      ensures Valid() && InStep(home, v)
      ensures i < ring ==> d <= dtaps && FoundAt(old(fifo), d, i, p, workBgn)
      ensures i >= ring ==> NothingBefore(old(fifo), dtaps + 1, 0, 0)
    {
      ghost var h := fifo;
      v, d, i, p, workBgn := v0, 0, 0, 0, 0;
      while d <= dtaps
        invariant Valid() && InStep(home, v) && fifo == h && d <= dtaps + 1
        invariant NothingBefore(h, d, 0, 0)
        invariant d > 0 ==> i == ring
      {
        delay := d;
        i, p, workBgn, v := Rows(d, v, home);
        if i < ring {
          return;
        }
        d := d + 1;
      }
    }

    /** How many of the n positions from h fail at a phase and delay. */
    function Failures(h: nat, n: nat, p: nat, d: nat): nat
      requires h < ring
    {
      if n == 0 then 0 else Failures(h, n - 1, p, d) + if pass(At(h, n - 1), p, d) then 0 else 1
    }

    /** The n-th position after h is the second to fail. */
    ghost predicate SecondFailure(h: nat, n: nat, p: nat, d: nat)
      requires h < ring
    {
      n < ring && !pass(At(h, n), p, d) && Failures(h, n, p, d) == 1
    }

    /** Step 1: push the FIFO to the second position at which the read test fails; v is ring when the
        whole ring has fewer than two. */
    method UntilFailing(ghost home: nat) returns (v: nat)
      requires Valid() && InStep(home, 0)
      modifies this`fifo
      ensures Valid() && InStep(home, v) && v <= ring
      ensures if v < ring then SecondFailure(home, v, phase, delay) else Failures(home, ring, phase, delay) < 2
    {
      var failCnt := 0;
      v := 0;
      while v < ring
        invariant Valid() && InStep(home, v) && v <= ring
        invariant failCnt == Failures(home, v, phase, delay) < 2
      {
        var ok := Test();
        if !ok {
          failCnt := failCnt + 1;
          if failCnt == 2 {
            break;
          }
        }
        v := Incr(v, home);
      }
    }

    /** Step 3a: back off one phase and come forward in delay steps to refine the begin of the window.
        Phase 0 cannot be set, so from phase 1 there is nowhere to back off to. */
    method RefineBegin(p0: nat, bgn: nat) returns (p: nat, workBgn: nat)
      requires Valid() && 1 <= p0 <= phaseMax && p0 * ptap <= bgn
      modifies this`phase, this`delay
      ensures 1 <= p <= phaseMax && p == (if p0 == 1 then 1 else p0 - 1)
      ensures 0 < workBgn <= bgn
      ensures p0 == 1 ==> workBgn == bgn
      ensures workBgn < bgn ==> exists n :: FirstDelay(fifo, p, n) && workBgn == bgn - ptap + n * dtap
      ensures p0 > 1 && workBgn == bgn ==>
                forall k :: 0 <= k <= delayMax && k * dtap < ptap ==> !pass(fifo, p, k)
    {
      workBgn := bgn;
      p := p0 - 1;
      assert p0 >= 2 ==> p0 * ptap >= 2 * ptap;
      assert p0 * ptap >= ptap;
      var tmp := bgn - ptap;
      if p == 0 {
        p, tmp := 1, bgn;
      }
      phase := p;
      var d := 0;
      ghost var from := tmp;
      while d <= delayMax && tmp < workBgn
        invariant 0 < tmp && workBgn == bgn && tmp == from + d * dtap && phase == p && d <= delayMax + 1
        invariant forall k :: 0 <= k < d ==> !pass(fifo, p, k)
        decreases delayMax + 1 - d
      {
        delay := d;
        var ok := Test();
        if ok {
          workBgn := tmp;
          assert FirstDelay(fifo, p, d);
          return;
        }
        d, tmp := d + 1, tmp + dtap;
      }
      forall k | 0 <= k <= delayMax && p0 > 1 && k * dtap < ptap
        ensures !pass(fifo, p, k)
      {
        StepsOrder(k, d, dtap);
      }
    }

    /** The lowest passing delay at a position and phase. */
    ghost predicate FirstDelay(position: nat, p: nat, n: int) {
      0 <= n <= delayMax && pass(position, p, n) && forall k :: 0 <= k < n ==> !pass(position, p, k)
    }

    /** Every setting after phase p0 at position f0 and before phase p at position f passes, without
        any delay steps. */
    ghost predicate PassingBetween(h: nat, f0: nat, p0: nat, f: nat, p: nat)
      requires h < ring
    {
      && (forall f', p' :: f0 <= f' < f && 1 <= p' <= phaseMax && (f' == f0 ==> p0 < p') ==> pass(At(h, f'), p', 0))
      && (forall p' :: 1 <= p' < p && p' <= phaseMax && (f == f0 ==> p0 < p') ==> pass(At(h, f), p', 0))
    }

    /** Where the search for the end stands: position f and phase p, its running total short of their
        delay by lag. */
    ghost predicate Standing(h: nat, f0: nat, p0: nat, f: nat, p: nat, workEnd: nat, lag: nat)
      requires h < ring
      reads this`fifo, this`delay
    {
      && delay == 0 && fifo == At(h, f) && f0 <= f && (f == f0 ==> p0 <= p)
      && workEnd + lag == Delay(0, f, p)
      && PassingBetween(h, f0, p0, f, p)
    }

    /** One phase of step 4a. */
    method EndStep(j: nat, p: nat, bgn: nat, workEnd: nat,
                   ghost h: nat, ghost f0: nat, ghost p0: nat, ghost f: nat, ghost lag: nat)
        returns (workBgn: nat, stop: bool)
      requires Valid() && h < ring && p <= phaseMax && Standing(h, f0, p0, f, p, workEnd, lag)
      requires j == 1 <==> f == f0 && p == p0
      modifies this`phase
      ensures stop ==> j != 1 && workBgn == bgn && 1 <= p && phase == p && !pass(fifo, p, 0)
      ensures !stop ==> Standing(h, f0, p0, f, p + 1, workEnd + ptap, lag)
      ensures !stop ==> workBgn == if j == 1 && 1 <= p && !pass(fifo, p, 0) then workEnd else bgn
    {
      workBgn, stop := bgn, false;
      if p != 0 {
        phase := p;
        var ok := Test();
        if !ok && j == 1 {
          workBgn := workEnd;
        } else if !ok {
          stop := true;
        }
      }
      DelayStep(0, f, p);
    }

    /** Step 4a: go forward phase by phase to the first failing one, counting from position i.  A
        failure at the very first phase moves the begin of the window up instead.  i passes ring when no
        failing phase is found: everything after the first setting tried then passes. */
    method FindEnd(i0: nat, p0: nat, bgn: nat, end: nat, v0: nat,
                   ghost home: nat, ghost h: nat, ghost f0: nat, ghost lag: nat)
        returns (i: nat, p: nat, workBgn: nat, workEnd: nat, v: nat, ghost f: nat)
      requires Valid() && InStep(home, v0) && i0 <= ring && p0 <= phaseMax && 0 < bgn && 2 * ptap <= end
      requires h < ring && fifo == At(h, f0) && delay == 0 && end + lag == Delay(0, f0, p0)
      modifies this`fifo, this`phase
      ensures Valid() && InStep(home, v)
      ensures 2 * ptap <= workEnd
      ensures workBgn == if 1 <= p0 && !pass(At(h, f0), p0, 0) then end else bgn
      ensures i <= ring + 1 && f == f0 + i - i0 && Standing(h, f0, p0, f, p, workEnd, lag)
      ensures if i <= ring then (f == f0 ==> p0 < p) && 1 <= p <= phaseMax && phase == p && !pass(fifo, p, 0)
              else p == 0
    {
      i, p, workBgn, workEnd, v, f := i0, p0, bgn, end, v0, f0;
      var j := 0;
      while i < ring + 1
        invariant Valid() && InStep(home, v) && p <= phaseMax && 2 * ptap <= workEnd && i0 <= i <= ring + 1
        invariant f == f0 + i - i0 && (i > ring ==> p == 0)
        invariant Standing(h, f0, p0, f, p, workEnd, lag)
        invariant j == 0 <==> f == f0 && p == p0
        invariant j == 0 ==> i == i0 && workBgn == bgn && workEnd == end
        invariant j > 0 ==> workBgn == if 1 <= p0 && !pass(At(h, f0), p0, 0) then end else bgn
      {
        while p <= phaseMax
          invariant p <= phaseMax + 1 && 2 * ptap <= workEnd
          invariant Standing(h, f0, p0, f, p, workEnd, lag)
          invariant j == 0 <==> f == f0 && p == p0
          invariant j == 0 ==> workBgn == bgn && workEnd == end
          invariant j > 0 ==> workBgn == if 1 <= p0 && !pass(At(h, f0), p0, 0) then end else bgn
        {
          j := j + 1;
          var stop;
          workBgn, stop := EndStep(j, p, workBgn, workEnd, h, f0, p0, f, lag);
          if stop {
            return;
          }
          p, workEnd := p + 1, workEnd + ptap;
        }
        Onward(h, f);
        RowEnd(0, f);
        v := Incr(v, home);
        p, f := 0, f + 1;
        i := i + 1;
      }
    }

    /** The setting after one, and the settable one before. */
    function Following(s: Setting): Setting {
      if s.p < phaseMax then Setting(s.f, s.p + 1) else Setting(s.f + 1, 0)
    }

    function Preceding(s: Setting): Setting
      requires 1 <= s.p && (s.p == 1 ==> 0 < s.f)
    {
      if s.p == 1 then Setting(s.f - 1, phaseMax) else Setting(s.f, s.p - 1)
    }

    /** One phase on, and into the next position after the last phase. */
    method NextPhase(p: nat, v: nat, ghost home: nat, ghost h: nat, ghost f: nat)
        returns (p': nat, v': nat, ghost f': nat)
      requires Valid() && InStep(home, v) && p <= phaseMax && h < ring && fifo == At(h, f)
      modifies this`fifo
      ensures Valid() && InStep(home, v') && p' <= phaseMax && fifo == At(h, f')
      ensures Setting(f', p') == Following(Setting(f, p))
      ensures Delay(0, f', p') == Delay(0, f, p) + ptap
    {
      p', v', f' := p + 1, v, f;
      DelayStep(0, f, p);
      if p' > phaseMax {
        Onward(h, f);
        RowEnd(0, f);
        p', f' := 0, f + 1;
        v' := Incr(v, home);
      }
    }

    /** The beginning of step 5a: back to the last settable phase before the failing one. */
    method BackOff(p0: nat, end: nat, v0: nat, ghost home: nat, ghost h: nat, ghost f: nat, ghost lag: nat)
        returns (p: nat, workEnd: nat, v: nat, ghost f': nat)
      requires Valid() && InStep(home, v0) && 1 <= p0 <= phaseMax && 2 * ptap <= end
      requires h < ring && fifo == At(h, f) && end + lag == Delay(0, f, p0) && (p0 == 1 ==> f > 0)
      modifies this`fifo
      ensures Valid() && InStep(home, v) && 1 <= p <= phaseMax
      ensures fifo == At(h, f') && workEnd + lag == Delay(0, f', p)
      ensures Setting(f', p) == Preceding(Setting(f, p0))
    {
      p, workEnd, v, f' := p0, end, v0, f;
      DelayStep(0, f, p0 - 1);
      if p == 1 {
        p := 0;
        workEnd := workEnd - ptap;
      }
      if p == 0 {
        p, f' := phaseMax, f - 1;
        DelayStep(0, f', phaseMax);
        RowEnd(0, f');
        LapBack(h, f);
        v := Decr(v, home);
      } else {
        p := p - 1;
      }
      workEnd := workEnd - ptap;
    }

    lemma LapBack(h: nat, f: nat)
      requires h < ring && f > 0
      ensures At(At(h, f), ring - 1) == At(h, f - 1)
    {
      var q, r := DivMod(h + (f - 1), ring);
      Onward(h, f - 1);
      assert At(h, f) == if r + 1 == ring then 0 else r + 1 by {
        RingNext(r, ring);
      }
      if r + 1 == ring {
        DivModIs(ring - 1, ring, 0, ring - 1);
      } else {
        DivModIs(r + ring, ring, 1, r);
      }
    }

    /** Where the search for the end starts, from the first edge at phase p0 of position i0. */
    function EndFrom(i0: nat, p0: nat): Setting {
      Following(Following(Setting(i0, if p0 <= 1 then 1 else p0 - 1)))
    }

    lemma FollowingDelay(s: Setting)
      requires s.p <= phaseMax
      ensures Following(s).p <= phaseMax && Delay(0, Following(s).f, Following(s).p) == Delay(0, s.f, s.p) + ptap
    {
      if s.p < phaseMax {
        DelayStep(0, s.f, s.p);
      } else {
        DelayStep(0, s.f, phaseMax);
        assert (s.f + 1) * (phaseMax + 1) == s.f * (phaseMax + 1) + phaseMax + 1;
      }
    }

    /** The search for the end starts one phase after the first edge, or two from phase 1, which has no
        settable phase before it. */
    lemma EndStartsAfter(i: nat, p: nat)
      requires 1 <= p <= phaseMax
      ensures EndFrom(i, p).p <= phaseMax
      ensures Delay(0, EndFrom(i, p).f, EndFrom(i, p).p) == Delay(0, i, p) + if p == 1 then 2 * ptap else ptap
    {
      var s := Setting(i, if p == 1 then 1 else p - 1);
      FollowingDelay(s);
      FollowingDelay(Following(s));
      if p > 1 {
        DelayStep(0, i, p - 1);
      }
    }

    /** What steps 4a and 5a find: the last settable phase before the first failing one after the start of the
        search.  The delay counted for it is the true one,
        except that from phase 1, where there was no phase to back off to, it is one phase short. */
    ghost predicate PhaseEnd(h: nat, i0: nat, p0: nat, last: Setting, workEnd: int)
      requires h < ring
    {
      && workEnd + (if p0 == 1 then ptap else 0) == Delay(0, last.f, last.p)
      && exists stop: Setting :: StopsAt(h, i0, EndFrom(i0, p0), stop) && last == Preceding(stop)
    }

    /** From start, the first setting tried, stop is the first one after it that fails, in the rows that are
        looked at. */
    ghost predicate StopsAt(h: nat, i0: nat, start: Setting, stop: Setting)
      requires h < ring
    {
      && 1 <= stop.p <= phaseMax && (stop.p == 1 ==> 0 < stop.f)
      && (start.f < stop.f || (start.f == stop.f && start.p < stop.p)) && stop.f + i0 <= start.f + ring
      && !pass(At(h, stop.f), stop.p, 0)
      && PassingBetween(h, start.f, start.p, stop.f, stop.p)
    }

    /** No setting after start fails in the rows that are looked at. */
    ghost predicate Endless(h: nat, i0: nat, start: Setting)
      requires h < ring && i0 < ring
    {
      PassingBetween(h, start.f, start.p, start.f + ring + 1 - i0, 0)
    }

    /** What step 3a finds: the lowest passing delay one phase back, or the first edge itself when none
        passes below it or there is no phase to go back to. */
    ghost predicate PhaseBegin(h: nat, i0: nat, p0: nat, bgn: nat)
      requires h < ring
    {
      var edge := Delay(0, i0, p0);
      if bgn < edge then
        p0 > 1 && exists n :: FirstDelay(At(h, i0), p0 - 1, n) && bgn == edge - ptap + n * dtap
      else
        bgn == edge && (p0 > 1 ==> forall k :: 0 <= k <= delayMax && k * dtap < ptap ==> !pass(At(h, i0), p0 - 1, k))
    }

    /** Steps 3a to 5a, for a window that a phase step lands in.  When the search for the end fails at
        once, the begin is put one phase after the first edge. */
    method PhaseWindow(i0: nat, p0: nat, bgn: nat, v0: nat, ghost home: nat, ghost h: nat)
        returns (ok: bool, workBgn: nat, workEnd: nat, v: nat, ghost last: Setting)
      requires Valid() && InStep(home, v0) && i0 < ring && 1 <= p0 <= phaseMax && bgn == Delay(0, i0, p0)
      requires h < ring && fifo == At(h, i0)
      modifies this
      ensures Valid() && InStep(home, v) && 0 < workBgn
      ensures if ok then PhaseEnd(h, i0, p0, last, workEnd) && fifo == At(h, last.f) && phase == last.p
              else Endless(h, i0, EndFrom(i0, p0))
      ensures var start := EndFrom(i0, p0);
              if 1 <= start.p && !pass(At(h, start.f), start.p, 0) then workBgn == bgn + ptap
              else PhaseBegin(h, i0, p0, workBgn)
    {
      DelayBounds(0, i0, p0);
      assert p0 * ptap >= ptap;
      var p;
      ghost var f;
      p, workBgn := RefineBegin(p0, bgn);
      ghost var lag := if p0 == 1 then ptap else 0;
      DelayStep(0, i0, p0 - 1);
      assert Delay(0, i0, p) + ptap == bgn + lag;
      p, v, f := NextPhase(p, v0, home, h, i0);
      delay := 0;
      p, v, f := NextPhase(p, v, home, h, f);
      assert Setting(f, p) == EndFrom(i0, p0);
      workEnd := bgn + ptap;
      var i;
      i, p, workBgn, workEnd, v, f := FindEnd(i0, p, workBgn, workEnd, v, home, h, f, lag);
      last := Setting(0, 1);
      if i >= ring + 1 {
        return false, workBgn, workEnd, v, last;
      }
      ghost var stop := Setting(f, p);
      assert StopsAt(h, i0, EndFrom(i0, p0), stop);
      p, workEnd, v, f := BackOff(p, workEnd, v, home, h, f, lag);
      last := Setting(f, p);
      phase := p;
      ok := true;
    }

    /** The n delays from d are just those that pass before the first failing one or the end of the chain. */
    ghost predicate PassingDelays(position: nat, p: nat, d: nat, n: nat) {
      && (n > 0 ==> d + n <= delayMax + 1)
      && (forall k :: d <= k < d + n ==> pass(position, p, k))
      && (d + n <= delayMax ==> !pass(position, p, d + n))
    }

    /** The end of the window in delay steps, from delay d0: the last of the n delays that pass. */
    method RefineEnd(d0: nat, end: nat) returns (workEnd: nat, ghost n: nat)
      requires Valid() && (d0 > 0 ==> dtap <= end)
      modifies this`delay
      ensures PassingDelays(fifo, phase, d0, n)
      ensures workEnd == end + n * dtap - (if d0 + n > 0 then dtap else 0)
    {
      var d := d0;
      workEnd, n := end, 0;
      while d <= delayMax
        invariant d == d0 + n && workEnd == end + n * dtap && (n > 0 ==> d <= delayMax + 1)
        invariant forall k :: d0 <= k < d ==> pass(fifo, phase, k)
        invariant n > 0 ==> dtap <= workEnd
      {
        delay := d;
        var ok := Test();
        if !ok {
          break;
        }
        d, workEnd, n := d + 1, workEnd + dtap, n + 1;
      }
      if d != 0 {
        workEnd := workEnd - dtap;
      }
    }

    // ---------- step 6: the centre of the window ----------

    /** One phase step fits in the delay chain. */
    predicate Fits() {
      ptap <= delayMax * dtap
    }

    /** One turn of the FIFO ring's clock: every phase, 0 included. */
    function Period(): nat {
      (phaseMax + 1) * ptap
    }

    /** A delay brought into 1..Period(). */
    function Reduced(work: nat): nat
      requires 0 < work && 0 < Period()
    {
      (work - 1) % Period() + 1
    }

    /** phase and delay are the setting at or just above a delay work of at most one period, in the
        range that can be set: anything up to one phase becomes phase 1. */
    ghost predicate Encodes(work: nat, phase: nat, delay: nat) {
      && 1 <= phase <= phaseMax
      && (if work <= ptap then phase == 1 && delay == 0
          else phase * ptap < work <= (phase + 1) * ptap && work <= phase * ptap + delay * dtap < work + dtap)
    }

    /** Phase steps, from none, until they reach a delay of at most one period. */
    method PhaseSteps(work: nat) returns (q: nat, tmp: nat)
      requires Valid() && 0 < work <= Period()
      ensures 1 <= q <= phaseMax + 1 && tmp == q * ptap && (q - 1) * ptap < work <= q * ptap
    {
      q, tmp := 0, 0;
      while q <= phaseMax && tmp < work
        invariant q <= phaseMax + 1 && tmp == q * ptap
        invariant q > 0 ==> (q - 1) * ptap < work
        decreases phaseMax + 1 - q
      {
        q, tmp := q + 1, tmp + ptap;
      }
    }

    /** Delay steps on top of tmp0 until they reach the delay, as far as the chain goes and one more. */
    method DelaySteps(work: nat, tmp0: nat) returns (d: nat)
      requires Valid() && tmp0 < work
      ensures d <= delayMax + 1
      ensures d <= delayMax ==> work <= tmp0 + d * dtap < work + dtap
      ensures d == delayMax + 1 ==> tmp0 + delayMax * dtap < work
    {
      d := 0;
      var tmp := tmp0;
      while d <= delayMax && tmp < work
        invariant d <= delayMax + 1 && tmp == tmp0 + d * dtap
        invariant d > 0 ==> tmp - dtap < work
        decreases delayMax + 1 - d
      {
        d, tmp := d + 1, tmp + dtap;
      }
    }

    lemma StepBack(q: nat, tmp: int)
      requires 0 < ptap && 1 <= q && tmp + ptap == q * ptap
      ensures tmp == (q - 1) * ptap && (q == 1 ==> tmp == 0) && (q > 1 ==> ptap <= tmp)
    {
      StepsOrder(q - 1, 1, ptap);
    }

    /** Step 6, after the reduction: the phase and delay for a delay within one period.  The delay
        exceeds its maximum by one when the chain is too short. */
    method Encode(work: nat) returns (p: nat, d: nat)
      requires Valid() && 0 < work <= Period()
      ensures 1 <= p <= phaseMax && d <= delayMax + 1
      ensures d <= delayMax ==> Encodes(work, p, d)
      ensures d == delayMax + 1 ==> p * ptap + delayMax * dtap < work <= (p + 1) * ptap
      ensures Fits() ==> d <= delayMax
    {
      var q, tmp := PhaseSteps(work);
      tmp := tmp - ptap;
      StepBack(q, tmp);
      d := DelaySteps(work, tmp);
      if q == 1 {
        q, d := 2, 0;
      }
      p := q - 1;
    }

    /** Get the middle delay to be within one period. */
    method Reduce(mid: nat) returns (work: nat)
      requires Valid() && 0 < mid
      ensures 0 < Period() && work == Reduced(mid) && 0 < work <= Period()
    {
      assert (phaseMax + 1) * ptap > 0;
      work := mid;
      ghost var turns := 0;
      while work > Period()
        invariant 0 < work && mid == work + turns * Period()
      {
        work := work - Period();
        turns := turns + 1;
      }
      DivModIs(mid - 1, Period(), turns, work - 1);
    }

    /** The first edge found by step 2 from FIFO position h. */
    ghost predicate EdgeAt(h: nat, d: nat, i: nat, p: nat)
      requires h < ring && 0 < ptap && 0 < dtap
    {
      d <= Dtaps() && i < ring && 1 <= p <= phaseMax && pass(At(h, i), p, d) && NothingBefore(h, d, i, p)
    }

    /** From the last passing phase to the last of the n passing delays on it. */
    function Tail(n: nat): nat {
      if n > 0 then (n - 1) * dtap else 0
    }

    /** The window bgn..end around the first edge (d, i, p) from FIFO position h.  Off the phase grid it
        runs from that edge over the n delays that pass in a row; on it, from where step 3a begins it to
        the n-th delay from the last passing phase. */
    ghost predicate WindowOf(h: nat, d: nat, i: nat, p: nat, last: Setting, n: nat, bgn: nat, end: nat)
      requires h < ring && 0 < ptap && 0 < dtap
    {
      && EdgeAt(h, d, i, p)
      && if d > 0 then
           PassingDelays(At(h, i), p, d, n) && bgn == Delay(d, i, p) && end + dtap == Delay(d + n, i, p)
         else
           var start := EndFrom(i, p);
           && PassingDelays(At(h, last.f), last.p, 0, n)
           && PhaseEnd(h, i, p, last, end - Tail(n))
           && (if 1 <= start.p && !pass(At(h, start.f), start.p, 0) then bgn == Delay(0, i, p) + ptap
               else PhaseBegin(h, i, p, bgn))
    }

    /** The end of a window on the phase grid is the true delay of its last setting, except that with the
        first edge at phase 1 it is one phase short; the middle that is encoded then comes half a phase,
        rounded, before the true one. */
    lemma EndCountedIff(h: nat, i: nat, p: nat, last: Setting, n: nat, bgn: nat, end: nat)
      requires h < ring && 0 < ptap && 0 < dtap
      ensures WindowOf(h, 0, i, p, last, n, bgn, end) ==>
                var trueEnd := Delay(0, last.f, last.p) + Tail(n);
                && end + (if p == 1 then ptap else 0) == trueEnd
                && (end == trueEnd <==> p != 1)
                && (bgn + trueEnd) / 2 - (bgn + end) / 2 == if p == 1 then (ptap + (bgn + end) % 2) / 2 else 0
    {
    }

    /** A read test that passes in phases 1 to 4 of one position only, whatever the delay: the window found
        ends a phase short of phase 4. */
    lemma WindowCutShort()
      requires ring == 16 && phaseMax == 7 && 0 < ptap && 0 < dtap
      requires forall f, p, d :: pass(f, p, d) <==> f == 3 && 1 <= p <= 4
      ensures var end := Delay(0, 3, 4) + delayMax * dtap - ptap;
              end >= 0 && WindowOf(0, 0, 3, 1, Setting(3, 4), delayMax + 1, Delay(0, 3, 1), end)
    {
      DelayStep(0, 3, 3);
      assert EdgeAt(0, 0, 3, 1);
      assert EndFrom(3, 1) == Setting(3, 3);
      assert StopsAt(0, 3, EndFrom(3, 1), Setting(3, 5));
      assert Preceding(Setting(3, 5)) == Setting(3, 4);
      assert PassingDelays(At(0, 3), 4, 0, delayMax + 1);
      assert PhaseBegin(0, 3, 1, Delay(0, 3, 1));
    }

    ghost predicate IsWindow(h: nat, bgn: nat, end: nat)
      requires h < ring && 0 < ptap && 0 < dtap
    {
      exists d: nat, i: nat, p: nat, last: Setting, n: nat :: WindowOf(h, d, i, p, last, n, bgn, end)
    }

    /** Steps 2 to 5 from FIFO position h find no window: no setting of the grid passes, or the first one
        that does is on the phase grid and no end is found for it. */
    ghost predicate NoWindow(h: nat, course: Course)
      requires h < ring && 0 < ptap && 0 < dtap
    {
      match course
      case NoEdge => NothingBefore(h, Dtaps() + 1, 0, 0)
      case NoEnd => exists i: nat, p: nat :: EdgeAt(h, 0, i, p) && Endless(h, i, EndFrom(i, p))
      case _ => false
    }

    /** The window around the first edge; steps 2 to 5. */
    method FindWindow(v0: nat, ghost home: nat)
        returns (ok: bool, workBgn: nat, workEnd: nat, v: nat, ghost course: Course)
      requires Valid() && InStep(home, v0)
      modifies this
      ensures Valid() && InStep(home, v)
      ensures if ok then 0 < workBgn && IsWindow(old(fifo), workBgn, workEnd) else NoWindow(old(fifo), course)
    {
      ghost var h := fifo;
      var dtaps := DtapsPerPtap();
      var d, i, p;
      ghost var last, n := Setting(0, 1), 0;
      course := NoEdge;
      d, i, p, workBgn, v := FirstEdge(dtaps, v0, home);
      workEnd := workBgn;
      if i >= ring {
        return false, workBgn, workEnd, v, course;
      }
      assert EdgeAt(h, d, i, p);
      DelayBounds(d, i, p);
      if d == 0 {
        ok, workBgn, workEnd, v, last := PhaseWindow(i, p, workBgn, v, home, h);
        if !ok {
          return false, workBgn, workEnd, v, NoEnd;
        }
      }
      ghost var end := workEnd;
      workEnd, n := RefineEnd(d, workEnd);
      ok := true;
      WindowEnd(d, i, p, n, end);
      assert WindowOf(h, d, i, p, last, n, workBgn, workEnd);
    }

    lemma WindowEnd(d: nat, i: nat, p: nat, n: nat, end: nat)
      ensures n > 0 ==> end + n * dtap - dtap - (n - 1) * dtap == end
      ensures Delay(d + n, i, p) == Delay(d, i, p) + n * dtap
    {
      assert (d + n) * dtap == d * dtap + n * dtap;
    }

    /** A setting reproduces a delay, some whole FIFO positions on: it is the first setting of its phase not
        before the delay; or, where the delay lies in a phase 0, the setting of phase 1 without delay steps;
        or, where the chain is too short for it, one step past the chain. */
    ghost predicate ReproducesAt(mid: nat, f: nat, phase: nat, delay: nat) {
      || (Delay(0, f, 0) < mid <= Delay(0, f, 1) && phase == 1 && delay == 0)
      || (&& 1 <= phase <= phaseMax && Delay(0, f, phase) < mid <= Delay(0, f, phase + 1)
          && if delay <= delayMax then mid <= Delay(0, f, phase) + delay * dtap < mid + dtap
             else delay == delayMax + 1 && Delay(0, f, phase) + delayMax * dtap < mid)
    }

    ghost predicate Reproduces(mid: nat, phase: nat, delay: nat) {
      exists f: nat :: ReproducesAt(mid, f, phase, delay)
    }

    /** A turn of the FIFO by one position is one period of delay. */
    lemma PeriodIsPosition(d: nat, f: nat, p: nat)
      ensures Delay(d, f + 1, p) == Delay(d, f, p) + Period()
    {
      assert (f + 1) * (phaseMax + 1) + p == (f * (phaseMax + 1) + p) + (phaseMax + 1);
      assert ((f * (phaseMax + 1) + p) + (phaseMax + 1)) * ptap == (f * (phaseMax + 1) + p) * ptap + Period();
    }

    lemma {:induction false} PeriodsArePositions(f: nat, p: nat)
      ensures Delay(0, f, p) == f * Period() + p * ptap
      decreases f
    {
      if f > 0 {
        PeriodsArePositions(f - 1, p);
        PeriodIsPosition(0, f - 1, p);
        assert f * Period() == (f - 1) * Period() + Period();
      }
    }

    /** What Delay counts: nothing for nothing, and a step for each step. */
    lemma DelayCounts(d: nat, i: nat, p: nat)
      ensures Delay(0, 0, 0) == 0
      ensures Delay(d + 1, i, p) == Delay(d, i, p) + dtap
      ensures Delay(d, i, p + 1) == Delay(d, i, p) + ptap
      ensures Delay(d, i + 1, 0) == Delay(d, i, phaseMax + 1)
    {
      DelayStep(d, i, p);
      RowEnd(d, i);
      assert (d + 1) * dtap == d * dtap + dtap;
    }

    /** What is written for the middle reproduces it. */
    lemma WrittenReproduces(mid: nat, phase: nat, delay: nat)
      requires 0 < ptap && 0 < mid && 0 < Period() && Written(Reduced(mid), phase, delay)
      ensures Reproduces(mid, phase, delay)
    {
      var f, rest := DivMod(mid - 1, Period());
      PeriodsArePositions(f, 0);
      PeriodsArePositions(f, 1);
      PeriodsArePositions(f, phase);
      PeriodsArePositions(f, phase + 1);
      assert mid == f * Period() + Reduced(mid);
      assert ReproducesAt(mid, f, phase, delay);
    }

    /** What step 6 writes for a delay of at most one period: its encoding, or, where the delay chain is too
        short for it, one step past the chain. */
    ghost predicate Written(work: nat, phase: nat, delay: nat) {
      if delay <= delayMax then Encodes(work, phase, delay)
      else
        && delay == delayMax + 1 && 1 <= phase <= phaseMax
        && phase * ptap + delayMax * dtap < work <= (phase + 1) * ptap
    }

    /** How the search from FIFO position home goes, with the window it finds and the setting it writes. */
    ghost predicate Goes(home: nat, course: Course, bgn: nat, end: nat, phase: nat, delay: nat)
      requires home < ring && 0 < ptap && 0 < dtap && 0 < Period()
    {
      if course == FewFailures then Failures(home, ring, 1, 0) < 2
      else exists n: nat :: SecondFailure(home, n, 1, 0) && GoesFrom(At(home, n), course, bgn, end, phase, delay)
    }

    /** The same from step 2 on, h being the second failing position. */
    ghost predicate GoesFrom(h: nat, course: Course, bgn: nat, end: nat, phase: nat, delay: nat)
      requires h < ring && 0 < ptap && 0 < dtap && 0 < Period()
    {
      match course
      case FewFailures => false
      case NoEdge => NoWindow(h, course)
      case NoEnd => NoWindow(h, course)
      case EmptyWindow => IsWindow(h, bgn, end) && end < bgn
      case NoPosition => Centre(h, bgn, end, phase, delay) && forall x :: 0 <= x < ring ==> !pass(x, phase, delay)
      case Found => Centre(h, bgn, end, phase, delay) && exists x :: 0 <= x < ring && pass(x, phase, delay)
    }

    ghost predicate Centre(h: nat, bgn: nat, end: nat, phase: nat, delay: nat)
      requires h < ring && 0 < ptap && 0 < dtap && 0 < Period()
    {
      0 < bgn <= end && IsWindow(h, bgn, end) && Written(Reduced((bgn + end) / 2), phase, delay)
    }

    /** The whole search.  It succeeds exactly when the ring has a second failing position, the grid from
        there has a passing setting, the window around it has an end not before its begin, and some
        position passes at the setting that encodes its middle; that setting is then left passing. */
    method FindPhase() returns (ok: bool, v: nat, ghost course: Course, ghost bgn: nat, ghost end: nat)
      requires Valid()
      modifies this
      ensures Valid() && InStep(old(fifo), v) && 0 < Period()
      ensures Goes(old(fifo), course, bgn, end, phase, delay)
      ensures ok <==> course == Found
      ensures ok ==> pass(fifo, phase, delay) && 1 <= phase <= phaseMax
      ensures ok && Fits() ==> delay <= delayMax && Encodes(Reduced((bgn + end) / 2), phase, delay)
      ensures course in {NoPosition, Found} ==> Reproduces((bgn + end) / 2, phase, delay)
    {
      PeriodPositive();
      ghost var home := fifo;
      AtHome(home);
      ok, course, bgn, end := false, FewFailures, 0, 0;
      delay, phase := 0, 1;
      v := UntilFailing(home);
      if v >= ring {
        return;
      }
      ok, v, course, bgn, end := FindAfterFailures(v, home);
    }

    method FindAfterFailures(v0: nat, ghost home: nat)
        returns (ok: bool, v: nat, ghost course: Course, ghost bgn: nat, ghost end: nat)
      requires Valid() && InStep(home, v0) && 0 < Period() && SecondFailure(home, v0, 1, 0)
      modifies this
      ensures Valid() && InStep(home, v)
      ensures Goes(home, course, bgn, end, phase, delay)
      ensures ok <==> course == Found
      ensures ok ==> pass(fifo, phase, delay) && 1 <= phase <= phaseMax
      ensures ok && Fits() ==> delay <= delayMax && Encodes(Reduced((bgn + end) / 2), phase, delay)
      ensures course in {NoPosition, Found} ==> Reproduces((bgn + end) / 2, phase, delay)
    {
      ok, v, course, bgn, end := FindFrom(v0, home);
      GoesOn(home, v0, course, bgn, end, phase, delay);
    }

    lemma PeriodPositive()
      requires 0 < ptap
      ensures 0 < Period()
    {
      StepsOrder(0, phaseMax + 1, ptap);
    }

    lemma AtHome(h: nat)
      requires h < ring
      ensures At(h, 0) == h
    {
      RingLap(h, ring);
    }

    lemma GoesOn(home: nat, n: nat, course: Course, bgn: nat, end: nat, phase: nat, delay: nat)
      requires home < ring && 0 < ptap && 0 < dtap && 0 < Period()
      requires SecondFailure(home, n, 1, 0) && GoesFrom(At(home, n), course, bgn, end, phase, delay)
      ensures Goes(home, course, bgn, end, phase, delay)
    {
    }

    /** From the second failing position on. */
    method FindFrom(v0: nat, ghost home: nat)
        returns (ok: bool, v: nat, ghost course: Course, ghost bgn: nat, ghost end: nat)
      requires Valid() && InStep(home, v0) && 0 < Period()
      modifies this
      ensures Valid() && InStep(home, v)
      ensures GoesFrom(old(fifo), course, bgn, end, phase, delay)
      ensures ok <==> course == Found
      ensures ok ==> pass(fifo, phase, delay) && 1 <= phase <= phaseMax
      ensures ok && Fits() ==> delay <= delayMax
      ensures ok && delay <= delayMax ==> Encodes(Reduced((bgn + end) / 2), phase, delay)
      ensures course in {NoPosition, Found} ==> Reproduces((bgn + end) / 2, phase, delay)
    {
      var workBgn, workEnd;
      ok, workBgn, workEnd, v, course := FindWindow(v0, home);
      bgn, end := workBgn, workEnd;
      if !ok {
        return;
      }
      if workEnd < workBgn {
        return false, v, EmptyWindow, bgn, end;
      }
      ok, v := Place(workBgn, workEnd, v, home);
      course := if ok then Found else NoPosition;
    }

    /** Step 6. */
    method Place(workBgn: nat, workEnd: nat, v0: nat, ghost home: nat) returns (ok: bool, v: nat)
      requires Valid() && InStep(home, v0) && 0 < workBgn <= workEnd && 0 < Period()
      modifies this
      ensures Valid() && InStep(home, v)
      ensures Written(Reduced((workBgn + workEnd) / 2), phase, delay) && 1 <= phase <= phaseMax
      ensures Reproduces((workBgn + workEnd) / 2, phase, delay)
      ensures if ok then pass(fifo, phase, delay) else forall x :: 0 <= x < ring ==> !pass(x, phase, delay)
      ensures Fits() ==> delay <= delayMax
    {
      var work := Reduce((workBgn + workEnd) / 2);
      phase, delay := Encode(work);
      WrittenReproduces((workBgn + workEnd) / 2, phase, delay);
      v, ok := PushUntilPassing(v0, home);
    }

    /** The last loop of step 6: push the FIFO to a position where the setting passes; it fails when none
        of the ring does. */
    method PushUntilPassing(v0: nat, ghost home: nat) returns (v: nat, ok: bool)
      requires Valid() && InStep(home, v0)
      modifies this`fifo
      ensures Valid() && InStep(home, v)
      ensures if ok then pass(fifo, phase, delay) else forall x :: 0 <= x < ring ==> !pass(x, phase, delay)
    {
      v, ok := v0, false;
      ghost var h := fifo;
      Onward(h, 0);
      for i := 0 to ring
        invariant Valid() && InStep(home, v) && fifo == At(h, i)
        invariant forall i' :: 0 <= i' < i ==> !pass(At(h, i'), phase, delay)
      {
        ok := Test();
        if ok {
          return;
        }
        Onward(h, i);
        v := Incr(v, home);
      }
      forall x | 0 <= x < ring
        ensures !pass(x, phase, delay)
      {
        RoundTo(h, x);
      }
      ok := false;
    }

    /** Every position is reached going round. */
    lemma RoundTo(h: nat, x: nat)
      requires h < ring && x < ring
      ensures At(h, if h <= x then x - h else x + ring - h) == x
    {
      RingLap(x, ring);
    }

    // ---------- the course is determined by what the read test answers ----------

    lemma {:induction false} FailuresGrow(h: nat, m: nat, n: nat, p: nat, d: nat)
      requires h < ring && m <= n
      ensures Failures(h, m, p, d) <= Failures(h, n, p, d)
      decreases n
    {
      if m < n {
        FailuresGrow(h, m, n - 1, p, d);
      }
    }

    lemma SecondFailureUnique(h: nat, m: nat, n: nat, p: nat, d: nat)
      requires h < ring
      ensures SecondFailure(h, m, p, d) && SecondFailure(h, n, p, d) ==> m == n
    {
      if m < n {
        FailuresGrow(h, m + 1, n, p, d);
      } else if n < m {
        FailuresGrow(h, n + 1, m, p, d);
      }
    }

    lemma EdgeUnique(h: nat, d: nat, i: nat, p: nat, d': nat, i': nat, p': nat)
      requires h < ring && 0 < ptap && 0 < dtap && EdgeAt(h, d, i, p) && EdgeAt(h, d', i', p')
      ensures d == d' && i == i' && p == p'
      ensures !NoWindow(h, NoEdge)
    {
    }

    lemma StopUnique(h: nat, i0: nat, start: Setting, stop: Setting, stop': Setting)
      requires h < ring && i0 < ring && StopsAt(h, i0, start, stop)
      ensures StopsAt(h, i0, start, stop') ==> stop == stop'
      ensures !Endless(h, i0, start)
    {
    }

    lemma DelaysUnique(position: nat, p: nat, d: nat, n: nat, n': nat)
      requires PassingDelays(position, p, d, n) && PassingDelays(position, p, d, n')
      ensures n == n'
    {
      var k: nat, k': nat := d + n, d + n';
      assert n < n' ==> pass(position, p, k);
      assert n' < n ==> pass(position, p, k');
    }

    lemma PhaseEndUnique(h: nat, i: nat, p: nat, last: Setting, e: int, last': Setting, e': int)
      requires h < ring && i < ring && PhaseEnd(h, i, p, last, e) && PhaseEnd(h, i, p, last', e')
      ensures last == last' && e == e' && !Endless(h, i, EndFrom(i, p))
    {
      var stop: Setting :| StopsAt(h, i, EndFrom(i, p), stop) && last == Preceding(stop);
      var stop': Setting :| StopsAt(h, i, EndFrom(i, p), stop') && last' == Preceding(stop');
      StopUnique(h, i, EndFrom(i, p), stop, stop');
    }

    lemma PhaseBeginUnique(h: nat, i: nat, p: nat, bgn: nat, bgn': nat)
      requires h < ring && 0 < dtap && PhaseBegin(h, i, p, bgn) && PhaseBegin(h, i, p, bgn')
      ensures bgn == bgn'
    {
    }

    lemma WindowUnique(h: nat, bgn: nat, end: nat, bgn': nat, end': nat)
      requires h < ring && 0 < ptap && 0 < dtap
      ensures IsWindow(h, bgn, end) && IsWindow(h, bgn', end') ==> bgn == bgn' && end == end'
      ensures IsWindow(h, bgn, end) ==> !NoWindow(h, NoEdge) && !NoWindow(h, NoEnd)
    {
      if IsWindow(h, bgn, end) {
        OneWindow(h, bgn, end, bgn', end');
      }
    }

    lemma OneWindow(h: nat, bgn: nat, end: nat, bgn': nat, end': nat)
      requires h < ring && 0 < ptap && 0 < dtap && IsWindow(h, bgn, end)
      ensures IsWindow(h, bgn', end') ==> bgn == bgn' && end == end'
      ensures !NoWindow(h, NoEdge) && !NoWindow(h, NoEnd)
    {
      var d: nat, i: nat, p: nat, last: Setting, n: nat :| WindowOf(h, d, i, p, last, n, bgn, end);
      EdgeUnique(h, d, i, p, d, i, p);
      if IsWindow(h, bgn', end') {
        var d': nat, i': nat, p': nat, last': Setting, n': nat :| WindowOf(h, d', i', p', last', n', bgn', end');
        EdgeUnique(h, d, i, p, d', i', p');
        SameWindow(h, d, i, p, last, n, bgn, end, last', n', bgn', end');
      }
      if NoWindow(h, NoEnd) {
        var i': nat, p': nat :| EdgeAt(h, 0, i', p') && Endless(h, i', EndFrom(i', p'));
        EdgeUnique(h, d, i, p, 0, i', p');
        SameWindow(h, d, i, p, last, n, bgn, end, last, n, bgn, end);
      }
    }

    lemma SameWindow(h: nat, d: nat, i: nat, p: nat, last: Setting, n: nat, bgn: nat, end: nat,
                     last': Setting, n': nat, bgn': nat, end': nat)
      requires h < ring && 0 < ptap && 0 < dtap
      requires WindowOf(h, d, i, p, last, n, bgn, end) && WindowOf(h, d, i, p, last', n', bgn', end')
      ensures bgn == bgn' && end == end'
      ensures d == 0 ==> !Endless(h, i, EndFrom(i, p))
    {
      if d > 0 {
        DelaysUnique(At(h, i), p, d, n, n');
      } else {
        PhaseEndUnique(h, i, p, last, end - Tail(n), last', end' - Tail(n'));
        DelaysUnique(At(h, last.f), last.p, 0, n, n');
        var start := EndFrom(i, p);
        if !(1 <= start.p && !pass(At(h, start.f), start.p, 0)) {
          PhaseBeginUnique(h, i, p, bgn, bgn');
        }
      }
    }

    lemma WrittenUnique(work: nat, p: nat, d: nat, p': nat, d': nat)
      requires Valid() && 0 < work && Written(work, p, d) && Written(work, p', d')
      ensures p == p' && d == d'
    {
      if work <= ptap {
        StepsOrder(1, p, ptap);
        StepsOrder(1, p', ptap);
      } else {
        StepsOrder(p, p' + 1, ptap);
        StepsOrder(p', p + 1, ptap);
        FewestIsLeast(work - p * ptap, d, d');
        FewestIsLeast(work - p * ptap, d', d);
      }
    }

    /** d is the fewest delay steps that reach a distance, or one more than there are. */
    ghost predicate Fewest(rest: int, d: nat) {
      if d <= delayMax then rest <= d * dtap < rest + dtap else d == delayMax + 1 && delayMax * dtap < rest
    }

    lemma FewestIsLeast(rest: int, d: nat, d': nat)
      requires 0 < dtap && Fewest(rest, d) && Fewest(rest, d')
      ensures d' <= d
    {
      StepsOrder(d', d + 1, dtap);
      StepsOrder(delayMax, d, dtap);
    }

    /** There is one way for the search to go, one window and one setting: what FindPhase promises says
        when it succeeds and when it fails, and what it leaves. */
    lemma GoesOneWay(home: nat, course: Course, bgn: nat, end: nat, p: nat, d: nat,
                     course': Course, bgn': nat, end': nat, p': nat, d': nat)
      requires Valid() && home < ring && 0 < Period()
      ensures Goes(home, course, bgn, end, p, d) && Goes(home, course', bgn', end', p', d') ==>
                && course == course'
                && (course in {EmptyWindow, NoPosition, Found} ==> bgn == bgn' && end == end')
                && (course in {NoPosition, Found} ==> p == p' && d == d')
    {
      if Goes(home, course, bgn, end, p, d) && Goes(home, course', bgn', end', p', d') {
        if course != FewFailures && course' != FewFailures {
          var n: nat :| SecondFailure(home, n, 1, 0) && GoesFrom(At(home, n), course, bgn, end, p, d);
          var n': nat :| SecondFailure(home, n', 1, 0) && GoesFrom(At(home, n'), course', bgn', end', p', d');
          SecondFailureUnique(home, n, n', 1, 0);
          GoesOneWayFrom(At(home, n), course, bgn, end, p, d, course', bgn', end', p', d');
        } else if course != FewFailures {
          EnoughFailures(home, course, bgn, end, p, d);
        } else if course' != FewFailures {
          EnoughFailures(home, course', bgn', end', p', d');
        }
      }
    }

    lemma EnoughFailures(home: nat, course: Course, bgn: nat, end: nat, p: nat, d: nat)
      requires Valid() && home < ring && 0 < Period() && course != FewFailures
      requires Goes(home, course, bgn, end, p, d)
      ensures Failures(home, ring, 1, 0) >= 2
    {
      var n: nat :| SecondFailure(home, n, 1, 0) && GoesFrom(At(home, n), course, bgn, end, p, d);
      FailuresGrow(home, n + 1, ring, 1, 0);
    }

    lemma GoesOneWayFrom(h: nat, course: Course, bgn: nat, end: nat, p: nat, d: nat,
                         course': Course, bgn': nat, end': nat, p': nat, d': nat)
      requires Valid() && h < ring && 0 < Period()
      requires GoesFrom(h, course, bgn, end, p, d) && GoesFrom(h, course', bgn', end', p', d')
      ensures course == course'
      ensures course in {EmptyWindow, NoPosition, Found} ==> bgn == bgn' && end == end'
      ensures course in {NoPosition, Found} ==> p == p' && d == d'
    {
      if course in {EmptyWindow, NoPosition, Found} {
        WindowUnique(h, bgn, end, bgn', end');
        if course != EmptyWindow && course' in {NoPosition, Found} {
          WrittenUnique(Reduced((bgn + end) / 2), p, d, p', d');
        }
      } else if course' in {EmptyWindow, NoPosition, Found} {
        WindowUnique(h, bgn', end', bgn', end');
      }
    }

    lemma DelayBounds(d: nat, i: nat, p: nat)
      requires Valid() && 1 <= p
      ensures 0 < p * ptap <= Delay(d, i, p)
      ensures d > 0 ==> dtap <= Delay(d, i, p)
    {
      assert (i * (phaseMax + 1) + p) * ptap == i * (phaseMax + 1) * ptap + p * ptap;
      assert p * ptap >= ptap;
      assert d > 0 ==> d * dtap >= dtap;
    }

    // ---------- the grid ----------

    /** No two grid points of step 2 stand for the same delay. */
    lemma GridDelaysDistinct(dtaps: nat, d: nat, i: nat, p: nat, d': nat, i': nat, p': nat)
      requires Valid() && dtaps * dtap < ptap
      requires d <= dtaps && d' <= dtaps && p <= phaseMax && p' <= phaseMax
      requires Delay(d, i, p) == Delay(d', i', p')
      ensures d == d' && i == i' && p == p'
    {
      GridCell(dtaps, d, i, p);
      GridCell(dtaps, d', i', p');
      DivModIs(i * (phaseMax + 1) + p, phaseMax + 1, i, p);
      DivModIs(i' * (phaseMax + 1) + p', phaseMax + 1, i', p');
      assert d * dtap == d' * dtap;
      assert d < d' ==> (d' - d) * dtap > 0;
      assert d' < d ==> (d - d') * dtap > 0;
    }

    lemma GridCell(dtaps: nat, d: nat, i: nat, p: nat)
      requires Valid() && dtaps * dtap < ptap && d <= dtaps
      ensures Delay(d, i, p) / ptap == i * (phaseMax + 1) + p
      ensures Delay(d, i, p) % ptap == d * dtap
    {
      assert d * dtap <= dtaps * dtap;
      DivModIs(Delay(d, i, p), ptap, i * (phaseMax + 1) + p, d * dtap);
    }

    /** A setting with a delay the chain can hold exists. */
    ghost predicate Encodable(work: nat) {
      exists p: nat, d: nat :: d <= delayMax && Encodes(work, p, d)
    }

    /** Every delay of a period has a setting exactly when one phase step fits in the delay chain. */
    lemma EncodableIff()
      requires Valid()
      ensures (forall work: nat :: 0 < work <= Period() ==> Encodable(work)) <==> Fits()
    {
      if Fits() {
        forall work: nat | 0 < work <= Period()
          ensures Encodable(work)
        {
          EncodingExists(work);
        }
      } else {
        NoEncoding();
        assert 2 * ptap <= Period();
        assert !Encodable(2 * ptap);
      }
    }

    lemma NoEncoding()
      requires Valid() && !Fits()
      ensures !Encodable(2 * ptap)
    {
      forall p: nat, d: nat | d <= delayMax
        ensures !Encodes(2 * ptap, p, d)
      {
        StepsOrder(delayMax, d, dtap);
        StepsOrder(1, p, ptap);
        StepsOrder(p, 2, ptap);
      }
    }

    /** The code's own check passes although some delay has no setting: it allows one step too many. */
    lemma CheckIsOneShort(dtaps: nat)
      requires Valid() && dtaps * dtap < ptap <= (dtaps + 1) * dtap
      ensures dtaps < delayMax ==> Fits()
      ensures dtaps == delayMax ==> !Encodable(2 * ptap)
    {
      StepsOrder(delayMax, dtaps + 1, dtap);
      if dtaps == delayMax {
        NoEncoding();
      }
    }

    lemma EncodingExists(work: nat)
      requires Valid() && Fits() && 0 < work <= Period()
      ensures Encodable(work)
    {
      if work <= ptap {
        assert Encodes(work, 1, 0);
      } else {
        var p := StepsBefore(work, ptap);
        StepsOrder(p, phaseMax + 1, ptap);
        StepsOrder(0, p, ptap);
        var d := StepsBefore(work - p * ptap, dtap);
        StepsOrder(d, delayMax, dtap);
        assert Encodes(work, p, d + 1);
      }
    }
  }
}
