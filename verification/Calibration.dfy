/** Calibration as a whole: which failure is recorded (set_failing_group_stage), the search over output
    delays and DQS input delays (rw_mgr_mem_calibrate_vfifo), the read latency, and mem_calibrate. */
module Calibration {

  datatype Stage = VfifoStage | WritesStage | VfifoAfterWrites | LfifoStage

  datatype Substage = GuaranteedRead | DqsEnPhase | VfifoCenter | WritesCenter | ReadLatency

  datatype Failure = Nil | Failure(group: nat, stage: Stage, substage: Substage)

  /** How a centring comes out: well; with a bit that has no window; or with too narrow a margin.  It leaves
      the strobe at a new delay, except that without a window it puts the old one back. */
  datatype Centring = Good(dqs: nat) | Blind(bit: nat) | Narrow(dqs: nat)

  function First(log: seq<Failure>): Failure {
    if log == [] then Nil else log[0]
  }

  /** All that a retried attempt can have recorded. */
  predicate Retried(f: Failure) {
    f.Failure? && f.stage == VfifoStage && f.substage == VfifoCenter
  }

  /** The read test's answer to a read latency; the lowest latency reached with every one above it passing
      gets one more cycle on top.  The loop stops at the first failure or at latency 0. */
  method ReadLatencySearch(start: nat, pass: nat -> bool) returns (found: bool, latency: nat)
    requires start > 0
    ensures found <==> pass(start)
    ensures !found ==> latency == start
    ensures found ==> 2 <= latency <= start + 1 && (forall l :: latency - 1 <= l <= start ==> pass(l))
    ensures found && latency > 2 ==> !pass(latency - 2)
  {
    found, latency := false, start;
    while true
      invariant 0 < latency <= start && (found <==> latency < start)
      invariant forall l :: latency < l <= start ==> pass(l)
      decreases latency
    {
      if !pass(latency) {
        break;
      }
      found := true;
      latency := latency - 1;
      if latency == 0 {
        break;
      }
    }
    if found {
      latency := latency + 2;
    }
  }

  /** Where the search of rw_mgr_mem_calibrate_vfifo stands: the DQS input delay in the register, and the
      substage that would be reported. */
  datatype Search = Search(dqs: nat, failed: Substage)

  /** What a part of the search comes to: whether it found a setting that works, where it stands, and what
      it has reported. */
  datatype Outcome = Outcome(ok: bool, s: Search, log: seq<Failure>) {
    /** The same, after earlier reports. */
    function After(log0: seq<Failure>): Outcome {
      this.(log := log0 + log)
    }
  }

  datatype RunOutcome = RunOutcome(ok: bool, log: seq<Failure>) {
    function After(log0: seq<Failure>): RunOutcome {
      this.(log := log0 + log)
    }
  }

  /** What the hardware answers in a run of calibration, and the sizes of the build. */
  class Calibrator {
    const groups: nat
    const bits: nat
    const dtapsPerPtap: nat
    const phaseMax: nat
    const dqsReserve: nat
    const dqsMax: nat
    const skipped: nat -> bool
    const sweepAll: bool
    /** By group, output delay, output phase and DQS input delay. */
    const guaranteed: (nat, nat, nat) -> bool
    const enable: (nat, nat, nat, nat) -> bool
    const centre: (nat, nat, nat, nat) -> Centring
    const writes: nat -> Centring
    const readsAgain: nat -> Centring
    const readable: nat -> bool

    var error: Failure
    var latency: nat
    /** Everything reported in this run. */
    ghost var log: seq<Failure>

    constructor (groups: nat, bits: nat, dtapsPerPtap: nat, phaseMax: nat, dqsReserve: nat, dqsMax: nat,
                 skipped: nat -> bool, sweepAll: bool, guaranteed: (nat, nat, nat) -> bool,
                 enable: (nat, nat, nat, nat) -> bool, centre: (nat, nat, nat, nat) -> Centring,
                 writes: nat -> Centring, readsAgain: nat -> Centring, readable: nat -> bool, latency: nat)
      ensures Recorded() && this.latency == latency && error == Nil
      ensures this.groups == groups && this.bits == bits
      ensures this.dtapsPerPtap == dtapsPerPtap && this.phaseMax == phaseMax
      ensures this.dqsReserve == dqsReserve && this.dqsMax == dqsMax
      ensures this.skipped == skipped && this.sweepAll == sweepAll
      ensures this.guaranteed == guaranteed && this.enable == enable && this.centre == centre
      ensures this.writes == writes && this.readsAgain == readsAgain && this.readable == readable
    {
      this.groups, this.bits, this.dtapsPerPtap, this.phaseMax := groups, bits, dtapsPerPtap, phaseMax;
      this.dqsReserve, this.dqsMax, this.skipped, this.sweepAll := dqsReserve, dqsMax, skipped, sweepAll;
      this.guaranteed, this.enable, this.centre := guaranteed, enable, centre;
      this.writes, this.readsAgain, this.readable, this.latency := writes, readsAgain, readable, latency;
      error, log := Nil, [];
    }

    // ---------- which settings are tried ----------

    /** The setting at which reading works: an enable window and, with it, a window for every bit. */
    predicate Works(g: nat, d: nat, p: nat, q: nat) {
      enable(g, d, p, q) && centre(g, d, p, q).Good?
    }

    /** The register after trying delay q in a phase that began with orig. */
    function AfterAttempt(g: nat, d: nat, p: nat, q: nat, orig: nat): nat {
      if !enable(g, d, p, q) then q
      else if centre(g, d, p, q).Blind? then orig
      else centre(g, d, p, q).dqs
    }

    /** The substage an attempt fails in. */
    function FailsIn(g: nat, d: nat, p: nat, q: nat): Substage {
      if enable(g, d, p, q) then VfifoCenter else DqsEnPhase
    }

    /** A phase in which nothing works ends with the largest delay. */
    function AfterPhase(g: nat, d: nat, p: nat, s: Search): Search {
      if s.dqs > dqsMax then s else Search(AfterAttempt(g, d, p, dqsMax, s.dqs), FailsIn(g, d, p, dqsMax))
    }

    /** Where the search stands at phase p of output delay d, nothing having worked since s. */
    function AtPhase(g: nat, d: nat, p: nat, s: Search): Search {
      if p == 0 then s else AfterPhase(g, d, p - 1, AtPhase(g, d, p - 1, s))
    }

    /** The first phase from p on whose guaranteed read fails, where the code stops. */
    function Stop(g: nat, d: nat, p: nat): (n: nat)
      requires p <= phaseMax + 1
      ensures p <= n <= phaseMax + 1 && (n <= phaseMax ==> !guaranteed(g, d, n))
      ensures forall p' :: p <= p' < n ==> guaranteed(g, d, p')
      decreases phaseMax + 1 - p
    {
      if p > phaseMax || !guaranteed(g, d, p) then p else Stop(g, d, p + 1)
    }

    /** Where the search stands at output delay 2 * k, nothing having worked before. */
    function AtDelay(g: nat, k: nat): Search {
      if k == 0 then Search(dqsReserve, GuaranteedRead)
      else AtPhase(g, 2 * (k - 1), Stop(g, 2 * (k - 1), 0), AtDelay(g, k - 1))
    }

    /** The settings that a search without success tries: even output delays, phases up to the first whose
        guaranteed read fails, DQS input delays from where the register was left. */
    ghost predicate Tried(g: nat, k: nat, p: nat, q: nat) {
      && 2 * k <= dtapsPerPtap && p < Stop(g, 2 * k, 0)
      && AtPhase(g, 2 * k, p, AtDelay(g, k)).dqs <= q <= dqsMax
    }

    /** Some setting that is tried works. */
    ghost predicate Readable(g: nat) {
      exists k: nat, p: nat, q: nat :: Tried(g, k, p, q) && Works(g, 2 * k, p, q)
    }

    /** What the search reports when it fails. */
    function SearchFailure(g: nat): Failure {
      Failure(g, VfifoStage, AtDelay(g, dtapsPerPtap / 2 + 1).failed)
    }

    /** The DQS input delay that phase p of output delay 2 * k begins with: the reserve at first, and after
        that what the attempt at the largest delay has left, if there was one. */
    lemma StartIs(g: nat, k: nat, p: nat)
      ensures AtPhase(g, 0, 0, AtDelay(g, 0)).dqs == dqsReserve
      ensures var start := AtPhase(g, 2 * k, p, AtDelay(g, k)).dqs;
              AtPhase(g, 2 * k, p + 1, AtDelay(g, k)).dqs
              == if start > dqsMax then start
                 else if !enable(g, 2 * k, p, dqsMax) then dqsMax
                 else if centre(g, 2 * k, p, dqsMax).Blind? then start
                 else centre(g, 2 * k, p, dqsMax).dqs
      ensures AtPhase(g, 2 * (k + 1), 0, AtDelay(g, k + 1)).dqs
           == AtPhase(g, 2 * k, Stop(g, 2 * k, 0), AtDelay(g, k)).dqs
    {
    }

    // ---------- the substage of a failed search ----------

    /** Phase p of output delay 2 * k is reached with some DQS input delay left to try. */
    ghost predicate TriedAt(g: nat, k: nat, p: nat) {
      exists q: nat :: Tried(g, k, p, q)
    }

    predicate Earlier(k: nat, p: nat, k': nat, p': nat) {
      k < k' || (k == k' && p < p')
    }

    ghost predicate LastTried(g: nat, k: nat, p: nat) {
      TriedAt(g, k, p) && forall k': nat, p': nat :: TriedAt(g, k', p') ==> !Earlier(k, p, k', p')
    }

    /** The substage that a search in which nothing works ends in: the guaranteed read if nothing was tried;
        else whether there was an enable window in the last phase tried at the largest delay. */
    ghost predicate EndsIn(g: nat, substage: Substage) {
      && (substage == GuaranteedRead <==> forall k: nat, p: nat :: !TriedAt(g, k, p))
      && forall k: nat, p: nat :: LastTried(g, k, p) ==>
           substage == if enable(g, 2 * k, p, dqsMax) then VfifoCenter else DqsEnPhase
    }

    ghost predicate LastBefore(g: nat, k: nat, p: nat, k0: nat, p0: nat) {
      && TriedAt(g, k0, p0) && Earlier(k0, p0, k, p)
      && forall k': nat, p': nat :: TriedAt(g, k', p') && Earlier(k', p', k, p) ==> !Earlier(k0, p0, k', p')
    }

    /** The same of what was tried before phase p of output delay 2 * k. */
    ghost predicate SaysBefore(g: nat, k: nat, p: nat, substage: Substage) {
      && (substage == GuaranteedRead <==> forall k0: nat, p0: nat :: Earlier(k0, p0, k, p) ==> !TriedAt(g, k0, p0))
      && forall k0: nat, p0: nat :: LastBefore(g, k, p, k0, p0) ==>
           substage == if enable(g, 2 * k0, p0, dqsMax) then VfifoCenter else DqsEnPhase
    }

    lemma TriedAtIff(g: nat, k: nat, p: nat)
      ensures TriedAt(g, k, p) <==>
              2 * k <= dtapsPerPtap && p < Stop(g, 2 * k, 0) && AtPhase(g, 2 * k, p, AtDelay(g, k)).dqs <= dqsMax
    {
      if 2 * k <= dtapsPerPtap && p < Stop(g, 2 * k, 0) && AtPhase(g, 2 * k, p, AtDelay(g, k)).dqs <= dqsMax {
        assert Tried(g, k, p, dqsMax);
      }
    }

    lemma SaysSkip(g: nat, k: nat, p: nat, substage: Substage)
      requires !TriedAt(g, k, p) && SaysBefore(g, k, p, substage)
      ensures SaysBefore(g, k, p + 1, substage)
    {
      forall k0: nat, p0: nat | LastBefore(g, k, p + 1, k0, p0)
        ensures LastBefore(g, k, p, k0, p0)
      {
      }
    }

    lemma SaysTried(g: nat, k: nat, p: nat, substage: Substage)
      requires TriedAt(g, k, p)
      requires substage == if enable(g, 2 * k, p, dqsMax) then VfifoCenter else DqsEnPhase
      ensures SaysBefore(g, k, p + 1, substage)
    {
      assert Earlier(k, p, k, p + 1);
      forall k0: nat, p0: nat | LastBefore(g, k, p + 1, k0, p0)
        ensures substage == if enable(g, 2 * k0, p0, dqsMax) then VfifoCenter else DqsEnPhase
      {
        assert !Earlier(k0, p0, k, p);
      }
    }

    lemma SaysStep(g: nat, k: nat, p: nat, s: Search)
      requires 2 * k <= dtapsPerPtap && p < Stop(g, 2 * k, 0) && s == AtPhase(g, 2 * k, p, AtDelay(g, k))
      requires SaysBefore(g, k, p, s.failed)
      ensures SaysBefore(g, k, p + 1, AfterPhase(g, 2 * k, p, s).failed)
    {
      TriedAtIff(g, k, p);
      if TriedAt(g, k, p) {
        SaysTried(g, k, p, AfterPhase(g, 2 * k, p, s).failed);
      } else {
        SaysSkip(g, k, p, s.failed);
      }
    }

    lemma {:induction false} SaysPhase(g: nat, k: nat, p: nat)
      requires 2 * k <= dtapsPerPtap && p <= Stop(g, 2 * k, 0)
      requires SaysBefore(g, k, 0, AtDelay(g, k).failed)
      ensures SaysBefore(g, k, p, AtPhase(g, 2 * k, p, AtDelay(g, k)).failed)
    {
      if p > 0 {
        SaysPhase(g, k, p - 1);
        var s := AtPhase(g, 2 * k, p - 1, AtDelay(g, k));
        SaysStep(g, k, p - 1, s);
        assert AtPhase(g, 2 * k, p, AtDelay(g, k)) == AfterPhase(g, 2 * k, p - 1, s);
      }
    }

    lemma {:induction false} SaysDelay(g: nat, k: nat)
      requires 2 * k <= dtapsPerPtap + 2
      ensures SaysBefore(g, k, 0, AtDelay(g, k).failed)
    {
      if k > 0 {
        SaysDelay(g, k - 1);
        var stop := Stop(g, 2 * (k - 1), 0);
        SaysPhase(g, k - 1, stop);
        SameBefore(g, k, stop, AtDelay(g, k).failed);
      }
    }

    lemma SameBefore(g: nat, k: nat, stop: nat, substage: Substage)
      requires k > 0 && stop == Stop(g, 2 * (k - 1), 0) && SaysBefore(g, k - 1, stop, substage)
      ensures SaysBefore(g, k, 0, substage)
    {
      forall k0: nat, p0: nat | TriedAt(g, k0, p0)
        ensures Earlier(k0, p0, k, 0) <==> Earlier(k0, p0, k - 1, stop)
      {
        TriedAtIff(g, k0, p0);
      }
      forall k0: nat, p0: nat | LastBefore(g, k, 0, k0, p0)
        ensures LastBefore(g, k - 1, stop, k0, p0)
      {
      }
    }

    lemma FailureEndsIn(g: nat)
      ensures EndsIn(g, SearchFailure(g).substage)
    {
      var end := dtapsPerPtap / 2 + 1;
      SaysDelay(g, end);
      forall k: nat, p: nat | TriedAt(g, k, p)
        ensures Earlier(k, p, end, 0)
      {
        TriedAtIff(g, k, p);
      }
      forall k: nat, p: nat | LastTried(g, k, p)
        ensures LastBefore(g, end, 0, k, p)
      {
      }
    }

    /** The register carried into the next phase: the delay the phase began with survives exactly when the
        attempt at the largest delay finds an enable window and centring then puts the delay back, or
        happens to leave it there. */
    lemma CarriedIff(g: nat, d: nat, p: nat, s: Search)
      requires s.dqs < dqsMax
      ensures AfterPhase(g, d, p, s).dqs == s.dqs
              <==> enable(g, d, p, dqsMax) && (!centre(g, d, p, dqsMax).Blind? ==> centre(g, d, p, dqsMax).dqs == s.dqs)
    {
    }

    /** A group whose first output delay has no enable window and whose second works at the delay the
        search began with: the search no longer tries that one, and fails. */
    lemma WorkingSettingMissed(g: nat)
      requires dtapsPerPtap == 2 && phaseMax == 0 && dqsReserve < dqsMax
      requires guaranteed(g, 0, 0) && guaranteed(g, 2, 0)
      requires forall d, q :: enable(g, d, 0, q) <==> d == 2 && q == dqsReserve
      requires centre(g, 2, 0, dqsReserve).Good?
      ensures Works(g, 2, 0, dqsReserve) && !Readable(g)
    {
      assert AtPhase(g, 0, 1, AtDelay(g, 0)) == AfterPhase(g, 0, 0, AtDelay(g, 0));
      assert Stop(g, 0, 0) == Stop(g, 2, 0) == 1;
      assert AtDelay(g, 1).dqs == dqsMax;
      forall k: nat, p: nat, q: nat | Tried(g, k, p, q)
        ensures !Works(g, 2 * k, p, q)
      {
        assert p == 0 && k <= 1;
      }
    }

    // ---------- what is reported ----------

    /** What one attempt of the search reports. */
    function AttemptReports(g: nat, d: nat, p: nat, q: nat): seq<Failure> {
      if enable(g, d, p, q) && centre(g, d, p, q).Blind?
      then [Failure(g * bits + centre(g, d, p, q).bit, VfifoStage, VfifoCenter)]
      else []
    }

    /** What a centring that does not come out well reports: its bit without a window, if that is what was
        wrong, and then its group. */
    function CentringReports(g: nat, c: Centring, stage: Stage, substage: Substage): seq<Failure> {
      match c
      case Good(_) => []
      case Blind(bit) => [Failure(g * bits + bit, stage, substage), Failure(g, stage, substage)]
      case Narrow(_) => [Failure(g, stage, substage)]
    }

    /** A phase from DQS input delay q on, having begun with orig and standing at s. */
    function PhaseFrom(g: nat, d: nat, p: nat, q: nat, orig: nat, s: Search): Outcome
      decreases if q <= dqsMax then dqsMax + 1 - q else 0
    {
      if q > dqsMax then Outcome(false, s, [])
      else if Works(g, d, p, q) then Outcome(true, Search(AfterAttempt(g, d, p, q, orig), VfifoCenter), [])
      else
        PhaseFrom(g, d, p, q + 1, orig, Search(AfterAttempt(g, d, p, q, orig), FailsIn(g, d, p, q)))
        .After(AttemptReports(g, d, p, q))
    }

    function WholePhase(g: nat, d: nat, p: nat, s: Search): Outcome {
      PhaseFrom(g, d, p, s.dqs, s.dqs, s)
    }

    /** An output delay from phase p on. */
    function PhasesFrom(g: nat, d: nat, p: nat, s: Search): Outcome
      decreases if p <= phaseMax then phaseMax + 1 - p else 0
    {
      if p > phaseMax || !guaranteed(g, d, p) then Outcome(false, s, [])
      else
        var first := WholePhase(g, d, p, s);
        if first.ok then first else PhasesFrom(g, d, p + 1, first.s).After(first.log)
    }

    /** The whole search from output delay 2 * k on, with the report of its failure. */
    function DelaysFrom(g: nat, k: nat, s: Search): Outcome
      decreases dtapsPerPtap + 2 - 2 * k
    {
      if 2 * k > dtapsPerPtap then Outcome(false, s, [Failure(g, VfifoStage, s.failed)])
      else
        var first := PhasesFrom(g, 2 * k, 0, s);
        if first.ok then first else DelaysFrom(g, k + 1, first.s).After(first.log)
    }

    function SearchOutcome(g: nat): Outcome
    {
      DelaysFrom(g, 0, Search(dqsReserve, GuaranteedRead))
    }

    ghost predicate Calibrated(g: nat) {
      Readable(g) && writes(g).Good? && readsAgain(g).Good?
    }

    /** What calibrating a group reports: the first stage that fails, after what the search retried. */
    function GroupLog(g: nat): seq<Failure>
    {
      var search := SearchOutcome(g);
      if !search.ok then search.log
      else if !writes(g).Good? then search.log + CentringReports(g, writes(g), WritesStage, WritesCenter)
      else search.log + CentringReports(g, readsAgain(g), VfifoAfterWrites, VfifoCenter)
    }

    /** The run from group g on; bad says whether a group before it failed. */
    ghost function RunFrom(g: nat, bad: bool, start: nat): RunOutcome
      requires g <= groups
      decreases groups - g
    {
      if g == groups then
        if bad then RunOutcome(false, [])
        else if NoneSkipped() && !readable(start) then RunOutcome(false, [Failure(0xff, LfifoStage, ReadLatency)])
        else RunOutcome(true, [])
      else if skipped(g) then RunFrom(g + 1, bad, start)
      else if !Calibrated(g) && !sweepAll then RunOutcome(false, GroupLog(g))
      else
        RunFrom(g + 1, bad || !Calibrated(g), start).After(GroupLog(g))
    }

    // ---------- what the reports mean ----------

    /** A phase succeeds exactly when some delay from q on works, and otherwise ends with the largest;
        it reports bits that have no window at delays it tries. */
    lemma {:induction false} PhaseMeans(g: nat, d: nat, p: nat, q: nat, orig: nat, s: Search)
      requires orig <= q
      ensures var r := PhaseFrom(g, d, p, q, orig, s);
              && (r.ok <==> exists q' :: q <= q' <= dqsMax && Works(g, d, p, q'))
              && (!r.ok ==> r.s == if q > dqsMax then s else AfterPhase(g, d, p, Search(orig, s.failed)))
              && (forall f :: f in r.log ==> exists q' :: q <= q' <= dqsMax && f in AttemptReports(g, d, p, q'))
      decreases if q <= dqsMax then dqsMax + 1 - q else 0
    {
      if q <= dqsMax && !Works(g, d, p, q) {
        PhaseMeans(g, d, p, q + 1, orig, Search(AfterAttempt(g, d, p, q, orig), FailsIn(g, d, p, q)));
      }
    }

    /** Some setting of an output delay that is tried from phase p on works. */
    ghost predicate WorksFrom(g: nat, k: nat, p: nat) {
      exists p': nat, q: nat :: p <= p' && Tried(g, k, p', q) && Works(g, 2 * k, p', q)
    }

    /** An output delay, from any phase on: it succeeds exactly when a setting it tries works, and leaves
        the register for the next. */
    lemma {:induction false} PhasesMean(g: nat, k: nat, p: nat, s: Search)
      requires 2 * k <= dtapsPerPtap && p <= Stop(g, 2 * k, 0)
      requires s == AtPhase(g, 2 * k, p, AtDelay(g, k))
      ensures var r := PhasesFrom(g, 2 * k, p, s);
              && (r.ok <==> WorksFrom(g, k, p))
              && (!r.ok ==> r.s == AtDelay(g, k + 1))
              && (forall f :: f in r.log ==> BlindAt(g, f))
      decreases phaseMax + 1 - p
    {
      if p < Stop(g, 2 * k, 0) {
        PhaseMeans(g, 2 * k, p, s.dqs, s.dqs, s);
        var first := WholePhase(g, 2 * k, p, s);
        forall f | f in first.log
          ensures BlindAt(g, f)
        {
          var q: nat :| s.dqs <= q <= dqsMax && f in AttemptReports(g, 2 * k, p, q);
          assert Tried(g, k, p, q);
        }
        if first.ok {
          var q: nat :| s.dqs <= q <= dqsMax && Works(g, 2 * k, p, q);
          assert Tried(g, k, p, q);
        } else {
          PhasesMean(g, k, p + 1, first.s);
          OnePhaseMore(g, k, p, s);
        }
      }
    }

    lemma OnePhaseMore(g: nat, k: nat, p: nat, s: Search)
      requires s == AtPhase(g, 2 * k, p, AtDelay(g, k))
      requires forall q :: s.dqs <= q <= dqsMax ==> !Works(g, 2 * k, p, q)
      ensures WorksFrom(g, k, p) <==> WorksFrom(g, k, p + 1)
    {
      if WorksFrom(g, k, p) {
        var p': nat, q: nat :| p <= p' && Tried(g, k, p', q) && Works(g, 2 * k, p', q);
        assert p' != p;
      }
    }

    /** Some setting tried from output delay 2 * k on works. */
    ghost predicate ReadableFrom(g: nat, k: nat) {
      exists k': nat :: k <= k' && WorksFrom(g, k', 0)
    }

    lemma {:induction false} DelaysMean(g: nat, k: nat, s: Search)
      requires 2 * k <= dtapsPerPtap + 2 && s == AtDelay(g, k)
      ensures var r := DelaysFrom(g, k, s);
              && (r.ok <==> ReadableFrom(g, k))
              && (!r.ok ==> r.log != [] && r.log[|r.log| - 1] == SearchFailure(g))
              && (forall f :: f in r.log ==> BlindAt(g, f) || (!r.ok && f == SearchFailure(g)))
      decreases dtapsPerPtap + 2 - 2 * k
    {
      if 2 * k <= dtapsPerPtap {
        PhasesMean(g, k, 0, s);
        ReadableStep(g, k);
        var first := PhasesFrom(g, 2 * k, 0, s);
        if !first.ok {
          DelaysMean(g, k + 1, first.s);
        }
      } else {
        NoDelaysLeft(g, k);
      }
    }

    lemma ReadableStep(g: nat, k: nat)
      ensures ReadableFrom(g, k) <==> WorksFrom(g, k, 0) || ReadableFrom(g, k + 1)
    {
    }

    lemma NoDelaysLeft(g: nat, k: nat)
      requires dtapsPerPtap < 2 * k <= dtapsPerPtap + 2
      ensures !ReadableFrom(g, k) && k == dtapsPerPtap / 2 + 1
    {
    }

    /** rw_mgr_mem_calibrate_vfifo succeeds exactly when a setting it tries works; failing, its last report
        is of the group, in the substage of its last attempt, and all others are of bits without a window
        at settings it tried. */
    lemma SearchMeans(g: nat)
      ensures var r := SearchOutcome(g);
              && (r.ok <==> Readable(g))
              && (!r.ok ==> r.log != [] && SearchFailed(g, r.log[|r.log| - 1]))
              && (forall f :: f in r.log ==> BlindAt(g, f) || SearchFailed(g, f))
    {
      FailureEndsIn(g);
      DelaysMean(g, 0, Search(dqsReserve, GuaranteedRead));
      if Readable(g) {
        var k: nat, p: nat, q: nat :| Tried(g, k, p, q) && Works(g, 2 * k, p, q);
        assert WorksFrom(g, k, 0);
      }
    }

    ghost predicate Attempted(g: nat) {
      g < groups && !skipped(g)
    }

    ghost predicate NoneSkipped() {
      forall g: nat :: g < groups ==> !skipped(g)
    }

    /** f names a bit that centring found no window for, at a setting that is tried. */
    ghost predicate BlindAt(g: nat, f: Failure) {
      exists k: nat, p: nat, q: nat ::
        && Tried(g, k, p, q) && enable(g, 2 * k, p, q) && centre(g, 2 * k, p, q).Blind?
        && f == Failure(g * bits + centre(g, 2 * k, p, q).bit, VfifoStage, VfifoCenter)
    }

    /** f is what the failed search of the group says last. */
    ghost predicate SearchFailed(g: nat, f: Failure) {
      !Readable(g) && f.Failure? && f.group == g && f.stage == VfifoStage && EndsIn(g, f.substage)
    }

    /** f names the group, or the bit of it without a window, for a centring that did not come out well. */
    ghost predicate CentringFailed(g: nat, c: Centring, f: Failure, stage: Stage, substage: Substage) {
      !c.Good? && (f == Failure(g, stage, substage) || (c.Blind? && f == Failure(g * bits + c.bit, stage, substage)))
    }

    /** A report is true: it names a group not skipped, or a bit of one, that failed that stage; or, none
        being skipped, the read latency the run began with, which failed. */
    ghost predicate True(f: Failure, start: nat) {
      f.Failure? &&
      match f.stage
      case VfifoStage => exists g: nat :: Attempted(g) && (BlindAt(g, f) || SearchFailed(g, f))
      case WritesStage =>
        exists g: nat :: Attempted(g) && Readable(g) && CentringFailed(g, writes(g), f, WritesStage, WritesCenter)
      case VfifoAfterWrites =>
        exists g: nat :: Attempted(g) && Readable(g) && writes(g).Good?
                         && CentringFailed(g, readsAgain(g), f, VfifoAfterWrites, VfifoCenter)
      case LfifoStage => f == Failure(0xff, LfifoStage, ReadLatency) && NoneSkipped() && !readable(start)
    }

    /** A group's reports are true; there is one when it fails, and otherwise only retried attempts have
        reported. */
    lemma GroupMeans(g: nat, start: nat)
      requires Attempted(g)
      ensures forall f :: f in GroupLog(g) ==> True(f, start)
      ensures if Calibrated(g) then forall f :: f in GroupLog(g) ==> Retried(f) else GroupLog(g) != []
    {
      SearchMeans(g);
      forall f | f in GroupLog(g)
        ensures True(f, start)
      {
        if f in SearchOutcome(g).log {
          assert BlindAt(g, f) || SearchFailed(g, f);
        }
      }
    }

    /** Every group not skipped from g on comes through its stages; none having failed, and none being
        skipped at all, the read test passes at the latency the run begins with. */
    ghost predicate CalibratableFrom(g: nat, bad: bool, start: nat) {
      && !bad
      && (forall h: nat :: g <= h && Attempted(h) ==> Calibrated(h))
      && (NoneSkipped() ==> readable(start))
    }

    lemma {:induction false} RunMeans(g: nat, bad: bool, start: nat)
      requires g <= groups
      ensures var r := RunFrom(g, bad, start);
              && (r.ok <==> CalibratableFrom(g, bad, start))
              && (!r.ok && !bad ==> r.log != [])
              && (r.ok ==> forall f :: f in r.log ==> Retried(f))
              && (forall f :: f in r.log ==> True(f, start))
      decreases groups - g
    {
      if g < groups {
        var bad' := bad || (!skipped(g) && !Calibrated(g));
        RunMeans(g + 1, bad', start);
        if !skipped(g) {
          GroupMeans(g, start);
        }
      }
    }

    // ---------- nothing goes unreported ----------

    /** A failing centring is the last thing on record of its group, its bit without a window just before. */
    ghost predicate EndsWith(log: seq<Failure>, g: nat, c: Centring, stage: Stage, substage: Substage) {
      && log != [] && log[|log| - 1] == Failure(g, stage, substage)
      && (c.Blind? ==> |log| > 1 && log[|log| - 2] == Failure(g * bits + c.bit, stage, substage))
    }

    lemma CentringReported(g: nat)
      ensures Readable(g) && !writes(g).Good? ==>
                EndsWith(GroupLog(g), g, writes(g), WritesStage, WritesCenter)
      ensures Readable(g) && writes(g).Good? && !readsAgain(g).Good? ==>
                EndsWith(GroupLog(g), g, readsAgain(g), VfifoAfterWrites, VfifoCenter)
    {
      SearchMeans(g);
    }

    lemma {:induction false} PhaseReportsAll(g: nat, d: nat, p: nat, q: nat, orig: nat, s: Search)
      requires !PhaseFrom(g, d, p, q, orig, s).ok
      ensures forall q' :: q <= q' <= dqsMax ==>
                AttemptReports(g, d, p, q') == []
                || AttemptReports(g, d, p, q')[0] in PhaseFrom(g, d, p, q, orig, s).log
      decreases if q <= dqsMax then dqsMax + 1 - q else 0
    {
      if q <= dqsMax {
        PhaseReportsAll(g, d, p, q + 1, orig, Search(AfterAttempt(g, d, p, q, orig), FailsIn(g, d, p, q)));
      }
    }

    /** A report of a bit without a window, at an attempt. */
    ghost predicate Logged(g: nat, k: nat, p: nat, q: nat, log: seq<Failure>) {
      enable(g, 2 * k, p, q) && centre(g, 2 * k, p, q).Blind? ==>
        Failure(g * bits + centre(g, 2 * k, p, q).bit, VfifoStage, VfifoCenter) in log
    }

    lemma {:induction false} PhasesReportAll(g: nat, k: nat, p: nat, s: Search)
      requires 2 * k <= dtapsPerPtap && p <= Stop(g, 2 * k, 0)
      requires s == AtPhase(g, 2 * k, p, AtDelay(g, k)) && !PhasesFrom(g, 2 * k, p, s).ok
      ensures forall p': nat, q: nat :: p <= p' && Tried(g, k, p', q) ==>
                Logged(g, k, p', q, PhasesFrom(g, 2 * k, p, s).log)
      decreases phaseMax + 1 - p
    {
      if p < Stop(g, 2 * k, 0) {
        var first := WholePhase(g, 2 * k, p, s);
        PhaseMeans(g, 2 * k, p, s.dqs, s.dqs, s);
        PhasesReportAll(g, k, p + 1, first.s);
        var rest := PhasesFrom(g, 2 * k, p + 1, first.s);
        assert PhasesFrom(g, 2 * k, p, s) == rest.After(first.log);
        forall p': nat, q: nat | p <= p' && Tried(g, k, p', q)
          ensures Logged(g, k, p', q, first.log + rest.log)
        {
          if p' > p {
            assert Logged(g, k, p', q, rest.log);
          } else {
            FirstPhaseLogged(g, k, p, q, s);
          }
        }
      }
    }

    lemma FirstPhaseLogged(g: nat, k: nat, p: nat, q: nat, s: Search)
      requires s.dqs <= q <= dqsMax && !WholePhase(g, 2 * k, p, s).ok
      ensures Logged(g, k, p, q, WholePhase(g, 2 * k, p, s).log)
    {
      PhaseReportsAll(g, 2 * k, p, s.dqs, s.dqs, s);
      var reports := AttemptReports(g, 2 * k, p, q);
      assert reports == [] || reports[0] in WholePhase(g, 2 * k, p, s).log;
    }

    lemma {:induction false} DelaysReportAll(g: nat, k: nat, s: Search)
      requires 2 * k <= dtapsPerPtap + 2 && s == AtDelay(g, k) && !DelaysFrom(g, k, s).ok
      ensures forall k': nat, p: nat, q: nat :: k <= k' && Tried(g, k', p, q) ==>
                Logged(g, k', p, q, DelaysFrom(g, k, s).log)
      decreases dtapsPerPtap + 2 - 2 * k
    {
      if 2 * k <= dtapsPerPtap {
        var first := PhasesFrom(g, 2 * k, 0, s);
        PhasesMean(g, k, 0, s);
        PhasesReportAll(g, k, 0, s);
        DelaysReportAll(g, k + 1, first.s);
        var rest := DelaysFrom(g, k + 1, first.s);
        assert DelaysFrom(g, k, s) == rest.After(first.log);
        forall k': nat, p: nat, q: nat | k <= k' && Tried(g, k', p, q)
          ensures Logged(g, k', p, q, first.log + rest.log)
        {
          if k' > k {
            assert Logged(g, k', p, q, rest.log);
          } else {
            assert Logged(g, k, p, q, first.log);
          }
        }
      }
    }

    /** A failed search has reported every bit that it found without a window. */
    lemma SearchReportsAll(g: nat)
      requires !Readable(g)
      ensures forall k: nat, p: nat, q: nat :: Tried(g, k, p, q) ==> Logged(g, k, p, q, GroupLog(g))
    {
      SearchMeans(g);
      DelaysReportAll(g, 0, Search(dqsReserve, GuaranteedRead));
    }

    /** What the groups from g to n that are not skipped report, in order. */
    function LogsOf(g: nat, n: nat): seq<Failure>
      requires g <= n
      decreases n - g
    {
      if g == n then [] else (if skipped(g) then [] else GroupLog(g)) + LogsOf(g + 1, n)
    }

    /** The first group from g to n that is attempted and cannot be calibrated. */
    ghost predicate FirstBad(g: nat, n: nat) {
      g <= n && Attempted(n) && !Calibrated(n) && forall h: nat :: g <= h < n && Attempted(h) ==> Calibrated(h)
    }

    /** Without sweeping on, the run ends with the first group that fails. */
    lemma {:induction false} RunStopsAt(g: nat, bad: bool, start: nat, n: nat)
      requires g <= groups && !sweepAll && FirstBad(g, n)
      ensures RunFrom(g, bad, start).log == LogsOf(g, n + 1)
      decreases groups - g
    {
      if g < n {
        RunStopsAt(g + 1, bad || (!skipped(g) && !Calibrated(g)), start, n);
      } else {
        assert LogsOf(g + 1, g + 1) == [];
      }
    }

    ghost predicate NoneBad(g: nat) {
      forall h: nat :: g <= h && Attempted(h) ==> Calibrated(h)
    }

    /** Sweeping on, or if none fails, it goes through all groups, and to the read latency if none has failed
        and none is skipped. */
    lemma {:induction false} RunGoesThrough(g: nat, bad: bool, start: nat)
      requires g <= groups && (sweepAll || NoneBad(g))
      ensures var latencyFails := !bad && NoneBad(g) && NoneSkipped() && !readable(start);
              RunFrom(g, bad, start).log
              == LogsOf(g, groups) + if latencyFails then [Failure(0xff, LfifoStage, ReadLatency)] else []
      decreases groups - g
    {
      if g < groups {
        OneGroupMore(g);
        var bad' := bad || (!skipped(g) && !Calibrated(g));
        RunGoesThrough(g + 1, bad', start);
        var end := if !bad && NoneBad(g) && NoneSkipped() && !readable(start)
                   then [Failure(0xff, LfifoStage, ReadLatency)] else [];
        if !skipped(g) {
          assert RunFrom(g, bad, start) == RunFrom(g + 1, bad', start).After(GroupLog(g));
          Join(GroupLog(g), LogsOf(g + 1, groups), end);
        } else {
          assert LogsOf(g, groups) == LogsOf(g + 1, groups);
        }
      }
    }

    lemma OneGroupMore(g: nat)
      requires g < groups
      ensures NoneBad(g) <==> NoneBad(g + 1) && (skipped(g) || Calibrated(g))
    {
    }

    // ---------- the code ----------

    /** The failure kept is the first one reported. */
    ghost predicate Recorded()
      reads this`error, this`log
    {
      error == First(log) && Nil !in log
    }

    /** set_failing_group_stage. */
    method SetFailing(group: nat, stage: Stage, substage: Substage)
      requires Recorded()
      modifies this`error, this`log
      ensures Recorded() && log == old(log) + [Failure(group, stage, substage)]
    {
      if error == Nil {
        error := Failure(group, stage, substage);
      }
      log := log + [Failure(group, stage, substage)];
    }

    /** One DQS input delay: find the enable window, then centre from the delay the phase began with. */
    method Attempt(g: nat, d: nat, p: nat, q: nat, orig: nat) returns (ok: bool, dqs: nat, failed: Substage)
      requires Recorded()
      modifies this`error, this`log
      ensures Recorded() && log == old(log) + AttemptReports(g, d, p, q)
      ensures ok <==> Works(g, d, p, q)
      ensures failed == FailsIn(g, d, p, q) && dqs == AfterAttempt(g, d, p, q, orig)
    {
      if !enable(g, d, p, q) {
        return false, q, DqsEnPhase;
      }
      match centre(g, d, p, q)
      case Good(left) =>
        return true, left, VfifoCenter;
      case Blind(bit) =>
        SetFailing(g * bits + bit, VfifoStage, VfifoCenter);
        return false, orig, VfifoCenter;
      case Narrow(left) =>
        return false, left, VfifoCenter;
    }

    /** Having reported log since was, the search has rest to come of the total. */
    ghost predicate Coming(was: seq<Failure>, total: Outcome, log: seq<Failure>, rest: Outcome) {
      total.ok == rest.ok && total.s == rest.s && log + rest.log == was + total.log
    }

    lemma ComingOn(was: seq<Failure>, total: Outcome, log: seq<Failure>, piece: seq<Failure>, rest: Outcome)
      requires Coming(was, total, log, rest.After(piece))
      ensures Coming(was, total, log + piece, rest)
    {
      assert log + (piece + rest.log) == (log + piece) + rest.log;
    }

    lemma AllCome(was: seq<Failure>, total: Outcome, log: seq<Failure>, rest: Outcome)
      requires Coming(was, total, log, rest)
      ensures rest.log == [] ==> log == was + total.log
    {
      assert log + [] == log;
    }

    /** One output phase: DQS input delays upward from the one in the register. */
    method Phase(g: nat, d: nat, p: nat, s0: Search) returns (ok: bool, s: Search)
      requires Recorded()
      modifies this`error, this`log
      ensures Recorded()
      ensures var r := WholePhase(g, d, p, s0); ok == r.ok && s == r.s && log == old(log) + r.log
    {
      ghost var was, total := log, WholePhase(g, d, p, s0);
      ok, s := false, s0;
      var next := s0.dqs;
      while next <= dqsMax && !ok
        invariant Recorded() && (ok ==> log == was + total.log && total.ok && s == total.s)
        invariant !ok ==> Coming(was, total, log, PhaseFrom(g, d, p, next, s0.dqs, s))
        decreases dqsMax + 1 - next, !ok
      {
        ghost var before, rest := log, PhaseFrom(g, d, p, next, s0.dqs, s);
        AllCome(was, total, log, rest);
        var dqs, failed;
        ok, dqs, failed := Attempt(g, d, p, next, s0.dqs);
        s := Search(dqs, failed);
        if !ok {
          ComingOn(was, total, before, AttemptReports(g, d, p, next), PhaseFrom(g, d, p, next + 1, s0.dqs, s));
          next := next + 1;
        }
      }
      if !ok {
        AllCome(was, total, log, PhaseFrom(g, d, p, next, s0.dqs, s));
      }
    }

    /** One output delay: phases upward until the guaranteed read fails. */
    method Phases(g: nat, d: nat, s0: Search) returns (ok: bool, s: Search)
      requires Recorded()
      modifies this`error, this`log
      ensures Recorded()
      ensures var r := PhasesFrom(g, d, 0, s0); ok == r.ok && s == r.s && log == old(log) + r.log
    {
      ghost var was, total := log, PhasesFrom(g, d, 0, s0);
      ok, s := false, s0;
      var next := 0;
      while next <= phaseMax && guaranteed(g, d, next)
        invariant Recorded() && next <= phaseMax + 1 && !ok
        invariant Coming(was, total, log, PhasesFrom(g, d, next, s))
      {
        ghost var before, first := log, WholePhase(g, d, next, s);
        ghost var rest := PhasesFrom(g, d, next + 1, first.s);
        assert PhasesFrom(g, d, next, s) == if first.ok then first else rest.After(first.log);
        ok, s := Phase(g, d, next, s);
        if ok {
          return;
        }
        ComingOn(was, total, before, first.log, rest);
        next := next + 1;
      }
      AllCome(was, total, log, PhasesFrom(g, d, next, s));
    }

    /** rw_mgr_mem_calibrate_vfifo. */
    method Vfifo(g: nat) returns (ok: bool)
      requires Recorded()
      modifies this`error, this`log
      ensures Recorded() && log == old(log) + SearchOutcome(g).log
      ensures ok <==> Readable(g)
    {
      SearchMeans(g);
      ok := Delays(g);
    }

    method Delays(g: nat) returns (ok: bool)
      requires Recorded()
      modifies this`error, this`log
      ensures Recorded() && log == old(log) + SearchOutcome(g).log
      ensures ok <==> SearchOutcome(g).ok
    {
      ghost var was, total := log, SearchOutcome(g);
      var s, k: nat := Search(dqsReserve, GuaranteedRead), 0;
      while 2 * k <= dtapsPerPtap
        invariant Recorded()
        invariant Coming(was, total, log, DelaysFrom(g, k, s))
        decreases dtapsPerPtap + 2 - 2 * k
      {
        ghost var before, first := log, PhasesFrom(g, 2 * k, 0, s);
        ghost var rest := DelaysFrom(g, k + 1, first.s);
        assert DelaysFrom(g, k, s) == if first.ok then first else rest.After(first.log);
        ok, s := Phases(g, 2 * k, s);
        if ok {
          return;
        }
        ComingOn(was, total, before, first.log, rest);
        k := k + 1;
      }
      SetFailing(g, VfifoStage, s.failed);
      ok := false;
    }

    /** A centring that did not come out well: its bit is reported first, then its group. */
    method Report(g: nat, c: Centring, stage: Stage, substage: Substage) returns (ok: bool)
      requires Recorded()
      modifies this`error, this`log
      ensures Recorded() && log == old(log) + CentringReports(g, c, stage, substage)
      ensures ok <==> c.Good?
    {
      ok := c.Good?;
      if !ok {
        if c.Blind? {
          SetFailing(g * bits + c.bit, stage, substage);
        }
        SetFailing(g, stage, substage);
      }
    }

    /** rw_mgr_mem_calibrate_writes, with what its centring reports. */
    method Writes(g: nat) returns (ok: bool)
      requires Recorded()
      modifies this`error, this`log
      ensures Recorded() && log == old(log) + CentringReports(g, writes(g), WritesStage, WritesCenter)
      ensures ok <==> writes(g).Good?
      ensures ok ==> log == old(log)
    {
      ok := Report(g, writes(g), WritesStage, WritesCenter);
    }

    /** rw_mgr_mem_calibrate_vfifo_end, the read centring repeated after the writes. */
    method VfifoEnd(g: nat) returns (ok: bool)
      requires Recorded()
      modifies this`error, this`log
      ensures Recorded() && log == old(log) + CentringReports(g, readsAgain(g), VfifoAfterWrites, VfifoCenter)
      ensures ok <==> readsAgain(g).Good?
      ensures ok ==> log == old(log)
    {
      ok := Report(g, readsAgain(g), VfifoAfterWrites, VfifoCenter);
    }

    /** rw_mgr_mem_calibrate_lfifo. */
    method Lfifo() returns (ok: bool)
      requires Recorded() && latency > 0
      modifies this`error, this`log, this`latency
      ensures Recorded() && latency > 0
      ensures ok <==> readable(old(latency))
      ensures log == old(log) + if ok then [] else [Failure(0xff, LfifoStage, ReadLatency)]
      ensures ok ==> 2 <= latency <= old(latency) + 1 && (forall l :: latency - 1 <= l <= old(latency) ==> readable(l))
      ensures ok && latency > 2 ==> !readable(latency - 2)
      ensures !ok ==> latency == old(latency)
    {
      ok, latency := ReadLatencySearch(latency, readable);
      if !ok {
        SetFailing(0xff, LfifoStage, ReadLatency);
      }
    }

    /** One group, read side, write side and read side again. */
    method CalibrateGroup(g: nat) returns (ok: bool)
      requires Recorded()
      modifies this`error, this`log
      ensures Recorded() && log == old(log) + GroupLog(g)
      ensures ok <==> Calibrated(g)
    {
      SearchMeans(g);
      ghost var was, search := log, SearchOutcome(g).log;
      ok := Vfifo(g);
      if ok {
        ok := Writes(g);
        if ok {
          ok := VfifoEnd(g);
          Join(was, search, CentringReports(g, readsAgain(g), VfifoAfterWrites, VfifoCenter));
        } else {
          Join(was, search, CentringReports(g, writes(g), WritesStage, WritesCenter));
        }
      }
    }

    lemma Join(a: seq<Failure>, b: seq<Failure>, c: seq<Failure>)
      ensures (a + b) + c == a + (b + c)
    {
    }

    /** mem_calibrate.  It succeeds exactly when everything it attempts works, whether or not it goes on
        through the other groups after a failure.  A failed run keeps its first report, and every report is
        true; a successful one may keep what an attempt retried later reported. */
    method MemCalibrate() returns (ok: bool)
      requires latency > 0
      modifies this`error, this`log, this`latency
      ensures Recorded() && log == RunFrom(0, false, old(latency)).log
      ensures ok <==> CalibratableFrom(0, false, old(latency))
      ensures !ok ==> log != [] && error == log[0] != Nil
      ensures ok ==> forall f :: f in log ==> Retried(f)
      ensures forall f :: f in log ==> True(f, old(latency))
    {
      ghost var start := latency;
      RunMeans(0, false, start);
      error, log := Nil, [];
      var someSkipped;
      ok, someSkipped := Groups(start);
      if ok && !someSkipped {
        ok := Lfifo();
      }
    }

    /** The loop over the groups; when it gets through them, what is left of the run is the read latency. */
    method Groups(ghost start: nat) returns (ok: bool, someSkipped: bool)
      requires Recorded() && log == []
      modifies this`error, this`log
      ensures Recorded()
      ensures ok ==> (someSkipped <==> !NoneSkipped())
      ensures RunComing(RunFrom(0, false, start), log,
                        if ok then RunFrom(groups, false, start) else RunOutcome(false, []))
    {
      ghost var run := RunFrom(0, false, start);
      var failing;
      failing, someSkipped := 0, false;
      for g := 0 to groups
        invariant Recorded()
        invariant someSkipped <==> SomeSkipped(g)
        invariant RunComing(run, log, RunFrom(g, failing > 0, start))
      {
        if skipped(g) {
          someSkipped := true;
        } else {
          ghost var before := log;
          var good := CalibrateGroup(g);
          if !good && !sweepAll {
            return false, someSkipped;
          }
          if !good {
            failing := failing + 1;
          }
          RunComingOn(run, before, GroupLog(g), RunFrom(g + 1, failing > 0, start));
        }
      }
      ok := failing == 0;
      SomeSkippedMeans(groups);
    }

    /** Some group before g is skipped. */
    predicate SomeSkipped(g: nat) {
      g > 0 && (skipped(g - 1) || SomeSkipped(g - 1))
    }

    lemma {:induction false} SomeSkippedMeans(g: nat)
      ensures SomeSkipped(g) <==> exists h: nat :: h < g && skipped(h)
    {
      if g > 0 {
        SomeSkippedMeans(g - 1);
      }
    }

    ghost predicate RunComing(run: RunOutcome, log: seq<Failure>, rest: RunOutcome) {
      run.ok == rest.ok && run.log == log + rest.log
    }

    lemma RunComingOn(run: RunOutcome, log: seq<Failure>, piece: seq<Failure>, rest: RunOutcome)
      requires RunComing(run, log, rest.After(piece))
      ensures RunComing(run, log + piece, rest)
    {
      assert log + (piece + rest.log) == (log + piece) + rest.log;
    }
  }
}
