/** The oscillator tamer: its control register (vctcxo_tamer.c) and the tuning states of the main loop
    (main.c), as one trip round the loop after another. */
module Tamer {

  const RESET: bv8 := 0x01
  const IRQ_EN: bv8 := 0x10
  const IRQ_CLR: bv8 := 0x20
  const TUNE_MODE: bv8 := 0xC0

  type Dac = x: nat | x < 0x1_0000

  const DAC_MIN: Dac := 0x1938
  const DAC_MAX: Dac := 0xE2F3

  datatype Mode = Invalid | Disabled | OnePps | TenMhz {
    function Code(): bv8 {
      match this
      case OnePps => 0x40
      case TenMhz => 0x80
      case _ => 0x00
    }
  }

  datatype TuneState = CoarseTuneMin | CoarseTuneMax | CoarseTuneDone | FineTune | DoNothing

  /** Error counts and flags as the tamer reports them. */
  datatype Counts = Counts(err1s: int, err10s: int, err100s: int, flag1s: bool, flag10s: bool, flag100s: bool) {
    predicate Flagged() {
      flag1s || flag10s || flag100s
    }
  }

  /** What the host asks of the DAC: a value, or, to let the phase comparator drive the oscillator instead, to
      be put in three-state. */
  datatype Host = Silent | SetDac(value: Dac) | ThreeState

  /** What the outside contributes to one trip: the interrupt bit, the counts behind it, the enable bit,
      the DAC value the slope arithmetic comes to, and a DAC command from the host at the end. */
  datatype Trip = Trip(irq: bool, counts: Counts, enable: bool, tuned: Dac, host: Host)

  /** The cached control register and the bytes sent to it; the state and tuned-value registers; the
      packet buffer; the tuning state and the x of the two line points; the DAC's value and whether its output
      is driven; the last enable sample. */
  datatype Loop = Loop(ctrl: bv8, sent: seq<bv8>, locked: bool, shown: Dac,
                       ready: bool, counts: Counts, tune: TuneState, x0: int, x1: int,
                       dac: Dac, driven: bool, en: bool)

  // ---------- one trip, on values ----------

  /** A tuning mode leaves the counters in reset and the interrupt off, or the opposite. */
  function WithMode(ctrl: bv8, mode: Mode): bv8 {
    if mode == Invalid then ctrl
    else (ctrl & 0x2E) | mode.Code() | (if mode == Disabled then RESET else IRQ_EN)
  }

  /** The bytes sent on the way there: interrupt off, the mode, counters in reset, and for a running mode
      out of reset and interrupt on. */
  function ModeBytes(ctrl: bv8, mode: Mode): seq<bv8> {
    if mode == Invalid then []
    else if mode == Disabled then StopBytes(ctrl, mode)
    else
      StopBytes(ctrl, mode) + [InReset(ctrl, mode) & 0xFE] + [(InReset(ctrl, mode) & 0xFE) | IRQ_EN]
  }

  function StopBytes(ctrl: bv8, mode: Mode): seq<bv8> {
    var off := ctrl & 0xEF;
    [off] + [(off & 0x3F) | mode.Code()] + [InReset(ctrl, mode)]
  }

  function InReset(ctrl: bv8, mode: Mode): bv8 {
    (ctrl & 0x2F) | mode.Code() | RESET
  }

  lemma LastModeByte(ctrl: bv8, mode: Mode)
    requires mode != Invalid
    ensures WithMode(ctrl, mode)
         == if mode == Disabled then InReset(ctrl, mode) else (InReset(ctrl, mode) & 0xFE) | IRQ_EN
  {
  }

  lemma ResetAfterMode(ctrl: bv8, mode: Mode)
    ensures (ctrl & 0xEF & 0x3F) | mode.Code() | RESET == InReset(ctrl, mode)
  {
  }

  /** The interrupt stops the counters, fills the packet and is acknowledged. */
  function Interrupted(v: Loop, counts: Counts): Loop {
    var off := v.ctrl & 0xEF;
    v.(ctrl := off | RESET, sent := v.sent + [off] + [off | RESET] + [off | RESET | IRQ_CLR],
       counts := counts, ready := true)
  }

  function Started(v: Loop): Loop {
    v.(ctrl := WithMode(v.ctrl, OnePps), sent := v.sent + ModeBytes(v.ctrl, OnePps), locked := false, ready := true)
  }

  function Stopped(v: Loop): Loop {
    v.(ctrl := WithMode(v.ctrl, Disabled), sent := v.sent + ModeBytes(v.ctrl, Disabled), locked := false,
       ready := false, tune := CoarseTuneMin)
  }

  function Driven(v: Loop, dac: Dac): Loop {
    v.(shown := dac, dac := dac, driven := true)
  }

  /** One tuning step. */
  function Stepped(v: Loop, tuned: Dac): Loop {
    match v.tune
    case CoarseTuneMin => Driven(v, DAC_MIN).(tune := CoarseTuneMax)
    case CoarseTuneMax => Driven(v, DAC_MAX).(tune := CoarseTuneDone, x0 := v.counts.err1s)
    case CoarseTuneDone => Driven(v, tuned).(tune := FineTune, x1 := v.counts.err1s, locked := true)
    case FineTune => if v.counts.Flagged() then Driven(v, tuned) else v
    case DoNothing => v
  }

  /** A tuning step on a filled packet, which then lets the counters run again. */
  function Served(v: Loop, tuned: Dac): Loop {
    if !v.ready then v
    else
      Rearmed(Stepped(v.(ready := false), tuned))
  }

  /** Counters and interrupt on again. */
  function Rearmed(v: Loop): Loop {
    var running := v.ctrl & 0xFE;
    v.(ctrl := running | IRQ_EN, sent := v.sent + [running] + [running | IRQ_EN])
  }

  function Sampled(v: Loop, enable: bool): Loop {
    (if enable == v.en then v else if enable then Started(v) else Stopped(v)).(en := enable)
  }

  function Step(v: Loop, t: Trip): Loop {
    var v1 := if t.irq then Interrupted(v, t.counts) else v;
    Hosted(Served(Sampled(v1, t.enable), t.tuned), t.host)
  }

  function Hosted(v: Loop, host: Host): Loop {
    match host
    case Silent => v
    case SetDac(value) => v.(dac := value, driven := true)
    case ThreeState => v.(driven := false)
  }

  function Run(v: Loop, trips: seq<Trip>): Loop {
    if trips == [] then v else Step(Run(v, trips[..|trips| - 1]), trips[|trips| - 1])
  }

  /** After power-up, whatever the registers hold. */
  predicate Initial(v: Loop) {
    v.ctrl == 0 && !v.ready && v.tune == CoarseTuneMin && !v.en
  }

  // ---------- what the trips amount to ----------

  /** A session is what happens between the enable bit rising and falling: the interrupts in it so far. */
  datatype Session = Never | Off | On(served: seq<Counts>)

  function NextSession(s: Session, t: Trip): Session {
    if !t.enable then (if s.Never? then Never else Off)
    else if !s.On? then On([])
    else if t.irq then On(s.served + [t.counts])
    else s
  }

  function SessionOf(trips: seq<Trip>): Session {
    if trips == [] then Never else NextSession(SessionOf(trips[..|trips| - 1]), trips[|trips| - 1])
  }

  /** The tuning state awaiting the next interrupt, by the number of interrupts so far. */
  function Stage(interrupts: nat): TuneState {
    if interrupts == 0 then CoarseTuneMax else if interrupts == 1 then CoarseTuneDone else FineTune
  }

  /** The byte last sent to the control register; none is as good as none of its bits. */
  function LastSent(v: Loop): bv8 {
    if v.sent == [] then 0 else v.sent[|v.sent| - 1]
  }

  /** What the loop has at its head in each session: nothing pending, a control register that says no more
      and no less than that the tamer runs or is stopped, and the points measured so far. */
  ghost predicate Fits(v: Loop, s: Session) {
    && !v.ready
    && (v.en <==> s.On?)
    && (!s.Never? ==> LastSent(v) == v.ctrl && (v.locked <==> s.On? && |s.served| >= 2))
    && match s
       case Never => v.ctrl == 0x00 && v.tune == CoarseTuneMin
       case Off => v.ctrl == RESET && v.tune == CoarseTuneMin
       case On(served) =>
         && v.ctrl == IRQ_EN | OnePps.Code()
         && v.tune == Stage(|served|)
         && (|served| >= 1 ==> v.x0 == served[0].err1s)
         && (|served| >= 2 ==> v.x1 == served[1].err1s)
  }

  /** The interrupt bit is not seen while the tamer is and stays disabled. */
  predicate Orderly(enabled: bool, t: Trip) {
    t.irq ==> enabled || t.enable
  }

  lemma FitsRegister(v: Loop, s: Session)
    requires Fits(v, s) && !s.Never?
    ensures LastSent(v) & IRQ_CLR == 0
    ensures v.ctrl & RESET != 0 <==> v.ctrl & IRQ_EN == 0
    ensures v.ctrl & TUNE_MODE == if v.en then OnePps.Code() else Disabled.Code()
    ensures v.ctrl == LastSent(v) == if v.en then 0x50 else 0x01
  {
  }

  lemma StopFits(v: Loop, s: Session, t: Trip)
    requires Fits(v, s) && !t.enable && s.On?
    ensures Fits(Step(v, t), NextSession(s, t))
  {
    assert v.ctrl == 0x50;
  }

  lemma StartFits(v: Loop, s: Session, t: Trip)
    requires Fits(v, s) && t.enable && !s.On?
    ensures Fits(Step(v, t), NextSession(s, t))
  {
    var v1 := if t.irq then Interrupted(v, t.counts) else v;
    assert v1.ctrl == 0x00 || v1.ctrl == 0x01;
    SampledOn(v1);
    FirstServed(Sampled(v1, true), t.tuned);
  }

  lemma SampledOn(v: Loop)
    requires (v.ctrl == 0x00 || v.ctrl == 0x01) && !v.en && v.tune == CoarseTuneMin
    ensures var u := Sampled(v, true);
            u.ctrl == 0x50 && u.ready && u.tune == CoarseTuneMin && u.en && !u.locked
  {
  }

  lemma FirstServed(v: Loop, tuned: Dac)
    requires v.ctrl == 0x50 && v.ready && v.tune == CoarseTuneMin
    ensures var u := Served(v, tuned);
            && u.ctrl == LastSent(u) == 0x50 && !u.ready && u.tune == CoarseTuneMax
            && u.en == v.en && u.locked == v.locked
  {
  }

  lemma OnFits(v: Loop, s: Session, t: Trip)
    requires Fits(v, s) && t.enable && s.On?
    ensures Fits(Step(v, t), NextSession(s, t))
  {
    assert v.ctrl == 0x50;
  }

  /** A trip keeps the loop in step with the session exactly when no interrupt is seen from a tamer that is
      and stays disabled; such a stray interrupt starts the tuning of a disabled tamer. */
  lemma StepFitsIff(v: Loop, s: Session, t: Trip)
    requires Fits(v, s)
    ensures Fits(Step(v, t), NextSession(s, t)) <==> Orderly(s.On?, t)
  {
    if t.enable && s.On? {
      OnFits(v, s, t);
    } else if t.enable {
      StartFits(v, s, t);
    } else if s.On? {
      StopFits(v, s, t);
    } else if t.irq {
      assert Step(v, t).tune == CoarseTuneMax;
    }
  }

  predicate OrderlyAt(trips: seq<Trip>, i: nat)
    requires i < |trips|
  {
    Orderly(i > 0 && trips[i - 1].enable, trips[i])
  }

  predicate OrderlyRun(trips: seq<Trip>) {
    forall i :: 0 <= i < |trips| ==> OrderlyAt(trips, i)
  }

  lemma SessionOn(trips: seq<Trip>)
    ensures SessionOf(trips).On? <==> trips != [] && trips[|trips| - 1].enable
  {
  }

  ghost predicate FitsThroughout(v: Loop, trips: seq<Trip>) {
    forall n :: 0 <= n <= |trips| ==> Fits(Run(v, trips[..n]), SessionOf(trips[..n]))
  }

  lemma FitsOneMore(v: Loop, trips: seq<Trip>)
    requires trips != []
    ensures FitsThroughout(v, trips)
            <==> FitsThroughout(v, trips[..|trips| - 1]) && Fits(Run(v, trips), SessionOf(trips))
  {
    var front := trips[..|trips| - 1];
    assert trips[..|trips|] == trips;
    assert forall n :: 0 <= n < |trips| ==> front[..n] == trips[..n];
  }

  lemma OrderlyOneMore(trips: seq<Trip>)
    requires trips != []
    ensures var front := trips[..|trips| - 1];
            OrderlyRun(trips) <==> OrderlyRun(front) && Orderly(SessionOf(front).On?, trips[|trips| - 1])
  {
    var front, last := trips[..|trips| - 1], |trips| - 1;
    SessionOn(front);
    assert OrderlyAt(trips, last) <==> Orderly(SessionOf(front).On?, trips[last]);
    assert forall i :: 0 <= i < last ==> (OrderlyAt(trips, i) <==> OrderlyAt(front, i));
  }

  /** Over every run the loop is in step with its session at every trip, exactly when every trip is orderly. */
  lemma {:induction false} RunFitsIff(v: Loop, trips: seq<Trip>)
    requires Initial(v)
    ensures FitsThroughout(v, trips) <==> OrderlyRun(trips)
    decreases |trips|
  {
    if trips == [] {
      assert forall n :: 0 <= n <= |trips| ==> trips[..n] == [];
    } else {
      var front := trips[..|trips| - 1];
      RunFitsIff(v, front);
      FitsOneMore(v, trips);
      OrderlyOneMore(trips);
      if FitsThroughout(v, front) {
        assert front[..|front|] == front;
        StepFitsIff(Run(v, front), SessionOf(front), trips[|trips| - 1]);
      }
    }
  }

  // ---------- sessions and what they measure ----------

  function Interrupts(trips: seq<Trip>): seq<Counts> {
    if trips == [] then []
    else Interrupts(trips[..|trips| - 1]) + (if trips[|trips| - 1].irq then [trips[|trips| - 1].counts] else [])
  }

  /** The session that begins at trip a has lasted to trip b. */
  predicate Lasts(trips: seq<Trip>, a: nat, b: nat) {
    && a < b <= |trips|
    && (a == 0 || !trips[a - 1].enable)
    && forall i :: a <= i < b ==> trips[i].enable
  }

  lemma {:induction false} SessionServes(trips: seq<Trip>, a: nat, b: nat)
    requires Lasts(trips, a, b)
    ensures SessionOf(trips[..b]) == On(Interrupts(trips[a + 1..b]))
    decreases b
  {
    var front := trips[..b][..b - 1];
    assert front == trips[..b - 1];
    SessionOn(front);
    if b > a + 1 {
      SessionServes(trips, a, b - 1);
      assert trips[a + 1..b][..b - 1 - (a + 1)] == trips[a + 1..b - 1];
    }
  }

  /** In every orderly run from power-up, a session that has lasted to trip b is at the step given by its
      number of interrupts, its points are the counts of the first two, and it is locked from the second
      on; it takes one step for each interrupt and none otherwise. */
  lemma SessionOrder(v: Loop, trips: seq<Trip>, a: nat, b: nat)
    requires Initial(v) && OrderlyRun(trips) && Lasts(trips, a, b)
    ensures var served := Interrupts(trips[a + 1..b]);
            var u := Run(v, trips[..b]);
            && u.tune == Stage(|served|) && (u.locked <==> |served| >= 2)
            && (|served| >= 1 ==> u.x0 == served[0].err1s)
            && (|served| >= 2 ==> u.x1 == served[1].err1s)
  {
    RunFitsIff(v, trips);
    SessionServes(trips, a, b);
    assert Fits(Run(v, trips[..b]), SessionOf(trips[..b]));
  }

  /** A disabled tamer is always back in its first state. */
  lemma DisabledIsIdle(v: Loop, trips: seq<Trip>, b: nat)
    requires Initial(v) && OrderlyRun(trips) && b <= |trips| && (b == 0 || !trips[b - 1].enable)
    ensures Run(v, trips[..b]).tune == CoarseTuneMin
    ensures Run(v, trips[..b]).ctrl & IRQ_EN == 0
  {
    RunFitsIff(v, trips);
    SessionOn(trips[..b]);
    assert Fits(Run(v, trips[..b]), SessionOf(trips[..b]));
  }

  /** The host lets the DAC drive a value it is already driving. */
  predicate Lets(host: Host, dac: Dac) {
    host == Silent || host == SetDac(dac)
  }

  predicate Leaves(trips: seq<Trip>, dac: Dac) {
    forall i :: 0 <= i < |trips| ==> Lets(trips[i].host, dac)
  }

  predicate Drives(v: Loop, dac: Dac) {
    v.driven && v.dac == dac
  }

  ghost predicate Held(v: Loop, trips: seq<Trip>, dac: Dac) {
    forall n :: 0 <= n <= |trips| ==> Drives(Run(v, trips[..n]), dac)
  }

  lemma HeldOneMore(v: Loop, trips: seq<Trip>, dac: Dac)
    requires trips != []
    ensures Held(v, trips, dac) <==> Held(v, trips[..|trips| - 1], dac) && Drives(Run(v, trips), dac)
  {
    var front := trips[..|trips| - 1];
    assert trips[..|trips|] == trips;
    assert forall n :: 0 <= n < |trips| ==> front[..n] == trips[..n];
  }

  lemma HeldToTheEnd(v: Loop, trips: seq<Trip>, dac: Dac)
    ensures Held(v, trips, dac) ==> Drives(Run(v, trips), dac)
  {
    assert trips[..|trips|] == trips;
  }

  lemma QuietStep(v: Loop, s: Session, t: Trip)
    requires Fits(v, s) && s.On? && t.enable && !t.irq
    ensures Step(v, t) == Hosted(v, t.host)
    ensures Fits(Step(v, t), s)
  {
  }

  lemma LeavesOneMore(trips: seq<Trip>, dac: Dac)
    requires trips != []
    ensures var host := trips[|trips| - 1].host;
            Leaves(trips, dac) <==> Leaves(trips[..|trips| - 1], dac) && Lets(host, dac)
  {
  }

  predicate Quiet(trips: seq<Trip>) {
    forall i :: 0 <= i < |trips| ==> trips[i].enable && !trips[i].irq
  }

  /** While no interrupt comes, the DAC is held where it is exactly when the host does not move it. */
  lemma {:induction false} HeldIff(v: Loop, trips: seq<Trip>, s: Session, dac: Dac)
    requires Fits(v, s) && s.On? && Drives(v, dac) && Quiet(trips)
    ensures Fits(Run(v, trips), s)
    ensures Held(v, trips, dac) <==> Leaves(trips, dac)
    decreases |trips|
  {
    if trips == [] {
      assert forall n :: 0 <= n <= |trips| ==> trips[..n] == [];
    } else {
      var front, t := trips[..|trips| - 1], trips[|trips| - 1];
      HeldIff(v, front, s, dac);
      HeldOneMore(v, trips, dac);
      QuietStep(Run(v, front), s, t);
      LeavesOneMore(trips, dac);
      HeldToTheEnd(v, front, dac);
    }
  }

  /** The trip that enables the tamer, or serves an interrupt in a coarse state: what it measures, and where
      it leaves the DAC, which is where the tamer puts it exactly when the host, whose command comes last,
      lets it be. */
  lemma CoarseStep(v: Loop, s: Session, t: Trip)
    requires Fits(v, s) && t.enable
    ensures !s.On? ==> Step(v, t).shown == DAC_MIN && (Drives(Step(v, t), DAC_MIN) <==> Lets(t.host, DAC_MIN))
    ensures s.On? && t.irq && |s.served| == 0 ==>
              && Step(v, t).x0 == t.counts.err1s && Step(v, t).shown == DAC_MAX
              && (Drives(Step(v, t), DAC_MAX) <==> Lets(t.host, DAC_MAX))
    ensures s.On? && t.irq && |s.served| == 1 ==>
              && Step(v, t).x1 == t.counts.err1s && Step(v, t).shown == t.tuned
              && (Drives(Step(v, t), t.tuned) <==> Lets(t.host, t.tuned))
  {
  }

  lemma {:induction false} QuietFits(v: Loop, trips: seq<Trip>, s: Session)
    requires Fits(v, s) && s.On? && Quiet(trips)
    ensures Fits(Run(v, trips), s)
    decreases |trips|
  {
    if trips != [] {
      QuietFits(v, trips[..|trips| - 1], s);
      QuietStep(Run(v, trips[..|trips| - 1]), s, trips[|trips| - 1]);
    }
  }

  /** After a trip that has the tamer drive dac, if the host lets it, the DAC is held there through quiet
      trips exactly when the host lets it be in that trip and in all of those. */
  lemma HeldSinceIff(v: Loop, trip: Trip, trips: seq<Trip>, s: Session, dac: Dac)
    requires Fits(v, s) && s.On? && Quiet(trips)
    requires Drives(v, dac) <==> Lets(trip.host, dac)
    ensures Fits(Run(v, trips), s)
    ensures Held(v, trips, dac) <==> Lets(trip.host, dac) && Leaves(trips, dac)
  {
    QuietFits(v, trips, s);
    if Drives(v, dac) {
      HeldIff(v, trips, s, dac);
    } else {
      assert Run(v, trips[..0]) == v;
    }
  }

  /** A whole coarse calibration: enabled, quiet, an interrupt, quiet, an interrupt.  The first point is the
      count reported with the DAC held at its minimum, the second that with the DAC held at its maximum,
      exactly when the host leaves the DAC alone from the trip that puts it there on; the state is then fine
      tuning. */
  lemma CalibrationMeasures(v: Loop, s: Session, start: Trip, quiet: seq<Trip>, first: Trip,
                            quiet': seq<Trip>, second: Trip)
    requires Fits(v, s) && !s.On? && start.enable && Quiet(quiet) && Quiet(quiet')
    requires first.enable && first.irq && second.enable && second.irq
    ensures var v1 := Step(v, start);
            var v2 := Run(v1, quiet);
            var v3 := Step(v2, first);
            var v4 := Run(v3, quiet');
            var v5 := Step(v4, second);
            && v5.x0 == first.counts.err1s && v5.x1 == second.counts.err1s && v5.tune == FineTune && v5.locked
            && (Held(v1, quiet, DAC_MIN) <==> Lets(start.host, DAC_MIN) && Leaves(quiet, DAC_MIN))
            && (Held(v3, quiet', DAC_MAX) <==> Lets(first.host, DAC_MAX) && Leaves(quiet', DAC_MAX))
  {
    var v1 := Step(v, start);
    StepFitsIff(v, s, start);
    CoarseStep(v, s, start);
    HeldSinceIff(v1, start, quiet, On([]), DAC_MIN);
    var v2 := Run(v1, quiet);
    var v3 := Step(v2, first);
    StepFitsIff(v2, On([]), first);
    CoarseStep(v2, On([]), first);
    var s1 := On([first.counts]);
    assert NextSession(On([]), first) == s1;
    HeldSinceIff(v3, first, quiet', s1, DAC_MAX);
    SecondPoint(Run(v3, quiet'), first.counts, second);
  }

  lemma SecondPoint(v: Loop, first: Counts, second: Trip)
    requires Fits(v, On([first])) && second.enable && second.irq
    ensures var u := Step(v, second);
            u.x0 == first.err1s && u.x1 == second.counts.err1s && u.tune == FineTune && u.locked
  {
    StepFitsIff(v, On([first]), second);
    assert NextSession(On([first]), second) == On([first, second.counts]);
  }

  // ---------- fine tuning ----------

  /** An interrupt in fine tuning: with an error flagged, the DAC goes to the tuned value, and stays there
      exactly when the host lets it; without, only the host moves it. */
  lemma FineStep(v: Loop, s: Session, t: Trip)
    requires Fits(v, s) && s.On? && |s.served| >= 2 && t.enable
    ensures var flagged := t.irq && (t.counts.flag1s || t.counts.flag10s || t.counts.flag100s);
            if flagged then Step(v, t).shown == t.tuned && (Drives(Step(v, t), t.tuned) <==> Lets(t.host, t.tuned))
            else
              && Step(v, t).shown == v.shown
              && Step(v, t).dac == (if t.host.SetDac? then t.host.value else v.dac)
              && (Step(v, t).driven <==> t.host.SetDac? || (v.driven && !t.host.ThreeState?))
    ensures Step(v, t).x0 == v.x0 && Step(v, t).x1 == v.x1
  {
  }

  /** The value of the last interrupt in the trips with an error flagged, or dac if there is none. */
  function LastTuned(trips: seq<Trip>, dac: Dac): Dac {
    if trips == [] then dac
    else
      var t := trips[|trips| - 1];
      if t.irq && (t.counts.flag1s || t.counts.flag10s || t.counts.flag100s) then t.tuned
      else LastTuned(trips[..|trips| - 1], dac)
  }

  /** The DAC drives the last tuned value after the first n trips. */
  predicate FollowsAt(v: Loop, trips: seq<Trip>, dac: Dac, n: nat)
    requires n <= |trips|
  {
    Drives(Run(v, trips[..n]), LastTuned(trips[..n], dac))
  }

  /** The same after every trip. */
  ghost predicate Follows(v: Loop, trips: seq<Trip>, dac: Dac) {
    forall n :: 0 <= n <= |trips| ==> FollowsAt(v, trips, dac, n)
  }

  /** The host lets it be in every trip. */
  ghost predicate LetsAll(trips: seq<Trip>, dac: Dac) {
    forall n :: 0 < n <= |trips| ==> Lets(trips[n - 1].host, LastTuned(trips[..n], dac))
  }

  lemma FollowsLast(v: Loop, trips: seq<Trip>, dac: Dac)
    ensures FollowsAt(v, trips, dac, |trips|) <==> Drives(Run(v, trips), LastTuned(trips, dac))
  {
    assert trips[..|trips|] == trips;
  }

  lemma FollowsOneMore(v: Loop, trips: seq<Trip>, dac: Dac)
    requires trips != []
    ensures Follows(v, trips, dac)
            <==> Follows(v, trips[..|trips| - 1], dac) && FollowsAt(v, trips, dac, |trips|)
  {
    var front := trips[..|trips| - 1];
    forall n: nat | n < |trips|
      ensures FollowsAt(v, front, dac, n) <==> FollowsAt(v, trips, dac, n)
    {
      assert front[..n] == trips[..n];
    }
  }

  lemma LetsOneMore(trips: seq<Trip>, dac: Dac)
    requires trips != []
    ensures LetsAll(trips, dac)
            <==> LetsAll(trips[..|trips| - 1], dac) && Lets(trips[|trips| - 1].host, LastTuned(trips, dac))
  {
    var front := trips[..|trips| - 1];
    assert trips[..|trips|] == trips;
    assert forall n :: 0 < n < |trips| ==> front[..n] == trips[..n];
  }

  /** Throughout fine tuning the DAC drives the value of the last flagged interrupt exactly when the host lets
      it be in every trip. */
  lemma {:induction false} FineTuningIff(v: Loop, s: Session, trips: seq<Trip>, dac: Dac) returns (s': Session)
    requires Fits(v, s) && s.On? && |s.served| >= 2 && Drives(v, dac)
    requires forall i :: 0 <= i < |trips| ==> trips[i].enable
    ensures s'.On? && |s'.served| >= 2 && Fits(Run(v, trips), s')
    ensures Follows(v, trips, dac) <==> LetsAll(trips, dac)
    decreases |trips|
  {
    if trips == [] {
      s' := s;
      assert forall n :: 0 <= n <= |trips| ==> trips[..n] == [];
    } else {
      var front, t := trips[..|trips| - 1], trips[|trips| - 1];
      var s0 := FineTuningIff(v, s, front, dac);
      s' := NextSession(s0, t);
      StepFitsIff(Run(v, front), s0, t);
      FineStep(Run(v, front), s0, t);
      FollowsOneMore(v, trips, dac);
      FollowsLast(v, trips, dac);
      FollowsLast(v, front, dac);
      LetsOneMore(trips, dac);
    }
  }

  // ---------- what is sent ----------

  predicate Quieted(b: bv8) {
    b & IRQ_EN == 0
  }

  predicate Carries(b: bv8, mode: Mode) {
    b & TUNE_MODE == mode.Code()
  }

  predicate InResetNow(b: bv8) {
    b & RESET != 0
  }

  /** However a mode is set, the interrupt is off until the last byte, every byte after the first carries the
      mode, and the counters go through reset. */
  lemma ModeChange(ctrl: bv8, mode: Mode)
    requires mode != Invalid
    ensures var sent := ModeBytes(ctrl, mode);
            && |sent| >= 3 && InResetNow(sent[2])
            && (forall i :: 0 <= i < |sent| - 1 ==> Quieted(sent[i]))
            && (forall i :: 1 <= i < |sent| ==> Carries(sent[i], mode))
  {
    StopChange(ctrl, mode);
    if mode != Disabled {
      RunBits(InReset(ctrl, mode), mode);
    }
  }

  lemma StopChange(ctrl: bv8, mode: Mode)
    ensures var sent := StopBytes(ctrl, mode);
            && |sent| == 3 && sent[2] == InReset(ctrl, mode) && InResetNow(sent[2])
            && (forall i :: 0 <= i < 3 ==> Quieted(sent[i]))
            && (forall i :: 1 <= i < 3 ==> Carries(sent[i], mode))
  {
    var off := ctrl & 0xEF;
    assert Quieted(off);
    ModedBits(off, mode);
    InResetBits(ctrl, mode);
  }

  /** The register ends up as its last byte, with the counters in reset or the interrupt on and its other
      bits as before. */
  lemma ModeRegister(ctrl: bv8, mode: Mode)
    requires mode != Invalid
    ensures var sent := ModeBytes(ctrl, mode);
            sent != [] && sent[|sent| - 1] == WithMode(ctrl, mode)
    ensures InResetNow(WithMode(ctrl, mode)) <==> mode == Disabled
    ensures Quieted(WithMode(ctrl, mode)) <==> mode == Disabled
    ensures WithMode(ctrl, mode) & 0x2E == ctrl & 0x2E
  {
    LastModeByte(ctrl, mode);
  }

  lemma InResetBits(ctrl: bv8, mode: Mode)
    ensures var b := InReset(ctrl, mode);
            Quieted(b) && Carries(b, mode) && InResetNow(b)
  {
  }

  lemma ModedBits(off: bv8, mode: Mode)
    requires Quieted(off)
    ensures Quieted((off & 0x3F) | mode.Code()) && Carries((off & 0x3F) | mode.Code(), mode)
  {
  }

  lemma RunBits(b: bv8, mode: Mode)
    requires Quieted(b) && Carries(b, mode)
    ensures Quieted(b & 0xFE) && Carries(b & 0xFE, mode) && Carries((b & 0xFE) | IRQ_EN, mode)
  {
  }

  function Acks(bytes: seq<bv8>): nat {
    if bytes == [] then 0
    else Acks(bytes[..|bytes| - 1]) + if bytes[|bytes| - 1] & IRQ_CLR != 0 then 1 else 0
  }

  function Irqs(trips: seq<Trip>): nat {
    if trips == [] then 0 else Irqs(trips[..|trips| - 1]) + if trips[|trips| - 1].irq then 1 else 0
  }

  lemma OneByte(bytes: seq<bv8>, b: bv8)
    ensures Acks(bytes + [b]) == Acks(bytes) + if b & IRQ_CLR != 0 then 1 else 0
  {
    assert (bytes + [b])[..|bytes|] == bytes;
  }

  lemma {:induction false} AcksConcat(a: seq<bv8>, b: seq<bv8>)
    ensures Acks(a + b) == Acks(a) + Acks(b)
    decreases |b|
  {
    if b == [] {
      assert a + b == a;
    } else {
      AcksConcat(a, b[..|b| - 1]);
      assert (a + b)[..|a + b| - 1] == a + b[..|b| - 1];
    }
  }

  lemma StopAcksNone(ctrl: bv8, mode: Mode)
    requires ctrl & IRQ_CLR == 0
    ensures Acks(StopBytes(ctrl, mode)) == 0 && InReset(ctrl, mode) & IRQ_CLR == 0
  {
    var off := ctrl & 0xEF;
    var moded := (off & 0x3F) | mode.Code();
    OneByte([], off);
    assert [] + [off] == [off];
    OneByte([off], moded);
    OneByte([off] + [moded], InReset(ctrl, mode));
  }

  lemma ModeAcksNone(ctrl: bv8, mode: Mode)
    requires ctrl & IRQ_CLR == 0
    ensures Acks(ModeBytes(ctrl, mode)) == 0 && WithMode(ctrl, mode) & IRQ_CLR == 0
  {
    StopAcksNone(ctrl, mode);
    var out := InReset(ctrl, mode) & 0xFE;
    OneByte(StopBytes(ctrl, mode), out);
    OneByte(StopBytes(ctrl, mode) + [out], out | IRQ_EN);
    if mode != Invalid {
      LastModeByte(ctrl, mode);
    }
  }

  lemma InterruptedAcks(v: Loop, counts: Counts)
    requires v.ctrl & IRQ_CLR == 0
    ensures var u := Interrupted(v, counts);
            && Acks(u.sent) == Acks(v.sent) + 1 && u.ctrl & IRQ_CLR == 0
            && LastSent(u) == u.ctrl | IRQ_CLR && u.ctrl & IRQ_EN == 0 && u.ctrl & RESET != 0
  {
    var off := v.ctrl & 0xEF;
    OneByte(v.sent, off);
    OneByte(v.sent + [off], off | RESET);
    OneByte(v.sent + [off] + [off | RESET], off | RESET | IRQ_CLR);
  }

  lemma SampledAcks(v: Loop, enable: bool)
    requires v.ctrl & IRQ_CLR == 0
    ensures Acks(Sampled(v, enable).sent) == Acks(v.sent) && Sampled(v, enable).ctrl & IRQ_CLR == 0
  {
    var mode := if enable then OnePps else Disabled;
    ModeAcksNone(v.ctrl, mode);
    AcksConcat(v.sent, ModeBytes(v.ctrl, mode));
  }

  lemma RearmedAcks(v: Loop)
    requires v.ctrl & IRQ_CLR == 0
    ensures Acks(Rearmed(v).sent) == Acks(v.sent)
  {
    var running := v.ctrl & 0xFE;
    OneByte(v.sent, running);
    OneByte(v.sent + [running], running | IRQ_EN);
  }

  lemma ServedAcks(v: Loop, tuned: Dac)
    requires v.ctrl & IRQ_CLR == 0
    ensures Acks(Served(v, tuned).sent) == Acks(v.sent)
  {
    if v.ready {
      SteppedSends(v.(ready := false), tuned);
      RearmedAcks(Stepped(v.(ready := false), tuned));
    }
  }

  lemma SteppedSends(v: Loop, tuned: Dac)
    ensures Stepped(v, tuned).ctrl == v.ctrl && Stepped(v, tuned).sent == v.sent
  {
  }

  lemma HostedSends(v: Loop, host: Host)
    ensures Hosted(v, host).sent == v.sent
  {
  }

  /** A trip acknowledges its interrupt once, with the counters stopped and the interrupt off, and sends no
      acknowledgement otherwise. */
  lemma StepAcks(v: Loop, t: Trip)
    requires v.ctrl & IRQ_CLR == 0
    ensures Acks(Step(v, t).sent) == Acks(v.sent) + if t.irq then 1 else 0
  {
    var v1 := if t.irq then Interrupted(v, t.counts) else v;
    if t.irq {
      InterruptedAcks(v, t.counts);
    }
    SampledAcks(v1, t.enable);
    ServedAcks(Sampled(v1, t.enable), t.tuned);
    HostedSends(Served(Sampled(v1, t.enable), t.tuned), t.host);
  }

  /** Over every orderly run from power-up each interrupt is acknowledged exactly once. */
  lemma {:induction false} RunAcks(v: Loop, trips: seq<Trip>)
    requires Initial(v) && OrderlyRun(trips)
    ensures Acks(Run(v, trips).sent) == Acks(v.sent) + Irqs(trips)
    decreases |trips|
  {
    if trips != [] {
      var front := trips[..|trips| - 1];
      OrderlyOneMore(trips);
      RunAcks(v, front);
      RunFitsIff(v, front);
      assert front[..|front|] == front;
      FitsNoAck(Run(v, front), SessionOf(front));
      StepAcks(Run(v, front), trips[|trips| - 1]);
    }
  }

  lemma FitsNoAck(v: Loop, s: Session)
    requires Fits(v, s)
    ensures v.ctrl & IRQ_CLR == 0
  {
  }

  // ---------- the main loop ----------

  /** The globals of vctcxo_tamer.c and the locals of main, with the registers they are written to. */
  class MainLoop {
    var ctrl: bv8
    var sent: seq<bv8>
    var locked: bool
    var shown: Dac
    var ready: bool
    var counts: Counts
    var tune: TuneState
    var x0: int
    var x1: int
    var dac: Dac
    var driven: bool
    var en: bool
    var enOld: bool

    function View(): Loop
      reads this
    {
      Loop(ctrl, sent, locked, shown, ready, counts, tune, x0, x1, dac, driven, en)
    }

    constructor (locked: bool, shown: Dac, counts: Counts)
      ensures View() == Loop(0, [], locked, shown, false, counts, CoarseTuneMin, 0, 0, 30714, true, false)
      ensures Initial(View())
    {
      ctrl, sent, this.locked, this.shown := 0, [], locked, shown;
      ready, this.counts, tune := false, counts, CoarseTuneMin;
      x0, x1, dac, driven, en, enOld := 0, 0, 30714, true, false, false;
    }

    method ResetCounters(reset: bool)
      modifies this`ctrl, this`sent
      ensures ctrl == if reset then old(ctrl) | 0x01 else old(ctrl) & 0xFE
      ensures sent == old(sent) + [ctrl]
    {
      if reset {
        ctrl := ctrl | RESET;
      } else {
        ctrl := ctrl & !RESET;
      }
      sent := sent + [ctrl];
    }

    method EnableIsr(enable: bool)
      modifies this`ctrl, this`sent
      ensures ctrl == if enable then old(ctrl) | 0x10 else old(ctrl) & 0xEF
      ensures sent == old(sent) + [ctrl]
    {
      if enable {
        ctrl := ctrl | IRQ_EN;
      } else {
        ctrl := ctrl & !IRQ_EN;
      }
      sent := sent + [ctrl];
    }

    method ClearIsr()
      modifies this`sent
      ensures sent == old(sent) + [ctrl | IRQ_CLR]
    {
      sent := sent + [ctrl | IRQ_CLR];
    }

    method SetTuneMode(mode: Mode)
      modifies this`ctrl, this`sent
      ensures ctrl == WithMode(old(ctrl), mode)
      ensures sent == old(sent) + ModeBytes(old(ctrl), mode)
    {
      if mode == Invalid {
        return;
      }
      ghost var ctrl0, sent0 := ctrl, sent;
      ChangeMode(mode);
      if mode != Disabled {
        Rearm();
        assert sent0 + ModeBytes(ctrl0, mode) == sent0 + StopBytes(ctrl0, mode)
            + [InReset(ctrl0, mode) & 0xFE] + [(InReset(ctrl0, mode) & 0xFE) | IRQ_EN];
      }
      LastModeByte(ctrl0, mode);
    }

    /** The first half: the mode changes with the interrupt off, and ends with the counters in reset. */
    method ChangeMode(mode: Mode)
      modifies this`ctrl, this`sent
      ensures ctrl == InReset(old(ctrl), mode)
      ensures sent == old(sent) + StopBytes(old(ctrl), mode)
    {
      ghost var ctrl0 := ctrl;
      EnableIsr(false);
      ctrl := ctrl & !TUNE_MODE;
      ctrl := ctrl | mode.Code();
      sent := sent + [ctrl];
      ResetCounters(true);
      ResetAfterMode(ctrl0, mode);
    }

    method Isr(reported: Counts)
      modifies this`ctrl, this`sent, this`counts, this`ready
      ensures View() == Interrupted(old(View()), reported)
    {
      EnableIsr(false);
      ResetCounters(true);
      counts := reported;
      ClearIsr();
      ready := true;
    }

    method DriveDac(value: Dac)
      modifies this`shown, this`dac, this`driven
      ensures shown == dac == value && driven
    {
      shown := value;
      dac, driven := value, true;
    }

    /** The state machine, entered with a packet ready. */
    method Tune(tuned: Dac)
      modifies this`shown, this`dac, this`driven, this`tune, this`x0, this`x1, this`locked
      ensures View() == Stepped(old(View()), tuned)
    {
      match tune
      case CoarseTuneMin =>
        DriveDac(DAC_MIN);
        tune := CoarseTuneMax;
      case CoarseTuneMax =>
        x0 := counts.err1s;
        DriveDac(DAC_MAX);
        tune := CoarseTuneDone;
      case CoarseTuneDone =>
        locked := true;
        x1 := counts.err1s;
        DriveDac(tuned);
        tune := FineTune;
      case FineTune =>
        if counts.flag1s {
          DriveDac(tuned);
        } else if counts.flag10s {
          DriveDac(tuned);
        } else if counts.flag100s {
          DriveDac(tuned);
        }
      case DoNothing =>
    }

    /** The enable bit, and what a change of it does. */
    method Sample(enable: bool)
      modifies this`ctrl, this`sent, this`locked, this`ready, this`tune, this`en, this`enOld
      ensures View() == Sampled(old(View()), enable)
    {
      enOld := en;
      en := enable;
      if enOld != en {
        locked := false;
        if en {
          SetTuneMode(OnePps);
          ready := true;
        } else {
          SetTuneMode(Disabled);
          tune := CoarseTuneMin;
          ready := false;
        }
      }
    }

    /** The pending packet, if there is one. */
    method Serve(tuned: Dac)
      modifies this
      ensures View() == Served(old(View()), tuned)
    {
      if ready {
        ready := false;
        Tune(tuned);
        Rearm();
      }
    }

    /** Counters and interrupt on again. */
    method Rearm()
      modifies this`ctrl, this`sent
      ensures View() == Rearmed(old(View()))
      ensures ctrl == (old(ctrl) & 0xFE) | IRQ_EN
      ensures sent == old(sent) + [old(ctrl) & 0xFE] + [ctrl]
    {
      ResetCounters(false);
      EnableIsr(true);
    }

    /** One trip round the main loop. */
    method Go(t: Trip)
      modifies this
      ensures View() == Step(old(View()), t)
    {
      if t.irq {
        Isr(t.counts);
      }
      Sample(t.enable);
      Serve(t.tuned);
      match t.host
      case Silent =>
      case SetDac(value) => dac, driven := value, true;
      case ThreeState => driven := false;
    }

    /** Trip after trip, from power-up. */
    method GoOn(trips: seq<Trip>)
      requires Initial(View()) && OrderlyRun(trips)
      modifies this
      ensures View() == Run(old(View()), trips) && Fits(View(), SessionOf(trips))
    {
      for i := 0 to |trips|
        invariant View() == Run(old(View()), trips[..i])
      {
        Go(trips[i]);
        assert trips[..i + 1][..i] == trips[..i];
      }
      RunFitsIff(old(View()), trips);
      assert trips[..|trips|] == trips;
    }
  }
}
