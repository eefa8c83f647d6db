/** The alarm scheduler on its 32-bit tick counter (alt_tick.c, alt_alarm_start.c), and its agreement
    with a scheduler on a clock that never wraps. */
module Alarms {
  import opened CInt

  /** How often the 32-bit counter has wrapped. */
  function Epoch(x: nat): nat {
    x / 0x1_0000_0000
  }

  const LAST: Word := 0xFFFF_FFFF

  /** An alarm structure: when it is due on the counter, and whether the counter wraps first. */
  class Alarm {
    var time: Word
    var rollover: bool
  }

  // ---------- the 32-bit scheduler, as values ----------

  /** A registered alarm: its due time as the counter will show it, and whether the counter wraps first. */
  datatype Entry = Entry(alarm: Alarm, time: Word, rollover: bool)

  datatype Timer = Timer(nticks: Word, entries: seq<Entry>)

  /** Once the counter has wrapped, the alarm may fire. */
  function Woken(e: Entry, nticks: Word): Entry {
    if e.rollover && nticks == 0 then e.(rollover := false) else e
  }

  predicate Fires(e: Entry, nticks: Word) {
    var w := Woken(e, nticks);
    w.time <= nticks && !w.rollover
  }

  function Rearmed(e: Entry, nticks: Word, wait: Word): Entry {
    var w := Woken(e, nticks);
    var time := Low(w.time + wait);
    Entry(w.alarm, time, if time < nticks then true else w.rollover)
  }

  /** What the callbacks would answer at one tick; one not listed answers 0. */
  type Replies = map<Alarm, Word>

  function Answer(replies: Replies, a: Alarm): Word {
    if a in replies then replies[a] else 0
  }

  /** What a tick leaves of one alarm, given what its callback answers. */
  function Ticked(e: Entry, nticks: Word, replies: Replies): seq<Entry> {
    if !Fires(e, nticks) then [Woken(e, nticks)]
    else if Answer(replies, e.alarm) == 0 then []
    else [Rearmed(e, nticks, Answer(replies, e.alarm))]
  }

  function TickedAll(es: seq<Entry>, nticks: Word, replies: Replies): seq<Entry> {
    if es == [] then []
    else Ticked(es[0], nticks, replies) + TickedAll(es[1..], nticks, replies)
  }

  /** The alarms called, in list order. */
  function Fired(es: seq<Entry>, nticks: Word): seq<Alarm> {
    if es == [] then []
    else (if Fires(es[0], nticks) then [es[0].alarm] else []) + Fired(es[1..], nticks)
  }

  function Started(a: Alarm, n: Word, nticks: Word): Entry {
    var time := Low(n + nticks + 1);
    Entry(a, time, time < nticks)
  }

  function Without(es: seq<Entry>, a: Alarm): seq<Entry> {
    if es == [] then []
    else (if es[0].alarm == a then [] else [es[0]]) + Without(es[1..], a)
  }

  // ---------- a scheduler without wrap-around ----------

  datatype Plan = Plan(alarm: Alarm, due: nat)

  datatype Clock = Clock(now: nat, plans: seq<Plan>)

  function Served(p: Plan, now: nat, replies: Replies): seq<Plan> {
    if p.due != now then [p]
    else if Answer(replies, p.alarm) == 0 then []
    else [Plan(p.alarm, now + Answer(replies, p.alarm))]
  }

  function ServedAll(ps: seq<Plan>, now: nat, replies: Replies): seq<Plan> {
    if ps == [] then []
    else Served(ps[0], now, replies) + ServedAll(ps[1..], now, replies)
  }

  function Due(ps: seq<Plan>, now: nat): seq<Alarm> {
    if ps == [] then []
    else (if ps[0].due == now then [ps[0].alarm] else []) + Due(ps[1..], now)
  }

  function Dropped(ps: seq<Plan>, a: Alarm): seq<Plan> {
    if ps == [] then []
    else (if ps[0].alarm == a then [] else [ps[0]]) + Dropped(ps[1..], a)
  }

  // ---------- runs ----------

  /** A tick with what each callback would answer, or a call of alt_alarm_start or alt_alarm_stop. */
  datatype Event = Tick(replies: Replies) | Start(a: Alarm, n: Word) | Stop(a: Alarm)

  function TimerNext(t: Timer, ev: Event): Timer {
    match ev
    case Tick(replies) =>
      var n := Low(t.nticks + 1);
      Timer(n, TickedAll(t.entries, n, replies))
    case Start(a, n) => t.(entries := [Started(a, n, t.nticks)] + t.entries)
    case Stop(a) => t.(entries := Without(t.entries, a))
  }

  function TimerFires(t: Timer, ev: Event): seq<Alarm> {
    if ev.Tick? then Fired(t.entries, Low(t.nticks + 1)) else []
  }

  /** The alarms called at each event of a run. */
  function TimerRun(t: Timer, evs: seq<Event>): (trace: seq<seq<Alarm>>)
    ensures |trace| == |evs|
    decreases |evs|
  {
    if evs == [] then [] else [TimerFires(t, evs[0])] + TimerRun(TimerNext(t, evs[0]), evs[1..])
  }

  function ClockNext(c: Clock, ev: Event): Clock {
    match ev
    case Tick(replies) => Clock(c.now + 1, ServedAll(c.plans, c.now + 1, replies))
    case Start(a, n) => c.(plans := [Plan(a, c.now + n + 1)] + c.plans)
    case Stop(a) => c.(plans := Dropped(c.plans, a))
  }

  function ClockFires(c: Clock, ev: Event): seq<Alarm> {
    if ev.Tick? then Due(c.plans, c.now + 1) else []
  }

  function ClockRun(c: Clock, evs: seq<Event>): (trace: seq<seq<Alarm>>)
    ensures |trace| == |evs|
    decreases |evs|
  {
    if evs == [] then [] else [ClockFires(c, evs[0])] + ClockRun(ClockNext(c, evs[0]), evs[1..])
  }

  // ---------- refinement ----------

  /** The low 32 bits of the due time in the entry, and the rollover flag set just while the due time
      lies in a later epoch.  Alarm due time one whole epoch away can be told from the present only when the
      counter wraps at the next tick. */
  ghost predicate Matches(e: Entry, p: Plan, now: nat) {
    && e.alarm == p.alarm
    && e.time == Low(p.due)
    && now < p.due <= now + 0x1_0000_0000
    && (if p.due < now + 0x1_0000_0000 then e.rollover <==> Epoch(p.due) > Epoch(now)
        else !e.rollover && Low(now) == LAST)
  }

  ghost predicate AllMatch(es: seq<Entry>, ps: seq<Plan>, now: nat) {
    if es == [] || ps == [] then es == [] && ps == []
    else Matches(es[0], ps[0], now) && AllMatch(es[1..], ps[1..], now)
  }

  ghost predicate Refines(t: Timer, c: Clock) {
    t.nticks == Low(c.now) && AllMatch(t.entries, c.plans, c.now)
  }

  /** One tick on: the counter has wrapped or not, and the flag with it. */
  lemma WokenMatches(e: Entry, p: Plan, now: nat)
    requires Matches(e, p, now)
    ensures var w := Woken(e, Low(now + 1));
            w.rollover <==> Epoch(p.due) > Epoch(now + 1)
  {
  }

  lemma TickMatches(e: Entry, p: Plan, now: nat, replies: Replies)
    requires Matches(e, p, now)
    ensures Fires(e, Low(now + 1)) <==> p.due == now + 1
    ensures AllMatch(Ticked(e, Low(now + 1), replies), Served(p, now + 1, replies), now + 1)
  {
    WokenMatches(e, p, now);
    if p.due == now + 1 {
      RearmedMatches(e, p, now, Answer(replies, e.alarm));
    }
  }

  lemma RearmedMatches(e: Entry, p: Plan, now: nat, wait: Word)
    requires Matches(e, p, now) && p.due == now + 1
    ensures wait > 0 ==> Matches(Rearmed(e, Low(now + 1), wait), Plan(p.alarm, now + 1 + wait), now + 1)
  {
    WokenMatches(e, p, now);
  }

  lemma {:induction false} MatchConcat(es: seq<Entry>, ps: seq<Plan>, es': seq<Entry>, ps': seq<Plan>, now: nat)
    requires AllMatch(es, ps, now) && AllMatch(es', ps', now)
    ensures AllMatch(es + es', ps + ps', now)
  {
    if es == [] {
      assert es + es' == es' && ps + ps' == ps';
    } else {
      MatchConcat(es[1..], ps[1..], es', ps', now);
      assert (es + es')[1..] == es[1..] + es' && (ps + ps')[1..] == ps[1..] + ps';
    }
  }

  lemma {:induction false} TickAllMatch(es: seq<Entry>, ps: seq<Plan>, now: nat, replies: Replies)
    requires AllMatch(es, ps, now)
    ensures Fired(es, Low(now + 1)) == Due(ps, now + 1)
    ensures AllMatch(TickedAll(es, Low(now + 1), replies), ServedAll(ps, now + 1, replies), now + 1)
  {
    if es != [] {
      TickAllMatch(es[1..], ps[1..], now, replies);
      TickMatches(es[0], ps[0], now, replies);
      MatchConcat(Ticked(es[0], Low(now + 1), replies), Served(ps[0], now + 1, replies),
                  TickedAll(es[1..], Low(now + 1), replies), ServedAll(ps[1..], now + 1, replies), now + 1);
    }
  }

  lemma {:induction false} DropMatch(es: seq<Entry>, ps: seq<Plan>, now: nat, a: Alarm)
    requires AllMatch(es, ps, now)
    ensures AllMatch(Without(es, a), Dropped(ps, a), now)
  {
    if es != [] {
      DropMatch(es[1..], ps[1..], now, a);
      var e, p := if es[0].alarm == a then [] else [es[0]], if ps[0].alarm == a then [] else [ps[0]];
      MatchConcat(e, p, Without(es[1..], a), Dropped(ps[1..], a), now);
    }
  }

  /** A delay that alt_alarm_start can represent, given the counter. */
  predicate Representable(n: Word, nticks: Word) {
    n < LAST || nticks == LAST
  }

  /** Starting an alarm gives it the right due time exactly when the delay is representable; otherwise
      the very next tick calls it, 2^32 - 1 ticks early. */
  lemma StartMatchesIff(t: Timer, c: Clock, a: Alarm, n: Word)
    requires Refines(t, c)
    ensures Matches(Started(a, n, t.nticks), Plan(a, c.now + n + 1), c.now) <==> Representable(n, t.nticks)
    ensures !Representable(n, t.nticks) ==> Fires(Started(a, n, t.nticks), Low(t.nticks + 1))
  {
  }

  predicate Startable(t: Timer, ev: Event) {
    ev.Start? ==> Representable(ev.n, t.nticks)
  }

  predicate AllStartable(t: Timer, evs: seq<Event>)
    decreases |evs|
  {
    evs == [] || (Startable(t, evs[0]) && AllStartable(TimerNext(t, evs[0]), evs[1..]))
  }

  lemma StartRefines(t: Timer, c: Clock, a: Alarm, n: Word)
    requires Refines(t, c) && Representable(n, t.nticks)
    ensures Refines(TimerNext(t, Start(a, n)), ClockNext(c, Start(a, n)))
  {
    StartMatchesIff(t, c, a, n);
  }

  lemma TickRefines(t: Timer, c: Clock, replies: Replies)
    requires Refines(t, c)
    ensures Refines(TimerNext(t, Tick(replies)), ClockNext(c, Tick(replies)))
    ensures TimerFires(t, Tick(replies)) == ClockFires(c, Tick(replies))
  {
    LowNext(c.now);
    TickAllMatch(t.entries, c.plans, c.now, replies);
  }

  lemma LowNext(now: nat)
    ensures Low(Low(now) + 1) == Low(now + 1)
  {
  }

  lemma StopRefines(t: Timer, c: Clock, a: Alarm)
    requires Refines(t, c)
    ensures Refines(TimerNext(t, Stop(a)), ClockNext(c, Stop(a)))
  {
    DropMatch(t.entries, c.plans, c.now, a);
  }

  lemma StepRefines(t: Timer, c: Clock, ev: Event)
    requires Refines(t, c) && Startable(t, ev)
    ensures Refines(TimerNext(t, ev), ClockNext(c, ev))
    ensures TimerFires(t, ev) == ClockFires(c, ev)
  {
    match ev
    case Tick(replies) => TickRefines(t, c, replies);
    case Start(a, n) => StartRefines(t, c, a, n);
    case Stop(a) => StopRefines(t, c, a);
  }

  /** Over every run, whatever the callbacks answer and however often the counter wraps, the 32-bit
      scheduler calls the same alarms at the same events as the one that never wraps. */
  lemma {:induction false} RunRefines(t: Timer, c: Clock, evs: seq<Event>)
    requires Refines(t, c) && AllStartable(t, evs)
    ensures TimerRun(t, evs) == ClockRun(c, evs)
    decreases |evs|
  {
    if evs != [] {
      StepRefines(t, c, evs[0]);
      RunRefines(TimerNext(t, evs[0]), ClockNext(c, evs[0]), evs[1..]);
    }
  }

  // ---------- when an alarm is called ----------

  function Ticks(evs: seq<Event>): nat {
    if evs == [] then 0 else (if evs[0].Tick? then 1 else 0) + Ticks(evs[1..])
  }

  function ClockAfter(c: Clock, evs: seq<Event>): Clock
    decreases |evs|
  {
    if evs == [] then c else ClockAfter(ClockNext(c, evs[0]), evs[1..])
  }

  /** a is registered exactly once, due at due. */
  ghost predicate Registered(ps: seq<Plan>, a: Alarm, due: nat) {
    exists i :: RegisteredAt(ps, a, due, i)
  }

  ghost predicate RegisteredAt(ps: seq<Plan>, a: Alarm, due: nat, i: int) {
    && 0 <= i < |ps| && ps[i] == Plan(a, due)
    && forall j :: 0 <= j < |ps| && j != i ==> ps[j].alarm != a
  }

  ghost predicate Unregistered(ps: seq<Plan>, a: Alarm) {
    forall j :: 0 <= j < |ps| ==> ps[j].alarm != a
  }

  /** An event that neither starts nor stops a. */
  ghost predicate LeavesAlone(ev: Event, a: Alarm) {
    match ev
    case Tick(_) => true
    case Start(b, _) => b != a
    case Stop(b) => b != a
  }

  lemma {:induction false} ServedUnregistered(ps: seq<Plan>, now: nat, replies: Replies, a: Alarm)
    requires Unregistered(ps, a)
    ensures Unregistered(ServedAll(ps, now, replies), a) && a !in Due(ps, now)
  {
    if ps != [] {
      ServedUnregistered(ps[1..], now, replies, a);
    }
  }

  lemma {:induction false} DroppedUnregistered(ps: seq<Plan>, a: Alarm, b: Alarm)
    requires Unregistered(ps, a)
    ensures Unregistered(Dropped(ps, b), a)
  {
    if ps != [] {
      DroppedUnregistered(ps[1..], a, b);
    }
  }

  lemma {:induction false} ServedRegistered(ps: seq<Plan>, now: nat, replies: Replies, a: Alarm, due: nat)
    requires Registered(ps, a, due)
    ensures a in Due(ps, now) <==> due == now
    ensures due != now ==> Registered(ServedAll(ps, now, replies), a, due)
    ensures due == now && Answer(replies, a) != 0 ==>
              Registered(ServedAll(ps, now, replies), a, now + Answer(replies, a))
    ensures due == now && Answer(replies, a) == 0 ==> Unregistered(ServedAll(ps, now, replies), a)
  {
    var i :| RegisteredAt(ps, a, due, i);
    var rest := ps[1..];
    var done := ServedAll(rest, now, replies);
    if i == 0 {
      ServedUnregistered(rest, now, replies, a);
      if due != now {
        assert RegisteredAt(ServedAll(ps, now, replies), a, due, 0);
      } else if Answer(replies, a) != 0 {
        assert RegisteredAt(ServedAll(ps, now, replies), a, now + Answer(replies, a), 0);
      }
    } else {
      assert RegisteredAt(rest, a, due, i - 1);
      ServedRegistered(rest, now, replies, a, due);
      var due' := if due != now then due else now + Answer(replies, a);
      if due != now || Answer(replies, a) != 0 {
        var k :| RegisteredAt(done, a, due', k);
        assert RegisteredAt(ServedAll(ps, now, replies), a, due', |Served(ps[0], now, replies)| + k);
      }
    }
  }

  lemma {:induction false} DroppedRegistered(ps: seq<Plan>, a: Alarm, due: nat, b: Alarm)
    requires Registered(ps, a, due) && b != a
    ensures Registered(Dropped(ps, b), a, due)
  {
    var i :| RegisteredAt(ps, a, due, i);
    var rest := ps[1..];
    if i == 0 {
      DroppedUnregistered(rest, a, b);
      assert RegisteredAt(Dropped(ps, b), a, due, 0);
    } else {
      assert RegisteredAt(rest, a, due, i - 1);
      DroppedRegistered(rest, a, due, b);
      var k :| RegisteredAt(Dropped(rest, b), a, due, k);
      assert RegisteredAt(Dropped(ps, b), a, due, if ps[0].alarm == b then k else k + 1);
    }
  }

  ghost predicate AllLeaveAlone(evs: seq<Event>, a: Alarm) {
    evs == [] || (LeavesAlone(evs[0], a) && AllLeaveAlone(evs[1..], a))
  }

  /** One event that leaves a alone. */
  lemma StepRegistered(c: Clock, ev: Event, a: Alarm, due: nat)
    requires Registered(c.plans, a, due) && LeavesAlone(ev, a)
    ensures a in ClockFires(c, ev) <==> ev.Tick? && due == c.now + 1
    ensures !(ev.Tick? && due == c.now + 1) ==> Registered(ClockNext(c, ev).plans, a, due)
    ensures ev.Tick? && due == c.now + 1 && Answer(ev.replies, a) != 0 ==>
              Registered(ClockNext(c, ev).plans, a, due + Answer(ev.replies, a))
    ensures ev.Tick? && due == c.now + 1 && Answer(ev.replies, a) == 0 ==> Unregistered(ClockNext(c, ev).plans, a)
  {
    match ev
    case Tick(replies) => ServedRegistered(c.plans, c.now + 1, replies, a, due);
    case Start(b, n) =>
      var i :| RegisteredAt(c.plans, a, due, i);
      assert RegisteredAt(ClockNext(c, ev).plans, a, due, i + 1);
    case Stop(b) => DroppedRegistered(c.plans, a, due, b);
  }

  /** The last event of the trace calls a, and none before it does. */
  ghost predicate CalledAtEnd(trace: seq<seq<Alarm>>, a: Alarm) {
    && trace != [] && a in trace[|trace| - 1]
    && forall i :: 0 <= i < |trace| - 1 ==> a !in trace[i]
  }

  /** On the unbounded clock the next call of an alarm comes at exactly its due tick, and reschedules it by
      what its callback answers there. */
  lemma {:induction false} NextCallOnClock(c: Clock, evs: seq<Event>, a: Alarm, due: nat)
    requires Registered(c.plans, a, due) && c.now < due
    requires AllLeaveAlone(evs, a)
    requires evs != [] && evs[|evs| - 1].Tick? && Ticks(evs) == due - c.now
    ensures CalledAtEnd(ClockRun(c, evs), a)
    ensures ClockAfter(c, evs).now == due
    ensures var wait := Answer(evs[|evs| - 1].replies, a);
            if wait == 0 then Unregistered(ClockAfter(c, evs).plans, a)
            else Registered(ClockAfter(c, evs).plans, a, due + wait)
    decreases |evs|
  {
    StepRegistered(c, evs[0], a, due);
    var next := ClockNext(c, evs[0]);
    if |evs| > 1 {
      TicksOfLast(evs[1..]);
      NextCallOnClock(next, evs[1..], a, due);
    } else {
      assert Ticks(evs[1..]) == 0;
      assert ClockAfter(next, evs[1..]) == next;
    }
  }

  lemma {:induction false} TicksOfLast(evs: seq<Event>)
    requires evs != [] && evs[|evs| - 1].Tick?
    ensures Ticks(evs) >= 1
  {
    if |evs| > 1 {
      TicksOfLast(evs[1..]);
    }
  }

  lemma StartRegisters(c: Clock, a: Alarm, n: Word)
    requires Unregistered(c.plans, a)
    ensures Registered(ClockNext(c, Start(a, n)).plans, a, c.now + n + 1)
  {
    assert RegisteredAt(ClockNext(c, Start(a, n)).plans, a, c.now + n + 1, 0);
  }

  lemma FirstCallOnClock(c: Clock, a: Alarm, n: Word, evs: seq<Event>)
    requires Unregistered(c.plans, a)
    requires AllLeaveAlone(evs, a)
    requires evs != [] && evs[|evs| - 1].Tick? && Ticks(evs) == n + 1
    ensures CalledAtEnd(ClockRun(ClockNext(c, Start(a, n)), evs), a)
  {
    StartRegisters(c, a, n);
    NextCallOnClock(ClockNext(c, Start(a, n)), evs, a, c.now + n + 1);
  }

  /** An alarm started with n is first called at the (n+1)-th tick after, by the 32-bit scheduler, in
      every run that leaves it alone. */
  lemma FirstCall(t: Timer, c: Clock, a: Alarm, n: Word, evs: seq<Event>)
    requires Refines(t, c) && Unregistered(c.plans, a) && Representable(n, t.nticks)
    requires AllStartable(TimerNext(t, Start(a, n)), evs)
    requires AllLeaveAlone(evs, a)
    requires evs != [] && evs[|evs| - 1].Tick? && Ticks(evs) == n + 1
    ensures CalledAtEnd(TimerRun(TimerNext(t, Start(a, n)), evs), a)
  {
    StartRefines(t, c, a, n);
    RunRefines(TimerNext(t, Start(a, n)), ClockNext(c, Start(a, n)), evs);
    FirstCallOnClock(c, a, n, evs);
  }

  // ---------- stopping ----------

  lemma {:induction false} DroppedIsGone(ps: seq<Plan>, a: Alarm)
    ensures Unregistered(Dropped(ps, a), a)
  {
    if ps != [] {
      DroppedIsGone(ps[1..], a);
    }
  }

  ghost predicate NeverCalled(trace: seq<seq<Alarm>>, a: Alarm) {
    forall i :: 0 <= i < |trace| ==> a !in trace[i]
  }

  lemma {:induction false} UnregisteredRun(c: Clock, evs: seq<Event>, a: Alarm)
    requires Unregistered(c.plans, a) && AllLeaveAlone(evs, a)
    ensures NeverCalled(ClockRun(c, evs), a)
    decreases |evs|
  {
    if evs != [] {
      match evs[0] {
        case Tick(replies) => ServedUnregistered(c.plans, c.now + 1, replies, a);
        case Start(b, n) =>
        case Stop(b) => DroppedUnregistered(c.plans, a, b);
      }
      UnregisteredRun(ClockNext(c, evs[0]), evs[1..], a);
    }
  }

  /** A stopped alarm, registered or not, is called at no later event until it is started again. */
  lemma StoppedIsNeverCalled(t: Timer, c: Clock, a: Alarm, evs: seq<Event>)
    requires Refines(t, c) && AllStartable(TimerNext(t, Stop(a)), evs) && AllLeaveAlone(evs, a)
    ensures NeverCalled(TimerRun(TimerNext(t, Stop(a)), evs), a)
  {
    StopRefines(t, c, a);
    RunRefines(TimerNext(t, Stop(a)), ClockNext(c, Stop(a)), evs);
    DroppedIsGone(c.plans, a);
    UnregisteredRun(ClockNext(c, Stop(a)), evs, a);
  }

  // ---------- the order of calls ----------

  /** The places of a and b in a list of alarms. */
  function Only(alarms: seq<Alarm>, a: Alarm, b: Alarm): seq<Alarm> {
    if alarms == [] then []
    else (if alarms[0] == a || alarms[0] == b then [alarms[0]] else []) + Only(alarms[1..], a, b)
  }

  function Names(ps: seq<Plan>): seq<Alarm> {
    if ps == [] then [] else [ps[0].alarm] + Names(ps[1..])
  }

  /** An alarm's callback always asks to be called again. */
  ghost predicate Lasting(ev: Event, a: Alarm) {
    ev.Tick? ==> Answer(ev.replies, a) != 0
  }

  lemma OnlyNext(p: Plan, ps: seq<Plan>, a: Alarm, b: Alarm)
    ensures Only(Names([p] + ps), a, b)
         == (if p.alarm == a || p.alarm == b then [p.alarm] else []) + Only(Names(ps), a, b)
  {
    assert ([p] + ps)[1..] == ps;
  }

  lemma {:induction false} ServedOrder(ps: seq<Plan>, now: nat, replies: Replies, a: Alarm, b: Alarm)
    requires Answer(replies, a) != 0 && Answer(replies, b) != 0
    ensures Only(Names(ServedAll(ps, now, replies)), a, b) == Only(Names(ps), a, b)
  {
    if ps != [] {
      ServedOrder(ps[1..], now, replies, a, b);
      var p, done := ps[0], ServedAll(ps[1..], now, replies);
      OnlyNext(p, ps[1..], a, b);
      assert [p] + ps[1..] == ps;
      if p.due == now && Answer(replies, p.alarm) == 0 {
        assert ServedAll(ps, now, replies) == done;
      } else {
        var p' := Plan(p.alarm, if p.due == now then now + Answer(replies, p.alarm) else p.due);
        assert ServedAll(ps, now, replies) == [p'] + done;
        OnlyNext(p', done, a, b);
      }
    }
  }

  lemma {:induction false} DroppedOrder(ps: seq<Plan>, x: Alarm, a: Alarm, b: Alarm)
    requires x != a && x != b
    ensures Only(Names(Dropped(ps, x)), a, b) == Only(Names(ps), a, b)
  {
    if ps != [] {
      DroppedOrder(ps[1..], x, a, b);
      OnlyNext(ps[0], ps[1..], a, b);
      assert [ps[0]] + ps[1..] == ps;
      if ps[0].alarm == x {
        assert [] + Dropped(ps[1..], x) == Dropped(ps[1..], x);
      } else {
        OnlyNext(ps[0], Dropped(ps[1..], x), a, b);
      }
    }
  }

  /** The order in which two alarms are registered outlasts every event about neither of them. */
  lemma {:induction false} OrderIsKept(c: Clock, evs: seq<Event>, a: Alarm, b: Alarm)
    requires AllLeaveAlone(evs, a) && AllLeaveAlone(evs, b)
    requires forall ev :: ev in evs ==> Lasting(ev, a) && Lasting(ev, b)
    ensures Only(Names(ClockAfter(c, evs).plans), a, b) == Only(Names(c.plans), a, b)
    decreases |evs|
  {
    if evs != [] {
      assert Lasting(evs[0], a) && Lasting(evs[0], b);
      match evs[0] {
        case Tick(replies) => ServedOrder(c.plans, c.now + 1, replies, a, b);
        case Start(x, n) => OnlyNext(Plan(x, c.now + n + 1), c.plans, a, b);
        case Stop(x) => DroppedOrder(c.plans, x, a, b);
      }
      OrderIsKept(ClockNext(c, evs[0]), evs[1..], a, b);
    }
  }

  lemma {:induction false} DueOrder(ps: seq<Plan>, now: nat, a: Alarm, b: Alarm)
    requires forall p :: p in ps && (p.alarm == a || p.alarm == b) ==> p.due == now
    ensures Only(Due(ps, now), a, b) == Only(Names(ps), a, b)
  {
    if ps != [] {
      DueOrder(ps[1..], now, a, b);
      OnlyNext(ps[0], ps[1..], a, b);
      assert [ps[0]] + ps[1..] == ps;
      if ps[0].due == now {
        assert ([ps[0].alarm] + Due(ps[1..], now))[1..] == Due(ps[1..], now);
      } else {
        assert [] + Due(ps[1..], now) == Due(ps[1..], now);
        assert ps[0] in ps;
      }
    }
  }

  lemma {:induction false} OnlyOne(ps: seq<Plan>, a: Alarm, due: nat, b: Alarm)
    requires Unregistered(ps, b)
    requires Registered(ps, a, due)
    ensures Only(Names(ps), b, a) == [a]
  {
    var i :| RegisteredAt(ps, a, due, i);
    OnlyNext(ps[0], ps[1..], b, a);
    assert [ps[0]] + ps[1..] == ps;
    if i == 0 {
      OnlyNone(ps[1..], b, a);
    } else {
      assert RegisteredAt(ps[1..], a, due, i - 1);
      OnlyOne(ps[1..], a, due, b);
    }
  }

  lemma {:induction false} OnlyNone(ps: seq<Plan>, a: Alarm, b: Alarm)
    requires Unregistered(ps, a) && Unregistered(ps, b)
    ensures Only(Names(ps), a, b) == []
  {
    if ps != [] {
      OnlyNone(ps[1..], a, b);
    }
  }

  /** a and b are due at the next tick. */
  ghost predicate BothDue(c: Clock, a: Alarm, b: Alarm) {
    forall p :: p in c.plans && (p.alarm == a || p.alarm == b) ==> p.due == c.now + 1
  }

  lemma CalledInOrder(t: Timer, c: Clock, a: Alarm, b: Alarm, replies: Replies)
    requires Refines(t, c) && BothDue(c, a, b)
    ensures Only(TimerFires(t, Tick(replies)), a, b) == Only(Names(c.plans), a, b)
  {
    TickRefines(t, c, replies);
    DueOrder(c.plans, c.now + 1, a, b);
  }

  lemma StartedIsFirst(c: Clock, a: Alarm, n: Word, b: Alarm, due: nat)
    requires Unregistered(c.plans, a) && Registered(c.plans, b, due)
    ensures Only(Names(ClockNext(c, Start(a, n)).plans), a, b) == [a, b]
  {
    OnlyOne(c.plans, b, due, a);
    OnlyNext(Plan(a, c.now + n + 1), c.plans, a, b);
  }

  /** Of two alarms due at the same tick, the 32-bit scheduler calls the one started later first. */
  lemma NewestFirst(t: Timer, c: Clock, a: Alarm, b: Alarm, due: nat, n: Word, evs: seq<Event>, replies: Replies)
    requires Refines(t, c) && Representable(n, t.nticks) && Unregistered(c.plans, a) && Registered(c.plans, b, due)
    requires AllStartable(TimerNext(t, Start(a, n)), evs) && AllLeaveAlone(evs, a) && AllLeaveAlone(evs, b)
    requires forall ev :: ev in evs ==> Lasting(ev, a) && Lasting(ev, b)
    requires BothDue(ClockAfter(ClockNext(c, Start(a, n)), evs), a, b)
    ensures Only(TimerFires(TimerAfter(TimerNext(t, Start(a, n)), evs), Tick(replies)), a, b) == [a, b]
  {
    var t1, c1 := TimerNext(t, Start(a, n)), ClockNext(c, Start(a, n));
    StartRefines(t, c, a, n);
    StartedIsFirst(c, a, n, b, due);
    OrderIsKept(c1, evs, a, b);
    AfterRefines(t1, c1, evs);
    CalledInOrder(TimerAfter(t1, evs), ClockAfter(c1, evs), a, b, replies);
  }

  // ---------- every call ----------

  function TimerAfter(t: Timer, evs: seq<Event>): Timer
    decreases |evs|
  {
    if evs == [] then t else TimerAfter(TimerNext(t, evs[0]), evs[1..])
  }

  lemma {:induction false} AfterRefines(t: Timer, c: Clock, evs: seq<Event>)
    requires Refines(t, c) && AllStartable(t, evs)
    ensures Refines(TimerAfter(t, evs), ClockAfter(c, evs))
    decreases |evs|
  {
    if evs != [] {
      StepRefines(t, c, evs[0]);
      AfterRefines(TimerNext(t, evs[0]), ClockNext(c, evs[0]), evs[1..]);
    }
  }

  /** The 32-bit scheduler's next call of an alarm comes at exactly the tick it is due, and reschedules it by
      what its callback answers there, or drops it if that is 0; and so on from there. */
  lemma NextCall(t: Timer, c: Clock, evs: seq<Event>, a: Alarm, due: nat)
    requires Refines(t, c) && Registered(c.plans, a, due) && c.now < due
    requires AllStartable(t, evs) && AllLeaveAlone(evs, a)
    requires evs != [] && evs[|evs| - 1].Tick? && Ticks(evs) == due - c.now
    ensures CalledAtEnd(TimerRun(t, evs), a)
    ensures Refines(TimerAfter(t, evs), ClockAfter(c, evs)) && ClockAfter(c, evs).now == due
    ensures var wait := Answer(evs[|evs| - 1].replies, a);
            if wait == 0 then Unregistered(ClockAfter(c, evs).plans, a)
            else Registered(ClockAfter(c, evs).plans, a, due + wait)
  {
    RunRefines(t, c, evs);
    AfterRefines(t, c, evs);
    NextCallOnClock(c, evs, a, due);
  }

  /** Stretches of a run, each ending in a tick and holding just as many ticks as a's callback asked for at
      the end of the one before, the first of them wait. */
  ghost predicate Paced(t: Timer, stretches: seq<seq<Event>>, a: Alarm, wait: nat)
    decreases |stretches|
  {
    stretches == [] ||
    var evs := stretches[0];
    && wait > 0 && Ticks(evs) == wait
    && AllStartable(t, evs) && AllLeaveAlone(evs, a)
    && evs != [] && evs[|evs| - 1].Tick?
    && Paced(TimerAfter(t, evs), stretches[1..], a, Answer(evs[|evs| - 1].replies, a))
  }

  /** The alarm is called at the end of each stretch and nowhere else. */
  ghost predicate CalledAtEachEnd(t: Timer, stretches: seq<seq<Event>>, a: Alarm)
    decreases |stretches|
  {
    stretches == [] ||
    (CalledAtEnd(TimerRun(t, stretches[0]), a) && CalledAtEachEnd(TimerAfter(t, stretches[0]), stretches[1..], a))
  }

  /** Every firing comes exactly the returned number of ticks after the last, for as long as the callback
      answers other than 0, and the alarm is not called in between. */
  lemma {:induction false} EveryCall(t: Timer, c: Clock, stretches: seq<seq<Event>>, a: Alarm, due: nat)
    requires Refines(t, c) && Registered(c.plans, a, due) && c.now < due
    requires Paced(t, stretches, a, due - c.now)
    ensures CalledAtEachEnd(t, stretches, a)
    decreases |stretches|
  {
    if stretches != [] {
      var evs := stretches[0];
      NextCall(t, c, evs, a, due);
      var wait := Answer(evs[|evs| - 1].replies, a);
      if stretches[1..] != [] {
        EveryCall(TimerAfter(t, evs), ClockAfter(c, evs), stretches[1..], a, due + wait);
      }
    }
  }

  /** From alt_alarm_start on: first n + 1 ticks, then whatever the callback asks for. */
  lemma EveryCallFromStart(t: Timer, c: Clock, a: Alarm, n: Word, stretches: seq<seq<Event>>)
    requires Refines(t, c) && Unregistered(c.plans, a) && Representable(n, t.nticks)
    requires Paced(TimerNext(t, Start(a, n)), stretches, a, n + 1)
    ensures CalledAtEachEnd(TimerNext(t, Start(a, n)), stretches, a)
  {
    StartRefines(t, c, a, n);
    StartRegisters(c, a, n);
    EveryCall(TimerNext(t, Start(a, n)), ClockNext(c, Start(a, n)), stretches, a, c.now + n + 1);
  }
}
