/** The alarm list in memory: alt_tick, alt_alarm_start and alt_alarm_stop update it in place, each
    doing exactly what the corresponding event of module Alarms says. */
module AlarmList {
  import opened CInt
  import opened Alarms

  ghost function EntryOf(a: Alarm): Entry
    reads a
  {
    Entry(a, a.time, a.rollover)
  }

  ghost function Entries(alarms: seq<Alarm>): (es: seq<Entry>)
    reads alarms
    ensures |es| == |alarms|
  {
    seq(|alarms|, i requires 0 <= i < |alarms| reads alarms => EntryOf(alarms[i]))
  }

  /** What alt_alarm_start returns: 0, or minus an error number. */
  datatype Status = Success | NotSupported | InvalidArgument

  class Scheduler {
    var nticks: Word
    var tickRate: Word
    /** The registered alarms, in list order. */
    var alarms: seq<Alarm>

    constructor (tickRate: Word)
      ensures Valid() && View() == Timer(0, []) && this.tickRate == tickRate
    {
      this.tickRate, nticks, alarms := tickRate, 0, [];
    }

    /** No alarm is in the list twice. */
    ghost predicate Valid()
      reads this
    {
      forall i, j :: 0 <= i < j < |alarms| ==> alarms[i] != alarms[j]
    }

    ghost function View(): Timer
      reads this, alarms
    {
      Timer(nticks, Entries(alarms))
    }

    /** Every alarm in the list is one of objs. */
    ghost predicate Within(objs: set<Alarm>)
      reads this
    {
      forall j :: 0 <= j < |alarms| ==> alarms[j] in objs
    }

    /** The loop body of alt_tick, all but taking the alarm out of the list. */
    method Serve(alarm: Alarm, replies: Replies) returns (called: bool, keep: bool)
      modifies alarm
      ensures called == Fires(old(EntryOf(alarm)), nticks)
      ensures Ticked(old(EntryOf(alarm)), nticks, replies) == if keep then [EntryOf(alarm)] else []
    {
      keep := true;
      if alarm.rollover && nticks == 0 {
        alarm.rollover := false;
      }
      called := alarm.time <= nticks && !alarm.rollover;
      if called {
        var next := Answer(replies, alarm);
        if next == 0 {
          keep := false;
        } else {
          alarm.time := Low(alarm.time + next);
          if alarm.time < nticks {
            alarm.rollover := true;
          }
        }
      }
    }

    /** The loop body for the alarm at position k; k' is the position of the next one. */
    method Visit(k: nat, replies: Replies, ghost objs: set<Alarm>) returns (called: bool, k': nat)
      requires Valid() && k < |alarms| && Within(objs)
      modifies this`alarms, alarms[k]
      ensures Valid() && Within(objs)
      ensures var e := old(EntryOf(alarms[k]));
              && called == Fires(e, nticks)
              && k' == k + |Ticked(e, nticks, replies)|
              && Entries(alarms)
                 == old(Entries(alarms))[..k] + Ticked(e, nticks, replies) + old(Entries(alarms))[k + 1..]
    {
      var keep;
      called, keep := Serve(alarms[k], replies);
      k' := k + 1;
      if !keep {
        alarms := alarms[..k] + alarms[k + 1..];
        k' := k;
      }
    }

    /** The walk over the alarms es is at position k: what it has left and what it has called, with what
        it still has to do, come to the whole tick. */
    ghost predicate Going(es: seq<Entry>, k: nat, calls: seq<Alarm>, replies: Replies)
      reads this, alarms
    {
      Valid() && Halfway(es, Entries(alarms), k, calls, nticks, replies)
    }

    method GoOn(k: nat, calls: seq<Alarm>, replies: Replies, ghost es: seq<Entry>, ghost objs: set<Alarm>)
        returns (k': nat, calls': seq<Alarm>)
      requires Going(es, k, calls, replies) && k < |alarms| && Within(objs)
      modifies this`alarms, alarms[k]
      ensures Going(es, k', calls', replies) && Within(objs)
      ensures |alarms| - k' < old(|alarms|) - k
    {
      ghost var x := Entries(alarms);
      var alarm := alarms[k];
      assert x[k] == EntryOf(alarm);
      var called;
      called, k' := Visit(k, replies, objs);
      WalkStep(es, x, Entries(alarms), k, calls, nticks, replies);
      calls' := if called then calls + [alarm] else calls;
    }

    /** The loop of alt_tick: k is the position of the alarm to look at next. */
    method Walk(replies: Replies, ghost objs: set<Alarm>) returns (calls: seq<Alarm>)
      requires Valid() && Within(objs)
      modifies this`alarms, objs
      ensures Valid()
      ensures Entries(alarms) == TickedAll(old(Entries(alarms)), nticks, replies)
      ensures calls == Fired(old(Entries(alarms)), nticks)
    {
      ghost var es := Entries(alarms);
      calls := [];
      var k: nat := 0;
      assert es[0..] == es;
      while k < |alarms|
        invariant Going(es, k, calls, replies) && Within(objs)
        decreases |alarms| - k
      {
        k, calls := GoOn(k, calls, replies, es, objs);
      }
    }

    /** alt_tick.  calls lists the alarms whose callbacks run, in order. */
    method Tick(replies: Replies) returns (calls: seq<Alarm>)
      requires Valid()
      modifies this, alarms
      ensures Valid()
      ensures View() == TimerNext(old(View()), Event.Tick(replies))
      ensures calls == TimerFires(old(View()), Event.Tick(replies))
      ensures tickRate == old(tickRate)
    {
      nticks := Low(nticks + 1);
      calls := Walk(replies, set a | a in alarms);
    }

    /** alt_alarm_start, for an alarm that is not in the list already. */
    method Start(alarm: Alarm?, n: Word) returns (rc: Status)
      requires Valid() && alarm !in alarms
      modifies this`alarms, alarm
      ensures Valid()
      ensures rc == (if tickRate == 0 then NotSupported else if alarm == null then InvalidArgument else Success)
      ensures rc == Success ==> View() == TimerNext(old(View()), Event.Start(alarm, n))
      ensures rc != Success ==> View() == old(View())
    {
      if tickRate == 0 {
        return NotSupported;
      }
      if alarm == null {
        return InvalidArgument;
      }
      alarm.time := Low(n + nticks + 1);
      alarm.rollover := alarm.time < nticks;
      alarms := [alarm] + alarms;
      return Success;
    }

    /** alt_alarm_stop; stopping an alarm that is not in the list does nothing. */
    method Stop(alarm: Alarm)
      requires Valid()
      modifies this`alarms
      ensures Valid()
      ensures View() == TimerNext(old(View()), Event.Stop(alarm))
    {
      ghost var es := Entries(alarms);
      if k :| 0 <= k < |alarms| && alarms[k] == alarm {
        WithoutAt(es, alarm, k);
        alarms := alarms[..k] + alarms[k + 1..];
        assert Entries(alarms) == es[..k] + es[k + 1..];
      } else {
        WithoutNone(es, alarm);
      }
    }
  }

  ghost predicate Halfway(es: seq<Entry>, x: seq<Entry>, k: nat, calls: seq<Alarm>, nticks: Word, replies: Replies) {
    && k <= |x|
    && x[..k] + TickedAll(x[k..], nticks, replies) == TickedAll(es, nticks, replies)
    && calls + Fired(x[k..], nticks) == Fired(es, nticks)
  }

  lemma WalkStep(es: seq<Entry>, x: seq<Entry>, y: seq<Entry>, k: nat, calls: seq<Alarm>, nticks: Word,
                 replies: Replies)
    requires k < |x| && Halfway(es, x, k, calls, nticks, replies)
    requires y == x[..k] + Ticked(x[k], nticks, replies) + x[k + 1..]
    ensures Halfway(es, y, k + |Ticked(x[k], nticks, replies)|,
                    if Fires(x[k], nticks) then calls + [x[k].alarm] else calls, nticks, replies)
  {
    var k' := k + |Ticked(x[k], nticks, replies)|;
    assert x[k..][1..] == x[k + 1..] == y[k'..];
    assert y[..k'] == x[..k] + Ticked(x[k], nticks, replies);
  }

  lemma {:induction false} WithoutNone(es: seq<Entry>, a: Alarm)
    requires forall i :: 0 <= i < |es| ==> es[i].alarm != a
    ensures Without(es, a) == es
  {
    if es != [] {
      WithoutNone(es[1..], a);
    }
  }

  lemma {:induction false} WithoutAt(es: seq<Entry>, a: Alarm, k: nat)
    requires k < |es| && es[k].alarm == a
    requires forall i :: 0 <= i < |es| && i != k ==> es[i].alarm != a
    ensures Without(es, a) == es[..k] + es[k + 1..]
  {
    if k == 0 {
      WithoutNone(es[1..], a);
    } else {
      WithoutAt(es[1..], a, k - 1);
      assert [es[0]] + es[1..][..k - 1] == es[..k];
    }
  }
}
