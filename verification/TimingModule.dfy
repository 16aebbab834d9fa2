/** The JavaScript timers of ReactSkia/core_modules/RSkTimingModule.cpp: many timers on one one-shot timer. */
module TimingModule {
  import opened FollyTimer
  import opened Options

  datatype JsTimer = JsTimer(target: int, duration: real, repeats: bool)

  type JsTimers = map<CallbackId, JsTimer>

  predicate Expired(timer: JsTimer, now: int) {
    timer.target <= now
  }

  /** The timers after a firing: expired one-shots are gone, expired repeating ones start over from now. */
  function Fired(timers: JsTimers, now: int): JsTimers
    requires Startable(timers)
  {
    map id | id in timers && (!Expired(timers[id], now) || timers[id].repeats) ::
      if Expired(timers[id], now) then Restarted(timers[id], now) else timers[id]
  }

  function Restarted(timer: JsTimer, now: int): JsTimer
    requires timer.duration >= 0.0
  {
    timer.(target := now + Truncated(timer.duration))
  }

  /** What a firing does to each timer: nothing before its target; then a one-shot is gone, and a repeating one is due
      again after its duration, in whole milliseconds. */
  lemma FiredExactly(timers: JsTimers, now: int, id: CallbackId)
    requires Startable(timers) && id in timers
    ensures now < timers[id].target ==> id in Fired(timers, now) && Fired(timers, now)[id] == timers[id]
    ensures timers[id].target <= now && !timers[id].repeats ==> id !in Fired(timers, now)
    ensures timers[id].target <= now && timers[id].repeats ==>
      && id in Fired(timers, now)
      && var d, again := timers[id].duration, Fired(timers, now)[id];
         now as real + d - 1.0 < again.target as real <= now as real + d && again.duration == d && again.repeats
  {
    if timers[id].repeats {
      TruncatedExactly(timers[id].duration);
    }
  }

  /** A firing starts no timer of its own. */
  lemma FiredAddsNone(timers: JsTimers, now: int, id: CallbackId)
    requires Startable(timers) && id !in timers
    ensures id !in Fired(timers, now)
  {
  }

  /** The timers when the first `n` of the reported ones have been restarted or erased. */
  ghost predicate Half(timers: JsTimers, report: seq<CallbackId>, n: nat, now: int, half: JsTimers)
    requires n <= |report| && Startable(timers)
  {
    && (forall id :: id in half <==> id in timers && (id in report[..n] ==> timers[id].repeats))
    && (forall id | id in half :: half[id] == if id in report[..n] then Restarted(timers[id], now) else timers[id])
  }

  lemma NextOfHalf(timers: JsTimers, report: seq<CallbackId>, n: nat, now: int, half: JsTimers)
    requires n < |report| && Startable(timers) && Half(timers, report, n, now, half) && Reports(report, timers, now)
    ensures report[n] in timers && report[n] !in report[n + 1..]
    ensures timers[report[n]].repeats ==> timers[report[n]].duration >= 0.0
    ensures report[n] in half && half[report[n]] == timers[report[n]]
    ensures Half(timers, report, n + 1, now,
                 if timers[report[n]].repeats then half[report[n] := Restarted(timers[report[n]], now)] else half - {report[n]})
  {
    assert report[n] in report && Expired(timers[report[n]], now);
    assert forall i | 0 <= i < n :: report[i] != report[n];
    assert report[..n + 1] == report[..n] + [report[n]];
    assert report[n] !in report[..n];
  }

  lemma HalfIsFired(timers: JsTimers, report: seq<CallbackId>, now: int, half: JsTimers)
    requires Startable(timers) && Half(timers, report, |report|, now, half) && Reports(report, timers, now)
    ensures half == Fired(timers, now)
  {
    assert report[..|report|] == report;
    forall id | id in half ensures id in Fired(timers, now) && half[id] == Fired(timers, now)[id] {
      assert id in report <==> Expired(timers[id], now);
    }
    forall id | id in Fired(timers, now) ensures id in half {
      assert id in report <==> Expired(timers[id], now);
    }
  }

  /** The durations of repeating timers can be converted to milliseconds. */
  predicate Startable(timers: JsTimers) {
    forall id | id in timers && timers[id].repeats :: timers[id].duration >= 0.0
  }

  // ---------------------------------------------------------------- what a firing reports

  predicate AllKnown(ids: seq<CallbackId>, timers: JsTimers) {
    forall i | 0 <= i < |ids| :: ids[i] in timers
  }

  predicate SortedByTarget(ids: seq<CallbackId>, timers: JsTimers)
    requires AllKnown(ids, timers)
  {
    forall i, j | 0 <= i < j < |ids| :: timers[ids[i]].target <= timers[ids[j]].target
  }

  predicate Distinct(ids: seq<CallbackId>) {
    forall i, j | 0 <= i < j < |ids| :: ids[i] != ids[j]
  }

  /** A right report names exactly the expired timers, once each, by increasing target. */
  ghost predicate Reports(ids: seq<CallbackId>, timers: JsTimers, now: int) {
    && (forall id :: id in ids <==> id in timers && Expired(timers[id], now))
    && AllKnown(ids, timers) && Distinct(ids) && SortedByTarget(ids, timers)
  }

  /** std::lower_bound: the first place whose target is not before the new one's. */
  function PlaceInReport(ids: seq<CallbackId>, timers: JsTimers, target: int): (n: nat)
    requires AllKnown(ids, timers) && SortedByTarget(ids, timers)
    ensures n <= |ids|
    ensures forall i | 0 <= i < |ids| :: i < n <==> timers[ids[i]].target < target
  {
    if ids == [] || timers[ids[0]].target >= target then 0 else 1 + PlaceInReport(ids[1..], timers, target)
  }

  function Inserted(ids: seq<CallbackId>, n: nat, id: CallbackId): (longer: seq<CallbackId>)
    requires n <= |ids|
    ensures |longer| == |ids| + 1
    ensures forall i | 0 <= i < |longer| :: longer[i] == if i < n then ids[i] else if i == n then id else ids[i - 1]
  {
    ids[..n] + [id] + ids[n..]
  }

  lemma InsertedElements(ids: seq<CallbackId>, n: nat, id: CallbackId)
    requires n <= |ids|
    ensures forall x :: x in Inserted(ids, n, id) <==> x in ids || x == id
  {
    assert ids == ids[..n] + ids[n..];
  }

  lemma InsertKeepsOrder(ids: seq<CallbackId>, timers: JsTimers, id: CallbackId)
    requires AllKnown(ids, timers) && SortedByTarget(ids, timers) && id in timers
    ensures var longer := Inserted(ids, PlaceInReport(ids, timers, timers[id].target), id);
      AllKnown(longer, timers) && SortedByTarget(longer, timers)
  {
  }

  lemma InsertKeepsDistinct(ids: seq<CallbackId>, n: nat, id: CallbackId)
    requires Distinct(ids) && n <= |ids| && id !in ids
    ensures Distinct(Inserted(ids, n, id))
  {
  }

  /** What the first loop has collected while the timers of `todo` are still to be looked at. */
  ghost predicate Collected(ids: seq<CallbackId>, timers: JsTimers, todo: set<CallbackId>, now: int) {
    && (forall id :: id in ids <==> id in timers && id !in todo && Expired(timers[id], now))
    && AllKnown(ids, timers) && Distinct(ids) && SortedByTarget(ids, timers)
  }

  /** Inserting the next expired timer where it belongs. */
  lemma InsertCollects(ids: seq<CallbackId>, timers: JsTimers, todo: set<CallbackId>, now: int, id: CallbackId)
    requires Collected(ids, timers, todo, now) && id in todo && id in timers && Expired(timers[id], now)
    ensures Collected(Inserted(ids, PlaceInReport(ids, timers, timers[id].target), id), timers, todo - {id}, now)
  {
    var n := PlaceInReport(ids, timers, timers[id].target);
    InsertKeepsOrder(ids, timers, id);
    InsertKeepsDistinct(ids, n, id);
    InsertedElements(ids, n, id);
  }

  // ---------------------------------------------------------------- when the timer must fire next

  /** The earliest target of these timers, but no later than the horizon. */
  predicate Earliest(timers: JsTimers, ids: set<CallbackId>, horizon: int, t: int)
    requires ids <= timers.Keys
  {
    && t <= horizon && (forall id | id in ids :: t <= timers[id].target)
    && (t == horizon || exists id | id in ids :: timers[id].target == t)
  }

  /** The running minimum of both loops: one more timer is looked at, the others stay as they are. */
  lemma EarliestOfMore(timers: JsTimers, ids: set<CallbackId>, horizon: int, t: int, id: CallbackId, after: JsTimers)
    requires ids <= timers.Keys && Earliest(timers, ids, horizon, t)
    requires id in after && ids <= after.Keys && forall x | x in ids && x != id :: after[x] == timers[x]
    requires id !in ids
    ensures Earliest(after, ids + {id}, horizon, if after[id].target < t then after[id].target else t)
  {
  }

  function PendingIds(timers: JsTimers, now: int): (ids: set<CallbackId>)
    ensures ids <= timers.Keys
  {
    set id | id in timers && !Expired(timers[id], now)
  }

  /** No timer can be overslept: the one-shot timer is armed no later than every target. */
  predicate InTime(timers: JsTimers, s: TimerState) {
    forall id | id in timers :: s.ArmedBy(timers[id].target as real)
  }

  /** Rescheduled for the earliest target, at most a year ahead, the one-shot timer is in time for all timers exactly if
      it is armed by the earliest one. */
  lemma FiredInTimeExactly(timers: JsTimers, s: TimerState, now: int, t: int, unit: Unit, earliest: int)
    requires Earliest(timers, timers.Keys, now + ONE_YEAR, t) && t >= now && IsEarliest(timers, earliest)
    ensures InTime(timers, RescheduledIn(s, now, (t - now) as real, unit)) <==> ArmsBy(s, now, (t - now) as real, unit, earliest as real)
  {
    var after := RescheduledIn(s, now, (t - now) as real, unit);
    RescheduledArmsExactly(s, now, (t - now) as real, unit, earliest as real);
    if after.ArmedBy(earliest as real) {
      forall id | id in timers ensures after.ArmedBy(timers[id].target as real) {
      }
    }
  }

  /** The first target of all. */
  predicate IsEarliest(timers: JsTimers, t: int) {
    (exists id | id in timers :: timers[id].target == t) && forall id | id in timers :: t <= timers[id].target
  }

  /** If the wheel timer counts in microseconds, rescheduling for the earliest target is always in time. */
  lemma ArmedForEarliest(timers: JsTimers, s: TimerState, now: int, t: int)
    requires Earliest(timers, timers.Keys, now + ONE_YEAR, t) && t >= now
    ensures InTime(timers, RescheduledIn(s, now, (t - now) as real, Microseconds))
  {
    forall id | id in timers ensures RescheduledIn(s, now, (t - now) as real, Microseconds).ArmedBy(timers[id].target as real) {
      MicrosecondsAlwaysArm(s, now, (t - now) as real, timers[id].target as real);
      RescheduledArmsExactly(s, now, (t - now) as real, Microseconds, timers[id].target as real);
    }
  }

  /** If the one-shot timer had expired, it is armed for exactly the earliest target, or at once if that is now. */
  lemma ArmedExactly(s: TimerState, now: int, t: int, unit: Unit)
    requires s.armedAt.None? && t >= now
    ensures var after := RescheduledIn(s, now, (t - now) as real, unit);
      if t == now then after.armedAt.None? && after.queue == s.queue + [Timeout]
      else after.armedAt == Some(t) && after.queue == s.queue
  {
  }

  /** A new timer leaves all timers in time exactly if rescheduling for it arms the one-shot timer by its target. */
  lemma CreatedInTimeExactly(timers: JsTimers, s: TimerState, now: int, id: CallbackId, timer: JsTimer, duration: real, unit: Unit)
    requires duration >= 0.0 && timer.target == now + Truncated(duration) && InTime(timers, s)
    ensures InTime(timers[id := timer], RescheduledIn(s, now, duration, unit)) <==> ArmsBy(s, now, duration, unit, timer.target as real)
  {
    var after, rescheduled := timers[id := timer], RescheduledIn(s, now, duration, unit);
    RescheduledArmsExactly(s, now, duration, unit, timer.target as real);
    assert after[id] == timer;
    forall x | x in after && x != id ensures rescheduled.ArmedBy(after[x].target as real) {
      RescheduledNeverPostpones(s, now, duration, unit, timers[x].target as real);
    }
  }

  /** A timer's target never comes before the time it is fired at, so it is not reported again by the same firing. */
  lemma FiredIsPending(timers: JsTimers, now: int)
    requires Startable(timers)
    ensures forall id | id in Fired(timers, now) :: Fired(timers, now)[id].target >= now
    ensures Startable(Fired(timers, now))
    ensures forall id :: id in timers && id !in Fired(timers, now) <==> id in timers && Expired(timers[id], now) && !timers[id].repeats
  {
  }

  function MaxReal(a: real, b: real): real {
    if a >= b then a else b
  }

  /** The first loop looks at a timer that is not due: the running minimum takes it in. */
  lemma PendingSeen(timers: JsTimers, todo: set<CallbackId>, now: int, t: int, id: CallbackId)
    requires id in todo && id in timers && !Expired(timers[id], now)
    requires Earliest(timers, PendingIds(timers, now) - todo, now + ONE_YEAR, t)
    ensures Earliest(timers, PendingIds(timers, now) - (todo - {id}), now + ONE_YEAR, if timers[id].target < t then timers[id].target else t)
  {
    assert PendingIds(timers, now) - (todo - {id}) == (PendingIds(timers, now) - todo) + {id};
    EarliestOfMore(timers, PendingIds(timers, now) - todo, now + ONE_YEAR, t, id, timers);
  }

  /** And at one that is due: the minimum of the others stays. */
  lemma ExpiredSeen(timers: JsTimers, todo: set<CallbackId>, now: int, t: int, id: CallbackId)
    requires id in todo && id in timers && Expired(timers[id], now)
    requires Earliest(timers, PendingIds(timers, now) - todo, now + ONE_YEAR, t)
    ensures Earliest(timers, PendingIds(timers, now) - (todo - {id}), now + ONE_YEAR, t)
  {
    assert PendingIds(timers, now) - (todo - {id}) == PendingIds(timers, now) - todo;
  }

  /** The duration asked for, less the time that the request took; never negative. */
  function TargetDuration(now: int, jsDuration: real, jsSchedulingTime: int): (duration: real)
    ensures duration >= 0.0
  {
    MaxReal(jsDuration - MaxReal((now - jsSchedulingTime) as real, 0.0), 0.0)
  }

  /** A request that took `m` milliseconds gets a target that much earlier than one that took none, but not before now;
      one from the future, or with a negative duration, takes no time off or on. */
  lemma TargetDurationExactly(now: int, d: real, m: int)
    ensures 0 <= m && m as real <= d ==>
      TargetDuration(now, d, now - m) == d - m as real && Truncated(TargetDuration(now, d, now - m)) == Truncated(d) - m
    ensures 0 <= m && d < m as real ==> TargetDuration(now, d, now - m) == 0.0
    ensures m < 0 ==> TargetDuration(now, d, now - m) == if d < 0.0 then 0.0 else d
  {
    if 0 <= m && m as real <= d {
      TruncatedExactly(d);
      TruncatedExactly(d - m as real);
    }
  }

  /** The timers whose targets the second loop knows: all but the reported ones still to come. */
  function SeenIds(half: JsTimers, report: seq<CallbackId>, n: nat): (ids: set<CallbackId>)
    requires n <= |report|
    ensures ids <= half.Keys
  {
    set id | id in half && id !in report[n..]
  }

  lemma RestartStep(half: JsTimers, report: seq<CallbackId>, n: nat, horizon: int, t: int, restarted: JsTimer)
    requires n < |report| && report[n] !in report[n + 1..]
    requires Earliest(half, SeenIds(half, report, n), horizon, t)
    ensures var after := half[report[n] := restarted];
      Earliest(after, SeenIds(after, report, n + 1), horizon, if restarted.target < t then restarted.target else t)
  {
    var after := half[report[n] := restarted];
    assert report[n..] == [report[n]] + report[n + 1..];
    EarliestOfMore(half, SeenIds(half, report, n), horizon, t, report[n], after);
    assert SeenIds(after, report, n + 1) == SeenIds(half, report, n) + {report[n]};
  }

  lemma EraseStep(half: JsTimers, report: seq<CallbackId>, n: nat, horizon: int, t: int)
    requires n < |report| && Earliest(half, SeenIds(half, report, n), horizon, t)
    ensures Earliest(half - {report[n]}, SeenIds(half - {report[n]}, report, n + 1), horizon, t)
  {
    assert report[n..] == [report[n]] + report[n + 1..];
    assert SeenIds(half - {report[n]}, report, n + 1) == SeenIds(half, report, n);
  }

  // ---------------------------------------------------------------- if the wheel timer counts in milliseconds

  const LONG := JsTimer(10000, 10000.0, false)
  const SHORT := JsTimer(5000, 5000.0, false)
  const NOW_DUE := JsTimer(0, 0.5, false)

  /** A timer of ten seconds and then one of five: the second one is overslept. */
  lemma OversleptExample(first: CallbackId, second: CallbackId)
    requires first != second
    ensures var armed := RescheduledIn(TimerState(None, []), 0, 10000.0, Milliseconds);
      && InTime(map[first := LONG], armed)
      && !InTime(map[first := LONG, second := SHORT], RescheduledIn(armed, 0, 5000.0, Milliseconds))
  {
    assert Truncated(10000.0) == 10000 && Truncated(5000.0) == 5000;
    var armed := RescheduledIn(TimerState(None, []), 0, 10000.0, Milliseconds);
    assert map[first := LONG][second := SHORT] == map[first := LONG, second := SHORT];
    CreatedInTimeExactly(map[first := LONG], armed, 0, second, SHORT, 5000.0, Milliseconds);
  }

  /** A timer of ten seconds, two of half a millisecond, the first time-out, and a timer of five seconds: all were in
      time when they were created, but the second time-out arms the one-shot timer too late. */
  lemma OversleptByFiringExample(a: CallbackId, b: CallbackId, c: CallbackId, d: CallbackId)
    requires a != b && a != c && a != d && b != c && b != d && c != d
    ensures var s1 := RescheduledIn(TimerState(None, []), 0, 10000.0, Milliseconds);
      var s3 := RescheduledIn(RescheduledIn(s1, 0, 0.5, Milliseconds), 0, 0.5, Milliseconds);
      var timers := map[a := LONG, b := NOW_DUE, c := NOW_DUE];
      && s3 == TimerState(None, [Timeout, Timeout]) && InTime(timers, s3)
      && Fired(timers, 0) == map[a := LONG] && Earliest(map[a := LONG], {a}, ONE_YEAR, 10000)
      && var s4 := RescheduledIn(TimerState(None, [Timeout]), 0, 10000.0, Milliseconds);
         && s4 == TimerState(Some(10000), [Timeout]) && InTime(map[a := LONG], s4)
         && RescheduledIn(s4, 0, 5000.0, Milliseconds) == s4 && InTime(map[a := LONG, d := SHORT], s4)
         && Fired(map[a := LONG, d := SHORT], 0) == map[a := LONG, d := SHORT]
         && Earliest(map[a := LONG, d := SHORT], {a, d}, ONE_YEAR, 5000)
         && !InTime(map[a := LONG, d := SHORT], RescheduledIn(TimerState(Some(10000), []), 0, 5000.0, Milliseconds))
  {
    assert Truncated(10000.0) == 10000 && Truncated(5000.0) == 5000;
    var last := map[a := LONG, d := SHORT];
    assert last[a] == LONG && last[d] == SHORT;
    FiredInTimeExactly(last, TimerState(Some(10000), []), 0, 5000, Milliseconds, 5000);
  }

  // ---------------------------------------------------------------- the module

  class RSkTimingModule {
    const unit: Unit
    var timer: Timer?
    var jsTimers: JsTimers
    /** The callback ids handed to JavaScript so far, in order. */
    var called: seq<CallbackId>

    /** While there are timers, the one-shot timer exists and is armed in time for all of them. */
    ghost predicate OnTime()
      reads this, timer
    {
      jsTimers != map[] ==> timer != null && InTime(jsTimers, timer.State())
    }

    /** What every call keeps: while there are timers, the one-shot timer exists; and if the wheel timer counts in
        microseconds, it is armed in time for all of them. */
    ghost predicate Valid()
      reads this, timer
    {
      && Startable(jsTimers) && (jsTimers != map[] ==> timer != null) && (timer != null ==> timer.unit == unit)
      && (unit.Microseconds? ==> OnTime())
    }

    constructor (unit: Unit)
      ensures Valid() && this.unit == unit && OnTime() && jsTimers == map[] && called == []
    {
      this.unit, timer, jsTimers, called := unit, null, map[], [];
    }

    /** Immediate one-shots are queued; all others get a target, corrected for the time the request took. All timers stay
        in time exactly if this one is. */
    method CreateTimer(now: int, callbackId: CallbackId, duration: real, jsSchedulingTime: int, repeats: bool)
      requires Valid() && (repeats ==> duration >= 0.0)
      modifies this, timer
      ensures Valid() && (timer == old(timer) || fresh(timer)) && called == old(called)
      ensures duration == 0.0 && !repeats ==> jsTimers == old(jsTimers) && timer != null && Call(callbackId) in timer.queue
      ensures duration == 0.0 && !repeats && old(OnTime()) ==> OnTime()
      ensures !(duration == 0.0 && !repeats) ==>
        var targetDuration := TargetDuration(now, duration, jsSchedulingTime);
        jsTimers == old(jsTimers)[callbackId := JsTimer(now + Truncated(targetDuration), duration, repeats)]
      ensures !(duration == 0.0 && !repeats) && old(OnTime()) && old(timer) == null ==> OnTime()
      ensures !(duration == 0.0 && !repeats) && old(OnTime()) && old(timer) != null ==>
        var targetDuration := TargetDuration(now, duration, jsSchedulingTime);
        OnTime() <==> ArmsBy(old(timer.State()), now, targetDuration, unit, (now + Truncated(targetDuration)) as real)
    {
      if timer == null {
        timer := new Timer(unit, now, duration, false);
      }
      if duration == 0.0 && !repeats {
        timer.ScheduleImmediate(callbackId);
        assert timer.queue[|timer.queue| - 1] == Call(callbackId);
      } else {
        CreateTimerForNextFrame(now, callbackId, duration, jsSchedulingTime, repeats);
      }
    }

    method CreateTimerForNextFrame(now: int, callbackId: CallbackId, jsDuration: real, jsSchedulingTime: int, repeats: bool)
      requires Valid() && (repeats ==> jsDuration >= 0.0) && timer != null
      modifies this, timer
      ensures Valid() && timer == old(timer) && called == old(called)
      ensures var targetDuration := TargetDuration(now, jsDuration, jsSchedulingTime);
        && jsTimers == old(jsTimers)[callbackId := JsTimer(now + Truncated(targetDuration), jsDuration, repeats)]
        && (old(OnTime()) ==>
              (OnTime() <==> ArmsBy(old(timer.State()), now, targetDuration, unit, (now + Truncated(targetDuration)) as real)))
    {
      var jsSchedulingOverhead := MaxReal((now - jsSchedulingTime) as real, 0.0);
      var targetDuration := MaxReal(jsDuration - jsSchedulingOverhead, 0.0);
      var jsTimer := JsTimer(now + Truncated(targetDuration), jsDuration, repeats);
      ghost var before := timer.State();
      timer.Reschedule(now, targetDuration);
      if old(OnTime()) {
        CreatedInTimeExactly(jsTimers, before, now, callbackId, jsTimer, targetDuration, unit);
        if unit == Microseconds {
          MicrosecondsAlwaysArm(before, now, targetDuration, jsTimer.target as real);
        }
      }
      jsTimers := jsTimers[callbackId := jsTimer];
    }

    /** Reports the expired timers and re-arms the one-shot timer for the rest. */
    method TimerDidFire(now: int) returns (ghost report: seq<CallbackId>, ghost next: int)
      requires Startable(jsTimers) && timer != null && timer.unit == unit
      modifies this, timer
      ensures Valid() && timer == old(timer)
      ensures Reports(report, old(jsTimers), now) && called == old(called) + report
      ensures jsTimers == Fired(old(jsTimers), now)
      ensures Earliest(jsTimers, jsTimers.Keys, now + ONE_YEAR, next) && next >= now
      ensures timer.State() ==
              if jsTimers == map[] then old(timer.State()) else RescheduledIn(old(timer.State()), now, (next - now) as real, unit)
      ensures forall earliest | IsEarliest(jsTimers, earliest) ::
        OnTime() <==> ArmsBy(old(timer.State()), now, (next - now) as real, unit, earliest as real)
    {
      ghost var timers := jsTimers;
      var jsTimersToCall, nextScheduledTarget := ListExpired(now);
      called := called + jsTimersToCall;
      report := jsTimersToCall;
      nextScheduledTarget := RestartOrErase(now, jsTimersToCall, nextScheduledTarget);
      next := nextScheduledTarget;
      FiredIsPending(timers, now);
      if |jsTimers| > 0 {
        var targetDuration := MaxReal((nextScheduledTarget - now) as real, 0.0);
        ghost var before := timer.State();
        timer.Reschedule(now, targetDuration);
        ArmedForEarliest(jsTimers, before, now, next);
        forall earliest | IsEarliest(jsTimers, earliest)
          ensures OnTime() <==> ArmsBy(before, now, (next - now) as real, unit, earliest as real)
        {
          FiredInTimeExactly(jsTimers, before, now, next, unit, earliest);
        }
      }
    }

    /** Collects the expired timers in order of their targets, and the earliest target of the others. */
    method ListExpired(now: int) returns (jsTimersToCall: seq<CallbackId>, nextScheduledTarget: int)
      ensures Reports(jsTimersToCall, jsTimers, now)
      ensures now < nextScheduledTarget
      ensures Earliest(jsTimers, PendingIds(jsTimers, now), now + ONE_YEAR, nextScheduledTarget)
    {
      jsTimersToCall, nextScheduledTarget := [], now + ONE_YEAR;
      var todo := jsTimers.Keys;
      while todo != {}
        invariant todo <= jsTimers.Keys && Collected(jsTimersToCall, jsTimers, todo, now)
        invariant now < nextScheduledTarget
        invariant Earliest(jsTimers, PendingIds(jsTimers, now) - todo, now + ONE_YEAR, nextScheduledTarget)
        decreases |todo|
      {
        var id :| id in todo;
        var jsTimer := jsTimers[id];
        if jsTimer.target <= now {
          var it := PlaceInReport(jsTimersToCall, jsTimers, jsTimer.target);
          InsertCollects(jsTimersToCall, jsTimers, todo, now, id);
          ExpiredSeen(jsTimers, todo, now, nextScheduledTarget, id);
          jsTimersToCall := Inserted(jsTimersToCall, it, id);
        } else {
          PendingSeen(jsTimers, todo, now, nextScheduledTarget, id);
          if jsTimer.target < nextScheduledTarget {
            nextScheduledTarget := jsTimer.target;
          }
        }
        todo := todo - {id};
      }
      assert PendingIds(jsTimers, now) - todo == PendingIds(jsTimers, now);
    }

    /** Restarts the repeating ones of the reported timers and erases the others. */
    method RestartOrErase(now: int, jsTimersToCall: seq<CallbackId>, pending: int) returns (nextScheduledTarget: int)
      requires Startable(jsTimers) && Reports(jsTimersToCall, jsTimers, now) && now < pending
      requires Earliest(jsTimers, PendingIds(jsTimers, now), now + ONE_YEAR, pending)
      modifies `jsTimers
      ensures jsTimers == Fired(old(jsTimers), now)
      ensures now <= nextScheduledTarget && Earliest(jsTimers, jsTimers.Keys, now + ONE_YEAR, nextScheduledTarget)
    {
      ghost var timers := jsTimers;
      nextScheduledTarget := pending;
      assert SeenIds(jsTimers, jsTimersToCall, 0) == PendingIds(jsTimers, now);
      for n := 0 to |jsTimersToCall|
        invariant Half(timers, jsTimersToCall, n, now, jsTimers) && now <= nextScheduledTarget
        invariant Earliest(jsTimers, SeenIds(jsTimers, jsTimersToCall, n), now + ONE_YEAR, nextScheduledTarget)
      {
        var id := jsTimersToCall[n];
        NextOfHalf(timers, jsTimersToCall, n, now, jsTimers);
        if jsTimers[id].repeats {
          var restarted := Restarted(jsTimers[id], now);
          RestartStep(jsTimers, jsTimersToCall, n, now + ONE_YEAR, nextScheduledTarget, restarted);
          jsTimers := jsTimers[id := restarted];
          if restarted.target < nextScheduledTarget {
            nextScheduledTarget := restarted.target;
          }
        } else {
          EraseStep(jsTimers, jsTimersToCall, n, now + ONE_YEAR, nextScheduledTarget);
          jsTimers := jsTimers - {id};
        }
      }
      assert SeenIds(jsTimers, jsTimersToCall, |jsTimersToCall|) == jsTimers.Keys;
      HalfIsFired(timers, jsTimersToCall, now, jsTimers);
    }

    /** The wheel timer expires; whichever unit it counts in, all timers are in time afterwards. */
    method TimeoutExpired(now: int) returns (ghost report: seq<CallbackId>, ghost next: int)
      requires Valid() && timer != null && timer.armedAt.Some? && timer.armedAt.value <= now
      modifies this, timer
      ensures Valid() && timer == old(timer)
      ensures Reports(report, old(jsTimers), now) && called == old(called) + report
      ensures jsTimers == Fired(old(jsTimers), now)
      ensures Earliest(jsTimers, jsTimers.Keys, now + ONE_YEAR, next)
      ensures jsTimers != map[] && next > now ==> timer.armedAt == Some(next)
      ensures jsTimers != map[] && next == now ==> Timeout in timer.queue
      ensures OnTime()
    {
      timer.Expire(now);
      ghost var before := timer.State();
      report, next := TimerDidFire(now);
      ArmedExactly(before, now, next, unit);
      if jsTimers != map[] && next == now {
        assert timer.queue[|timer.queue| - 1] == Timeout;
      }
    }

    /** The event base runs its next task: a queued time-out, or an immediate one-shot. After a time-out, all timers are
        in time exactly if rescheduling arms the one-shot timer by the earliest target. */
    method RunTask(now: int) returns (ghost report: seq<CallbackId>, ghost next: int)
      requires Valid() && timer != null && timer.queue != []
      modifies this, timer
      ensures Valid() && timer == old(timer)
      ensures old(timer.queue[0]).Call? ==> jsTimers == old(jsTimers) && called == old(called) + [old(timer.queue[0]).id]
      ensures old(timer.queue[0]).Call? && old(OnTime()) ==> OnTime()
      ensures old(timer.queue[0]).Timeout? ==> jsTimers == Fired(old(jsTimers), now)
      ensures old(timer.queue[0]).Timeout? ==> Reports(report, old(jsTimers), now) && called == old(called) + report
      ensures old(timer.queue[0]).Timeout? ==> Earliest(jsTimers, jsTimers.Keys, now + ONE_YEAR, next)
      ensures old(timer.queue[0]).Timeout? ==> forall earliest | IsEarliest(jsTimers, earliest) ::
        OnTime() <==> ArmsBy(TimerState(old(timer.armedAt), old(timer.queue)[1..]), now, (next - now) as real, unit, earliest as real)
    {
      var task := timer.TakeTask();
      match task {
        case Timeout =>
          report, next := TimerDidFire(now);
        case Call(id) =>
          called := called + [id];
          report, next := [], now;
      }
    }

    /** Forgets a timer; with the last one the one-shot timer goes too, which therefore has to exist. */
    method DeleteTimer(timerId: CallbackId)
      requires Valid() && (jsTimers.Keys <= {timerId} ==> timer != null)
      modifies this, timer
      ensures Valid() && jsTimers == old(jsTimers) - {timerId} && called == old(called) && (old(OnTime()) ==> OnTime())
      ensures timer == if jsTimers == map[] then null else old(timer)
    {
      jsTimers := jsTimers - {timerId};
      if jsTimers == map[] {
        timer.Abort();
        timer := null;
      }
    }
  }
}
