/** The one-shot timer of ReactSkia/sdk/FollyTimer.cpp, on a clock of whole milliseconds. */
module FollyTimer {
  import opened Options

  datatype CallbackId = CallbackId(number: real)

  /** What waits in the timer thread's event base: a time-out to report, or a callback to run at once. */
  datatype Task = Timeout | Call(id: CallbackId)

  /** `getFutureTime` is one year ahead. */
  const ONE_YEAR := 31536000000

  datatype TimerState = TimerState(armedAt: Option<int>, queue: seq<Task>)
  {
    /** The callback will run when the event base is next idle, or when the wheel timer expires, no later than `t`. */
    predicate ArmedBy(t: real) {
      Timeout in queue || (armedAt.Some? && armedAt.value as real <= t)
    }
  }

  /** A double converted to a whole number of milliseconds. */
  function Truncated(duration: real): int
    requires duration >= 0.0
  {
    duration.Floor
  }

  /** The whole milliseconds that have passed by the end of the duration. */
  lemma TruncatedExactly(duration: real)
    requires duration >= 0.0
    ensures duration - 1.0 < Truncated(duration) as real <= duration
  {
  }

  lemma OneYearIs()
    ensures ONE_YEAR == 365 * 24 * 60 * 60 * 1000
  {
  }

  /** The unit in which the wheel timer counts the time that remains. */
  datatype Unit = Microseconds | Milliseconds

  /** The count of the wheel timer divided by 1000: milliseconds only if it counts in microseconds. */
  function GetTimeRemaining(s: TimerState, now: int, unit: Unit): int {
    if s.armedAt.None? || s.armedAt.value <= now then 0
    else
      match unit
      case Microseconds => (s.armedAt.value - now) * 1000 / 1000
      case Milliseconds => (s.armedAt.value - now) / 1000
  }

  /** A short duration replaces a scheduled time-out by an immediate one; a longer one only ever moves it forward. */
  function RescheduledIn(s: TimerState, now: int, duration: real, unit: Unit): TimerState {
    if duration < 1.0 then TimerState(None, s.queue + [Timeout])
    else if s.armedAt.None? || duration < GetTimeRemaining(s, now, unit) as real
    then s.(armedAt := Some(now + Truncated(duration)))
    else s
  }

  /** What the code takes for the time that remains: all of it, or its thousandth part. */
  lemma RemainingExactly(s: TimerState, now: int)
    requires s.armedAt.Some? && s.armedAt.value > now
    ensures GetTimeRemaining(s, now, Microseconds) == s.armedAt.value - now
    ensures var r := GetTimeRemaining(s, now, Milliseconds); 1000 * r <= s.armedAt.value - now < 1000 * (r + 1)
  {
  }

  /** A timer that is not armed gets armed for the end of the duration, or reports at once if that is less than one. */
  lemma RescheduledIdle(s: TimerState, now: int, duration: real, unit: Unit)
    requires s.armedAt.None?
    ensures var after := RescheduledIn(s, now, duration, unit);
      if duration < 1.0 then after.armedAt.None? && after.queue == s.queue + [Timeout]
      else
        && after.queue == s.queue && after.armedAt.Some?
        && now as real + duration - 1.0 < after.armedAt.value as real <= now as real + duration
  {
  }

  /** When rescheduling leaves the timer armed by `t`: for a short duration, if a time-out is queued, if the timer is
      not armed or armed by `t`, or if the duration is less than what the code takes for the time that remains. */
  predicate ArmsBy(s: TimerState, now: int, duration: real, unit: Unit, t: real) {
    || duration < 1.0 || s.armedAt.None? || s.ArmedBy(t)
    || duration < GetTimeRemaining(s, now, unit) as real
  }

  /** Whichever unit the wheel timer counts in, rescheduling never postpones what the timer was armed for. */
  lemma RescheduledNeverPostpones(s: TimerState, now: int, duration: real, unit: Unit, t: real)
    requires s.ArmedBy(t)
    ensures RescheduledIn(s, now, duration, unit).ArmedBy(t)
  {
    if duration < 1.0 {
      assert RescheduledIn(s, now, duration, unit).queue[|s.queue|] == Timeout;
    }
  }

  /** A timer rescheduled for a time before `t` is armed by `t` exactly under this condition. */
  lemma RescheduledArmsExactly(s: TimerState, now: int, duration: real, unit: Unit, t: real)
    requires duration >= 1.0 ==> (now + Truncated(duration)) as real <= t
    ensures RescheduledIn(s, now, duration, unit).ArmedBy(t) <==> ArmsBy(s, now, duration, unit, t)
  {
    if duration < 1.0 {
      assert RescheduledIn(s, now, duration, unit).queue[|s.queue|] == Timeout;
    } else if s.ArmedBy(t) {
      RescheduledNeverPostpones(s, now, duration, unit, t);
    }
  }

  /** And it is armed by `t` for nothing else than having been, or being rescheduled for then. */
  lemma RescheduledArmsNothingElse(s: TimerState, now: int, duration: real, unit: Unit, t: real)
    requires duration >= 1.0 && t < (now + Truncated(duration)) as real
    ensures RescheduledIn(s, now, duration, unit).ArmedBy(t) <==> s.ArmedBy(t)
  {
    if s.ArmedBy(t) {
      RescheduledNeverPostpones(s, now, duration, unit, t);
    }
  }

  lemma WholeBelow(whole: int, duration: real)
    requires 0.0 <= duration && whole as real <= duration
    ensures whole <= Truncated(duration)
  {
  }

  /** If the wheel timer counts in microseconds, the condition always holds: on a clock of whole milliseconds,
      truncating the duration loses nothing. */
  lemma MicrosecondsAlwaysArm(s: TimerState, now: int, duration: real, t: real)
    requires duration >= 1.0 ==> (now + Truncated(duration)) as real <= t
    ensures ArmsBy(s, now, duration, Microseconds, t)
  {
    if duration >= 1.0 && s.armedAt.Some? && duration >= (s.armedAt.value - now) as real {
      WholeBelow(s.armedAt.value - now, duration);
    }
  }

  /** Armed for ten seconds ahead, the timer is not brought forward for a time-out of five. */
  lemma CoarseRemainderExample()
    ensures RescheduledIn(TimerState(Some(10000), []), 0, 5000.0, Milliseconds) == TimerState(Some(10000), [])
    ensures RescheduledIn(TimerState(Some(10000), []), 0, 5000.0, Microseconds) == TimerState(Some(5000), [])
  {
    assert Truncated(5000.0) == 5000;
  }

  class Timer {
    const unit: Unit
    var armedAt: Option<int>
    var queue: seq<Task>

    function State(): TimerState
      reads this
    {
      TimerState(armedAt, queue)
    }

    /** A new timer, started at once if `autostart` is set. */
    constructor (unit: Unit, now: int, duration: real, autostart: bool)
      ensures this.unit == unit
      ensures State() == if autostart then RescheduledIn(TimerState(None, []), now, duration, unit) else TimerState(None, [])
    {
      this.unit, armedAt, queue := unit, None, [];
      new;
      if autostart {
        Start(now, duration);
      }
    }

    /** Schedules the time-out unless one is scheduled. */
    method Start(now: int, targetDuration: real)
      modifies this
      ensures State() == if old(armedAt).Some? then old(State()) else RescheduledIn(old(State()), now, targetDuration, unit)
    {
      if armedAt.Some? {
        return;
      }
      if targetDuration < 1.0 {
        queue := queue + [Timeout];
        return;
      }
      armedAt := Some(now + Truncated(targetDuration));
    }

    method Reschedule(now: int, duration: real)
      modifies this
      ensures State() == RescheduledIn(old(State()), now, duration, unit)
    {
      if duration < 1.0 {
        if armedAt.Some? {
          Abort();
        }
        queue := queue + [Timeout];
        return;
      }
      if armedAt.None? || duration < GetTimeRemaining(State(), now, unit) as real {
        armedAt := Some(now + Truncated(duration));
      }
    }

    method Abort()
      modifies this
      ensures State() == old(State()).(armedAt := None)
    {
      if armedAt.None? {
        return;
      }
      armedAt := None;
    }

    method ScheduleImmediate(id: CallbackId)
      modifies this
      ensures State() == old(State()).(queue := old(queue) + [Call(id)])
    {
      queue := queue + [Call(id)];
    }

    /** The wheel timer expires. */
    method Expire(now: int)
      requires armedAt.Some? && armedAt.value <= now
      modifies this
      ensures State() == old(State()).(armedAt := None)
    {
      armedAt := None;
    }

    /** The event base takes its next task. */
    method TakeTask() returns (task: Task)
      requires queue != []
      modifies this
      ensures old(queue) == [task] + queue && armedAt == old(armedAt)
    {
      task := queue[0];
      queue := queue[1..];
    }
  }
}
