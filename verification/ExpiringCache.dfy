/** The cache of ReactSkia/sdk/ThreadSafeCache.h, whose entries a timer removes when they expire. */
module ExpiringCache {
  import opened FollyTimer
  import opened Options
  import opened Sets

  datatype CacheData<V> = CacheData(value: V, cacheExpiryTime: real)

  type Entries<!K(==), V> = map<K, CacheData<V>>

  /** The entries that have not expired. */
  function Unexpired<K(==), V>(entries: Entries<K, V>, now: int): Entries<K, V> {
    map key | key in entries && entries[key].cacheExpiryTime > now as real :: entries[key]
  }

  /** What a sweep keeps: what expires later than now, as it is. */
  lemma UnexpiredExactly<K, V>(entries: Entries<K, V>, now: int, key: K)
    ensures key in Unexpired(entries, now) <==> key in entries && now as real < entries[key].cacheExpiryTime
    ensures key in Unexpired(entries, now) ==> Unexpired(entries, now)[key] == entries[key]
  {
  }

  /** No entry of these keys expires before `t`. */
  predicate BoundsBelow<K(==), V>(entries: Entries<K, V>, keys: set<K>, t: real)
    requires keys <= entries.Keys
  {
    forall key | key in keys :: t <= entries[key].cacheExpiryTime
  }

  /** The earliest expiry of these keys, but no later than the horizon. */
  predicate EarliestExpiry<K(==), V>(entries: Entries<K, V>, keys: set<K>, horizon: real, t: real)
    requires keys <= entries.Keys
  {
    && t <= horizon && BoundsBelow(entries, keys, t)
    && (t == horizon || exists key | key in keys :: entries[key].cacheExpiryTime == t)
  }

  lemma OnlyKey<K, V>(entries: Entries<K, V>, key: K, other: K)
    requires |entries| == 1 && key in entries && other in entries
    ensures other == key
  {
    if other != key {
      assert {key, other} <= entries.Keys;
      SubsetIsSmaller({key, other}, entries.Keys);
    }
  }

  /** A map that does not end up with one entry was not empty before an entry was set. */
  lemma SeveralEntries<K, V>(before: Entries<K, V>, key: K, after: Entries<K, V>)
    requires |after| != 1 && after.Keys == before.Keys + {key}
    ensures before != map[]
  {
    assert |before.Keys + {key}| != 1;
  }

  /** The entries while those of `todo` are still to be looked at. */
  ghost predicate Sweeping<K(!new), V>(entries: Entries<K, V>, todo: set<K>, now: int, half: Entries<K, V>)
    requires todo <= entries.Keys
  {
    && (forall key :: key in half <==> key in entries && (key in todo || entries[key].cacheExpiryTime > now as real))
    && (forall key | key in half :: half[key] == entries[key])
  }

  lemma SweepErases<K(!new), V>(entries: Entries<K, V>, todo: set<K>, now: int, half: Entries<K, V>, key: K, horizon: real, t: real)
    requires todo <= entries.Keys && key in todo && Sweeping(entries, todo, now, half) && entries[key].cacheExpiryTime <= now as real
    requires EarliestExpiry(half, half.Keys - todo, horizon, t)
    ensures var erased := half - {key};
      && Sweeping(entries, todo - {key}, now, erased) && EarliestExpiry(erased, erased.Keys - (todo - {key}), horizon, t)
  {
    var erased := half - {key};
    assert erased.Keys - (todo - {key}) == half.Keys - todo;
  }

  lemma SweepKeeps<K(!new), V>(entries: Entries<K, V>, todo: set<K>, now: int, half: Entries<K, V>, key: K, horizon: real, t: real)
    requires todo <= entries.Keys && key in todo && Sweeping(entries, todo, now, half) && entries[key].cacheExpiryTime > now as real
    requires EarliestExpiry(half, half.Keys - todo, horizon, t)
    ensures key in half && Sweeping(entries, todo - {key}, now, half)
    ensures EarliestExpiry(half, half.Keys - (todo - {key}), horizon,
                           if t > half[key].cacheExpiryTime then half[key].cacheExpiryTime else t)
  {
    var seen, more := half.Keys - todo, half.Keys - (todo - {key});
    assert more == seen + {key};
    assert key in more;
  }

  /** A timer that is not due yet is armed for no later than any expiry, so nothing has expired. */
  lemma NotDueMeansFresh(s: TimerState, now: int, scheduled: real, expiry: real)
    requires s.ArmedBy(scheduled) && scheduled <= expiry
    requires Timeout !in s.queue && s.armedAt.Some? && s.armedAt.value > now
    ensures expiry > now as real
  {
  }

  // ---------------------------------------------------------------- when the timer is armed in time

  /** The timer is armed no later than every expiry. */
  predicate Covered<K(==), V>(entries: Entries<K, V>, s: TimerState) {
    forall key | key in entries :: s.ArmedBy(entries[key].cacheExpiryTime)
  }

  /** The first expiry of all. */
  predicate IsEarliestExpiry<K(==), V>(entries: Entries<K, V>, t: real) {
    (exists key | key in entries :: entries[key].cacheExpiryTime == t) && BoundsBelow(entries, entries.Keys, t)
  }

  /** Rescheduled for a new or changed entry, the timer covers all entries exactly if it is armed by this one's expiry. */
  lemma StoredInTimeExactly<K(!new), V>(entries: Entries<K, V>, s: TimerState, now: int, key: K, data: CacheData<V>, unit: Unit)
    requires forall other | other in entries && other != key :: s.ArmedBy(entries[other].cacheExpiryTime)
    ensures Covered(entries[key := data], RescheduledIn(s, now, data.cacheExpiryTime - now as real, unit))
            <==> ArmsBy(s, now, data.cacheExpiryTime - now as real, unit, data.cacheExpiryTime)
  {
    var after, duration := entries[key := data], data.cacheExpiryTime - now as real;
    var rescheduled := RescheduledIn(s, now, duration, unit);
    RescheduledArmsExactly(s, now, duration, unit, data.cacheExpiryTime);
    assert after[key] == data;
    forall other | other in after && other != key ensures rescheduled.ArmedBy(after[other].cacheExpiryTime) {
      RescheduledNeverPostpones(s, now, duration, unit, entries[other].cacheExpiryTime);
    }
  }

  /** Without rescheduling, all entries are covered exactly if the timer was armed by this one's expiry anyway. */
  lemma KeptInTimeExactly<K, V>(entries: Entries<K, V>, s: TimerState, key: K, data: CacheData<V>)
    requires Covered(entries, s)
    ensures Covered(entries[key := data], s) <==> s.ArmedBy(data.cacheExpiryTime)
  {
    assert entries[key := data][key] == data;
  }

  /** Rescheduled for the earliest expiry, at most the horizon, the timer covers all entries exactly if it is armed by
      the earliest one. */
  lemma SweptInTimeExactly<K, V>(entries: Entries<K, V>, s: TimerState, now: int, horizon: real, t: real, unit: Unit, earliest: real)
    requires EarliestExpiry(entries, entries.Keys, horizon, t) && IsEarliestExpiry(entries, earliest)
    ensures Covered(entries, RescheduledIn(s, now, t - now as real, unit)) <==> ArmsBy(s, now, t - now as real, unit, earliest)
  {
    var after := RescheduledIn(s, now, t - now as real, unit);
    RescheduledArmsExactly(s, now, t - now as real, unit, earliest);
    if after.ArmedBy(earliest) {
      forall key | key in entries ensures after.ArmedBy(entries[key].cacheExpiryTime) {
      }
    }
  }

  lemma MicrosecondsArm(s: TimerState, now: int, t: real)
    ensures RescheduledIn(s, now, t - now as real, Microseconds).ArmedBy(t)
  {
    MicrosecondsAlwaysArm(s, now, t - now as real, t);
    RescheduledArmsExactly(s, now, t - now as real, Microseconds, t);
  }

  /** If the wheel timer counts in milliseconds: armed for an entry that expires in ten seconds, the timer is not brought
      forward for one that expires in five. */
  lemma LateExpiryExample<K(!new), V>(first: K, second: K, v: V)
    requires first != second
    ensures var s := RescheduledIn(TimerState(None, []), 0, 10000.0, Milliseconds);
      && Covered(map[first := CacheData(v, 10000.0)], s)
      && !Covered(map[first := CacheData(v, 10000.0), second := CacheData(v, 5000.0)], RescheduledIn(s, 0, 5000.0, Milliseconds))
  {
    assert Truncated(10000.0) == 10000 && Truncated(5000.0) == 5000;
    var s := RescheduledIn(TimerState(None, []), 0, 10000.0, Milliseconds);
    var one, data := map[first := CacheData(v, 10000.0)], CacheData(v, 5000.0);
    assert one[second := data] == map[first := CacheData(v, 10000.0), second := data];
    StoredInTimeExactly(one, s, 0, second, data, Milliseconds);
  }

  // ---------------------------------------------------------------- the cache

  class ThreadSafeCache<K(==,!new), V(==)> {
    const unit: Unit
    var cacheMap: Entries<K, V>
    var timer: Timer?
    var scheduleTimeExpiry: real

    /** While there are entries, the timer exists and is armed no later than every expiry. */
    ghost predicate OnTime()
      reads this, timer
    {
      cacheMap != map[] ==> timer != null && Covered(cacheMap, timer.State())
    }

    /** What every call keeps: the deadline is a lower bound of all expiries, and if the wheel timer counts in
        microseconds, so is the armed time. */
    ghost predicate Valid()
      reads this, timer
    {
      && (timer != null ==> timer.unit == unit)
      && (cacheMap != map[] ==> timer != null && BoundsBelow(cacheMap, cacheMap.Keys, scheduleTimeExpiry))
      && (cacheMap != map[] && unit.Microseconds? ==> timer.State().ArmedBy(scheduleTimeExpiry))
    }

    constructor (unit: Unit)
      ensures Valid() && this.unit == unit && OnTime() && cacheMap == map[]
    {
      this.unit, cacheMap, timer, scheduleTimeExpiry := unit, map[], null, 0.0;
    }

    /** If the wheel timer counts in microseconds, the timer is always armed in time. */
    lemma MicrosecondsOnTime()
      requires Valid() && unit.Microseconds?
      ensures OnTime()
    {
    }

    /** Entries are found until the timer removes them, so what is found has not expired unless the timer is due. */
    method GetCacheData(key: K, ghost now: int) returns (data: Option<V>)
      requires Valid()
      ensures data == if key in cacheMap then Some(cacheMap[key].value) else None
      ensures (unit.Microseconds? || OnTime())
              && data.Some? && Timeout !in timer.queue && timer.armedAt.Some? && timer.armedAt.value > now ==>
                cacheMap[key].cacheExpiryTime > now as real
    {
      if key !in cacheMap {
        return None;
      }
      data := Some(cacheMap[key].value);
    }

    /** Stores or overwrites an entry, and re-arms the timer if it is the only one or expires first. The timer stays armed
        in time exactly if rescheduling arms it by this entry's expiry or, without rescheduling, if it was. */
    method SetCache(now: int, key: K, value: V, cacheExpiryTime: real)
      requires Valid()
      modifies this, timer
      ensures Valid() && (timer == old(timer) || fresh(timer))
      ensures cacheMap == old(cacheMap)[key := CacheData(value, cacheExpiryTime)]
      ensures scheduleTimeExpiry ==
              if |cacheMap| == 1 || cacheExpiryTime < old(scheduleTimeExpiry) then cacheExpiryTime else old(scheduleTimeExpiry)
      ensures old(timer) == null ==> OnTime()
      ensures old(OnTime()) && old(timer) != null ==>
        (OnTime() <==> if |cacheMap| == 1 || cacheExpiryTime < old(scheduleTimeExpiry)
                       then ArmsBy(old(timer.State()), now, cacheExpiryTime - now as real, unit, cacheExpiryTime)
                       else old(timer.State()).ArmedBy(cacheExpiryTime))
    {
      ghost var entries, data := cacheMap, CacheData(value, cacheExpiryTime);
      cacheMap := cacheMap[key := CacheData(value, cacheExpiryTime)];
      var currentTime := now;
      if |cacheMap| == 1 {
        scheduleTimeExpiry := cacheExpiryTime;
        forall other | other in cacheMap ensures other == key {
          OnlyKey(cacheMap, key, other);
        }
        assert entries.Keys <= cacheMap.Keys && forall other | other in entries :: other in cacheMap;
        if timer == null {
          StoredInTimeExactly(entries, TimerState(None, []), now, key, data, unit);
          timer := new Timer(unit, now, scheduleTimeExpiry - currentTime as real, true);
        } else {
          StoredInTimeExactly(entries, timer.State(), now, key, data, unit);
          MicrosecondsArm(timer.State(), now, scheduleTimeExpiry);
          timer.Reschedule(now, scheduleTimeExpiry - currentTime as real);
        }
      } else {
        SeveralEntries(old(cacheMap), key, cacheMap);
        if cacheExpiryTime < scheduleTimeExpiry {
          scheduleTimeExpiry := cacheExpiryTime;
          var duration := scheduleTimeExpiry - currentTime as real;
          if old(OnTime()) {
            StoredInTimeExactly(entries, timer.State(), now, key, data, unit);
          }
          MicrosecondsArm(timer.State(), now, scheduleTimeExpiry);
          timer.Reschedule(now, duration);
        } else if old(OnTime()) {
          KeptInTimeExactly(entries, timer.State(), key, data);
        }
      }
    }

    /** Removes exactly the expired entries and re-arms for the earliest of the others, but no later than `futureTime`,
        which the code takes from another clock than the current time. */
    method ExpiryTimerCallback(now: int, futureTime: real)
      requires timer != null && timer.unit == unit
      modifies this, timer
      ensures Valid() && timer == old(timer)
      ensures cacheMap == Unexpired(old(cacheMap), now)
      ensures cacheMap == map[] ==> scheduleTimeExpiry == 0.0 && timer.State() == old(timer.State())
      ensures cacheMap != map[] ==> EarliestExpiry(cacheMap, cacheMap.Keys, futureTime, scheduleTimeExpiry)
      ensures cacheMap != map[] ==> timer.State() == RescheduledIn(old(timer.State()), now, scheduleTimeExpiry - now as real, unit)
      ensures forall earliest | IsEarliestExpiry(cacheMap, earliest) ::
        OnTime() <==> ArmsBy(old(timer.State()), now, scheduleTimeExpiry - now as real, unit, earliest)
    {
      var earliest := EraseExpired(now, futureTime);
      if |cacheMap| != 0 {
        scheduleTimeExpiry := earliest;
        ghost var before := timer.State();
        MicrosecondsArm(before, now, scheduleTimeExpiry);
        timer.Reschedule(now, scheduleTimeExpiry - now as real);
        forall first | IsEarliestExpiry(cacheMap, first)
          ensures OnTime() <==> ArmsBy(before, now, scheduleTimeExpiry - now as real, unit, first)
        {
          SweptInTimeExactly(cacheMap, before, now, futureTime, scheduleTimeExpiry, unit, first);
        }
      } else {
        scheduleTimeExpiry := 0.0;
      }
    }

    /** The loop of the callback: erases while iterating, and keeps the earliest expiry of what stays. */
    method EraseExpired(now: int, futureTime: real) returns (earliest: real)
      modifies `cacheMap
      ensures cacheMap == Unexpired(old(cacheMap), now)
      ensures EarliestExpiry(cacheMap, cacheMap.Keys, futureTime, earliest)
    {
      ghost var entries := cacheMap;
      var todo := cacheMap.Keys;
      earliest := futureTime;
      while todo != {}
        invariant todo <= entries.Keys && Sweeping(entries, todo, now, cacheMap)
        invariant EarliestExpiry(cacheMap, cacheMap.Keys - todo, futureTime, earliest)
        decreases |todo|
      {
        var key :| key in todo;
        if cacheMap[key].cacheExpiryTime <= now as real {
          SweepErases(entries, todo, now, cacheMap, key, futureTime, earliest);
          cacheMap := cacheMap - {key};
        } else {
          SweepKeeps(entries, todo, now, cacheMap, key, futureTime, earliest);
          if earliest > cacheMap[key].cacheExpiryTime {
            earliest := cacheMap[key].cacheExpiryTime;
          }
        }
        todo := todo - {key};
      }
      assert cacheMap.Keys - todo == cacheMap.Keys;
    }

    /** The timer expires: its callback removes what has expired, and whichever unit the wheel timer counts in, the timer
        is armed in time afterwards. */
    method TimeoutExpired(now: int, futureTime: real)
      requires Valid() && timer != null && timer.armedAt.Some? && timer.armedAt.value <= now
      modifies this, timer
      ensures Valid() && timer == old(timer) && cacheMap == Unexpired(old(cacheMap), now)
      ensures OnTime()
    {
      timer.Expire(now);
      ghost var before := timer.State();
      ExpiryTimerCallback(now, futureTime);
      forall key | key in cacheMap ensures timer.State().ArmedBy(cacheMap[key].cacheExpiryTime) {
        RescheduledArmsExactly(before, now, scheduleTimeExpiry - now as real, unit, cacheMap[key].cacheExpiryTime);
      }
    }

    /** The event base reports a time-out that was due at once. */
    method RunTask(now: int, futureTime: real)
      requires Valid() && timer != null && timer.queue != [] && timer.queue[0].Timeout?
      modifies this, timer
      ensures Valid() && timer == old(timer) && cacheMap == Unexpired(old(cacheMap), now)
      ensures forall earliest | IsEarliestExpiry(cacheMap, earliest) ::
        OnTime() <==> ArmsBy(TimerState(old(timer.armedAt), old(timer.queue)[1..]), now, scheduleTimeExpiry - now as real, unit, earliest)
    {
      var _ := timer.TakeTask();
      ExpiryTimerCallback(now, futureTime);
    }
  }
}
