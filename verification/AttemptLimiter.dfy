/**
 * The two attempt counters of the console: the limiter used by the entry gate,
 * and the login counter.  Whatever the clock reads, each method is one step of
 * the pruned table that `SlidingWindow` relates to the complete log; where the
 * readings make the table forget nothing, it answers as the complete log does.
 */
module AttemptLimiter {
  import opened Numerals
  import opened SlidingWindow

  class Limiter {
    const c: Config
    var events: Table
    ghost var log: Table     // every event accepted since its key was last cleared

    constructor (limit: int, windowSeconds: int, keyLimit: int)
      ensures Valid() && events == log == map[]
      ensures forall later :: Exact(later)
      ensures c.limit == if limit < 1 then 1 else if limit > 100 then 100 else limit
      ensures c.window == (if windowSeconds < 10 then 10 else if windowSeconds > 86_400 then 86_400
                           else windowSeconds) as real
      ensures c.keyLimit == if keyLimit < 1 then 1 else if keyLimit > 100_000 then 100_000 else keyLimit
    {
      c := Config(Clamp(limit, 1, 100), Clamp(windowSeconds, 10, 86_400) as real, Clamp(keyLimit, 1, 100_000));
      events, log := map[], map[];
      new;
      forall later ensures Exact(later) { EmptyRefines(c, later); }
    }

    ghost predicate Valid()
      reads this
    {
      ValidConfig(c) && |events| <= c.keyLimit
    }

    // The table shows what the complete log shows, at every one of the readings to come.
    ghost predicate Exact(later: seq<real>)
      reads this
    {
      Refines(c, events, log, later)
    }

    // [event for event in self._events.get(key, []) if event > cutoff]
    method RecentEvents(key: string, now: real) returns (recent: seq<real>)
      ensures recent == Recent(c, events, key, now)
    {
      recent := [];
      var all := if key in events then events[key] else [];
      for i := 0 to |all|
        invariant recent == After(all[..i], now - c.window)
      {
        assert all[..i + 1][..i] == all[..i];
        if all[i] > now - c.window {
          recent := recent + [all[i]];
        }
      }
      assert all[..|all|] == all;
    }

    method PruneEvents(now: real)
      modifies this`events
      ensures events == Prune(c, old(events), now)
    {
      events := map k | k in events && !(events[k] == [] || events[k][|events[k]| - 1] <= now - c.window) :: events[k];
    }

    /**
     * Consumes one slot.  At a reading before which the table was exact, the
     * answer is that of the complete log, although only recent events are kept.
     */
    method ReserveSlot(key: string, now: real, ghost later: seq<real>) returns (ok: bool)
      requires Valid()
      modifies this
      ensures Valid() && (events, if ok then Yes else No) == Step(c, old(events), Reserve(key, now))
      ensures log == SpecStep(c, old(log), Reserve(key, now)).0
      ensures old(Exact([now] + later)) ==>
        && (ok <==> HasRoom(c, old(log), key, now) && UnderLimit(c, old(log), key, now))
        && (Kept(c.window, now, later) ==> Exact(later))
    {
      hide Refines, Prune, Recent, Active, Kept;
      PruneShrinks(c, events, now);
      if Exact([now] + later) {
        ReserveAnswers(c, events, log, key, now, later);
      }
      log := SpecStep(c, log, Reserve(key, now)).0;
      PruneEvents(now);
      var recent := RecentEvents(key, now);
      if key !in events && |events| >= c.keyLimit { return false; }
      OneMore(events, key, recent);
      if |recent| >= c.limit {
        events := events[key := recent];
        return false;
      }
      OneMore(events, key, recent + [now]);
      events := events[key := recent + [now]];
      return true;
    }

    method CountEvents(key: string, now: real, ghost later: seq<real>) returns (n: nat)
      requires Valid()
      ensures n == |Recent(c, events, key, now)|
      ensures Exact([now] + later) ==> n == |Recent(c, log, key, now)| && Exact(later)
    {
      hide Refines, Recent;
      var recent := RecentEvents(key, now);
      if Exact([now] + later) { Waited(c, events, log, now, later); }
      n := |recent|;
    }

    method ClearEvents(key: string, ghost later: seq<real>)
      requires Valid()
      modifies this
      ensures Valid() && events == old(events) - {key} && log == old(log) - {key}
      ensures old(Exact(later)) ==> Exact(later)
    {
      hide Refines;
      if Exact(later) { ClearRefines(c, events, log, key, later); }
      OneLess(events, key);
      events, log := events - {key}, log - {key};
    }
  }

  // ConsoleAuth's login counter: it can also be checked without consuming a
  // slot, and a failed login is recorded whether or not the limit is reached.
  class LoginAttempts {
    const c: Config
    var attempts: Table
    ghost var log: Table

    constructor (limit: int, windowSeconds: int, keyLimit: int)
      ensures Valid() && attempts == log == map[]
      ensures forall later :: Exact(later)
      ensures c.limit == if limit < 1 then 1 else if limit > 50 then 50 else limit
      ensures c.window == (if windowSeconds < 10 then 10 else if windowSeconds > 3600 then 3600
                           else windowSeconds) as real
      ensures c.keyLimit == if keyLimit < 1 then 1 else if keyLimit > 100_000 then 100_000 else keyLimit
    {
      c := Config(Clamp(limit, 1, 50), Clamp(windowSeconds, 10, 3600) as real, Clamp(keyLimit, 1, 100_000));
      attempts, log := map[], map[];
      new;
      forall later ensures Exact(later) { EmptyRefines(c, later); }
    }

    ghost predicate Valid()
      reads this
    {
      ValidConfig(c) && |attempts| <= c.keyLimit
    }

    ghost predicate Exact(later: seq<real>)
      reads this
    {
      Refines(c, attempts, log, later)
    }

    function RecentAttempts(key: string, now: real): seq<real>
      reads this
    {
      After(if key in attempts then attempts[key] else [], now - c.window)
    }

    method PruneAttemptKeys(now: real)
      modifies this`attempts
      ensures attempts == Prune(c, old(attempts), now)
    {
      attempts := map k | k in attempts && !(attempts[k] == [] || attempts[k][|attempts[k]| - 1] <= now - c.window)
                       :: attempts[k];
    }

    method AttemptsAllowed(key: string, now: real, ghost later: seq<real>) returns (allowed: bool)
      requires Valid()
      modifies this
      ensures Valid() && (attempts, if allowed then Yes else No) == Step(c, old(attempts), Allowed(key, now))
      ensures log == old(log)
      ensures old(Exact([now] + later)) ==>
        Exact(later) && (allowed <==> HasRoom(c, log, key, now) && UnderLimit(c, log, key, now))
    {
      hide Refines, Prune, After, Active, HasRoom, UnderLimit, SpecStep;
      PruneShrinks(c, attempts, now);
      if Exact([now] + later) {
        AllowedAnswers(c, attempts, log, key, now, later);
      }
      PruneAttemptKeys(now);
      var recent := RecentAttempts(key, now);
      if key !in attempts && |attempts| >= c.keyLimit { return false; }
      OneMore(attempts, key, recent);
      OneLess(attempts, key);
      if recent != [] {
        attempts := attempts[key := recent];
      } else {
        attempts := attempts - {key};
      }
      return |recent| < c.limit;
    }

    method ReserveAttempt(key: string, now: real, ghost later: seq<real>) returns (ok: bool)
      requires Valid()
      modifies this
      ensures Valid() && (attempts, if ok then Yes else No) == Step(c, old(attempts), Reserve(key, now))
      ensures log == SpecStep(c, old(log), Reserve(key, now)).0
      ensures old(Exact([now] + later)) ==>
        && (ok <==> HasRoom(c, old(log), key, now) && UnderLimit(c, old(log), key, now))
        && (Kept(c.window, now, later) ==> Exact(later))
    {
      hide Refines, Prune, After, Active, Kept;
      PruneShrinks(c, attempts, now);
      if Exact([now] + later) {
        ReserveAnswers(c, attempts, log, key, now, later);
      }
      log := SpecStep(c, log, Reserve(key, now)).0;
      PruneAttemptKeys(now);
      var recent := RecentAttempts(key, now);
      if key !in attempts && |attempts| >= c.keyLimit { return false; }
      OneMore(attempts, key, recent);
      if |recent| >= c.limit {
        attempts := attempts[key := recent];
        return false;
      }
      OneMore(attempts, key, recent + [now]);
      attempts := attempts[key := recent + [now]];
      return true;
    }

    method RecordFailedAttempt(key: string, now: real, ghost later: seq<real>)
      requires Valid()
      modifies this
      ensures Valid() && attempts == Step(c, old(attempts), RecordFailed(key, now)).0
      ensures log == if HasRoom(c, old(log), key, now) then old(log)[key := EventsOf(old(log), key) + [now]]
                     else old(log)
      ensures old(Exact([now] + later)) && Kept(c.window, now, later) ==> Exact(later)
    {
      hide Refines, Prune, After, Active, Kept;
      PruneShrinks(c, attempts, now);
      if Exact([now] + later) && Kept(c.window, now, later) {
        RecordRefines(c, attempts, log, key, now, later);
      }
      log := SpecStep(c, log, RecordFailed(key, now)).0;
      PruneAttemptKeys(now);
      var recent := RecentAttempts(key, now);
      if key !in attempts && |attempts| >= c.keyLimit { return; }
      OneMore(attempts, key, recent + [now]);
      attempts := attempts[key := recent + [now]];
    }

    method ClearAttempts(key: string, ghost later: seq<real>)
      requires Valid()
      modifies this
      ensures Valid() && attempts == old(attempts) - {key} && log == old(log) - {key}
      ensures old(Exact(later)) ==> Exact(later)
    {
      hide Refines;
      if Exact(later) { ClearRefines(c, attempts, log, key, later); }
      OneLess(attempts, key);
      attempts, log := attempts - {key}, log - {key};
    }
  }

  lemma {:induction false} PruneShrinks(c: Config, t: Table, now: real)
    ensures |Prune(c, t, now)| <= |t|
  {
    SubsetSize(Prune(c, t, now).Keys, t.Keys);
  }

  lemma {:induction false} OneMore(t: Table, key: string, s: seq<real>)
    ensures |t[key := s]| <= |t| + 1 && (key in t ==> |t[key := s]| == |t|)
  {
    assert t[key := s].Keys == t.Keys + {key};
  }

  lemma {:induction false} OneLess(t: Table, key: string)
    ensures |t - {key}| <= |t|
  {
    SubsetSize((t - {key}).Keys, t.Keys);
  }

  lemma {:induction false} AllowedAnswers(c: Config, t: Table, log: Table, key: string, now: real, later: seq<real>)
    requires ValidConfig(c) && Refines(c, t, log, [now] + later)
    ensures var (t', a) := Step(c, t, Allowed(key, now));
            (a == Yes <==> HasRoom(c, log, key, now) && UnderLimit(c, log, key, now)) && Refines(c, t', log, later)
  {
    hide Refines, Step, HasRoom, UnderLimit;
    AllowedRefines(c, t, log, key, now, later);
  }

  // The answer of a reservation, and the relation after it, for an exact table.
  lemma {:induction false} ReserveAnswers(c: Config, t: Table, log: Table, key: string, now: real, later: seq<real>)
    requires ValidConfig(c) && Refines(c, t, log, [now] + later)
    ensures var (t', a), (log', b) := Step(c, t, Reserve(key, now)), SpecStep(c, log, Reserve(key, now));
            a == b && (Kept(c.window, now, later) ==> Refines(c, t', log', later))
  {
    hide Refines, Prune, Recent, Active, Kept;
    Pruned(c, t, log, key, now, later);
    if Kept(c.window, now, later) {
      ReserveRefines(c, t, log, key, now, later);
    }
  }
}
