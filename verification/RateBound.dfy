/**
 * The rate a sliding-window table enforces: how many slots of one key lie in one
 * window.
 *
 * Main result: `BoundedExactly`, for which readings of the clock no window ever
 * holds more than `limit` slots.  The condition is weaker than that of exact
 * answers: a forgotten event matters only where a later one shares a window
 * with it.
 */
module RateBound {
  import opened SlidingWindow
  import opened Wrappers

  // ----- What was taken -----

  // The slots of each key given since its last clear.
  function Take(taken: Table, op: Op, a: Answer): Table {
    match op
    case Reserve(key, now) => if a == Yes then taken[key := EventsOf(taken, key) + [now]] else taken
    case Clear(key) => taken - {key}
    case _ => taken
  }

  function TakenAfter(c: Config, t: Table, taken: Table, ops: seq<Op>): Table
    decreases |ops|
  {
    if ops == [] then taken
    else var (t', a) := Step(c, t, ops[0]); TakenAfter(c, t', Take(taken, ops[0], a), ops[1..])
  }

  // Events in the half-open interval (t - window, t].
  function InWindow(window: real, s: seq<real>, t: real): nat {
    if s == [] then 0
    else InWindow(window, s[..|s| - 1], t) + (if t - window < s[|s| - 1] <= t then 1 else 0)
  }

  ghost predicate Bounded(c: Config, taken: Table) {
    forall k, t :: InWindow(c.window, EventsOf(taken, k), t) <= c.limit
  }

  // Events that share some window with a reading.
  predicate Close(window: real, e: real, now: real) {
    now - window < e < now + window
  }

  function Near(window: real, s: seq<real>, now: real): nat {
    if s == [] then 0
    else Near(window, s[..|s| - 1], now) + (if Close(window, s[|s| - 1], now) then 1 else 0)
  }

  lemma {:induction false} InWindowSnoc(window: real, s: seq<real>, x: real, t: real)
    ensures InWindow(window, s + [x], t) == InWindow(window, s, t) + (if t - window < x <= t then 1 else 0)
  {
    assert (s + [x])[..|s + [x]| - 1] == s;
  }

  lemma {:induction false} NearSnoc(window: real, s: seq<real>, x: real, now: real)
    ensures Near(window, s + [x], now) == Near(window, s, now) + (if Close(window, x, now) then 1 else 0)
  {
    assert (s + [x])[..|s + [x]| - 1] == s;
  }

  // A window that holds a reading holds only events near it, and events near it are recent at it.
  lemma {:induction false} WindowIsNear(window: real, s: seq<real>, t: real, now: real)
    requires t - window < now <= t
    ensures InWindow(window, s, t) <= Near(window, s, now) <= |After(s, now - window)|
  {
    if s != [] { WindowIsNear(window, s[..|s| - 1], t, now); }
  }

  // ----- Readings at which nothing that matters is lost -----

  // The first and the last share a window, but at the middle one the first has left it, or the
  // middle one is stale at the last and hides the first.
  predicate Splits(window: real, first: real, middle: real, last: real) {
    Close(window, first, last) && (first <= middle - window || middle <= last - window)
  }

  predicate Unsplit(window: real, e: real, later: seq<real>) {
    forall a, b :: 0 <= a < b < |later| ==> !Splits(window, e, later[a], later[b])
  }

  predicate NoSplit(window: real, readings: seq<real>) {
    readings == [] || (Unsplit(window, readings[0], readings[1..]) && NoSplit(window, readings[1..]))
  }

  /** Readings at which nothing is forgotten split nothing. */
  lemma {:induction false} NoForgettingSplitsNothing(window: real, readings: seq<real>)
    requires NoForgetting(window, readings)
    ensures NoSplit(window, readings)
  {
    if readings != [] {
      var later := readings[1..];
      forall a, b | 0 <= a < b < |later| ensures !Splits(window, readings[0], later[a], later[b]) {
        assert !Forgets(window, readings[0], later[a], later[b]);
      }
      NoForgettingSplitsNothing(window, later);
    }
  }

  // The events of a list, in their order, and the readings to come split nothing.
  ghost predicate Whole(window: real, s: seq<real>, later: seq<real>) {
    && (forall i :: 0 <= i < |s| ==> Unsplit(window, s[i], later))
    && (forall i, j, a :: 0 <= i < j < |s| && 0 <= a < |later| ==> !Splits(window, s[i], s[j], later[a]))
  }

  lemma {:induction false} UnsplitLater(window: real, e: real, now: real, later: seq<real>)
    requires Unsplit(window, e, [now] + later)
    ensures Unsplit(window, e, later)
    ensures forall a :: 0 <= a < |later| ==> !Splits(window, e, now, later[a])
  {
    hide Splits;
    var all := [now] + later;
    assert all[0] == now && forall a :: 0 <= a < |later| ==> all[a + 1] == later[a];
    forall a, b | 0 <= a < b < |later| ensures !Splits(window, e, later[a], later[b]) {
      assert !Splits(window, e, all[a + 1], all[b + 1]);
    }
    forall a | 0 <= a < |later| ensures !Splits(window, e, now, later[a]) {
      assert !Splits(window, e, all[0], all[a + 1]);
    }
  }

  lemma {:induction false} WholeLater(window: real, s: seq<real>, now: real, later: seq<real>)
    requires Whole(window, s, [now] + later)
    ensures Whole(window, s, later)
    ensures forall i, a :: 0 <= i < |s| && 0 <= a < |later| ==> !Splits(window, s[i], now, later[a])
    ensures forall i, j :: 0 <= i < j < |s| ==> !Splits(window, s[i], s[j], now)
  {
    hide Splits, Unsplit;
    var all := [now] + later;
    assert all[0] == now && forall a :: 0 <= a < |later| ==> all[a + 1] == later[a];
    forall i | 0 <= i < |s|
      ensures Unsplit(window, s[i], later)
      ensures forall a :: 0 <= a < |later| ==> !Splits(window, s[i], now, later[a])
    {
      UnsplitLater(window, s[i], now, later);
    }
    forall i, j, a | 0 <= i < j < |s| && 0 <= a < |later| ensures !Splits(window, s[i], s[j], later[a]) {
      assert !Splits(window, s[i], s[j], all[a + 1]);
    }
    forall i, j | 0 <= i < j < |s| ensures !Splits(window, s[i], s[j], now) {
      assert !Splits(window, s[i], s[j], all[0]);
    }
  }

  lemma {:induction false} WholeInit(window: real, s: seq<real>, later: seq<real>)
    requires s != [] && Whole(window, s, later)
    ensures Whole(window, s[..|s| - 1], later)
  {
    hide Splits, Unsplit;
  }

  // Filtering keeps a list whole.
  lemma {:induction false} WholeAfter(window: real, s: seq<real>, cutoff: real, later: seq<real>)
    requires Whole(window, s, later)
    ensures Whole(window, After(s, cutoff), later)
  {
    hide Splits, Unsplit;
    if s != [] {
      var init := s[..|s| - 1];
      WholeInit(window, s, later);
      hide Whole;
      WholeAfter(window, init, cutoff, later);
      if s[|s| - 1] > cutoff {
        WholeAfterLast(window, s, cutoff, later);
      } else {
        assert After(init, cutoff) + [] == After(init, cutoff);
      }
    }
  }

  lemma {:induction false} WholeAfterLast(window: real, s: seq<real>, cutoff: real, later: seq<real>)
    requires s != [] && Whole(window, s, later) && Whole(window, After(s[..|s| - 1], cutoff), later)
    ensures Whole(window, After(s[..|s| - 1], cutoff) + [s[|s| - 1]], later)
  {
    hide Splits, Unsplit, After;
    var init, last := s[..|s| - 1], |s| - 1;
    var kept := After(init, cutoff);
    forall i, a | 0 <= i < |kept| && 0 <= a < |later| ensures !Splits(window, kept[i], s[last], later[a]) {
      var j := AfterOrigin(init, cutoff, i);
      assert init[j] == s[j];
    }
    var more := kept + [s[last]];
    assert forall i :: 0 <= i < |kept| ==> more[i] == kept[i];
  }

  lemma {:induction false} WholeSnoc(window: real, s: seq<real>, now: real, later: seq<real>)
    requires Whole(window, s, [now] + later) && Unsplit(window, now, later)
    ensures Whole(window, s + [now], later)
  {
    hide Splits, Unsplit;
    var more := s + [now];
    WholeLater(window, s, now, later);
    assert forall i :: 0 <= i < |s| ==> more[i] == s[i];
  }

  // Filtering at a reading loses no event near a later one.
  lemma {:induction false} NearFiltered(window: real, s: seq<real>, now: real, later: real)
    requires forall i :: 0 <= i < |s| ==> !Splits(window, s[i], now, later)
    ensures Near(window, After(s, now - window), later) == Near(window, s, later)
  {
    if s != [] {
      var init, last := s[..|s| - 1], s[|s| - 1];
      NearFiltered(window, init, now, later);
      var kept := After(init, now - window);
      if last > now - window {
        NearSnoc(window, kept, last, later);
      } else {
        assert kept + [] == kept;
        assert !Splits(window, s[|s| - 1], now, later);
      }
    }
  }

  lemma {:induction false} NoneNear(window: real, s: seq<real>, now: real)
    requires forall i :: 0 <= i < |s| ==> !Close(window, s[i], now)
    ensures Near(window, s, now) == 0
  {
    if s != [] { NoneNear(window, s[..|s| - 1], now); }
  }

  // A list whose last event is stale holds no event near the reading, nor near a later one.
  lemma {:induction false} StaleNotNear(window: real, s: seq<real>, now: real, later: seq<real>)
    requires window > 0.0 && Whole(window, s, [now] + later) && Stale(s, now - window)
    ensures Near(window, s, now) == 0
    ensures forall a :: 0 <= a < |later| ==> Near(window, s, later[a]) == 0
  {
    hide Whole, Unsplit;
    WholeLater(window, s, now, later);
    forall i | 0 <= i < |s| ensures !Close(window, s[i], now) {
      if i < |s| - 1 { assert !Splits(window, s[i], s[|s| - 1], now); }
    }
    NoneNear(window, s, now);
    forall a | 0 <= a < |later| ensures Near(window, s, later[a]) == 0 {
      forall i | 0 <= i < |s| ensures !Close(window, s[i], later[a]) {
        StaleApart(window, s, i, now, later, a);
      }
      NoneNear(window, s, later[a]);
    }
  }

  lemma {:induction false} StaleApart(window: real, s: seq<real>, i: nat, now: real, later: seq<real>, a: nat)
    requires window > 0.0 && Whole(window, s, [now] + later) && Stale(s, now - window)
    requires i < |s| && a < |later|
    ensures !Close(window, s[i], later[a])
  {
    hide Unsplit;
    WholeLater(window, s, now, later);
    assert !Splits(window, s[i], now, later[a]);
    if i < |s| - 1 {
      assert !Splits(window, s[i], s[|s| - 1], now);
      assert !Splits(window, s[i], s[|s| - 1], later[a]);
    }
  }

  // ----- The table keeps what matters -----

  // Of the slots of a key near a reading to come, the table's list holds at least as many.
  ghost predicate ListTracks(window: real, s: seq<real>, slots: seq<real>, later: seq<real>) {
    && Whole(window, s, later)
    && forall a :: 0 <= a < |later| ==> Near(window, slots, later[a]) <= Near(window, s, later[a])
  }

  ghost predicate Tracks(c: Config, t: Table, taken: Table, later: seq<real>) {
    forall k :: ListTracks(c.window, EventsOf(t, k), EventsOf(taken, k), later)
  }

  lemma {:induction false} ListLater(window: real, s: seq<real>, slots: seq<real>, now: real, later: seq<real>)
    requires ListTracks(window, s, slots, [now] + later)
    ensures ListTracks(window, s, slots, later) && Near(window, slots, now) <= Near(window, s, now)
  {
    hide Whole, Near;
    var all := [now] + later;
    assert all[0] == now && forall a :: 0 <= a < |later| ==> all[a + 1] == later[a];
    WholeLater(window, s, now, later);
    forall a | 0 <= a < |later| ensures Near(window, slots, later[a]) <= Near(window, s, later[a]) {
      assert Near(window, slots, all[a + 1]) <= Near(window, s, all[a + 1]);
    }
    assert Near(window, slots, all[0]) <= Near(window, s, all[0]);
  }

  // As above, from the reading and the later ones.
  lemma {:induction false} ListFrom(window: real, s: seq<real>, slots: seq<real>, now: real, later: seq<real>)
    requires Whole(window, s, [now] + later) && Near(window, slots, now) <= Near(window, s, now)
    requires forall a :: 0 <= a < |later| ==> Near(window, slots, later[a]) <= Near(window, s, later[a])
    ensures ListTracks(window, s, slots, [now] + later)
  {
    hide Whole, Near;
    var all := [now] + later;
    forall a | 0 <= a < |all| ensures Near(window, slots, all[a]) <= Near(window, s, all[a]) {
      assert a > 0 ==> all[a] == later[a - 1];
    }
  }

  lemma {:induction false} ListFiltered(window: real, s: seq<real>, slots: seq<real>, now: real, later: seq<real>)
    requires window > 0.0 && ListTracks(window, s, slots, [now] + later)
    ensures ListTracks(window, After(s, now - window), slots, [now] + later)
  {
    hide Whole, Near, After, Splits;
    ListLater(window, s, slots, now, later);
    WholeLater(window, s, now, later);
    WholeAfter(window, s, now - window, [now] + later);
    forall i | 0 <= i < |s| ensures !Splits(window, s[i], now, now) { NotSplitAtOnce(window, s[i], now); }
    NearFiltered(window, s, now, now);
    forall a | 0 <= a < |later| ensures Near(window, After(s, now - window), later[a]) == Near(window, s, later[a]) {
      NearFiltered(window, s, now, later[a]);
    }
    ListFrom(window, After(s, now - window), slots, now, later);
  }

  lemma {:induction false} NotSplitAtOnce(window: real, e: real, now: real)
    requires window > 0.0
    ensures !Splits(window, e, now, now)
  {
  }

  lemma {:induction false} ListDropped(window: real, s: seq<real>, slots: seq<real>, now: real, later: seq<real>)
    requires window > 0.0 && ListTracks(window, s, slots, [now] + later) && Stale(s, now - window)
    ensures ListTracks(window, [], slots, [now] + later)
  {
    hide Near, Unsplit, Splits;
    ListLater(window, s, slots, now, later);
    StaleNotNear(window, s, now, later);
    NoneNear(window, [], now);
    forall a | 0 <= a < |later| ensures Near(window, slots, later[a]) <= Near(window, [], later[a]) {
      NoneNear(window, [], later[a]);
    }
    ListFrom(window, [], slots, now, later);
  }

  lemma {:induction false} ListAdded(window: real, s: seq<real>, slots: seq<real>, now: real, later: seq<real>)
    requires ListTracks(window, s, slots, [now] + later) && Unsplit(window, now, later)
    ensures ListTracks(window, s + [now], slots, later) && ListTracks(window, s + [now], slots + [now], later)
  {
    hide Near, Whole, Close;
    ListLater(window, s, slots, now, later);
    WholeSnoc(window, s, now, later);
    forall a | 0 <= a < |later|
      ensures Near(window, slots, later[a]) <= Near(window, s + [now], later[a])
      ensures Near(window, slots + [now], later[a]) <= Near(window, s + [now], later[a])
    {
      NearSnoc(window, s, now, later[a]);
      NearSnoc(window, slots, now, later[a]);
    }
  }

  lemma {:induction false} NothingTracks(window: real, later: seq<real>)
    ensures ListTracks(window, [], [], later)
  {
  }

  lemma {:induction false} PruneTracks(c: Config, t: Table, taken: Table, now: real, later: seq<real>)
    requires ValidConfig(c) && Tracks(c, t, taken, [now] + later)
    ensures Tracks(c, Prune(c, t, now), taken, [now] + later)
  {
    hide ListTracks;
    var p := Prune(c, t, now);
    forall k ensures ListTracks(c.window, EventsOf(p, k), EventsOf(taken, k), [now] + later) {
      assert ListTracks(c.window, EventsOf(t, k), EventsOf(taken, k), [now] + later);
      if k !in p { ListDropped(c.window, EventsOf(t, k), EventsOf(taken, k), now, later); }
    }
  }

  lemma {:induction false} TracksLater(c: Config, t: Table, taken: Table, now: real, later: seq<real>)
    requires Tracks(c, t, taken, [now] + later)
    ensures Tracks(c, t, taken, later)
  {
    hide ListTracks;
    forall k ensures ListTracks(c.window, EventsOf(t, k), EventsOf(taken, k), later) {
      assert ListTracks(c.window, EventsOf(t, k), EventsOf(taken, k), [now] + later);
      ListLater(c.window, EventsOf(t, k), EventsOf(taken, k), now, later);
    }
  }

  // One key's list and slots replaced.
  lemma {:induction false} PutTracks(c: Config, t: Table, taken: Table, key: string, t': Table, taken': Table,
                                     later: seq<real>)
    requires Tracks(c, t, taken, later)
    requires forall k :: k != key ==> EventsOf(t', k) == EventsOf(t, k) && EventsOf(taken', k) == EventsOf(taken, k)
    requires ListTracks(c.window, EventsOf(t', key), EventsOf(taken', key), later)
    ensures Tracks(c, t', taken', later)
  {
    hide ListTracks;
    forall k ensures ListTracks(c.window, EventsOf(t', k), EventsOf(taken', k), later) {
      assert ListTracks(c.window, EventsOf(t, k), EventsOf(taken, k), later);
    }
  }

  // What the table does with a key at a reading, once it is pruned.
  lemma {:induction false} KeyTracks(c: Config, p: Table, taken: Table, key: string, now: real, later: seq<real>)
    requires ValidConfig(c) && Tracks(c, p, taken, [now] + later)
    ensures var s, slots := Recent(c, p, key, now), EventsOf(taken, key);
            && ListTracks(c.window, s, slots, later) && Near(c.window, slots, now) <= |s|
            && (Unsplit(c.window, now, later) ==>
                  && ListTracks(c.window, s + [now], slots, later)
                  && ListTracks(c.window, s + [now], slots + [now], later))
  {
    hide ListTracks, Near, Unsplit, After;
    var s, slots := EventsOf(p, key), EventsOf(taken, key);
    assert ListTracks(c.window, s, slots, [now] + later);
    ListLater(c.window, s, slots, now, later);
    WindowIsNear(c.window, s, now, now);
    ListFiltered(c.window, s, slots, now, later);
    ListLater(c.window, Recent(c, p, key, now), slots, now, later);
    if Unsplit(c.window, now, later) { ListAdded(c.window, Recent(c, p, key, now), slots, now, later); }
  }

  lemma {:induction false} PrunedFirst(c: Config, t: Table, taken: Table, key: string, now: real, later: seq<real>)
    requires ValidConfig(c) && Tracks(c, t, taken, [now] + later) && Unsplit(c.window, now, later)
    ensures var p := Prune(c, t, now);
            var s, slots := Recent(c, p, key, now), EventsOf(taken, key);
            && Tracks(c, p, taken, later) && ListTracks(c.window, s, slots, later)
            && ListTracks(c.window, s + [now], slots, later)
            && ListTracks(c.window, s + [now], slots + [now], later)
  {
    hide ListTracks, Unsplit, Prune, Recent, Tracks;
    PruneTracks(c, t, taken, now, later);
    TracksLater(c, Prune(c, t, now), taken, now, later);
    KeyTracks(c, Prune(c, t, now), taken, key, now, later);
  }

  lemma {:induction false} ReserveTracks(c: Config, t: Table, taken: Table, key: string, now: real, later: seq<real>)
    requires ValidConfig(c) && Tracks(c, t, taken, [now] + later) && Unsplit(c.window, now, later)
    ensures var op := Reserve(key, now);
            var (t', a) := Step(c, t, op);
            Tracks(c, t', Take(taken, op, a), later)
  {
    hide ListTracks, Unsplit, Prune, Recent, Tracks;
    var op, p := Reserve(key, now), Prune(c, t, now);
    var (t', a) := Step(c, t, op);
    PrunedFirst(c, t, taken, key, now, later);
    if t' != p || Take(taken, op, a) != taken { PutTracks(c, p, taken, key, t', Take(taken, op, a), later); }
  }

  lemma {:induction false} AllowedTracks(c: Config, t: Table, taken: Table, key: string, now: real, later: seq<real>)
    requires ValidConfig(c) && Tracks(c, t, taken, [now] + later) && Unsplit(c.window, now, later)
    ensures var op := Allowed(key, now);
            var (t', a) := Step(c, t, op);
            Tracks(c, t', Take(taken, op, a), later)
  {
    hide ListTracks, Unsplit, Prune, Recent, Tracks;
    var op, p := Allowed(key, now), Prune(c, t, now);
    var (t', a) := Step(c, t, op);
    PrunedFirst(c, t, taken, key, now, later);
    if t' != p || Take(taken, op, a) != taken { PutTracks(c, p, taken, key, t', Take(taken, op, a), later); }
  }

  lemma {:induction false} RecordTracks(c: Config, t: Table, taken: Table, key: string, now: real, later: seq<real>)
    requires ValidConfig(c) && Tracks(c, t, taken, [now] + later) && Unsplit(c.window, now, later)
    ensures var op := RecordFailed(key, now);
            var (t', a) := Step(c, t, op);
            Tracks(c, t', Take(taken, op, a), later)
  {
    hide ListTracks, Unsplit, Prune, Recent, Tracks;
    var op, p := RecordFailed(key, now), Prune(c, t, now);
    var (t', a) := Step(c, t, op);
    PrunedFirst(c, t, taken, key, now, later);
    if t' != p || Take(taken, op, a) != taken { PutTracks(c, p, taken, key, t', Take(taken, op, a), later); }
  }

  lemma {:induction false} ClearTracks(c: Config, t: Table, taken: Table, key: string, later: seq<real>)
    requires Tracks(c, t, taken, later)
    ensures Tracks(c, t - {key}, taken - {key}, later)
  {
    hide ListTracks, Tracks;
    NothingTracks(c.window, later);
    PutTracks(c, t, taken, key, t - {key}, taken - {key}, later);
  }

  lemma {:induction false} StepTracks(c: Config, t: Table, taken: Table, op: Op, later: seq<real>)
    requires ValidConfig(c) && Tracks(c, t, taken, From(op, later))
    requires !op.Clear? ==> Unsplit(c.window, op.now, later)
    ensures var (t', a) := Step(c, t, op); Tracks(c, t', Take(taken, op, a), later)
  {
    hide Unsplit, Prune, Recent, Tracks;
    match op
    case Clear(key) => ClearTracks(c, t, taken, key, later);
    case Count(key, now) => TracksLater(c, t, taken, now, later);
    case Reserve(key, now) => ReserveTracks(c, t, taken, key, now, later);
    case Allowed(key, now) => AllowedTracks(c, t, taken, key, now, later);
    case RecordFailed(key, now) => RecordTracks(c, t, taken, key, now, later);
  }

  // A slot is given only where fewer than `limit` slots are near.
  lemma {:induction false} StepBounded(c: Config, t: Table, taken: Table, op: Op, later: seq<real>)
    requires ValidConfig(c) && Tracks(c, t, taken, From(op, later)) && Bounded(c, taken)
    ensures Bounded(c, Take(taken, op, Step(c, t, op).1))
  {
    hide InWindow, Tracks, Prune, Recent;
    var a := Step(c, t, op).1;
    if op.Reserve? && a == Yes {
      PruneTracks(c, t, taken, op.now, later);
      KeyTracks(c, Prune(c, t, op.now), taken, op.key, op.now, later);
    }
    forall k, x ensures InWindow(c.window, EventsOf(Take(taken, op, a), k), x) <= c.limit {
      assert InWindow(c.window, EventsOf(taken, k), x) <= c.limit;
      if op.Reserve? && a == Yes && k == op.key {
        InWindowSnoc(c.window, EventsOf(taken, k), op.now, x);
        if x - c.window < op.now <= x { WindowIsNear(c.window, EventsOf(taken, k), x, op.now); }
      }
      if op.Clear? && k == op.key { NothingInWindow(c.window, x); }
    }
  }

  lemma {:induction false} NothingInWindow(window: real, t: real)
    ensures InWindow(window, [], t) == 0
  {
  }

  lemma {:induction false} RunBounded(c: Config, t: Table, taken: Table, ops: seq<Op>)
    requires ValidConfig(c) && Tracks(c, t, taken, Readings(ops)) && NoSplit(c.window, Readings(ops))
    requires Bounded(c, taken)
    ensures Bounded(c, TakenAfter(c, t, taken, ops))
    decreases |ops|
  {
    hide Bounded, Tracks, Step, Take, Unsplit;
    if ops != [] {
      var later := Readings(ops[1..]);
      assert Readings(ops) == From(ops[0], later) by {
        if ops[0].Clear? { assert [] + later == later; }
      }
      if !ops[0].Clear? { assert Readings(ops)[1..] == later; }
      var (t', a) := Step(c, t, ops[0]);
      StepBounded(c, t, taken, ops[0], later);
      StepTracks(c, t, taken, ops[0], later);
      RunBounded(c, t', Take(taken, ops[0], a), ops[1..]);
    }
  }

  lemma {:induction false} StartBounded(c: Config, later: seq<real>)
    ensures Bounded(c, map[]) && Tracks(c, map[], map[], later)
  {
    hide ListTracks;
    NothingTracks(c.window, later);
  }

  /**
   * Over any run of the pruned table whose readings split nothing, recorded
   * failures in between included, no window (t - W, t] of any key holds more
   * than `limit` of the slots given since the key was last cleared.
   */
  lemma {:induction false} RunWindowBound(c: Config, ops: seq<Op>, key: string, t: real)
    requires ValidConfig(c) && NoSplit(c.window, Readings(ops))
    ensures InWindow(c.window, EventsOf(TakenAfter(c, map[], map[], ops), key), t) <= c.limit
  {
    hide InWindow, NoSplit, TakenAfter, Tracks;
    StartBounded(c, Readings(ops));
    RunBounded(c, map[], map[], ops);
  }

  // ----- Readings that break the bound -----

  lemma {:induction false} TakenAppend(c: Config, t: Table, taken: Table, a: seq<Op>, b: seq<Op>)
    ensures TakenAfter(c, t, taken, a + b) == TakenAfter(c, TableAfter(c, t, a), TakenAfter(c, t, taken, a), b)
    decreases |a|
  {
    hide Step, Take;
    if a == [] {
      assert a + b == b;
    } else {
      assert (a + b)[0] == a[0] && (a + b)[1..] == a[1..] + b;
      TakenAppend(c, Step(c, t, a[0]).0, Take(taken, a[0], Step(c, t, a[0]).1), a[1..], b);
    }
  }

  lemma {:induction false} CountsTakeNothing(c: Config, t: Table, taken: Table, readings: seq<real>)
    ensures TakenAfter(c, t, taken, Counts(readings)) == taken
  {
    if readings != [] {
      assert Counts(readings)[1..] == Counts(readings[1..]);
      CountsTakeNothing(c, t, taken, readings[1..]);
    }
  }

  lemma {:induction false} ThenTaken(c: Config, t: Table, taken: Table, readings: seq<real>, op: Op)
    ensures TakenAfter(c, t, taken, Then(readings, op)) == Take(taken, op, Step(c, t, op).1)
  {
    hide Step, Take;
    TakenAppend(c, t, taken, Counts(readings), [op]);
    CountsChangeNothing(c, t, map[], readings);
    CountsTakeNothing(c, t, taken, readings);
    assert [op][1..] == [];
  }

  // What a run with three operations takes.
  lemma {:induction false} ThreeTaken(c: Config, readings: seq<real>, i: nat, j: nat, k: nat, first: Op, second: Op,
                                      third: Op)
    requires i < j < k < |readings| && !first.Clear? && !second.Clear? && !third.Clear?
    ensures var (t1, a1) := Step(c, map[], first);
            var (t2, a2) := Step(c, t1, second);
            TakenAfter(c, map[], map[], Three(readings, i, j, k, first, second, third)) ==
            Take(Take(Take(map[], first, a1), second, a2), third, Step(c, t2, third).1)
  {
    hide Step, Take, TakenAfter, TableAfter;
    var (t1, a1) := Step(c, map[], first);
    var (t2, a2) := Step(c, t1, second);
    var taken1 := Take(map[], first, a1);
    var taken2 := Take(taken1, second, a2);
    var a, b := Then(readings[..i], first), Then(readings[i + 1..j], second);
    var d, e := Counts(readings[j + 1..k]), Counts(readings[k + 1..]);
    ThenState(c, map[], map[], readings[..i], first);
    ThenTaken(c, map[], map[], readings[..i], first);
    ThenState(c, t1, map[], readings[i + 1..j], second);
    ThenTaken(c, t1, taken1, readings[i + 1..j], second);
    TakenAppend(c, map[], map[], a, b);
    StatesAppend(c, map[], map[], a, b);
    TakenAppend(c, map[], map[], a + b, d + ([third] + e));
    ThenTaken(c, t2, taken2, readings[j + 1..k], third);
    Assoc(d, [third], e);
    TakenAppend(c, t2, taken2, d + [third], e);
    CountsTakeNothing(c, TableAfter(c, t2, d + [third]), Take(taken2, third, Step(c, t2, third).1), readings[k + 1..]);
  }

  lemma {:induction false} FindSplit(window: real, readings: seq<real>) returns (i: nat, j: nat, k: nat)
    requires !NoSplit(window, readings)
    ensures i < j < k < |readings| && Splits(window, readings[i], readings[j], readings[k])
  {
    var later := readings[1..];
    if !Unsplit(window, readings[0], later) {
      var a, b :| 0 <= a < b < |later| && Splits(window, readings[0], later[a], later[b]);
      i, j, k := 0, a + 1, b + 1;
    } else {
      i, j, k := FindSplit(window, later);
      i, j, k := i + 1, j + 1, k + 1;
    }
  }

  // The first slot is lost before the last reading, so a second one is given in the same window.
  lemma {:induction false} SplitTakesTwo(c: Config, first: real, middle: real, last: real)
    returns (second: Op)
    requires c == Config(1, c.window, 2) && c.window >= 10.0 && Splits(c.window, first, middle, last)
    ensures !second.Clear? && second.now == middle
    ensures var (t1, a1) := Step(c, map[], Reserve("k", first));
            var (t2, a2) := Step(c, t1, second);
            EventsOf(Take(Take(Take(map[], Reserve("k", first), a1), second, a2), Reserve("k", last),
                          Step(c, t2, Reserve("k", last)).1), "k") == [first, last]
  {
    hide After;
    var w := c.window;
    FirstReserve(c, "k", first);
    if first <= middle - w {
      second := Reserve("x", middle);
      OtherReserve(c, "k", "x", first, middle);
      AgainReserve(c, "k", map["x" := [middle]], last);
    } else {
      second := RecordFailed("k", middle);
      FailedAfter(c, "k", first, middle);
      AgainReserve(c, "k", map["k" := [first, middle]], last);
    }
    assert [] + [first] == [first] && [first] + [last] == [first, last];
  }

  lemma {:induction false} FailedAfter(c: Config, key: string, first: real, now: real)
    requires ValidConfig(c) && first > now - c.window
    ensures Step(c, map[key := [first]], RecordFailed(key, now)).0 == map[key := [first, now]]
  {
    hide After;
    var t := map[key := [first]];
    AfterOfOne(first, now - c.window);
    assert Prune(c, t, now) == t;
    assert [first] + [now] == [first, now];
  }

  // A key that is pruned, or not there, is given a slot where another one may still be tracked.
  lemma {:induction false} AgainReserve(c: Config, key: string, t: Table, now: real)
    requires ValidConfig(c) && c.keyLimit == 2 && |t| <= 1
    requires key in t ==> Stale(t[key], now - c.window)
    ensures Step(c, t, Reserve(key, now)).1 == Yes
  {
    hide After;
    AfterOfNothing(now - c.window);
    SubsetSize(Prune(c, t, now).Keys, t.Keys);
  }

  // Readings that split something, and a run with them that breaks the bound.
  lemma {:induction false} SplitShows(window: real, readings: seq<real>) returns (c: Config, ops: seq<Op>, t: real)
    requires window >= 10.0 && !NoSplit(window, readings)
    ensures ValidConfig(c) && c.window == window && Readings(ops) == readings
    ensures InWindow(window, EventsOf(TakenAfter(c, map[], map[], ops), "k"), t) > c.limit
  {
    hide Step, Take, NoSplit, Three, Readings, TakenAfter, InWindow;
    c := Config(1, window, 2);
    var i, j, k := FindSplit(window, readings);
    var first, third := Reserve("k", readings[i]), Reserve("k", readings[k]);
    var second := SplitTakesTwo(c, readings[i], readings[j], readings[k]);
    ops := Three(readings, i, j, k, first, second, third);
    ThreeReadings(c, readings, i, j, k, first, second, third);
    ThreeTaken(c, readings, i, j, k, first, second, third);
    t := if readings[i] < readings[k] then readings[k] else readings[i];
    InWindowSnoc(window, [readings[i]], readings[k], t);
    InWindowSnoc(window, [], readings[i], t);
    assert [] + [readings[i]] == [readings[i]];
    assert [readings[i]] + [readings[k]] == [readings[i], readings[k]];
    NothingInWindow(window, t);
  }

  /**
   * The readings for which the bound holds: in every run with these readings,
   * over the operations of both limiters, no window of any key holds more than
   * `limit` slots, if and only if no three of them, in their order, split a
   * window.
   */
  lemma {:induction false} BoundedExactly(window: real, readings: seq<real>)
    requires window >= 10.0
    ensures (forall c, ops, key, t :: ValidConfig(c) && c.window == window && Readings(ops) == readings ==>
               InWindow(window, EventsOf(TakenAfter(c, map[], map[], ops), key), t) <= c.limit)
       <==> NoSplit(window, readings)
  {
    hide TakenAfter, InWindow, Readings, NoSplit;
    if NoSplit(window, readings) {
      forall c, ops, key, t | ValidConfig(c) && c.window == window && Readings(ops) == readings
        ensures InWindow(window, EventsOf(TakenAfter(c, map[], map[], ops), key), t) <= c.limit
      {
        RunWindowBound(c, ops, key, t);
      }
    } else {
      var c, ops, t := SplitShows(window, readings);
    }
  }
}
