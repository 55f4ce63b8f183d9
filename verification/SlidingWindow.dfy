/**
 * Sliding-window attempt counting: the pruned table of recent events, and the
 * specification over the complete log of accepted events, never pruned.
 *
 * Main results: `ExactReadings`, for which readings of the clock every answer
 * of the pruned table is the answer of the full log; and `SteadyClock`, those of
 * a clock that does not go back are among them.
 */
module SlidingWindow {
  import opened Wrappers

  type Table = map<string, seq<real>>

  datatype Config = Config(limit: nat, window: real, keyLimit: nat)

  // The constructor clamps its arguments into these ranges.
  ghost predicate ValidConfig(c: Config) {
    c.limit >= 1 && c.window >= 10.0 && c.keyLimit >= 1
  }

  datatype Op =
    | Reserve(key: string, now: real)
    | Allowed(key: string, now: real)
    | RecordFailed(key: string, now: real)
    | Count(key: string, now: real)
    | Clear(key: string)

  // What a call returns; `RecordFailed` and `Clear` return nothing.
  datatype Answer = Yes | No | Number(n: nat) | Nothing

  function EventsOf(t: Table, key: string): seq<real> {
    if key in t then t[key] else []
  }

  // The events later than `cutoff`.
  function After(s: seq<real>, cutoff: real): seq<real> {
    if s == [] then []
    else After(s[..|s| - 1], cutoff) + (if s[|s| - 1] > cutoff then [s[|s| - 1]] else [])
  }

  function Recent(c: Config, t: Table, key: string, now: real): seq<real> {
    After(EventsOf(t, key), now - c.window)
  }

  // ----- The table as the code keeps it -----

  predicate Stale(s: seq<real>, cutoff: real) {
    s == [] || s[|s| - 1] <= cutoff
  }

  function Prune(c: Config, t: Table, now: real): Table {
    map k | k in t && !Stale(t[k], now - c.window) :: t[k]
  }

  function Step(c: Config, t: Table, op: Op): (Table, Answer) {
    match op
    case Clear(key) => (t - {key}, Nothing)
    case Count(key, now) => (t, Number(|Recent(c, t, key, now)|))
    case Reserve(key, now) =>
      var p := Prune(c, t, now);
      var recent := Recent(c, p, key, now);
      if key !in p && |p| >= c.keyLimit then (p, No)
      else if |recent| >= c.limit then (p[key := recent], No)
      else (p[key := recent + [now]], Yes)
    case Allowed(key, now) =>
      var p := Prune(c, t, now);
      var recent := Recent(c, p, key, now);
      if key !in p && |p| >= c.keyLimit then (p, No)
      else (if recent != [] then p[key := recent] else p - {key}, if |recent| < c.limit then Yes else No)
    case RecordFailed(key, now) =>
      var p := Prune(c, t, now);
      var recent := Recent(c, p, key, now);
      if key !in p && |p| >= c.keyLimit then (p, Nothing) else (p[key := recent + [now]], Nothing)
  }

  // ----- The specification: the complete log of events since each key's last clear -----

  function Active(c: Config, log: Table, now: real): set<string> {
    set k | k in log && Recent(c, log, k, now) != []
  }

  // A key is tracked when it has an event in the window; a new key needs room.
  predicate HasRoom(c: Config, log: Table, key: string, now: real) {
    key in Active(c, log, now) || |Active(c, log, now)| < c.keyLimit
  }

  predicate UnderLimit(c: Config, log: Table, key: string, now: real) {
    |Recent(c, log, key, now)| < c.limit
  }

  function SpecStep(c: Config, log: Table, op: Op): (Table, Answer) {
    match op
    case Clear(key) => (log - {key}, Nothing)
    case Count(key, now) => (log, Number(|Recent(c, log, key, now)|))
    case Reserve(key, now) =>
      if HasRoom(c, log, key, now) && UnderLimit(c, log, key, now)
      then (log[key := EventsOf(log, key) + [now]], Yes) else (log, No)
    case Allowed(key, now) =>
      (log, if HasRoom(c, log, key, now) && UnderLimit(c, log, key, now) then Yes else No)
    case RecordFailed(key, now) =>
      (if HasRoom(c, log, key, now) then log[key := EventsOf(log, key) + [now]] else log, Nothing)
  }

  // How many events are later than `cutoff`.
  function Later(s: seq<real>, cutoff: real): nat {
    if s == [] then 0 else Later(s[1..], cutoff) + (if s[0] > cutoff then 1 else 0)
  }

  // The keys with an event in the window that ends at `now`.
  function Tracked(c: Config, log: Table, now: real): set<string> {
    set k | k in log && Later(log[k], now - c.window) > 0
  }

  // A key may be given an event: it has one in the window already, or fewer keys than allowed have.
  predicate MayTrack(c: Config, log: Table, key: string, now: real) {
    key in Tracked(c, log, now) || |Tracked(c, log, now)| < c.keyLimit
  }

  /**
   * What the complete log answers, by counting: a slot, or that one may be had, where
   * the key may be tracked and has fewer than `limit` events in the window; and
   * what is added to it.
   */
  lemma {:induction false} LogExactly(c: Config, log: Table, op: Op)
    ensures var (log', a) := SpecStep(c, log, op);
            match op
            case Clear(key) => a == Nothing && log' == log - {key}
            case Count(key, now) => a == Number(Later(EventsOf(log, key), now - c.window)) && log' == log
            case Reserve(key, now) =>
              var given := MayTrack(c, log, key, now) && Later(EventsOf(log, key), now - c.window) < c.limit;
              && a == (if given then Yes else No)
              && log' == (if given then log[key := EventsOf(log, key) + [now]] else log)
            case Allowed(key, now) =>
              && log' == log
              && (a == Yes <==>
                  MayTrack(c, log, key, now) && Later(EventsOf(log, key), now - c.window) < c.limit)
              && (a == Yes || a == No)
            case RecordFailed(key, now) =>
              && a == Nothing
              && log' == (if MayTrack(c, log, key, now) then log[key := EventsOf(log, key) + [now]] else log)
  {
    hide After, Later;
    if !op.Clear? {
      LaterIsAfter(EventsOf(log, op.key), op.now - c.window);
      TrackedAreActive(c, log, op.now);
    }
  }

  lemma {:induction false} TrackedAreActive(c: Config, log: Table, now: real)
    ensures Tracked(c, log, now) == Active(c, log, now)
  {
    hide After, Later;
    forall k | k in log ensures Later(log[k], now - c.window) > 0 <==> Recent(c, log, k, now) != [] {
      LaterIsAfter(log[k], now - c.window);
    }
  }

  lemma {:induction false} LaterIsAfter(s: seq<real>, cutoff: real)
    ensures |After(s, cutoff)| == Later(s, cutoff)
  {
    if s != [] {
      LaterIsAfter(s[1..], cutoff);
      AfterConcat([s[0]], s[1..], cutoff);
      AfterOfOne(s[0], cutoff);
      assert [s[0]] + s[1..] == s;
    }
  }

  // The keys whose last event is in the window; the others are pruned.
  function Live(t: Table, cutoff: real): set<string> {
    set k | k in t && t[k] != [] && t[k][|t[k]| - 1] > cutoff
  }

  // How many events in the window the table shows of a key.
  function Shown(c: Config, t: Table, key: string, now: real): nat {
    if key in Live(t, now - c.window) then Later(t[key], now - c.window) else 0
  }

  // Whether the table gains an event: a reservation under the limit or a failure, of a live key or with room for one.
  predicate Gains(c: Config, t: Table, op: Op)
    requires op.Reserve? || op.Allowed? || op.RecordFailed?
  {
    var live := Live(t, op.now - c.window);
    && (op.key in live || |live| < c.keyLimit)
    && !op.Allowed? && (op.Reserve? ==> Shown(c, t, op.key, op.now) < c.limit)
  }

  /** What the pruned table answers, whatever the clock reads. */
  lemma {:induction false} TableAnswers(c: Config, t: Table, op: Op)
    requires ValidConfig(c) && (op.Reserve? || op.Allowed? || op.RecordFailed?)
    ensures var a := Step(c, t, op).1;
            match op
            case Reserve(_, _) => a == if Gains(c, t, op) then Yes else No
            case Allowed(key, now) => a == if Gains(c, t, Reserve(key, now)) then Yes else No
            case _ => a == Nothing
  {
    hide Prune, Recent, Live, Later;
    PrunedIsLive(c, t, op.key, op.now);
  }

  /** Which keys it keeps: those whose last event is in the window, and the one that gains an event. */
  lemma {:induction false} TableKeeps(c: Config, t: Table, op: Op)
    requires ValidConfig(c) && (op.Reserve? || op.Allowed? || op.RecordFailed?)
    ensures var live := Live(t, op.now - c.window);
            Step(c, t, op).0.Keys == if Gains(c, t, op) then live + {op.key} else live
  {
    hide Prune, Recent, Live, Later;
    PrunedIsLive(c, t, op.key, op.now);
  }

  /** What it holds: of the key asked about the events in the window, the new one last; of others all. */
  lemma {:induction false} TableHolds(c: Config, t: Table, op: Op)
    requires ValidConfig(c) && (op.Reserve? || op.Allowed? || op.RecordFailed?)
    ensures var t' := Step(c, t, op).0;
            var events := EventsOf(t', op.key);
            var n := Shown(c, t, op.key, op.now);
            && (forall k <- t' :: k != op.key ==> k in t && t'[k] == t[k])
            && |events| == n + (if Gains(c, t, op) then 1 else 0)
            && (Gains(c, t, op) ==> events[n] == op.now)
            && forall i :: 0 <= i < |events| ==> events[i] > op.now - c.window
  {
    hide Prune, Recent, Live, Later;
    PrunedIsLive(c, t, op.key, op.now);
    var t' := Step(c, t, op).0;
    var p := Prune(c, t, op.now);
    assert forall k <- t' :: k != op.key ==> k in p;
    assert EventsOf(t', op.key) == Recent(c, p, op.key, op.now) + (if Gains(c, t, op) then [op.now] else []);
  }

  lemma {:induction false} PrunedIsLive(c: Config, t: Table, key: string, now: real)
    requires ValidConfig(c)
    ensures var p, cutoff := Prune(c, t, now), now - c.window;
            var recent := Recent(c, p, key, now);
            && p.Keys == Live(t, cutoff) && |p| == |Live(t, cutoff)| && (forall k <- p :: k in t && p[k] == t[k])
            && |recent| == (if key in p then Later(t[key], cutoff) else 0)
            && (recent == [] <==> key !in p)
            && now > cutoff
            && forall i :: 0 <= i < |recent| ==> recent[i] > cutoff
  {
    hide After, Later;
    var p, cutoff := Prune(c, t, now), now - c.window;
    assert p.Keys == Live(t, cutoff);
    if key in p {
      var s := t[key];
      LaterIsAfter(s, cutoff);
      assert s == s[..|s| - 1] + [s[|s| - 1]];
      AfterSnoc(s[..|s| - 1], s[|s| - 1], cutoff);
    } else {
      AfterOfNothing(cutoff);
    }
    var recent := Recent(c, p, key, now);
    forall i | 0 <= i < |recent| ensures recent[i] > cutoff {
      AfterLater(EventsOf(p, key), cutoff, i);
    }
  }

  lemma {:induction false} AfterLater(s: seq<real>, cutoff: real, i: nat)
    requires i < |After(s, cutoff)|
    ensures After(s, cutoff)[i] > cutoff
  {
    var init := s[..|s| - 1];
    if i < |After(init, cutoff)| { AfterLater(init, cutoff, i); }
  }

  // ----- Filtered lists -----

  lemma {:induction false} AfterConcat(d: seq<real>, e: seq<real>, cutoff: real)
    ensures After(d + e, cutoff) == After(d, cutoff) + After(e, cutoff)
  {
    if e == [] {
      assert d + e == d;
    } else {
      var init := e[..|e| - 1];
      assert (d + e)[..|d + e| - 1] == d + init;
      AfterConcat(d, init, cutoff);
    }
  }

  lemma {:induction false} AfterOfNothing(cutoff: real)
    ensures After([], cutoff) == []
  {
  }

  lemma {:induction false} AfterSnoc(s: seq<real>, x: real, cutoff: real)
    ensures After(s + [x], cutoff) == After(s, cutoff) + (if x > cutoff then [x] else [])
  {
    assert (s + [x])[..|s + [x]| - 1] == s;
  }

  // Every event kept is one of the list.
  lemma {:induction false} AfterOrigin(s: seq<real>, cutoff: real, i: nat) returns (j: nat)
    requires i < |After(s, cutoff)|
    ensures j < |s| && After(s, cutoff)[i] == s[j]
  {
    var init, last := s[..|s| - 1], |s| - 1;
    if i < |After(init, cutoff)| {
      j := AfterOrigin(init, cutoff, i);
    } else {
      j := last;
    }
  }

  predicate NoneBetween(s: seq<real>, low: real, high: real) {
    forall i :: 0 <= i < |s| ==> !(low < s[i] <= high)
  }

  // Filtering twice: an earlier cutoff loses nothing to a later one if no event lies between them.
  lemma {:induction false} AfterTwice(s: seq<real>, first: real, second: real)
    requires NoneBetween(s, second, first)
    ensures After(After(s, first), second) == After(s, second)
  {
    if s != [] {
      var init, last := s[..|s| - 1], s[|s| - 1];
      AfterTwice(init, first, second);
      if last > first {
        AfterSnoc(After(init, first), last, second);
      } else {
        assert After(init, first) + [] == After(init, first);
      }
    }
  }

  lemma {:induction false} AfterNone(s: seq<real>, cutoff: real)
    requires forall i :: 0 <= i < |s| ==> s[i] <= cutoff
    ensures After(s, cutoff) == []
  {
    if s != [] {
      AfterNone(s[..|s| - 1], cutoff);
    }
  }

  // ----- What readings of the clock make the table forget -----

  // Once an event is recent, every later one of its list is: the last one tells whether any is.
  predicate LastTells(s: seq<real>, cutoff: real) {
    s == [] || (LastTells(s[..|s| - 1], cutoff) && (s[|s| - 1] > cutoff || After(s[..|s| - 1], cutoff) == []))
  }

  lemma {:induction false} LastTellsStale(s: seq<real>, cutoff: real)
    requires LastTells(s, cutoff)
    ensures Stale(s, cutoff) <==> After(s, cutoff) == []
  {
  }

  lemma {:induction false} LastTellsAfter(s: seq<real>, first: real, cutoff: real)
    requires LastTells(s, cutoff)
    ensures LastTells(After(s, first), cutoff)
  {
    if s != [] {
      var init, last := s[..|s| - 1], s[|s| - 1];
      LastTellsAfter(init, first, cutoff);
      if last > first {
        LastTellsSnoc(After(init, first), last, cutoff);
        if last <= cutoff { NothingAfter(init, first, cutoff); }
      } else {
        assert After(init, first) + [] == After(init, first);
      }
    }
  }

  lemma {:induction false} LastTellsSnoc(s: seq<real>, x: real, cutoff: real)
    requires LastTells(s, cutoff)
    ensures LastTells(s + [x], cutoff) <==> x > cutoff || After(s, cutoff) == []
  {
    assert (s + [x])[..|s + [x]| - 1] == s;
  }

  lemma {:induction false} NothingAfter(s: seq<real>, first: real, cutoff: real)
    requires After(s, cutoff) == []
    ensures After(After(s, first), cutoff) == []
  {
    if s != [] {
      var kept := After(s[..|s| - 1], first);
      NothingAfter(s[..|s| - 1], first, cutoff);
      AfterSnoc(kept, s[|s| - 1], cutoff);
      assert kept + [] == kept;
    }
  }

  // No two later readings, in this order, make the table lose the event `e`: by filtering it
  // out at the first and wanting it back at the second, or by hiding it behind the first.
  predicate Kept(window: real, e: real, later: seq<real>) {
    forall a, b :: 0 <= a < b < |later| ==> !Forgets(window, e, later[a], later[b])
  }

  predicate Forgets(window: real, e: real, middle: real, last: real) {
    last - window < e <= middle - window || middle <= last - window < e
  }

  predicate NoForgetting(window: real, readings: seq<real>) {
    readings == [] || (Kept(window, readings[0], readings[1..]) && NoForgetting(window, readings[1..]))
  }

  // ----- Refinement, for given readings to come -----

  ghost predicate Harmless(c: Config, s: seq<real>, later: seq<real>) {
    && (forall i :: 0 <= i < |s| ==> Kept(c.window, s[i], later))
    && (forall a :: 0 <= a < |later| ==> LastTells(s, later[a] - c.window))
  }

  // The table's list for a key and the key's log show the same events at every reading to come.
  ghost predicate ListRefines(c: Config, s: seq<real>, full: seq<real>, later: seq<real>) {
    && Harmless(c, s, later) && Harmless(c, full, later)
    && forall a :: 0 <= a < |later| ==> After(s, later[a] - c.window) == After(full, later[a] - c.window)
  }

  ghost predicate Refines(c: Config, t: Table, log: Table, later: seq<real>) {
    |t| <= c.keyLimit && forall k :: ListRefines(c, EventsOf(t, k), EventsOf(log, k), later)
  }

  // What holds of an event at a reading, and at those after it.
  lemma {:induction false} KeptLater(window: real, x: real, now: real, later: seq<real>)
    requires Kept(window, x, [now] + later)
    ensures Kept(window, x, later)
    ensures forall a :: 0 <= a < |later| ==> !Forgets(window, x, now, later[a])
  {
    var all := [now] + later;
    forall a, b | 0 <= a < b < |later| ensures !Forgets(window, x, later[a], later[b]) {
      assert all[a + 1] == later[a] && all[b + 1] == later[b];
    }
    forall a | 0 <= a < |later| ensures !Forgets(window, x, now, later[a]) {
      assert all[0] == now && all[a + 1] == later[a];
    }
  }

  lemma {:induction false} HarmlessLater(c: Config, s: seq<real>, now: real, later: seq<real>)
    requires Harmless(c, s, [now] + later)
    ensures Harmless(c, s, later) && LastTells(s, now - c.window)
    ensures forall i, a :: 0 <= i < |s| && 0 <= a < |later| ==> !Forgets(c.window, s[i], now, later[a])
  {
    hide LastTells, Kept, Forgets;
    var all := [now] + later;
    forall i | 0 <= i < |s|
      ensures Kept(c.window, s[i], later)
      ensures forall a :: 0 <= a < |later| ==> !Forgets(c.window, s[i], now, later[a])
    {
      KeptLater(c.window, s[i], now, later);
    }
    forall a | 0 <= a < |later| ensures LastTells(s, later[a] - c.window) { assert all[a + 1] == later[a]; }
    assert LastTells(s, all[0] - c.window);
  }

  // At a reading, both lists show the same; the table's may then be kept, or filtered down to what they show.
  lemma {:induction false} ListAt(c: Config, s: seq<real>, full: seq<real>, now: real, later: seq<real>)
    requires ListRefines(c, s, full, [now] + later)
    ensures After(s, now - c.window) == After(full, now - c.window)
    ensures Stale(s, now - c.window) <==> After(full, now - c.window) == []
    ensures ListRefines(c, s, full, later) && ListRefines(c, After(s, now - c.window), full, later)
  {
    hide LastTells, Kept, After, Harmless, Forgets;
    var all, kept := [now] + later, After(s, now - c.window);
    assert all[0] == now && forall a :: 0 <= a < |later| ==> all[a + 1] == later[a];
    HarmlessLater(c, s, now, later);
    HarmlessLater(c, full, now, later);
    LastTellsStale(s, now - c.window);
    KeptHarmless(c, s, now - c.window, later);
    forall a | 0 <= a < |later|
      ensures After(s, later[a] - c.window) == After(full, later[a] - c.window)
      ensures After(kept, later[a] - c.window) == After(full, later[a] - c.window)
    {
      assert all[a + 1] == later[a];
      NoneForgotten(c, s, now, later, a);
      AfterTwice(s, now - c.window, later[a] - c.window);
    }
  }

  lemma {:induction false} NoneForgotten(c: Config, s: seq<real>, now: real, later: seq<real>, a: nat)
    requires a < |later|
    requires forall i, a :: 0 <= i < |s| && 0 <= a < |later| ==> !Forgets(c.window, s[i], now, later[a])
    ensures NoneBetween(s, later[a] - c.window, now - c.window)
    ensures now <= later[a] - c.window ==> forall i :: 0 <= i < |s| ==> s[i] <= later[a] - c.window
  {
    forall i | 0 <= i < |s|
      ensures !(later[a] - c.window < s[i] <= now - c.window)
      ensures now <= later[a] - c.window ==> s[i] <= later[a] - c.window
    {
      assert !Forgets(c.window, s[i], now, later[a]);
    }
  }

  lemma {:induction false} KeptHarmless(c: Config, s: seq<real>, cutoff: real, later: seq<real>)
    requires Harmless(c, s, later)
    ensures Harmless(c, After(s, cutoff), later)
  {
    hide LastTells, Kept, After;
    forall i | 0 <= i < |After(s, cutoff)| ensures Kept(c.window, After(s, cutoff)[i], later) {
      var j := AfterOrigin(s, cutoff, i);
    }
    forall a | 0 <= a < |later| ensures LastTells(After(s, cutoff), later[a] - c.window) {
      LastTellsAfter(s, cutoff, later[a] - c.window);
    }
  }

  lemma {:induction false} HarmlessMore(c: Config, s: seq<real>, now: real, later: seq<real>)
    requires Harmless(c, s, later) && Kept(c.window, now, later)
    requires forall i, a :: 0 <= i < |s| && 0 <= a < |later| ==> !Forgets(c.window, s[i], now, later[a])
    ensures Harmless(c, s + [now], later)
  {
    hide Kept, Forgets, LastTells, After;
    var more := s + [now];
    forall i | 0 <= i < |more| ensures Kept(c.window, more[i], later) {
      assert i < |s| ==> more[i] == s[i];
    }
    forall a | 0 <= a < |later| ensures LastTells(more, later[a] - c.window) {
      NoneForgotten(c, s, now, later, a);
      LastTellsSnoc(s, now, later[a] - c.window);
      if now <= later[a] - c.window { AfterNone(s, later[a] - c.window); }
    }
  }

  // An event now, added to both lists.
  lemma {:induction false} ListMore(c: Config, s: seq<real>, full: seq<real>, now: real, later: seq<real>)
    requires ListRefines(c, s, full, [now] + later) && Kept(c.window, now, later)
    ensures ListRefines(c, After(s, now - c.window) + [now], full + [now], later)
  {
    hide LastTells, Kept, After, Harmless, Forgets;
    var kept := After(s, now - c.window);
    ListAt(c, s, full, now, later);
    HarmlessLater(c, s, now, later);
    HarmlessLater(c, full, now, later);
    forall i, a | 0 <= i < |kept| && 0 <= a < |later| ensures !Forgets(c.window, kept[i], now, later[a]) {
      var j := AfterOrigin(s, now - c.window, i);
    }
    KeptHarmless(c, s, now - c.window, later);
    HarmlessMore(c, kept, now, later);
    HarmlessMore(c, full, now, later);
    forall a | 0 <= a < |later|
      ensures After(kept + [now], later[a] - c.window) == After(full + [now], later[a] - c.window)
    {
      AfterSnoc(kept, now, later[a] - c.window);
      AfterSnoc(full, now, later[a] - c.window);
    }
  }

  lemma {:induction false} NothingRefines(c: Config, later: seq<real>)
    ensures ListRefines(c, [], [], later)
  {
  }

  lemma {:induction false} SubsetSize(a: set<string>, b: set<string>)
    requires a <= b
    ensures |a| <= |b|
  {
    assert |b - a| == |b| - |a|;
  }

  lemma {:induction false} ActiveInLog(c: Config, log: Table, key: string, now: real)
    ensures key in Active(c, log, now) <==> Recent(c, log, key, now) != []
  {
    if key !in log { AfterOfNothing(now - c.window); }
  }

  // Pruning at a reading: the tracked keys are the active ones, and every recent list is exact.
  lemma {:induction false} PruneAt(c: Config, t: Table, log: Table, k: string, now: real, later: seq<real>)
    requires Refines(c, t, log, [now] + later)
    ensures var p := Prune(c, t, now);
            && ListRefines(c, EventsOf(p, k), EventsOf(log, k), [now] + later)
            && Recent(c, p, k, now) == Recent(c, log, k, now)
            && (k in p <==> k in Active(c, log, now))
  {
    hide LastTells, Kept, After, Harmless, Active;
    var s, full, cutoff := EventsOf(t, k), EventsOf(log, k), now - c.window;
    assert ListRefines(c, s, full, [now] + later);
    ListAt(c, s, full, now, later);
    ActiveInLog(c, log, k, now);
    AfterOfNothing(cutoff);
    if k !in Prune(c, t, now) {
      DroppedRefines(c, s, full, now, later);
    }
  }

  // Dropping a list none of whose events shows, now or later, keeps the relation.
  lemma {:induction false} DroppedRefines(c: Config, s: seq<real>, full: seq<real>, now: real, later: seq<real>)
    requires ListRefines(c, s, full, [now] + later) && After(s, now - c.window) == []
    ensures ListRefines(c, [], full, [now] + later)
  {
    hide LastTells, Kept, After;
    var all := [now] + later;
    ListAt(c, s, full, now, later);
    assert Harmless(c, [], all) by { NothingRefines(c, all); }
    forall a | 0 <= a < |all| ensures After([], all[a] - c.window) == After(full, all[a] - c.window) {
      AfterOfNothing(all[a] - c.window);
      if a > 0 {
        assert all[a] == later[a - 1];
        assert After(After(s, now - c.window), later[a - 1] - c.window) == After(full, later[a - 1] - c.window);
      }
    }
  }

  lemma {:induction false} PruneRefines(c: Config, t: Table, log: Table, now: real, later: seq<real>)
    requires Refines(c, t, log, [now] + later)
    ensures var p := Prune(c, t, now);
            && Refines(c, p, log, [now] + later) && p.Keys == Active(c, log, now)
            && forall k :: Recent(c, p, k, now) == Recent(c, log, k, now)
  {
    var p := Prune(c, t, now);
    SubsetSize(p.Keys, t.Keys);
    hide Prune, Recent, ListRefines, Active;
    forall k {:trigger EventsOf(p, k)} {:trigger Recent(c, p, k, now)} {:trigger k in p}
      ensures ListRefines(c, EventsOf(p, k), EventsOf(log, k), [now] + later)
      ensures Recent(c, p, k, now) == Recent(c, log, k, now)
      ensures k in p <==> k in Active(c, log, now)
    {
      PruneAt(c, t, log, k, now, later);
    }
  }

  // A reading has passed and nothing was changed.
  lemma {:induction false} Waited(c: Config, t: Table, log: Table, now: real, later: seq<real>)
    requires Refines(c, t, log, [now] + later)
    ensures Refines(c, t, log, later)
    ensures forall k :: Recent(c, t, k, now) == Recent(c, log, k, now)
  {
    hide ListRefines, After;
    forall k
      ensures ListRefines(c, EventsOf(t, k), EventsOf(log, k), later)
      ensures Recent(c, t, k, now) == Recent(c, log, k, now)
    {
      assert ListRefines(c, EventsOf(t, k), EventsOf(log, k), [now] + later);
      ListAt(c, EventsOf(t, k), EventsOf(log, k), now, later);
    }
  }

  // One key's list replaced, with its log; the others wait.
  lemma {:induction false} Put(c: Config, p: Table, log: Table, key: string, s: seq<real>, full: seq<real>, now: real,
                               later: seq<real>)
    requires Refines(c, p, log, [now] + later) && (key in p || |p| < c.keyLimit)
    requires ListRefines(c, s, full, later)
    ensures Refines(c, p[key := s], if full == EventsOf(log, key) then log else log[key := full], later)
  {
    hide ListRefines;
    var t', log' := p[key := s], if full == EventsOf(log, key) then log else log[key := full];
    assert t'.Keys == p.Keys + {key};
    Waited(c, p, log, now, later);
    forall k ensures ListRefines(c, EventsOf(t', k), EventsOf(log', k), later) {
      assert ListRefines(c, EventsOf(p, k), EventsOf(log, k), later);
    }
  }

  // ----- One operation -----

  // The readings that operations take from the clock.
  function Readings(ops: seq<Op>): seq<real>
    decreases |ops|
  {
    if ops == [] then [] else (if ops[0].Clear? then [] else [ops[0].now]) + Readings(ops[1..])
  }

  // The readings still to come, from the one of `op` on.
  function From(op: Op, later: seq<real>): seq<real> {
    if op.Clear? then later else [op.now] + later
  }

  /** One operation answers as on the full log, and the table stays right for the readings to come. */
  lemma {:induction false} StepRefines(c: Config, t: Table, log: Table, op: Op, later: seq<real>)
    requires ValidConfig(c) && Refines(c, t, log, From(op, later)) && (!op.Clear? ==> Kept(c.window, op.now, later))
    ensures var (t', a), (log', b) := Step(c, t, op), SpecStep(c, log, op);
            a == b && Refines(c, t', log', later)
  {
    match op
    case Clear(key) => ClearRefines(c, t, log, key, later);
    case Count(key, now) => Waited(c, t, log, now, later);
    case Reserve(key, now) => ReserveRefines(c, t, log, key, now, later);
    case Allowed(key, now) => AllowedRefines(c, t, log, key, now, later);
    case RecordFailed(key, now) => RecordRefines(c, t, log, key, now, later);
  }

  lemma {:induction false} ClearRefines(c: Config, t: Table, log: Table, key: string, later: seq<real>)
    requires Refines(c, t, log, later)
    ensures Refines(c, t - {key}, log - {key}, later)
  {
    hide ListRefines;
    var t', log' := t - {key}, log - {key};
    NothingRefines(c, later);
    assert t'.Keys <= t.Keys;
    SubsetSize(t'.Keys, t.Keys);
    forall k ensures ListRefines(c, EventsOf(t', k), EventsOf(log', k), later) {
      assert ListRefines(c, EventsOf(t, k), EventsOf(log, k), later);
    }
  }

  // What every tracking operation starts from.
  lemma {:induction false} Pruned(c: Config, t: Table, log: Table, key: string, now: real, later: seq<real>)
    requires Refines(c, t, log, [now] + later)
    ensures var p := Prune(c, t, now);
            && Refines(c, p, log, [now] + later) && Refines(c, p, log, later)
            && p.Keys == Active(c, log, now) && |p| == |Active(c, log, now)|
            && Recent(c, p, key, now) == Recent(c, log, key, now)
            && ListRefines(c, Recent(c, p, key, now), EventsOf(log, key), later)
            && (key in p <==> Recent(c, p, key, now) != [])
            && (Recent(c, log, key, now) != [] ==> key in log)
  {
    hide ListRefines, Prune, Active, After;
    var p := Prune(c, t, now);
    PruneRefines(c, t, log, now, later);
    Waited(c, p, log, now, later);
    ActiveInLog(c, log, key, now);
    assert |p| == |p.Keys|;
    assert ListRefines(c, EventsOf(p, key), EventsOf(log, key), [now] + later);
    ListAt(c, EventsOf(p, key), EventsOf(log, key), now, later);
    AfterOfNothing(now - c.window);
  }

  lemma {:induction false} ReserveRefines(c: Config, t: Table, log: Table, key: string, now: real, later: seq<real>)
    requires ValidConfig(c) && Refines(c, t, log, [now] + later) && Kept(c.window, now, later)
    ensures var (t', a), (log', b) := Step(c, t, Reserve(key, now)), SpecStep(c, log, Reserve(key, now));
            a == b && Refines(c, t', log', later)
  {
    hide Recent, ListRefines, Prune, Active, Kept, Refines;
    var p := Prune(c, t, now);
    Pruned(c, t, log, key, now, later);
    if key in p || |p| < c.keyLimit {
      if |Recent(c, p, key, now)| >= c.limit {
        Put(c, p, log, key, Recent(c, p, key, now), EventsOf(log, key), now, later);
      } else {
        EventAdded(c, p, log, key, now, later);
      }
    }
  }

  lemma {:induction false} EventAdded(c: Config, p: Table, log: Table, key: string, now: real, later: seq<real>)
    requires Refines(c, p, log, [now] + later) && Kept(c.window, now, later) && (key in p || |p| < c.keyLimit)
    ensures Refines(c, p[key := Recent(c, p, key, now) + [now]], log[key := EventsOf(log, key) + [now]], later)
  {
    hide ListRefines, Kept, After;
    var full := EventsOf(log, key);
    assert ListRefines(c, EventsOf(p, key), full, [now] + later);
    ListMore(c, EventsOf(p, key), full, now, later);
    assert |full + [now]| != |full|;
    Put(c, p, log, key, Recent(c, p, key, now) + [now], full + [now], now, later);
  }

  lemma {:induction false} AllowedRefines(c: Config, t: Table, log: Table, key: string, now: real, later: seq<real>)
    requires ValidConfig(c) && Refines(c, t, log, [now] + later)
    ensures var (t', a), (log', b) := Step(c, t, Allowed(key, now)), SpecStep(c, log, Allowed(key, now));
            a == b && Refines(c, t', log', later)
  {
    hide Recent, ListRefines, Prune, Active, Refines;
    var p := Prune(c, t, now);
    Pruned(c, t, log, key, now, later);
    if key in p || |p| < c.keyLimit {
      if Recent(c, p, key, now) != [] {
        Put(c, p, log, key, Recent(c, p, key, now), EventsOf(log, key), now, later);
      } else {
        assert p - {key} == p;
      }
    }
  }

  lemma {:induction false} RecordRefines(c: Config, t: Table, log: Table, key: string, now: real, later: seq<real>)
    requires ValidConfig(c) && Refines(c, t, log, [now] + later) && Kept(c.window, now, later)
    ensures var (t', a), (log', b) := Step(c, t, RecordFailed(key, now)), SpecStep(c, log, RecordFailed(key, now));
            a == b && Refines(c, t', log', later)
  {
    hide Recent, ListRefines, Prune, Active, Kept, Refines;
    var p := Prune(c, t, now);
    Pruned(c, t, log, key, now, later);
    if key in p || |p| < c.keyLimit {
      EventAdded(c, p, log, key, now, later);
    }
  }

  // ----- Whole runs -----

  function Answers(c: Config, t: Table, ops: seq<Op>): (answers: seq<Answer>)
    ensures |answers| == |ops|
    decreases |ops|
  {
    if ops == [] then []
    else var (t', a) := Step(c, t, ops[0]); [a] + Answers(c, t', ops[1..])
  }

  function SpecAnswers(c: Config, log: Table, ops: seq<Op>): (answers: seq<Answer>)
    ensures |answers| == |ops|
    decreases |ops|
  {
    if ops == [] then []
    else var (log', a) := SpecStep(c, log, ops[0]); [a] + SpecAnswers(c, log', ops[1..])
  }

  lemma {:induction false} RunRefines(c: Config, t: Table, log: Table, ops: seq<Op>)
    requires ValidConfig(c) && Refines(c, t, log, Readings(ops)) && NoForgetting(c.window, Readings(ops))
    ensures Answers(c, t, ops) == SpecAnswers(c, log, ops)
    decreases |ops|
  {
    if ops != [] {
      hide Refines, Step, SpecStep, Kept;
      var later := Readings(ops[1..]);
      assert Readings(ops) == From(ops[0], later) by {
        if ops[0].Clear? { assert [] + later == later; }
      }
      if !ops[0].Clear? { assert Readings(ops)[1..] == later; }
      StepRefines(c, t, log, ops[0], later);
      RunRefines(c, Step(c, t, ops[0]).0, SpecStep(c, log, ops[0]).0, ops[1..]);
    }
  }

  lemma {:induction false} EmptyRefines(c: Config, later: seq<real>)
    ensures Refines(c, map[], map[], later)
  {
    hide ListRefines;
    NothingRefines(c, later);
  }

  /** Where no readings make it forget, the empty table answers every run as the complete log does. */
  lemma {:induction false} FreshRunRefines(c: Config, ops: seq<Op>)
    requires ValidConfig(c) && NoForgetting(c.window, Readings(ops))
    ensures Answers(c, map[], ops) == SpecAnswers(c, map[], ops)
  {
    EmptyRefines(c, Readings(ops));
    RunRefines(c, map[], map[], ops);
  }

  predicate NonDecreasing(readings: seq<real>) {
    forall i, j :: 0 <= i < j < |readings| ==> readings[i] <= readings[j]
  }

  /** A clock that does not go back makes the table forget nothing. */
  lemma {:induction false} SteadyClock(c: Config, readings: seq<real>)
    requires ValidConfig(c) && NonDecreasing(readings)
    ensures NoForgetting(c.window, readings)
  {
    if readings != [] {
      SteadyClock(c, readings[1..]);
    }
  }

  // ----- Readings that do make it forget -----

  function Counts(readings: seq<real>): (ops: seq<Op>)
    ensures |ops| == |readings|
  {
    if readings == [] then [] else [Count("", readings[0])] + Counts(readings[1..])
  }

  function TableAfter(c: Config, t: Table, ops: seq<Op>): Table
    decreases |ops|
  {
    if ops == [] then t else TableAfter(c, Step(c, t, ops[0]).0, ops[1..])
  }

  function LogAfter(c: Config, log: Table, ops: seq<Op>): Table
    decreases |ops|
  {
    if ops == [] then log else LogAfter(c, SpecStep(c, log, ops[0]).0, ops[1..])
  }

  lemma {:induction false} AnswersAppend(c: Config, t: Table, log: Table, a: seq<Op>, b: seq<Op>)
    ensures |Answers(c, t, a)| == |SpecAnswers(c, log, a)| == |a|
    ensures Answers(c, t, a + b) == Answers(c, t, a) + Answers(c, TableAfter(c, t, a), b)
    ensures SpecAnswers(c, log, a + b) == SpecAnswers(c, log, a) + SpecAnswers(c, LogAfter(c, log, a), b)
    decreases |a|
  {
    hide Step, SpecStep;
    if a == [] {
      assert a + b == b;
    } else {
      assert (a + b)[0] == a[0] && (a + b)[1..] == a[1..] + b;
      var t', log' := Step(c, t, a[0]), SpecStep(c, log, a[0]);
      AnswersAppend(c, t'.0, log'.0, a[1..], b);
      Assoc([t'.1], Answers(c, t'.0, a[1..]), Answers(c, TableAfter(c, t, a), b));
      Assoc([log'.1], SpecAnswers(c, log'.0, a[1..]), SpecAnswers(c, LogAfter(c, log, a), b));
    }
  }

  lemma {:induction false} ReadingsAppend(a: seq<Op>, b: seq<Op>)
    ensures Readings(a + b) == Readings(a) + Readings(b)
    decreases |a|
  {
    if a == [] {
      assert a + b == b;
    } else {
      assert (a + b)[0] == a[0] && (a + b)[1..] == a[1..] + b;
      ReadingsAppend(a[1..], b);
    }
  }

  // Counting reads the clock and changes nothing.
  lemma {:induction false} CountsChangeNothing(c: Config, t: Table, log: Table, readings: seq<real>)
    ensures TableAfter(c, t, Counts(readings)) == t && LogAfter(c, log, Counts(readings)) == log
    ensures Readings(Counts(readings)) == readings
  {
    if readings != [] {
      assert Counts(readings)[1..] == Counts(readings[1..]);
      CountsChangeNothing(c, t, log, readings[1..]);
    }
  }

  lemma {:induction false} StatesAppend(c: Config, t: Table, log: Table, a: seq<Op>, b: seq<Op>)
    ensures TableAfter(c, t, a + b) == TableAfter(c, TableAfter(c, t, a), b)
    ensures LogAfter(c, log, a + b) == LogAfter(c, LogAfter(c, log, a), b)
    decreases |a|
  {
    hide Step, SpecStep;
    if a == [] {
      assert a + b == b;
    } else {
      assert (a + b)[1..] == a[1..] + b;
      StatesAppend(c, Step(c, t, a[0]).0, SpecStep(c, log, a[0]).0, a[1..], b);
    }
  }

  // An operation, after readings at which nothing happened.
  function Then(readings: seq<real>, op: Op): seq<Op> {
    Counts(readings) + [op]
  }

  lemma {:induction false} ThenState(c: Config, t: Table, log: Table, readings: seq<real>, op: Op)
    requires !op.Clear?
    ensures TableAfter(c, t, Then(readings, op)) == Step(c, t, op).0
    ensures LogAfter(c, log, Then(readings, op)) == SpecStep(c, log, op).0
    ensures Readings(Then(readings, op)) == readings + [op.now]
  {
    hide Step, SpecStep;
    CountsChangeNothing(c, t, log, readings);
    StatesAppend(c, t, log, Counts(readings), [op]);
    ReadingsAppend(Counts(readings), [op]);
    assert [op][1..] == [];
    assert Readings([op]) == [op.now] + Readings([]);
  }

  // Runs that reach states in which one operation is answered differently are answered differently.
  lemma {:induction false} DifferAt(c: Config, pre: seq<Op>, op: Op, post: seq<Op>)
    requires Step(c, TableAfter(c, map[], pre), op).1 != SpecStep(c, LogAfter(c, map[], pre), op).1
    ensures Answers(c, map[], pre + ([op] + post)) != SpecAnswers(c, map[], pre + ([op] + post))
  {
    hide Step, SpecStep;
    AnswersAppend(c, map[], map[], pre, [op] + post);
    var t, log := TableAfter(c, map[], pre), LogAfter(c, map[], pre);
    assert ([op] + post)[0] == op;
    assert Answers(c, t, [op] + post)[0] == Step(c, t, op).1;
    assert SpecAnswers(c, log, [op] + post)[0] == SpecStep(c, log, op).1;
    var n := |pre|;
    assert Answers(c, map[], pre + ([op] + post))[n] == Answers(c, t, [op] + post)[0];
    assert SpecAnswers(c, map[], pre + ([op] + post))[n] == SpecAnswers(c, log, [op] + post)[0];
  }

  lemma {:induction false} AfterOfOne(x: real, cutoff: real)
    ensures After([x], cutoff) == if x > cutoff then [x] else []
  {
    assert [x][..0] == [];
  }

  lemma {:induction false} FirstReserve(c: Config, key: string, now: real)
    requires ValidConfig(c)
    ensures Step(c, map[], Reserve(key, now)).0 == map[key := [now]]
    ensures SpecStep(c, map[], Reserve(key, now)).0 == map[key := [now]]
  {
    hide After;
    AfterOfNothing(now - c.window);
    assert Prune(c, map[], now) == map[];
    assert Active(c, map[], now) == {};
    assert [] + [now] == [now];
  }

  lemma {:induction false} SecondReserve(c: Config, key: string, first: real, now: real)
    requires ValidConfig(c) && c.limit >= 2 && first > now - c.window
    ensures Step(c, map[key := [first]], Reserve(key, now)).0 == map[key := [first, now]]
    ensures SpecStep(c, map[key := [first]], Reserve(key, now)).0 == map[key := [first, now]]
  {
    hide After;
    var t := map[key := [first]];
    AfterOfOne(first, now - c.window);
    assert Prune(c, t, now) == t;
    assert key in Active(c, t, now);
    assert [first] + [now] == [first, now];
  }

  // The event has left the window: the table forgets it, the log does not.
  lemma {:induction false} OtherReserve(c: Config, key: string, other: string, first: real, now: real)
    requires ValidConfig(c) && key != other && first <= now - c.window
    ensures Step(c, map[key := [first]], Reserve(other, now)).0 == map[other := [now]]
    ensures SpecStep(c, map[key := [first]], Reserve(other, now)).0 == map[key := [first], other := [now]]
  {
    hide After;
    var t := map[key := [first]];
    AfterOfOne(first, now - c.window);
    AfterOfNothing(now - c.window);
    assert Prune(c, t, now) == map[];
    assert Active(c, t, now) == {};
    assert [] + [now] == [now];
  }

  // The last event hides one that is still recent: the table has room for another key, the log has not.
  lemma {:induction false} HiddenReserve(c: Config, key: string, other: string, first: real, second: real, now: real)
    requires ValidConfig(c) && c.keyLimit == 1 && key != other && second <= now - c.window < first
    ensures Step(c, map[key := [first, second]], Reserve(other, now)).1 == Yes
    ensures SpecStep(c, map[key := [first, second]], Reserve(other, now)).1 == No
  {
    hide After;
    var t := map[key := [first, second]];
    AfterOfOne(first, now - c.window);
    AfterOfNothing(now - c.window);
    AfterSnoc([first], second, now - c.window);
    assert [first] + [second] == [first, second];
    assert Prune(c, t, now) == map[];
    assert Active(c, t, now) == {key};
  }

  lemma {:induction false} FindForgetting(window: real, readings: seq<real>) returns (i: nat, j: nat, k: nat)
    requires !NoForgetting(window, readings)
    ensures i < j < k < |readings| && Forgets(window, readings[i], readings[j], readings[k])
  {
    var later := readings[1..];
    if !Kept(window, readings[0], later) {
      var a, b :| 0 <= a < b < |later| && Forgets(window, readings[0], later[a], later[b]);
      i, j, k := 0, a + 1, b + 1;
    } else {
      i, j, k := FindForgetting(window, later);
      i, j, k := i + 1, j + 1, k + 1;
    }
  }

  // Operations at three of the readings, and nothing at the others.
  function Three(readings: seq<real>, i: nat, j: nat, k: nat, first: Op, second: Op, third: Op): seq<Op>
    requires i < j < k < |readings|
  {
    (Then(readings[..i], first) + Then(readings[i + 1..j], second))
    + (Counts(readings[j + 1..k]) + ([third] + Counts(readings[k + 1..])))
  }

  lemma {:induction false} ThreeReadings(c: Config, readings: seq<real>, i: nat, j: nat, k: nat, first: Op,
                                         second: Op, third: Op)
    requires i < j < k < |readings| && !first.Clear? && !second.Clear? && !third.Clear?
    requires first.now == readings[i] && second.now == readings[j] && third.now == readings[k]
    ensures Readings(Three(readings, i, j, k, first, second, third)) == readings
  {
    hide Step, SpecStep;
    var a, b := Then(readings[..i], first), Then(readings[i + 1..j], second);
    var d, e := Counts(readings[j + 1..k]), Counts(readings[k + 1..]);
    ThenState(c, map[], map[], readings[..i], first);
    ThenState(c, map[], map[], readings[i + 1..j], second);
    CountsChangeNothing(c, map[], map[], readings[j + 1..k]);
    CountsChangeNothing(c, map[], map[], readings[k + 1..]);
    ReadingsAppend(a, b);
    ReadingsAppend(a + b, d + ([third] + e));
    ReadingsAppend(d, [third] + e);
    assert ([third] + e)[1..] == e;
    SevenParts(readings, i, j, k);
  }

  lemma {:induction false} SevenParts(r: seq<real>, i: nat, j: nat, k: nat)
    requires i < j < k < |r|
    ensures r == ((r[..i] + [r[i]]) + (r[i + 1..j] + [r[j]])) + (r[j + 1..k] + ([r[k]] + r[k + 1..]))
  {
  }

  lemma {:induction false} ThreeDiffer(c: Config, readings: seq<real>, i: nat, j: nat, k: nat, first: Op, second: Op,
                                       third: Op)
    requires i < j < k < |readings| && !first.Clear? && !second.Clear?
    requires var (t1, log1) := (Step(c, map[], first).0, SpecStep(c, map[], first).0);
             var (t2, log2) := (Step(c, t1, second).0, SpecStep(c, log1, second).0);
             Step(c, t2, third).1 != SpecStep(c, log2, third).1
    ensures var ops := Three(readings, i, j, k, first, second, third);
            Answers(c, map[], ops) != SpecAnswers(c, map[], ops)
  {
    hide Step, SpecStep;
    var t1, log1 := Step(c, map[], first).0, SpecStep(c, map[], first).0;
    var t2, log2 := Step(c, t1, second).0, SpecStep(c, log1, second).0;
    var a, b := Then(readings[..i], first), Then(readings[i + 1..j], second);
    var d, e := Counts(readings[j + 1..k]), Counts(readings[k + 1..]);
    ThenState(c, map[], map[], readings[..i], first);
    ThenState(c, t1, log1, readings[i + 1..j], second);
    StatesAppend(c, map[], map[], a, b);
    CountsChangeNothing(c, t2, log2, readings[j + 1..k]);
    StatesAppend(c, map[], map[], a + b, d);
    DifferAt(c, (a + b) + d, third, e);
    Assoc(a + b, d, [third] + e);
  }

  // Readings that make some table forget, and the run that shows it.
  lemma {:induction false} ForgettingShows(window: real, readings: seq<real>) returns (c: Config, ops: seq<Op>)
    requires window >= 10.0 && !NoForgetting(window, readings)
    ensures ValidConfig(c) && c.window == window && Readings(ops) == readings
    ensures Answers(c, map[], ops) != SpecAnswers(c, map[], ops)
  {
    hide Step, SpecStep, NoForgetting, Three, Answers, SpecAnswers, Readings, After;
    c := Config(2, window, 1);
    var i, j, k := FindForgetting(window, readings);
    var ti, tj, tk := readings[i], readings[j], readings[k];
    FirstReserve(c, "k", ti);
    var first, second, third := Reserve("k", ti), Reserve("k", tj), Reserve("x", tk);
    if tj <= tk - window < ti {
      SecondReserve(c, "k", ti, tj);
      HiddenReserve(c, "k", "x", ti, tj, tk);
    } else {
      second, third := Reserve("x", tj), Count("k", tk);
      OtherReserve(c, "k", "x", ti, tj);
      CountsDiffer(c, "k", "x", ti, tj, tk);
    }
    ops := Three(readings, i, j, k, first, second, third);
    ThreeReadings(c, readings, i, j, k, first, second, third);
    ThreeDiffer(c, readings, i, j, k, first, second, third);
  }

  lemma {:induction false} CountsDiffer(c: Config, key: string, other: string, first: real, second: real, now: real)
    requires key != other && now - c.window < first
    ensures Step(c, map[other := [second]], Count(key, now)).1 == Number(0)
    ensures SpecStep(c, map[key := [first], other := [second]], Count(key, now)).1 == Number(1)
  {
    hide After;
    AfterOfNothing(now - c.window);
    AfterOfOne(first, now - c.window);
  }

  /**
   * The readings for which the pruned table is exact: every table with this
   * window answers every run with these readings as the complete log does, if
   * and only if no three of them, in their order, make it forget.
   */
  lemma {:induction false} ExactReadings(window: real, readings: seq<real>)
    requires window >= 10.0
    ensures (forall c, ops :: ValidConfig(c) && c.window == window && Readings(ops) == readings ==>
               Answers(c, map[], ops) == SpecAnswers(c, map[], ops))
       <==> NoForgetting(window, readings)
  {
    hide Answers, SpecAnswers, Readings, NoForgetting;
    if NoForgetting(window, readings) {
      forall c, ops | ValidConfig(c) && c.window == window && Readings(ops) == readings
        ensures Answers(c, map[], ops) == SpecAnswers(c, map[], ops)
      {
        FreshRunRefines(c, ops);
      }
    } else {
      var c, ops := ForgettingShows(window, readings);
    }
  }
}
