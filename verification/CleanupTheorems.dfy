/**
 * Consequences of the cleanup contracts over several calls, and the exact
 * condition under which the move loop of restore overwrites nothing.
 */
module CleanupTheorems {
  import opened Cleanup
  import opened CleanupMoves
  import opened CleanupScan
  import opened Relocation
  import opened Wrappers
  import Numerals

  /** Where a batch and its opposite have both been made, the files are as at the start. */
  lemma {:induction false} RoundTripFiles(home: Files, f0: Files, loc0: Loc, loc1: Loc, f2: Files, loc2: Loc,
                                          moves: seq<Move>)
    requires Conserved(home, f0, loc0) && Conserved(home, f2, loc2)
    requires Separate(loc0.Values, moves) && Displaced(loc0, loc1, moves, Upto(|moves|))
    requires Displaced(loc1, loc2, Opposite(moves), Upto(|moves|))
    ensures loc2 == loc0 && f2 == f0
  {
    hide Separate, Target, Opposite, Upto, Conserved;
    forall h | h in loc0 ensures loc2[h] == loc0[h] {
      RoundTrip(loc0, loc1, loc1, loc2, moves, h);
    }
    assert loc2.Keys == loc0.Keys;
    assert loc2 == loc0;
    LocDetermines(home, f0, f2, loc0);
  }

  lemma {:induction false} BackIsOpposite(items: seq<Item>)
    ensures Moves(BackAll(items)) == Opposite(Moves(items))
  {
  }

  // ----- Every file, after any call -----

  // The file that was at `p` is still there, or directly inside `q` instead, and unchanged.
  ghost predicate Stands(before: Files, after: Files, p: Path, q: Path)
    requires p in before
  {
    || (p in after && after[p] == before[p])
    || (p !in after && exists t :: t in after && InDirectory(t, q) && after[t] == before[p])
  }

  lemma {:induction false} PlannedFileStands(
    home: Files, a: Arrangement, b: Arrangement, items: seq<Item>, out: set<nat>, cs: seq<Candidate>, q: Path, p: Path)
    requires Conserved(home, a.files, a.loc) && Conserved(home, b.files, b.loc)
    requires Separate(a.loc.Values, Moves(items)) && Displaced(a.loc, b.loc, Moves(items), out)
    requires ItemsOf(items, cs, q) && p in a.files
    ensures Stands(a.files, b.files, p, q)
    ensures (forall i :: 0 <= i < |items| ==> cs[i].path != p) ==> p in b.files && b.files[p] == a.files[p]
  {
    hide Conserved, Separate, Displaced, Numerals.Numbering, InDirectory;
    if k :| 0 <= k < |items| && items[k].move.from == p {
      assert Moves(items)[k].from == p;
      FileStands(home, a, b, Moves(items), out, k);
    } else {
      FileFollows(home, a, b, Moves(items), out, p);
      TargetCases(p, Moves(items), out);
    }
  }

  /** Whatever happens in a quarantine call, each planned file is unchanged at its own path or in the new directory. */
  method QuarantineKeepsFiles(s: Service, planId: string, planHash: string, now: int, quarantineId: string, w: Faults)
    returns (r: Outcome, q: Path)
    requires s.Valid()
    modifies s, s.disk
    ensures s.Valid()
    ensures forall p :: p in old(s.disk.files) ==> Stands(old(s.disk.files), s.disk.files, p, q)
    ensures forall p :: p in old(s.disk.files) && (planId in old(s.plans) ==>
                          forall i :: 0 <= i < |old(s.plans)[planId].core.candidates| ==>
                                        old(s.plans)[planId].core.candidates[i].path != p)
              ==> p in s.disk.files && s.disk.files[p] == old(s.disk.files)[p]
  {
    hide Conserved, Separate, Displaced, Parented, Service.RecordsOk, ItemsOf, Sweep, Stands, Upto, Service.Ready;
    ghost var a := s.disk.Now();
    ghost var items, out := [], {};
    r, q, items, out := s.Quarantine(planId, planHash, now, quarantineId, w);
    ghost var cs := if items == [] then [] else old(s.plans)[planId].core.candidates;
    if items == [] { NoItems(cs, q); }
    forall p | p in a.files
      ensures Stands(a.files, s.disk.files, p, q)
      ensures (forall i :: 0 <= i < |cs| ==> cs[i].path != p) ==> p in s.disk.files && s.disk.files[p] == a.files[p]
    {
      ItemsShort(items, cs, q);
      PlannedFileStands(s.disk.home, a, s.disk.Now(), items, out, cs, q, p);
    }
  }

  lemma {:induction false} ItemsShort(items: seq<Item>, cs: seq<Candidate>, q: Path)
    requires ItemsOf(items, cs, q)
    ensures |items| <= |cs|
  {
  }

  /**
   * Whatever happens in a restore call, each quarantined file is unchanged at
   * its quarantine path or at its original one, and no other file moves.
   */
  method RestoreKeepsFiles(s: Service, quarantineId: string, manifestHash: string, w: Faults)
    returns (r: Outcome, q: Path)
    requires s.Valid()
    modifies s, s.disk
    ensures s.Valid()
    ensures forall p :: p in old(s.disk.files) ==>
      || (p in s.disk.files && s.disk.files[p] == old(s.disk.files)[p])
      || (p !in s.disk.files && q in old(s.manifests) && WentBack(old(s.disk.files), s.disk.files, p,
                                                                    old(s.manifests)[q].core.items))
  {
    hide Conserved, Separate, Displaced, Parented, Service.RecordsOk, Upto, Service.Restorable, BackAll, WentBack;
    ghost var a := s.disk.Now();
    ghost var restored, out := [], {};
    r, q, restored, out := s.Restore(quarantineId, manifestHash, w);
    ghost var items := if restored == [] then [] else old(s.manifests)[q].core.items;
    assert restored <= BackAll(items);
    forall p | p in a.files
      ensures (p in s.disk.files && s.disk.files[p] == a.files[p])
              || (p !in s.disk.files && restored != [] && WentBack(a.files, s.disk.files, p, items))
    {
      QuarantinedFileStands(s.disk.home, a, s.disk.Now(), restored, out, items, p);
    }
  }

  // The file quarantined at `p` is at its item's original path, unchanged.
  ghost predicate WentBack(before: Files, after: Files, p: Path, items: seq<Item>)
    requires p in before
  {
    exists i :: 0 <= i < |items| && items[i].move.to == p && items[i].move.from !in before
                && items[i].move.from in after && after[items[i].move.from] == before[p]
  }

  lemma {:induction false} QuarantinedFileStands(
    home: Files, a: Arrangement, b: Arrangement, restored: seq<Item>, out: set<nat>, items: seq<Item>, p: Path)
    requires Conserved(home, a.files, a.loc) && Conserved(home, b.files, b.loc)
    requires Separate(a.loc.Values, Moves(restored)) && Displaced(a.loc, b.loc, Moves(restored), out)
    requires restored <= BackAll(items) && p in a.files
    ensures (p in b.files && b.files[p] == a.files[p])
            || (p !in b.files && restored != [] && WentBack(a.files, b.files, p, items))
  {
    hide Conserved, Displaced, BackAll;
    if k :| 0 <= k < |restored| && restored[k].move.from == p {
      assert Moves(restored)[k].from == p && restored[k] == BackAll(items)[k] == Back(items[k]);
      FilesAreValues(home, a.files, a.loc);
      FileStands(home, a, b, Moves(restored), out, k);
    } else {
      FileFollows(home, a, b, Moves(restored), out, p);
      TargetCases(p, Moves(restored), out);
    }
  }

  // ----- Quarantine, then restore -----

  // A quarantine identifier that no manifest has yet, as a new UUID is.
  ghost predicate NewId(known: set<Path>, quarantineId: string) {
    forall q :: q in known && q != [] ==> q[|q| - 1] != quarantineId
  }

  lemma {:induction false} FoundOnly(roots: seq<Path>, known: set<Path>, root: Path, quarantineId: string)
    requires root in roots && QuarantinePath(root, quarantineId) in known
    requires forall q :: q in known && q != [] && q[|q| - 1] == quarantineId ==> q == QuarantinePath(root, quarantineId)
    ensures FirstManifest(roots, known, quarantineId) == Some(QuarantinePath(root, quarantineId))
  {
    if roots[0] != root && QuarantinePath(roots[0], quarantineId) !in known {
      assert root in roots[1..] by {
        var i :| 0 <= i < |roots| && roots[i] == root;
        assert roots[1..][i - 1] == root;
      }
      FoundOnly(roots[1..], known, root, quarantineId);
    }
  }

  lemma {:induction false} QuarantinedInPlace(
    home: Files, a: Arrangement, b: Arrangement, items: seq<Item>, root: Path, cs: seq<Candidate>, q: Path)
    requires Conserved(home, a.files, a.loc) && Conserved(home, b.files, b.loc)
    requires Separate(a.loc.Values, Moves(items)) && Displaced(a.loc, b.loc, Moves(items), Upto(|items|))
    requires ItemsOf(items, cs, q) && |items| == |cs| && AllIntact(a.files, root, cs)
    ensures AllInPlace(b.files, items)
  {
    hide Conserved, Separate, Displaced, Numerals.Numbering, InDirectory, MatchesSnapshot;
    forall k | 0 <= k < |items| ensures InPlace(b.files, items[k]) {
      FileStands(home, a, b, Moves(items), Upto(|items|), k);
      assert Holds(a.files, cs[k].path, cs[k]);
    }
  }

  /**
   * Quarantine then restore is the identity on the file store; and after a
   * successful quarantine a restore without faults does succeed.
   */
  method QuarantineThenRestore(s: Service, planId: string, planHash: string, now: int, quarantineId: string,
                               w: Faults, w': Faults)
    returns (moved: bool, done: bool)
    requires s.Valid() && NewId(s.manifests.Keys, quarantineId) && forall core :: s.digest(core) != ""
    modifies s, s.disk
    ensures s.Valid()
    ensures done ==> s.disk.files == old(s.disk.files)
    ensures w.Calm? && old(s.Ready(planId, planHash, now, quarantineId)) ==> moved
    ensures moved && w'.Calm? ==> done
  {
    hide Conserved, Separate, Target, Displaced, Upto, Opposite, Parented, Service.ManifestOk, Service.PlanOk,
         ItemsOf, AllIntact, AllInPlace, Sweep, DistinctCandidates, BackAll, Moves;
    ghost var a := s.disk.Now();
    var r, q, items, out := s.Quarantine(planId, planHash, now, quarantineId, w);
    if r.Failed? { return false, false; }
    ghost var b, core := s.disk.Now(), old(s.plans)[planId].core;
    ghost var root := FirstRoot(s.allowedRoots, core.root).value;
    FoundOnly(s.allowedRoots, s.manifests.Keys, root, quarantineId);
    QuarantinedInPlace(s.disk.home, a, b, items, core.root, core.candidates, q);
    var hash := s.manifests[q].manifestHash;
    assert s.Restorable(quarantineId, hash);
    var r', q', restored, out' := s.Restore(quarantineId, hash, w');
    if r'.Failed? { return true, false; }
    BackIsOpposite(items);
    RoundTripFiles(s.disk.home, a.files, a.loc, b.loc, s.disk.files, s.disk.loc, Moves(items));
    return true, true;
  }

  /** A sweep leaves every unexpired plan, and the one named, as it was, and no other. */
  lemma {:induction false} SweepExactly(plans: map<string, Plan>, now: int, exclude: string, id: string)
    ensures var swept := Sweep(plans, now, exclude);
            && (id in swept <==> id in plans && (plans[id].expiresAt >= now || id == exclude))
            && (id in swept ==> swept[id] == plans[id])
  {
  }

  /** The allowed root used is the first that contains the path, and there is one exactly where some root does. */
  lemma {:induction false} FirstRootExactly(roots: seq<Path>, p: Path) returns (n: nat)
    ensures n <= |roots| && forall j :: 0 <= j < n ==> !(roots[j] <= p)
    ensures n < |roots| ==> roots[n] <= p && FirstRoot(roots, p) == Some(roots[n])
    ensures n == |roots| ==> FirstRoot(roots, p) == None
  {
    n := 0;
    if roots != [] && !Within(p, roots[0]) {
      var rest := FirstRootExactly(roots[1..], p);
      n := rest + 1;
      assert forall j :: 0 < j < n ==> roots[j] == roots[1..][j - 1];
    }
  }

  /** The quarantine found is the one below the first allowed root that has one of that name. */
  lemma {:induction false} FirstManifestExactly(roots: seq<Path>, known: set<Path>, id: string)
    ensures match FirstManifest(roots, known, id)
            case Some(q) => exists i :: 0 <= i < |roots| && q == QuarantinePath(roots[i], id) && q in known
                                        && forall j :: 0 <= j < i ==> QuarantinePath(roots[j], id) !in known
            case None => forall i :: 0 <= i < |roots| ==> QuarantinePath(roots[i], id) !in known
  {
    hide QuarantinePath;
    if roots != [] && QuarantinePath(roots[0], id) !in known {
      var rest := roots[1..];
      FirstManifestExactly(rest, known, id);
      if i :| 0 <= i < |rest| && QuarantinePath(rest[i], id) in known
              && forall j :: 0 <= j < i ==> QuarantinePath(rest[j], id) !in known {
        assert roots[i + 1] == rest[i];
        assert forall j :: 0 < j < i + 1 ==> roots[j] == rest[j - 1];
      }
    }
  }

  /** No scan of an allowed root, or of one above it, ever meets a file quarantined below that root. */
  lemma {:induction false} QuarantinedNotScanned(scanned: Path, allowed: Path, quarantineId: string, p: Path)
    requires scanned <= allowed && InDirectory(p, QuarantinePath(allowed, quarantineId))
    ensures !Reached(scanned, p)
  {
    var q := QuarantinePath(allowed, quarantineId);
    assert p[..|q|] == q && q[|allowed|] == QUARANTINE_DIR_NAME;
  }

  /**
   * What a manifest records is inside its directory, and goes back below the
   * scanned root, into a known directory and to no protected asset.
   */
  lemma {:induction false} ManifestPaths(s: Service, q: Path, i: nat)
    requires s.Valid() && q in s.manifests && i < |s.manifests[q].core.items|
    ensures var core := s.manifests[q].core;
            var m := core.items[i].move;
            && q <= m.to && m.from != [] && core.root <= m.from[..|m.from| - 1] && m.from[..|m.from| - 1] in s.dirs
            && forall j :: 0 <= j < |s.guarded| ==> !(s.guarded[j] <= m.from)
  {
    hide Conserved, Parented, DistinctMoves, Service.PlanOk;
    assert s.ManifestOk(q, s.manifests[q], s.dirs);
  }

  // ----- Any sequence of calls -----

  datatype Call =
    | PlanCall(root: Path, tree: Dir, minAgeHours: int, maxFiles: int, now: int, planId: string)
    | QuarantineCall(planId: string, planHash: string, now: int, quarantineId: string, w: Faults)
    | RestoreCall(quarantineId: string, manifestHash: string, w: Faults)

  // Plan identifiers are new UUIDs.
  ghost predicate FreshPlans(calls: seq<Call>, issued: set<string>) {
    && (forall i :: 0 <= i < |calls| && calls[i].PlanCall? ==> calls[i].planId !in issued)
    && (forall i, j :: 0 <= i < j < |calls| && calls[i].PlanCall? && calls[j].PlanCall? ==>
          calls[i].planId != calls[j].planId)
  }

  // Manifests stay, and only their state changes.
  ghost predicate ManifestsKept(before: map<Path, Manifest>, after: map<Path, Manifest>) {
    forall q :: q in before ==> && q in after && after[q].core == before[q].core
                                && after[q].manifestHash == before[q].manifestHash
  }

  // What one call completed: the quarantine of a plan, or the restore of a directory.
  datatype Completed = Nothing | Quarantined(planId: string, directory: Path) | Restored(directory: Path)

  predicate Named(q: Path, quarantineId: string) {
    q != [] && q[|q| - 1] == quarantineId
  }

  predicate Fits(c: Call, d: Completed) {
    match d
    case Nothing => true
    case Quarantined(planId, q) => c.QuarantineCall? && c.planId == planId && Named(q, c.quarantineId)
    case Restored(q) => c.RestoreCall? && Named(q, c.quarantineId)
  }

  // The quarantine directories made, and those restored.
  function Made(ds: seq<Completed>): set<Path> {
    set i | 0 <= i < |ds| && ds[i].Quarantined? :: ds[i].directory
  }

  function Reopened(ds: seq<Completed>): set<Path> {
    set i | 0 <= i < |ds| && ds[i].Restored? :: ds[i].directory
  }

  predicate AtMostOnce(ds: seq<Completed>) {
    forall i, j :: 0 <= i < j < |ds| ==>
      && (ds[i].Quarantined? && ds[j].Quarantined? ==>
            ds[i].planId != ds[j].planId && ds[i].directory != ds[j].directory)
      && (ds[i].Restored? && ds[j].Restored? ==> ds[i].directory != ds[j].directory)
  }

  // The manifest of each quarantine made says which plan it was.
  predicate MadeFrom(ds: seq<Completed>, manifests: map<Path, Manifest>) {
    forall i :: 0 <= i < |ds| && ds[i].Quarantined? ==>
      ds[i].directory in manifests && manifests[ds[i].directory].core.planId == ds[i].planId
  }

  lemma {:induction false} OneMore(ds: seq<Completed>, d: Completed)
    ensures Made(ds + [d]) == Made(ds) + (if d.Quarantined? then {d.directory} else {})
    ensures Reopened(ds + [d]) == Reopened(ds) + (if d.Restored? then {d.directory} else {})
  {
    var more := ds + [d];
    assert more[|ds|] == d && forall i :: 0 <= i < |ds| ==> more[i] == ds[i];
    forall q | q in Made(ds) ensures q in Made(more) {
      var i :| 0 <= i < |ds| && ds[i].Quarantined? && ds[i].directory == q;
      assert more[i] == ds[i];
    }
    forall q | q in Reopened(ds) ensures q in Reopened(more) {
      var i :| 0 <= i < |ds| && ds[i].Restored? && ds[i].directory == q;
      assert more[i] == ds[i];
    }
  }

  lemma {:induction false} KeptBySame(m: map<Path, Manifest>)
    ensures ManifestsKept(m, m)
  {
  }

  lemma {:induction false} KeptByNew(m: map<Path, Manifest>, q: Path, made: Manifest)
    requires q !in m
    ensures ManifestsKept(m, m[q := made]) && m[q := made].Keys == m.Keys + {q}
  {
  }

  lemma {:induction false} KeptByRestore(m: map<Path, Manifest>, q: Path)
    requires q in m
    ensures var m' := m[q := m[q].(restored := true)]; ManifestsKept(m, m') && m'.Keys == m.Keys
  {
  }

  lemma {:induction false} ManifestsAreKnown(s: Service)
    requires s.Valid()
    ensures s.manifests.Keys <= s.dirs
  {
  }

  lemma {:induction false} ReopenedAreKnown(s: Service)
    requires s.Valid()
    ensures s.reopened <= s.manifests.Keys <= s.dirs
    ensures forall q :: q in s.manifests ==> (s.manifests[q].restored <==> q in s.reopened)
  {
  }

  // The bookkeeping of a service that a completed call shows in.
  datatype Books = Books(manifests: map<Path, Manifest>, reopened: set<Path>, consumed: set<string>,
                         temporaries: set<Path>)

  ghost function BooksOf(s: Service): Books
    reads s
  {
    Books(s.manifests, s.reopened, s.consumed, s.temporaries)
  }

  // What plans, manifests and restored directories show of a call that completed `d`.
  ghost predicate Shows(a: Books, b: Books, d: Completed) {
    && a.consumed <= b.consumed && a.temporaries <= b.temporaries
    && b.manifests.Keys == a.manifests.Keys + (if d.Quarantined? then {d.directory} else {})
    && b.reopened == a.reopened + (if d.Restored? then {d.directory} else {})
    && ManifestsKept(a.manifests, b.manifests)
    && (d.Quarantined? ==>
          && d.planId in b.consumed && d.planId !in a.consumed
          && d.directory !in a.manifests && b.manifests[d.directory].core.planId == d.planId)
    && (d.Restored? ==> d.directory !in a.reopened && d.directory !in a.temporaries)
  }

  lemma {:induction false} NothingShows(a: Books, b: Books)
    requires a.consumed <= b.consumed && a.temporaries <= b.temporaries
    requires b.manifests == a.manifests && b.reopened == a.reopened
    ensures Shows(a, b, Nothing)
  {
    KeptBySame(a.manifests);
  }

  lemma {:induction false} QuarantineShows(a: Books, b: Books, planId: string, q: Path, m: Manifest)
    requires a.consumed <= b.consumed && a.temporaries <= b.temporaries
    requires planId !in a.consumed && planId in b.consumed && m.core.planId == planId
    requires q !in a.manifests && b.manifests == a.manifests[q := m] && b.reopened == a.reopened
    ensures Shows(a, b, Quarantined(planId, q))
  {
    KeptByNew(a.manifests, q, m);
  }

  lemma {:induction false} RestoreShows(a: Books, b: Books, q: Path)
    requires a.consumed <= b.consumed && a.temporaries <= b.temporaries
    requires q in a.manifests && q !in a.reopened && q !in a.temporaries
    requires b.manifests == a.manifests[q := a.manifests[q].(restored := true)] && b.reopened == a.reopened + {q}
    ensures Shows(a, b, Restored(q))
  {
    KeptByRestore(a.manifests, q);
  }

  method MakeQuarantine(s: Service, planId: string, planHash: string, now: int, quarantineId: string, w: Faults)
    returns (d: Completed)
    requires s.Valid()
    modifies s, s.disk
    ensures s.Valid() && s.issued == old(s.issued) && Shows(old(BooksOf(s)), BooksOf(s), d)
    ensures d.Nothing? || (d.Quarantined? && d.planId == planId && Named(d.directory, quarantineId))
  {
    hide Conserved, Parented, ItemsOf, Separate, Displaced, Upto, Sweep, Service.Ready, Service.Consumable,
         Service.RecordsOk, Shows;
    ghost var before := BooksOf(s);
    ManifestsAreKnown(s);
    var r, q, _, _ := s.Quarantine(planId, planHash, now, quarantineId, w);
    if r.Failed? {
      NothingShows(before, BooksOf(s));
      return Nothing;
    }
    QuarantineShows(before, BooksOf(s), planId, q, s.manifests[q]);
    return Quarantined(planId, q);
  }

  method MakeRestore(s: Service, quarantineId: string, manifestHash: string, w: Faults) returns (d: Completed)
    requires s.Valid()
    modifies s, s.disk
    ensures s.Valid() && s.issued == old(s.issued) && Shows(old(BooksOf(s)), BooksOf(s), d)
    ensures d.Nothing? || (d.Restored? && Named(d.directory, quarantineId))
  {
    hide Conserved, Parented, BackAll, Separate, Displaced, Upto, Service.Restorable, Service.RecordsOk,
         Service.RequestedRootOk, FirstManifest, Shows;
    ghost var before := BooksOf(s);
    ReopenedAreKnown(s);
    var r, q, _, _ := s.Restore(quarantineId, manifestHash, w);
    if r.Failed? {
      NothingShows(before, BooksOf(s));
      return Nothing;
    }
    RestoreShows(before, BooksOf(s), q);
    return Restored(q);
  }

  /** One call, and what it completed. */
  method MakeCall(s: Service, c: Call, limits: Limits) returns (d: Completed)
    requires s.Valid() && (c.PlanCall? ==> c.planId !in s.issued)
    modifies s, s.disk
    ensures s.Valid() && Fits(c, d) && Shows(old(BooksOf(s)), BooksOf(s), d)
    ensures s.issued == old(s.issued) || (c.PlanCall? && s.issued == old(s.issued) + {c.planId})
  {
    hide Conserved, Parented, Sweep, Selection, WithinBudgets, ManifestsKept, Service.RecordsOk;
    d := Nothing;
    match c
    case PlanCall(root, tree, age, maxFiles, now, planId) =>
      KeptBySame(s.manifests);
      var _, _ := s.CreatePlan(root, tree, age, maxFiles, now, limits, planId);
    case QuarantineCall(planId, planHash, now, quarantineId, w) =>
      d := MakeQuarantine(s, planId, planHash, now, quarantineId, w);
    case RestoreCall(quarantineId, manifestHash, w) =>
      d := MakeRestore(s, quarantineId, manifestHash, w);
  }

  /**
   * Over any sequence of calls, failed ones included, each plan is quarantined
   * at most once and each quarantine restored at most once, none of them after
   * a manifest.tmp has been left in it.  The completions returned account for
   * every new manifest and every newly restored directory.  The file store still
   * holds exactly the files it began with, each at one place, and every manifest
   * stays.
   */
  method AnySequence(s: Service, calls: seq<Call>, limits: Limits) returns (ds: seq<Completed>)
    requires s.Valid() && FreshPlans(calls, s.issued)
    modifies s, s.disk
    ensures s.Valid() && Conserved(s.disk.home, s.disk.files, s.disk.loc)
    ensures s.disk.files.Values == old(s.disk.files.Values)
    ensures |ds| == |calls| && forall i :: 0 <= i < |ds| ==> Fits(calls[i], ds[i])
    ensures s.manifests.Keys == old(s.manifests.Keys) + Made(ds) && Made(ds) !! old(s.manifests.Keys)
    ensures s.reopened == old(s.reopened) + Reopened(ds) && Reopened(ds) !! old(s.reopened) + old(s.temporaries)
    ensures AtMostOnce(ds) && MadeFrom(ds, s.manifests)
    ensures forall i :: 0 <= i < |ds| && ds[i].Quarantined? ==>
              ds[i].planId in s.consumed && ds[i].planId !in old(s.consumed)
    ensures old(s.consumed) <= s.consumed && old(s.temporaries) <= s.temporaries
    ensures ManifestsKept(old(s.manifests), s.manifests)
  {
    hide Conserved, Parented, Service.RecordsOk, FreshPlans, Fits, Shows, History;
    ds := [];
    NothingYet(BooksOf(s));
    for i := 0 to |calls|
      invariant s.Valid() && |ds| == i && forall k :: 0 <= k < i ==> Fits(calls[k], ds[k])
      invariant History(old(BooksOf(s)), BooksOf(s), ds)
      invariant FreshPlans(calls[i..], s.issued)
    {
      FreshRest(calls[i..], s.issued);
      assert calls[i..][0] == calls[i] && calls[i..][1..] == calls[i + 1..];
      ghost var before := BooksOf(s);
      var d := MakeCall(s, calls[i], limits);
      HistoryGrows(old(BooksOf(s)), before, BooksOf(s), ds, d);
      ds := ds + [d];
    }
    HistoryMeans(old(BooksOf(s)), BooksOf(s), ds);
    SameFiles(s.disk.home, old(s.disk.files), old(s.disk.loc), s.disk.files, s.disk.loc);
  }

  // What the completions `ds` account for.
  ghost predicate History(a: Books, b: Books, ds: seq<Completed>) {
    && a.consumed <= b.consumed && a.temporaries <= b.temporaries
    && b.manifests.Keys == a.manifests.Keys + Made(ds) && Made(ds) !! a.manifests.Keys
    && b.reopened == a.reopened + Reopened(ds) && Reopened(ds) !! a.reopened + a.temporaries
    && AtMostOnce(ds) && MadeFrom(ds, b.manifests)
    && (forall k :: 0 <= k < |ds| && ds[k].Quarantined? ==> ds[k].planId in b.consumed && ds[k].planId !in a.consumed)
    && ManifestsKept(a.manifests, b.manifests)
  }

  lemma {:induction false} NothingYet(a: Books)
    ensures History(a, a, [])
  {
    NothingMade();
  }

  lemma {:induction false} HistoryGrows(a: Books, b: Books, c: Books, ds: seq<Completed>, d: Completed)
    requires History(a, b, ds) && Shows(b, c, d)
    ensures History(a, c, ds + [d])
  {
    hide Made, Reopened;
    OneMore(ds, d);
    OnceMore(ds, d, b.consumed, b.manifests.Keys, b.reopened);
  }

  lemma {:induction false} HistoryMeans(a: Books, b: Books, ds: seq<Completed>)
    requires History(a, b, ds)
    ensures a.consumed <= b.consumed && a.temporaries <= b.temporaries
    ensures b.manifests.Keys == a.manifests.Keys + Made(ds) && Made(ds) !! a.manifests.Keys
    ensures b.reopened == a.reopened + Reopened(ds) && Reopened(ds) !! a.reopened + a.temporaries
    ensures AtMostOnce(ds) && MadeFrom(ds, b.manifests) && ManifestsKept(a.manifests, b.manifests)
    ensures forall k :: 0 <= k < |ds| && ds[k].Quarantined? ==>
              ds[k].planId in b.consumed && ds[k].planId !in a.consumed
  {
  }

  lemma {:induction false} NothingMade()
    ensures Made([]) == {} && Reopened([]) == {}
  {
  }

  lemma {:induction false} OnceMore(ds: seq<Completed>, d: Completed, spent: set<string>, known: set<Path>,
                                    reopened: set<Path>)
    requires AtMostOnce(ds) && Made(ds) <= known && Reopened(ds) <= reopened
    requires forall k :: 0 <= k < |ds| && ds[k].Quarantined? ==> ds[k].planId in spent
    requires d.Quarantined? ==> d.planId !in spent && d.directory !in known
    requires d.Restored? ==> d.directory !in reopened
    ensures AtMostOnce(ds + [d])
  {
    forall i | 0 <= i < |ds|
      ensures d.Quarantined? && ds[i].Quarantined? ==> ds[i].planId != d.planId && ds[i].directory != d.directory
      ensures d.Restored? && ds[i].Restored? ==> ds[i].directory != d.directory
    {
      if ds[i].Quarantined? { assert ds[i].directory in Made(ds); }
      if ds[i].Restored? { assert ds[i].directory in Reopened(ds); }
    }
  }

  lemma {:induction false} FreshRest(calls: seq<Call>, issued: set<string>)
    requires calls != [] && FreshPlans(calls, issued)
    ensures FreshPlans(calls[1..], issued)
    ensures calls[0].PlanCall? ==> calls[0].planId !in issued
    ensures calls[0].PlanCall? ==> FreshPlans(calls[1..], issued + {calls[0].planId})
  {
  }

  // Two arrangements of the same files hold the same files.
  lemma {:induction false} SameFiles(home: Files, f: Files, loc: Loc, g: Files, loc': Loc)
    requires Conserved(home, f, loc) && Conserved(home, g, loc')
    ensures f.Values == g.Values
  {
    SameAsHome(home, f, loc);
    SameAsHome(home, g, loc');
  }

  lemma {:induction false} SameAsHome(home: Files, f: Files, loc: Loc)
    requires Conserved(home, f, loc)
    ensures f.Values == home.Values
  {
    forall x | x in f.Values ensures x in home.Values {
      var p :| p in f && f[p] == x;
    }
    forall x | x in home.Values ensures x in f.Values {
      var h :| h in home && home[h] == x;
      assert f[loc[h]] == x;
    }
  }

  // ----- Restore after other calls -----

  // Snapshot and link count determine a file.
  lemma {:induction false} SameSnapshotSameFile(f: File, g: File, c: Candidate)
    requires MatchesSnapshot(f, c) && MatchesSnapshot(g, c) && f.links == 1 && g.links == 1
    ensures f == g
  {
  }

  // The one quarantine of its name.
  predicate Only(known: set<Path>, q: Path, quarantineId: string) {
    q in known && Named(q, quarantineId) && forall p :: p in known && Named(p, quarantineId) ==> p == q
  }

  lemma {:induction false} OnlyNew(known: set<Path>, q: Path, quarantineId: string)
    requires NewId(known, quarantineId) && Named(q, quarantineId)
    ensures Only(known + {q}, q, quarantineId)
  {
  }

  // A quarantine made, or restored, by some call has the name that call gave.
  lemma {:induction false} NamedByCall(calls: seq<Call>, ds: seq<Completed>, q: Path)
    requires |ds| == |calls| && forall i :: 0 <= i < |ds| ==> Fits(calls[i], ds[i])
    ensures q in Made(ds) ==>
      exists i :: 0 <= i < |calls| && calls[i].QuarantineCall? && Named(q, calls[i].quarantineId)
    ensures q in Reopened(ds) ==>
      exists i :: 0 <= i < |calls| && calls[i].RestoreCall? && Named(q, calls[i].quarantineId)
  {
    hide Named;
    if q in Made(ds) {
      var i :| 0 <= i < |ds| && ds[i].Quarantined? && ds[i].directory == q;
      assert Fits(calls[i], ds[i]);
    }
    if q in Reopened(ds) {
      var i :| 0 <= i < |ds| && ds[i].Restored? && ds[i].directory == q;
      assert Fits(calls[i], ds[i]);
    }
  }

  lemma {:induction false} OnlyOne(
    before: set<Path>, after: set<Path>, calls: seq<Call>, ds: seq<Completed>, q: Path, quarantineId: string)
    requires Only(before, q, quarantineId) && after == before + Made(ds)
    requires |ds| == |calls| && forall i :: 0 <= i < |ds| ==> Fits(calls[i], ds[i])
    requires forall i :: 0 <= i < |calls| && calls[i].QuarantineCall? ==> calls[i].quarantineId != quarantineId
    ensures Only(after, q, quarantineId)
  {
    hide Made, Fits;
    forall p | p in after && Named(p, quarantineId) ensures p == q { NamedByCall(calls, ds, p); }
  }

  predicate RestoresNamed(calls: seq<Call>, quarantineId: string) {
    exists i :: 0 <= i < |calls| && calls[i].RestoreCall? && calls[i].quarantineId == quarantineId
  }

  lemma {:induction false} NotReopened(calls: seq<Call>, ds: seq<Completed>, q: Path, quarantineId: string)
    requires |ds| == |calls| && forall i :: 0 <= i < |ds| ==> Fits(calls[i], ds[i])
    requires Named(q, quarantineId) && !RestoresNamed(calls, quarantineId)
    ensures q !in Reopened(ds)
  {
    hide Reopened, Fits;
    NamedByCall(calls, ds, q);
  }

  // After a restore, each candidate's path holds a file with the snapshot it had before the quarantine.
  lemma {:induction false} RestoredFiles(
    home: Files, first: Files, a: Arrangement, b: Arrangement, items: seq<Item>, root: Path, cs: seq<Candidate>,
    q: Path)
    requires Conserved(home, a.files, a.loc) && Conserved(home, b.files, b.loc)
    requires Separate(a.loc.Values, Moves(BackAll(items)))
    requires Displaced(a.loc, b.loc, Moves(BackAll(items)), Upto(|items|))
    requires ItemsOf(items, cs, q) && |items| == |cs| && AllIntact(first, root, cs) && AllInPlace(a.files, items)
    ensures forall i :: 0 <= i < |cs| ==>
      cs[i].path in first && cs[i].path in b.files && b.files[cs[i].path] == first[cs[i].path]
  {
    hide Conserved, Separate, Displaced, Numerals.Numbering, InDirectory, MatchesSnapshot, BackAll, Moves;
    forall i | 0 <= i < |cs|
      ensures cs[i].path in first && cs[i].path in b.files && b.files[cs[i].path] == first[cs[i].path]
    {
      assert Moves(BackAll(items))[i] == Back(items[i]).move;
      FileStands(home, a, b, Moves(BackAll(items)), Upto(|items|), i);
      assert InPlace(a.files, items[i]) && Holds(first, cs[i].path, cs[i]);
      SameSnapshotSameFile(a.files[items[i].move.to], first[cs[i].path], cs[i]);
    }
  }

  lemma {:induction false} OnlyMeans(known: set<Path>, q: Path, quarantineId: string)
    requires Only(known, q, quarantineId)
    ensures !NewId(known, quarantineId) && q in known && forall p :: p in known && Named(p, quarantineId) ==> p == q
  {
  }

  // Calls that make no other quarantine of that name; only a restore call naming it can have restored it.
  method OtherCalls(s: Service, q: Path, quarantineId: string, calls: seq<Call>, limits: Limits)
    requires s.Valid() && FreshPlans(calls, s.issued) && Only(s.manifests.Keys, q, quarantineId) && q !in s.reopened
    requires forall i :: 0 <= i < |calls| && calls[i].QuarantineCall? ==> calls[i].quarantineId != quarantineId
    modifies s, s.disk
    ensures s.Valid() && Only(s.manifests.Keys, q, quarantineId)
    ensures s.manifests[q].core == old(s.manifests)[q].core
    ensures q in s.reopened ==> RestoresNamed(calls, quarantineId)
  {
    hide Conserved, Parented, Service.RecordsOk, FreshPlans, AtMostOnce, MadeFrom, Made, Reopened, Named,
         RestoresNamed;
    ghost var before := s.manifests.Keys;
    var ds := AnySequence(s, calls, limits);
    OnlyOne(before, s.manifests.Keys, calls, ds, q, quarantineId);
    if !RestoresNamed(calls, quarantineId) { NotReopened(calls, ds, q, quarantineId); }
  }

  /**
   * Quarantine, any other calls, then restore: a successful restore leaves at
   * the path of every quarantined file the very file that was there.  `moved`
   * and `done` are what manifests and restored directories show.
   */
  method QuarantineCallsRestore(s: Service, planId: string, planHash: string, now: int, quarantineId: string,
                                w: Faults, calls: seq<Call>, limits: Limits, manifestHash: string, w': Faults)
    returns (moved: bool, done: bool, q: Path)
    requires s.Valid() && NewId(s.manifests.Keys, quarantineId) && FreshPlans(calls, s.issued)
    requires forall i :: 0 <= i < |calls| && calls[i].QuarantineCall? ==> calls[i].quarantineId != quarantineId
    modifies s, s.disk
    ensures s.Valid()
    ensures w.Calm? && old(s.Ready(planId, planHash, now, quarantineId)) ==> moved
    ensures moved <==> !NewId(s.manifests.Keys, quarantineId)
    ensures moved ==> q in s.manifests && Named(q, quarantineId) && s.manifests[q].core.planId == planId
    ensures done ==> moved && q in s.reopened
    ensures moved && q in s.reopened && !RestoresNamed(calls, quarantineId) ==> done
    ensures done ==> planId in old(s.plans)
    ensures done ==> var cs := old(s.plans)[planId].core.candidates;
      forall i :: 0 <= i < |cs| ==> && cs[i].path in old(s.disk.files) && cs[i].path in s.disk.files
                                    && s.disk.files[cs[i].path] == old(s.disk.files)[cs[i].path]
  {
    hide Conserved, Separate, Target, Displaced, Upto, Parented, Service.RecordsOk, ItemsOf, AllIntact, AllInPlace,
         Sweep, FreshPlans, NewId, BackAll, Only, RestoresNamed;
    ReopenedAreKnown(s);
    ghost var first, before := s.disk.files, s.manifests.Keys;
    var r, directory, items, out := s.Quarantine(planId, planHash, now, quarantineId, w);
    moved, done, q := r.Done?, false, directory;
    if !moved { return; }
    OnlyNew(before, q, quarantineId);
    assert s.manifests.Keys == before + {q};
    ghost var core := old(s.plans)[planId].core;
    OtherCalls(s, q, quarantineId, calls, limits);
    OnlyMeans(s.manifests.Keys, q, quarantineId);
    ghost var a, known := s.disk.Now(), s.manifests.Keys;
    var r', q', restored, out' := s.Restore(quarantineId, manifestHash, w');
    assert s.manifests.Keys == known;
    if r'.Failed? { return; }
    assert q' == q;
    RestoredFiles(s.disk.home, first, a, s.disk.Now(), items, core.root, core.candidates, q);
    done := true;
  }

  /**
   * One manifest write that breaks half-way, in a restore that nothing else
   * disturbs: the files go back to the quarantine, and no later restore of it
   * succeeds, whatever calls come between.
   */
  method BrokenWriteBlocksRestore(s: Service, quarantineId: string, manifestHash: string, calls: seq<Call>,
                                  limits: Limits)
    returns (r: Outcome, q: Path, ds: seq<Completed>)
    requires s.Valid() && s.Restorable(quarantineId, manifestHash) && FreshPlans(calls, s.issued)
    modifies s, s.disk
    ensures s.Valid() && r == Failed(0)
    ensures Some(q) == FirstManifest(s.allowedRoots, old(s.manifests).Keys, quarantineId)
    ensures |ds| == |calls| && q !in Reopened(ds)
    ensures q in s.temporaries && q in s.manifests && !s.manifests[q].restored && q !in s.reopened
  {
    hide Conserved, Separate, Displaced, Parented, BackAll, Upto, FreshPlans, AtMostOnce, MadeFrom, Made, Reopened,
         Fits, Service.RecordsOk;
    ghost var restored, out := [], {};
    r, q, restored, out := s.Restore(quarantineId, manifestHash, WriteBreaks);
    ReopenedAreKnown(s);
    ds := AnySequence(s, calls, limits);
    ReopenedAreKnown(s);
  }

  /** For a quarantine nobody has touched, restore without faults succeeds if and only if no manifest.tmp is left. */
  method UndisturbedRestore(s: Service, quarantineId: string, manifestHash: string) returns (r: Outcome, q: Path)
    requires s.Valid() && FirstManifest(s.allowedRoots, s.manifests.Keys, quarantineId).Some?
    requires var m := s.manifests[FirstManifest(s.allowedRoots, s.manifests.Keys, quarantineId).value];
             && !m.restored && m.manifestHash == manifestHash != "" && s.RequestedRootOk(m.core.root)
             && AllInPlace(s.disk.files, m.core.items)
    modifies s, s.disk
    ensures s.Valid()
    ensures r.Done? <==> FirstManifest(s.allowedRoots, old(s.manifests).Keys, quarantineId).value !in old(s.temporaries)
    ensures r.Failed? ==> s.disk.files == old(s.disk.files)
  {
    hide Conserved, Separate, Displaced, Parented, BackAll, Upto, AllInPlace, Service.PlanOk, DistinctMoves, Protected;
    ghost var a, restored, out := s.disk.Now(), [], {};
    r, q, restored, out := s.Restore(quarantineId, manifestHash, Calm);
    if r.Failed? { LocDetermines(s.disk.home, a.files, s.disk.files, a.loc); }
  }

  // ----- The move loop of restore, on any list of items -----

  function Starts(moves: seq<Move>): set<Path> {
    if moves == [] then {} else Starts(moves[..|moves| - 1]) + {moves[|moves| - 1].from}
  }

  function Ends(moves: seq<Move>): set<Path> {
    if moves == [] then {} else Ends(moves[..|moves| - 1]) + {moves[|moves| - 1].to}
  }

  lemma {:induction false} StartsAre(moves: seq<Move>, p: Path)
    ensures p in Starts(moves) <==> exists i :: 0 <= i < |moves| && moves[i].from == p
  {
    if moves != [] {
      var init := moves[..|moves| - 1];
      StartsAre(init, p);
      assert forall i :: 0 <= i < |init| ==> init[i] == moves[i];
    }
  }

  lemma {:induction false} EndsAre(moves: seq<Move>, p: Path)
    ensures p in Ends(moves) <==> exists i :: 0 <= i < |moves| && moves[i].to == p
  {
    if moves != [] {
      var init := moves[..|moves| - 1];
      EndsAre(init, p);
      assert forall i :: 0 <= i < |init| ==> init[i] == moves[i];
    }
  }

  // What restore has checked before its move loop: every item is there, and every destination is free.
  ghost predicate Checked(files: Files, moves: seq<Move>) {
    forall i :: 0 <= i < |moves| ==> moves[i].from in files && moves[i].to !in files
  }

  ghost predicate DistinctStarts(moves: seq<Move>) {
    forall i, j :: 0 <= i < j < |moves| ==> moves[i].from != moves[j].from
  }

  ghost predicate DistinctEnds(moves: seq<Move>) {
    forall i, j :: 0 <= i < j < |moves| ==> moves[i].to != moves[j].to
  }

  // The loop looks at each source again and stops where it is missing, but not at the destination:
  // the files it leaves, and how many moves it makes.
  function MoveAll(files: Files, moves: seq<Move>): (r: (Files, nat))
    ensures r.1 <= |moves|
  {
    if moves == [] then (files, 0)
    else
      var (before, n), m := MoveAll(files, moves[..|moves| - 1]), moves[|moves| - 1];
      if n == |moves| - 1 && m.from in before then (Rename(before, m.from, m.to), n + 1) else (before, n)
  }

  lemma {:induction false} CheckedInit(files: Files, moves: seq<Move>)
    requires moves != [] && Checked(files, moves)
    ensures var init, m := moves[..|moves| - 1], moves[|moves| - 1];
            && Checked(files, init) && m.from in files && m.to !in files
            && (DistinctStarts(moves) <==> DistinctStarts(init) && m.from !in Starts(init))
  {
    var init, m := moves[..|moves| - 1], moves[|moves| - 1];
    assert forall i :: 0 <= i < |init| ==> init[i] == moves[i];
    StartsAre(init, m.from);
  }

  // Up to its first repeated source the loop makes every move.
  lemma {:induction false} MoveAllKeys(files: Files, moves: seq<Move>)
    requires Checked(files, moves) && DistinctStarts(moves)
    ensures var (after, n) := MoveAll(files, moves);
            n == |moves| && after.Keys == files.Keys - Starts(moves) + Ends(moves)
    ensures Starts(moves) <= files.Keys && Ends(moves) !! files.Keys && |Starts(moves)| == |moves|
  {
    if moves != [] {
      hide Checked, DistinctStarts;
      var init, m := moves[..|moves| - 1], moves[|moves| - 1];
      CheckedInit(files, moves);
      MoveAllKeys(files, init);
    }
  }

  // It stops exactly at the first move whose source an earlier one has taken.
  lemma {:induction false} StopsAtRepeat(files: Files, moves: seq<Move>)
    requires Checked(files, moves)
    ensures var (after, n) := MoveAll(files, moves);
            && DistinctStarts(moves[..n]) && (n < |moves| ==> moves[n].from in Starts(moves[..n]))
            && MoveAll(files, moves[..n]) == (after, n)
  {
    if moves == [] {
      assert moves[..0] == moves;
    } else {
      hide Checked, DistinctStarts, Starts, MoveAll;
      var init := moves[..|moves| - 1];
      CheckedInit(files, moves);
      StopsAtRepeat(files, init);
      MoveAllLast(files, moves);
      var n := MoveAll(files, init).1;
      assert init[..n] == moves[..n];
      if n == |init| {
        assert init[..n] == init && moves[..|moves|] == moves;
        MoveAllKeys(files, init);
      }
    }
  }

  lemma {:induction false} MoveAllLast(files: Files, moves: seq<Move>)
    requires moves != []
    ensures var (before, n), m := MoveAll(files, moves[..|moves| - 1]), moves[|moves| - 1];
            MoveAll(files, moves) ==
            if n == |moves| - 1 && m.from in before then (Rename(before, m.from, m.to), n + 1) else (before, n)
  {
  }

  lemma {:induction false} EndsCount(moves: seq<Move>)
    ensures |Ends(moves)| <= |moves|
    ensures |Ends(moves)| == |moves| <==> DistinctEnds(moves)
  {
    if moves != [] {
      var init, last := moves[..|moves| - 1], |moves| - 1;
      EndsCount(init);
      EndsAre(init, moves[last].to);
      assert forall i :: 0 <= i < |init| ==> init[i] == moves[i];
      if exists i :: 0 <= i < last && moves[i].to == moves[last].to {
        assert Ends(moves) == Ends(init);
      } else {
        assert moves[last].to !in Ends(init);
      }
    }
  }

  /**
   * The move loop of restore does not look at a destination again.  On items
   * that passed the first loop it makes all moves exactly when no two items
   * share a quarantine path, and the moves it makes keep every file exactly when
   * no two of them have the same original path.
   */
  lemma {:induction false} RestoreLoopKeepsFiles(files: Files, moves: seq<Move>)
    requires Checked(files, moves)
    ensures var (after, n) := MoveAll(files, moves);
            && (n == |moves| <==> DistinctStarts(moves))
            && (|after| == |files| <==> DistinctEnds(moves[..n])) && |after| <= |files|
  {
    hide Checked, MoveAll, Starts, Ends;
    var (after, n) := MoveAll(files, moves);
    var made := moves[..n];
    StopsAtRepeat(files, moves);
    assert Checked(files, made) by { CheckedPrefix(files, moves, n); }
    MoveAllKeys(files, made);
    if DistinctStarts(moves) { MoveAllKeys(files, moves); } else { assert n == |moves| ==> made == moves; }
    EndsCount(made);
    var kept := files.Keys - Starts(made);
    assert |kept| == |files.Keys| - |Starts(made)|;
    assert kept !! Ends(made);
    assert |kept + Ends(made)| == |kept| + |Ends(made)|;
  }

  lemma {:induction false} CheckedPrefix(files: Files, moves: seq<Move>, n: nat)
    requires Checked(files, moves) && n <= |moves|
    ensures Checked(files, moves[..n])
  {
  }

  /** Two items with one original path: both pass the first loop, and one file is lost. */
  lemma {:induction false} SharedOriginalLosesFile()
    ensures var a, b, p := ["q", "1"], ["q", "2"], ["t", "x"];
            var files := map[a := File(0, 1, 0, 0, 1), b := File(0, 2, 0, 0, 1)];
            var moves := [Move(a, p), Move(b, p)];
            Checked(files, moves) && |MoveAll(files, moves).0| < |files| && MoveAll(files, moves).1 == 2
  {
    var a, b, p := ["q", "1"], ["q", "2"], ["t", "x"];
    var files := map[a := File(0, 1, 0, 0, 1), b := File(0, 2, 0, 0, 1)];
    var moves := [Move(a, p), Move(b, p)];
    assert a[1] != b[1] && a[0] != p[0] && b[0] != p[0];
    assert moves[..2] == moves && moves[0].to == moves[1].to;
    RestoreLoopKeepsFiles(files, moves);
  }
}
