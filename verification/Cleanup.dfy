/**
 * Reversible cleanup: single-use plans, quarantine with rollback, and restore.
 *
 * Which checks and system calls may fail is a parameter of every call.  The
 * class invariant says that over any sequence of calls no file is lost,
 * overwritten or changed, that a plan is consumed at most once, and that a
 * quarantine is restored at most once.  The contracts of `Quarantine` and
 * `Restore` say exactly when a call without faults succeeds.
 */
module Cleanup {
  import opened CleanupMoves
  import opened CleanupScan
  import opened Relocation
  import opened Wrappers
  import Numerals

  // What the plan hash covers.
  datatype PlanCore = PlanCore(planId: string, root: Path, minAgeHours: int, candidates: seq<Candidate>,
                               totalBytes: nat, createdAt: int)

  datatype Plan = Plan(core: PlanCore, planHash: string, expiresAt: int, used: bool)

  // What was moved, with the snapshot that restore checks.
  datatype Item = Item(move: Move, snapshot: Candidate)

  // The part of a manifest that its hash covers.
  datatype Core = Core(quarantineId: string, planId: string, planHash: string, root: Path, createdAt: int,
                       items: seq<Item>)

  datatype Manifest = Manifest(core: Core, manifestHash: string, restored: bool)

  datatype Outcome = Done | Failed(rollbackErrors: nat)

  function Moves(items: seq<Item>): (ms: seq<Move>)
    ensures |ms| == |items|
    ensures forall i :: 0 <= i < |items| ==> ms[i] == items[i].move
  {
    if items == [] then [] else [items[0].move] + Moves(items[1..])
  }

  predicate MatchesSnapshot(f: File, c: Candidate) {
    f.device == c.device && f.inode == c.inode && f.size == c.size && f.mtime == c.mtime
  }

  // The file at `p` is the one of the snapshot, and has no other link.
  predicate Holds(files: Files, p: Path, c: Candidate) {
    p in files && MatchesSnapshot(files[p], c) && files[p].links == 1
  }

  // No candidate has changed since the scan.
  predicate AllIntact(files: Files, root: Path, cs: seq<Candidate>) {
    forall i :: 0 <= i < |cs| ==> Within(cs[i].path, root) && Holds(files, cs[i].path, cs[i])
  }

  predicate DistinctCandidates(cs: seq<Candidate>) {
    forall i, j :: 0 <= i < j < |cs| ==> cs[i].path != cs[j].path
  }

  // A quarantined item nobody has touched: its file is there, and its original path is free.
  predicate InPlace(files: Files, it: Item) {
    Holds(files, it.move.to, it.snapshot) && it.move.from !in files
  }

  predicate AllInPlace(files: Files, items: seq<Item>) {
    forall i :: 0 <= i < |items| ==> InPlace(files, items[i])
  }

  function Parent(p: Path): Path {
    if p == [] then [] else p[..|p| - 1]
  }

  // A path directly inside directory `q`.
  predicate InDirectory(p: Path, q: Path) {
    p != [] && Parent(p) == q
  }

  // Expired plans go, except the one named.
  function Sweep(plans: map<string, Plan>, now: int, exclude: string): map<string, Plan> {
    map id | id in plans && (id == exclude || plans[id].expiresAt >= now) :: plans[id]
  }

  // hmac.compare_digest on two non-empty texts.
  predicate SameText(a: string, b: string): (same: bool)
    ensures same <==> a == b && |a| > 0
  {
    a != "" && b != "" && a == b
  }

  // The first allowed root that contains `p`.
  function FirstRoot(roots: seq<Path>, p: Path): (r: Option<Path>)
    ensures r.Some? ==> r.value in roots && Within(p, r.value)
    ensures r.None? ==> forall i :: 0 <= i < |roots| ==> !Within(p, roots[i])
  {
    if roots == [] then None
    else if Within(p, roots[0]) then Some(roots[0]) else FirstRoot(roots[1..], p)
  }

  function QuarantinePath(root: Path, quarantineId: string): Path {
    root + [QUARANTINE_DIR_NAME, quarantineId]
  }

  // The quarantine directory of that identifier below the first allowed root that has one.
  function FirstManifest(roots: seq<Path>, known: set<Path>, quarantineId: string): (r: Option<Path>)
    ensures r.Some? ==> r.value in known && r.value != [] && r.value[|r.value| - 1] == quarantineId
  {
    if roots == [] then None
    else if QuarantinePath(roots[0], quarantineId) in known then Some(QuarantinePath(roots[0], quarantineId))
    else FirstManifest(roots[1..], known, quarantineId)
  }

  lemma {:induction false} MovesSnoc(items: seq<Item>, it: Item)
    ensures Moves(items + [it]) == Moves(items) + [it.move]
  {
  }

  ghost predicate DistinctMoves(moves: seq<Move>) {
    forall i, j :: 0 <= i < j < |moves| ==> moves[i].from != moves[j].from && moves[i].to != moves[j].to
  }

  // What has been moved so far: the first candidates, in order, each into `q` under its number.
  ghost predicate ItemsOf(items: seq<Item>, cs: seq<Candidate>, q: Path) {
    && |items| <= |cs|
    && forall i :: 0 <= i < |items| ==>
         && items[i].snapshot == cs[i] && items[i].move.from == cs[i].path
         && InDirectory(items[i].move.to, q)
         && Numerals.Numbering(i + 1) <= items[i].move.to[|items[i].move.to| - 1]
  }

  function Back(it: Item): Item {
    Item(Move(it.move.to, it.move.from), it.snapshot)
  }

  function BackAll(items: seq<Item>): (r: seq<Item>)
    ensures |r| == |items|
    ensures forall i :: 0 <= i < |items| ==> r[i] == Back(items[i])
  {
    if items == [] then [] else [Back(items[0])] + BackAll(items[1..])
  }

  class Service {
    const disk: Disk
    const allowedRoots: seq<Path>
    const guarded: seq<Path>
    const ttl: nat
    const planDigest: PlanCore -> string
    const digest: Core -> string
    var dirs: set<Path>                    // directories known to exist
    var manifests: map<Path, Manifest>     // manifest.json, by quarantine directory
    var temporaries: set<Path>             // quarantine directories holding a left-over manifest.tmp
    var plans: map<string, Plan>
    ghost var issued: set<string>          // plan identifiers ever handed out
    ghost var consumed: set<string>        // plans whose one attempt has been made
    ghost var reopened: set<Path>          // quarantines restored successfully

    constructor (disk: Disk, allowedRoots: seq<Path>, guarded: seq<Path>, ttl: nat, planDigest: PlanCore -> string,
                 digest: Core -> string, dirs: set<Path>)
      requires disk.Valid() && Parented(disk.files.Keys, dirs)
      ensures Valid() && this.disk == disk
    {
      this.disk, this.allowedRoots, this.guarded, this.ttl, this.planDigest, this.digest, this.dirs :=
        disk, allowedRoots, guarded, ttl, planDigest, digest, dirs;
      manifests, temporaries, plans := map[], {}, map[];
      issued, consumed, reopened := {}, {}, {};
    }

    ghost predicate Valid()
      reads this, disk
    {
      disk.Valid() && Parented(disk.files.Keys, dirs) && RecordsOk()
    }

    // The bookkeeping half of the invariant; it does not look at the files.
    ghost predicate RecordsOk()
      reads this
    {
      && plans.Keys <= issued && consumed <= issued
      && (forall id :: id in plans ==> (plans[id].used <==> id in consumed) && PlanOk(id, plans[id]))
      && manifests.Keys <= dirs && temporaries <= dirs && reopened <= manifests.Keys
      && (forall q :: q in manifests ==>
                        ManifestOk(q, manifests[q], dirs) && (manifests[q].restored <==> q in reopened))
    }

    // A plan is bound to its hash, and holds what scanning guarantees.
    ghost predicate PlanOk(planId: string, plan: Plan) {
      && plan.core.planId == planId && plan.planHash == planDigest(plan.core)
      && forall i :: 0 <= i < |plan.core.candidates| ==>
           && Reached(plan.core.root, plan.core.candidates[i].path)
           && !Protected(guarded, plan.core.candidates[i].path)
    }

    // A manifest is bound to its hash; its items go from inside its directory back below the scanned root.
    ghost predicate ManifestOk(q: Path, m: Manifest, dirs: set<Path>) {
      && DistinctMoves(Moves(m.core.items))
      && m.manifestHash == digest(m.core)
      && forall i :: 0 <= i < |m.core.items| ==>
           && PathsOk(m.core.items[i].move, q, m.core.root, dirs)
           && !Protected(guarded, m.core.items[i].move.from)
    }

    static predicate PathsOk(m: Move, q: Path, root: Path, dirs: set<Path>) {
      Within(m.to, q) && m.from != [] && Within(Parent(m.from), root) && Parent(m.from) in dirs
    }

    predicate RequestedRootOk(root: Path): (ok: bool)
      ensures ok <==> (forall i :: 0 <= i < |guarded| ==> !(guarded[i] <= root))
                      && exists i :: 0 <= i < |allowedRoots| && allowedRoots[i] <= root
    {
      !Protected(guarded, root) && FirstRoot(allowedRoots, root).Some?
    }

    method CleanupExpiredPlans(now: int, exclude: string)
      requires Valid()
      modifies this`plans
      ensures Valid()
      ensures plans == Sweep(old(plans), now, exclude)
    {
      var expired := set id | id in plans && id != exclude && plans[id].expiresAt < now;
      plans := plans - expired;
    }

    /** A fresh plan over exactly the candidates that a scan of `root` selects, bound to its hash. */
    method CreatePlan(root: Path, tree: Dir, minAgeHours: int, maxFiles: int, now: int, limits: Limits, planId: string)
      returns (created: bool, ghost p: Progress)
      requires Valid() && planId !in issued
      modifies this`plans, this`issued
      ensures Valid() && consumed == old(consumed)
      ensures issued == if created then old(issued) + {planId} else old(issued)
      ensures created ==>
        var core := PlanCore(planId, root, minAgeHours, p.candidates, p.totalBytes, now);
        plans == Sweep(old(plans), now, "")[planId := Plan(core, planDigest(core), now + ttl, false)]
      ensures created ==> 1 <= maxFiles && WithinBudgets(p, maxFiles, limits)
      ensures created ==> Selection(p, Concat(Walk(root, tree)), now - minAgeHours * 3600, guarded, maxFiles, limits)
      ensures created && WellNamed(tree) ==> DistinctCandidates(p.candidates)
      ensures !created ==> plans == Sweep(old(plans), now, "")
    {
      hide Eligible, Conserved, Selection, WithinBudgets, PlanOk, ManifestOk, Parented, Sweep, Protected, WellNamed;
      p := Progress([], 0, 0);
      CleanupExpiredPlans(now, "");
      if !RequestedRootOk(root) { return false, p; }
      var scan := Scan(root, tree, minAgeHours, maxFiles, now, guarded, limits);
      if scan.Refused? { return false, p; }
      p := scan.progress;
      var core := PlanCore(planId, root, minAgeHours, scan.progress.candidates, scan.progress.totalBytes, now);
      var plan := Plan(core, planDigest(core), now + ttl, false);
      ScanPlanOk(plan, p, tree, now - minAgeHours * 3600, maxFiles, limits);
      if WellNamed(tree) {
        SelectionDistinct(p, root, tree, now - minAgeHours * 3600, guarded, maxFiles, limits);
      }
      issued := issued + {planId};
      plans := plans[planId := plan];
      return true, p;
    }

    lemma {:induction false} ScanPlanOk(plan: Plan, p: Progress, tree: Dir, cutoff: int, maxFiles: nat, limits: Limits)
      requires Selection(p, Concat(Walk(plan.core.root, tree)), cutoff, guarded, maxFiles, limits)
      requires plan.core.candidates == p.candidates && plan.planHash == planDigest(plan.core)
      ensures PlanOk(plan.core.planId, plan)
    {
      hide Selection, Reached, Protected, Eligible;
      var cs, root := plan.core.candidates, plan.core.root;
      forall i | 0 <= i < |cs|
        ensures Reached(root, cs[i].path) && !Protected(guarded, cs[i].path)
      {
        var _ := SelectionEligible(p, root, tree, cutoff, guarded, maxFiles, limits, i);
        EligibleMeans(cs[i], root, cutoff, guarded, limits);
      }
    }

    // _verify_candidate: any step may raise.
    method VerifyCandidate(root: Path, c: Candidate, w: Faults) returns (ok: bool)
      ensures ok ==> Within(c.path, root) && Holds(disk.files, c.path, c)
      ensures !w.Anything? && Within(c.path, root) && Holds(disk.files, c.path, c) ==> ok
    {
      if w.Anything? {
        if * { return false; }
      }
      ok := Within(c.path, root) && Holds(disk.files, c.path, c);
    }

    // The first pass over a plan.
    method VerifyAll(root: Path, cs: seq<Candidate>, w: Faults) returns (ok: bool)
      ensures ok ==> AllIntact(disk.files, root, cs)
      ensures !w.Anything? && AllIntact(disk.files, root, cs) ==> ok
    {
      hide Holds;
      ok := true;
      for k := 0 to |cs|
        invariant ok && forall i :: 0 <= i < k ==> Within(cs[i].path, root) && Holds(disk.files, cs[i].path, cs[i])
      {
        ok := VerifyCandidate(root, cs[k], w);
        if !ok { return; }
      }
    }

    // The batch in progress: exactly the moves recorded in `items` have been made since `start`.
    ghost predicate InProgress(start: Arrangement, items: seq<Item>)
      reads disk
    {
      && disk.Valid() && Conserved(disk.home, start.files, start.loc)
      && Separate(start.loc.Values, Moves(items))
      && Displaced(start.loc, disk.loc, Moves(items), Upto(|items|))
    }

    lemma {:induction false} BatchStarts(start: Arrangement)
      requires disk.Valid() && start == disk.Now()
      ensures InProgress(start, [])
    {
      DisplacedNone(start.loc, start.loc, []);
    }

    // A file no move of the batch starts from is where it was.
    lemma {:induction false} Untouched(start: Arrangement, items: seq<Item>, p: Path)
      requires InProgress(start, items) && p in start.files
      requires forall i :: 0 <= i < |items| ==> items[i].move.from != p
      ensures p in disk.files && disk.files[p] == start.files[p]
    {
      hide Conserved, Separate, Displaced, Upto, Target;
      FileFollows(disk.home, start, disk.Now(), Moves(items), Upto(|items|), p);
      TargetCases(p, Moves(items), Upto(|items|));
    }

    // A path that was free, and that no move of the batch goes to, is free.
    lemma {:induction false} StillFree(start: Arrangement, items: seq<Item>, p: Path)
      requires InProgress(start, items) && p !in start.files
      requires forall i :: 0 <= i < |items| ==> items[i].move.to != p
      ensures p !in disk.files
    {
      hide Conserved, Separate, Target, Upto, Displaced;
      FilesAreValues(disk.home, disk.files, disk.loc);
      FilesAreValues(disk.home, start.files, start.loc);
      if p in disk.loc.Values {
        ValuesBound(start.loc, disk.loc, Moves(items), Upto(|items|), p);
      }
    }

    // One os.replace of a batch, then recorded, whatever later checks say.
    method MakeMove(it: Item, items: seq<Item>, w: Faults, ghost start: Arrangement)
      returns (ok: bool, items': seq<Item>)
      requires InProgress(start, items)
      requires it.move.from in start.files && it.move.to !in start.files && it.move.to !in disk.files
      modifies disk
      ensures InProgress(start, items')
      ensures items' == if ok then items + [it] else items
      ensures ok ==> it.move.from in old(disk.files) && disk.files == Rename(old(disk.files), it.move.from, it.move.to)
      ensures !w.Anything? && it.move.from in old(disk.files) ==> ok
    {
      hide Conserved, Displaced, Separate, Target, Upto, Rename;
      FilesAreValues(disk.home, disk.files, disk.loc);
      FilesAreValues(disk.home, start.files, start.loc);
      ghost var before := disk.loc;
      ok := disk.Replace(it.move.from, it.move.to, w);
      items' := items;
      if ok {
        MovesSnoc(items, it);
        SeparateGrow(start.loc, before, Moves(items), it.move);
        DisplacedMore(start.loc, before, Moves(items), it.move);
        items' := items + [it];
      }
    }

    // The number in its name keeps a destination clear of the earlier ones.
    lemma {:induction false} DestinationFree(start: Arrangement, items: seq<Item>, cs: seq<Candidate>, q: Path,
                                             name: string)
      requires InProgress(start, items) && ItemsOf(items, cs, q)
      requires forall p :: p in start.files ==> !InDirectory(p, q)
      requires Numerals.Numbering(|items| + 1) <= name
      ensures q + [name] !in disk.files
    {
      hide InProgress, Numerals.Numbering;
      var target := q + [name];
      assert InDirectory(target, q);
      forall i | 0 <= i < |items| ensures items[i].move.to != target {
        if items[i].move.to == target {
          Numerals.NumberingDistinguishes(i + 1, |items| + 1, name);
        }
      }
      StillFree(start, items, target);
    }

    // One pass of the move loop of quarantine: check again, move, record, check the result.
    method QuarantineOne(root: Path, c: Candidate, target: Path, items: seq<Item>, w: Faults, ghost start: Arrangement)
      returns (ok: bool, items': seq<Item>)
      requires InProgress(start, items) && c.path in start.files && target !in start.files
      modifies disk
      ensures InProgress(start, items')
      ensures items' == items || items' == items + [Item(Move(c.path, target), c)]
      ensures ok ==> |items'| == |items| + 1
      ensures (!w.Anything? && Within(c.path, root) && Holds(old(disk.files), c.path, c) &&
               target !in old(disk.files)) ==> ok
    {
      hide InProgress, MatchesSnapshot;
      items' := items;
      ok := VerifyCandidate(root, c, w);
      if !ok { return; }
      if target in disk.files { return false, items; }
      ok, items' := MakeMove(Item(Move(c.path, target), c), items, w, start);
      if ok {
        ok := Holds(disk.files, target, c);
        if w.Anything? {
          if * { ok := false; }
        }
      }
    }

    // The move loop of quarantine, to its end or to the first failure.
    method MoveOut(root: Path, cs: seq<Candidate>, q: Path, w: Faults, ghost start: Arrangement)
      returns (ok: bool, items: seq<Item>)
      requires disk.Valid() && start == disk.Now() && AllIntact(start.files, root, cs)
      requires forall p :: p in start.files ==> !InDirectory(p, q)
      modifies disk
      ensures InProgress(start, items) && ItemsOf(items, cs, q)
      ensures ok ==> |items| == |cs|
      ensures !w.Anything? && DistinctCandidates(cs) ==> ok
    {
      hide InProgress, InDirectory, Numerals.Numbering, Holds, ItemsOf;
      items, ok := [], true;
      BatchStarts(start);
      NoItems(cs, q);
      for k := 0 to |cs|
        invariant InProgress(start, items) && ItemsOf(items, cs, q) && |items| == k
      {
        var rest: string := *;
        var name := Numerals.Numbering(k + 1) + rest;
        var target := q + [name];
        ghost var before := items;
        assert Holds(start.files, cs[k].path, cs[k]);
        HeldIn(start.files, cs[k].path, cs[k]);
        ChildOf(q, name);
        DestinationFree(start, items, cs, q, name);
        if DistinctCandidates(cs) { NotYetMoved(start, items, cs, q, k); }
        ok, items := QuarantineOne(root, cs[k], target, items, w, start);
        ItemsGrow(before, cs, q, k, name);
        if !ok { return; }
      }
    }

    // In a plan of distinct files, the next one is still as it was at the start.
    lemma {:induction false} NotYetMoved(start: Arrangement, items: seq<Item>, cs: seq<Candidate>, q: Path, k: nat)
      requires InProgress(start, items) && ItemsOf(items, cs, q) && |items| == k < |cs| && DistinctCandidates(cs)
      requires Holds(start.files, cs[k].path, cs[k])
      ensures Holds(disk.files, cs[k].path, cs[k])
    {
      hide InProgress, MatchesSnapshot, Numerals.Numbering, InDirectory;
      Untouched(start, items, cs[k].path);
    }

    // manifest.tmp is created exclusively, then renamed over manifest.json; a failed write may leave it behind.
    method WriteManifest(q: Path, m: Manifest, w: Faults) returns (ok: bool)
      modifies this`manifests, this`temporaries
      ensures ok ==> q !in old(temporaries) && manifests == old(manifests)[q := m] && temporaries == old(temporaries)
      ensures !ok ==> manifests == old(manifests) && temporaries in {old(temporaries), old(temporaries) + {q}}
      ensures w.Calm? && q !in old(temporaries) ==> ok
      ensures w.WriteBreaks? && q !in old(temporaries) ==> !ok && q in temporaries
    {
      if q in temporaries { return false; }
      if w.Anything? {
        if * { return false; }
      }
      var broken := w.WriteBreaks?;
      if w.Anything? {
        broken := *;
      }
      if broken {
        temporaries := temporaries + {q};
        return false;
      }
      manifests := manifests[q := m];
      return true;
    }

    // What a plan must pass before anything is moved.
    ghost predicate Consumable(planId: string, planHash: string, now: int)
      reads this
    {
      && planId in plans && !plans[planId].used && plans[planId].planHash == planHash != ""
      && now <= plans[planId].expiresAt && plans[planId].core.candidates != []
    }

    // The checks that consume a plan; on success the plan is used from then on.
    method ConsumePlan(planId: string, planHash: string, now: int) returns (ok: bool, plan: Plan)
      requires Valid()
      modifies this`plans, this`consumed
      ensures Valid()
      ensures ok <==> old(Consumable(planId, planHash, now))
      ensures ok ==> plan == old(plans)[planId] && PlanOk(planId, plan)
      ensures ok ==> planId !in old(consumed) && consumed == old(consumed) + {planId}
      ensures ok ==> plans == Sweep(old(plans), now, planId)[planId := plan.(used := true)]
      ensures !ok ==> consumed == old(consumed)
      ensures !ok ==> plans == Sweep(old(plans), now, planId) || plans == Sweep(old(plans), now, planId) - {planId}
      ensures plans - {planId} == Sweep(old(plans), now, planId) - {planId}
    {
      hide PlanOk, ManifestOk, Parented, Conserved, SameText;
      CleanupExpiredPlans(now, planId);
      plan := Plan(PlanCore("", [], 0, [], 0, 0), "", 0, true);
      ok := false;
      if planId !in plans { return; }
      plan := plans[planId];
      if plan.used { return; }
      if !SameText(plan.planHash, planHash) { return; }
      if plan.expiresAt < now {
        plans := plans - {planId};
        return;
      }
      if plan.core.candidates == [] { return; }
      UsedPlanOk(planId, plan);
      plans := plans[planId := plan.(used := true)];
      consumed := consumed + {planId};
      ok := true;
    }

    lemma {:induction false} UsedPlanOk(planId: string, plan: Plan)
      requires PlanOk(planId, plan)
      ensures PlanOk(planId, plan.(used := true))
    {
    }

    // Creates the quarantine directory, which must not exist yet.
    method MakeQuarantineDirectory(allowed: Path, quarantineId: string, w: Faults) returns (ok: bool, q: Path)
      requires RecordsOk()
      modifies this`dirs
      ensures RecordsOk()
      ensures q == QuarantinePath(allowed, quarantineId)
      ensures old(dirs) <= dirs && (ok ==> q !in old(dirs) && q in dirs)
      ensures !w.Anything? && q !in old(dirs) ==> ok
    {
      hide ManifestOk, PlanOk;
      q := QuarantinePath(allowed, quarantineId);
      if w.Anything? {
        if * { return false, q; }
      }
      var parent := allowed + [QUARANTINE_DIR_NAME];
      MoreDirectories(dirs + {parent});
      dirs := dirs + {parent};
      assert |q| != |parent|;
      if w.Anything? {
        if * { return false, q; }
      }
      if q in dirs { return false, q; }
      MoreDirectories(dirs + {q});
      dirs := dirs + {q};
      ok := true;
      if w.Anything? {
        if * { ok := false; }
      }
    }

    // Manifests stay in order as directories are added.
    lemma {:induction false} MoreDirectories(more: set<Path>)
      requires RecordsOk() && dirs <= more
      ensures forall q :: q in manifests ==> ManifestOk(q, manifests[q], more)
    {
      hide PlanOk, Protected, DistinctMoves;
    }

    method AllowedRootFor(root: Path) returns (allowed: Option<Path>)
      ensures allowed == FirstRoot(allowedRoots, root)
    {
      for k := 0 to |allowedRoots|
        invariant FirstRoot(allowedRoots[k..], root) == FirstRoot(allowedRoots, root)
      {
        assert allowedRoots[k..][0] == allowedRoots[k] && allowedRoots[k..][1..] == allowedRoots[k + 1..];
        if Within(root, allowedRoots[k]) { return Some(allowedRoots[k]); }
      }
      assert allowedRoots[|allowedRoots|..] == [];
      return None;
    }

    // How a call left the files: exactly the moves numbered in `out` stand.
    twostate predicate Left(moves: seq<Move>, out: set<nat>)
      reads disk
    {
      && disk.Valid()
      && Separate(old(disk.loc).Values, moves)
      && Displaced(old(disk.loc), disk.loc, moves, out)
    }

    // After a failed batch: undo it, and report what could not be undone.
    method Abandon(items: seq<Item>, w: Faults, ghost start: Arrangement) returns (r: Outcome, ghost out: set<nat>)
      requires InProgress(start, items)
      modifies disk
      ensures disk.Valid() && Separate(start.loc.Values, Moves(items))
      ensures Displaced(start.loc, disk.loc, Moves(items), out)
      ensures r.Failed? && r.rollbackErrors == |out| && out <= Upto(|items|)
      ensures r.rollbackErrors == 0 ==> disk.loc == start.loc
      ensures !w.Anything? ==> r.rollbackErrors == 0
    {
      hide Conserved, Displaced, Separate, Target, Upto;
      var errors;
      errors, out := disk.RollBack(Moves(items), w, start.loc);
      r := Failed(errors);
    }

    // The file-system part of quarantine, once directory `q` has been made.
    method QuarantineFiles(plan: Plan, core: Core, q: Path, w: Faults)
      returns (r: Outcome, ghost items: seq<Item>, ghost out: set<nat>)
      requires Valid() && PlanOk(core.planId, plan) && core.root == plan.core.root && q in dirs && q !in manifests
      requires forall p :: p in disk.files ==> !InDirectory(p, q)
      requires AllIntact(disk.files, core.root, plan.core.candidates)
      modifies this`manifests, this`temporaries, disk
      ensures Valid() && Left(Moves(items), out) && out <= Upto(|items|) && ItemsOf(items, plan.core.candidates, q)
      ensures old(temporaries) <= temporaries <= old(temporaries) + {q}
      ensures r.Failed? ==> r.rollbackErrors == |out| && manifests == old(manifests)
      ensures r.Failed? && r.rollbackErrors == 0 ==> disk.loc == old(disk.loc)
      ensures r.Failed? && !w.Anything? ==> r.rollbackErrors == 0
      ensures r.Done? ==> out == Upto(|items|) && |items| == |plan.core.candidates|
      ensures r.Done? ==> q !in temporaries
      ensures r.Done? ==>
        manifests == old(manifests)[q := Manifest(core.(items := items), digest(core.(items := items)), false)]
      ensures w.Calm? && DistinctCandidates(plan.core.candidates) && q !in old(temporaries) ==> r.Done?
    {
      hide Conserved, Displaced, Separate, Target, Upto, Parented, RecordsOk, PlanOk, ItemsOf, AllIntact;
      ghost var start := disk.Now();
      FilesAreValues(disk.home, disk.files, disk.loc);
      var ok, moved := MoveOut(core.root, plan.core.candidates, q, w, start);
      items, out, r := moved, Upto(|moved|), Done;
      if ok {
        ok := RecordQuarantine(plan, core.(items := moved), q, w, start);
      }
      if !ok {
        r, out := Abandon(moved, w, start);
      }
      FilesAreValues(disk.home, disk.files, disk.loc);
      ItemsParented(moved, plan.core.candidates, q);
      ParentedAfter(start.loc, disk.loc, Moves(moved), out, dirs);
    }

    method RecordQuarantine(plan: Plan, core: Core, q: Path, w: Faults, ghost start: Arrangement) returns (ok: bool)
      requires RecordsOk() && PlanOk(core.planId, plan) && core.root == plan.core.root && q in dirs && q !in manifests
      requires ItemsOf(core.items, plan.core.candidates, q) && Separate(start.loc.Values, Moves(core.items))
      requires Parented(start.loc.Values, dirs)
      modifies this`manifests, this`temporaries
      ensures RecordsOk()
      ensures manifests == if ok then old(manifests)[q := Manifest(core, digest(core), false)] else old(manifests)
      ensures old(temporaries) <= temporaries <= old(temporaries) + {q} && (ok ==> q !in temporaries)
      ensures w.Calm? && q !in old(temporaries) ==> ok
      ensures w.WriteBreaks? && q !in old(temporaries) ==> !ok && q in temporaries
    {
      hide Separate, ManifestOk, PlanOk, ItemsOf, Parented;
      var m := Manifest(core, digest(core), false);
      ManifestIsOk(plan, m, start, q);
      ok := WriteManifest(q, m, w);
    }

    lemma {:induction false} ManifestIsOk(plan: Plan, m: Manifest, start: Arrangement, q: Path)
      requires PlanOk(m.core.planId, plan) && m.core.root == plan.core.root && m.manifestHash == digest(m.core)
      requires ItemsOf(m.core.items, plan.core.candidates, q) && Separate(start.loc.Values, Moves(m.core.items))
      requires Parented(start.loc.Values, dirs)
      ensures ManifestOk(q, m, dirs)
    {
      hide Protected, Numerals.Numbering;
      var items := m.core.items;
      assert DistinctMoves(Moves(items));
      forall i | 0 <= i < |items|
        ensures PathsOk(items[i].move, q, m.core.root, dirs) && !Protected(guarded, items[i].move.from)
      {
        assert Moves(items)[i].from in start.loc.Values;
        assert Reached(plan.core.root, plan.core.candidates[i].path);
        BelowRoot(plan.core.root, plan.core.candidates[i].path);
        InsideDirectory(items[i].move.to, q);
      }
    }

    // Exactly what a call without faults needs to succeed.
    ghost predicate Ready(planId: string, planHash: string, now: int, quarantineId: string)
      reads this, disk
    {
      && Consumable(planId, planHash, now)
      && var core := plans[planId].core;
      && RequestedRootOk(core.root)
      && AllIntact(disk.files, core.root, core.candidates) && DistinctCandidates(core.candidates)
      && QuarantinePath(FirstRoot(allowedRoots, core.root).value, quarantineId) !in dirs
    }

    /**
     * Quarantine.  A failed call leaves every file at its original or at its
     * quarantine path, the latter only for moves whose rollback failed; without
     * rollback errors the files are as before.  A successful call moves every
     * candidate, unchanged, into a new directory and records it.  A call
     * without faults succeeds exactly when the plan is ready.
     */
    method Quarantine(planId: string, planHash: string, now: int, quarantineId: string, w: Faults)
      returns (r: Outcome, q: Path, ghost items: seq<Item>, ghost out: set<nat>)
      requires Valid()
      modifies this`plans, this`consumed, this`dirs, this`manifests, this`temporaries, disk
      ensures Valid() && reopened == old(reopened) && old(dirs) <= dirs
      ensures plans - {planId} == Sweep(old(plans), now, planId) - {planId}
      ensures Left(Moves(items), out) && out <= Upto(|items|)
      ensures items != [] ==> planId in old(plans) && ItemsOf(items, old(plans)[planId].core.candidates, q)
      ensures old(temporaries) <= temporaries <= old(temporaries) + {q}
      ensures temporaries != old(temporaries) || r.Done? ==> q !in old(dirs)
      ensures consumed == if old(Consumable(planId, planHash, now)) then old(consumed) + {planId} else old(consumed)
      ensures r.Failed? ==> r.rollbackErrors == |out| && manifests == old(manifests)
      ensures r.Failed? && r.rollbackErrors == 0 ==> disk.loc == old(disk.loc)
      ensures r.Failed? && !w.Anything? ==> r.rollbackErrors == 0
      ensures r.Done? ==> planId !in old(consumed) && planId in consumed
      ensures r.Done? ==> old(Ready(planId, planHash, now, quarantineId))
      ensures r.Done? ==> planId in old(plans) && planHash != "" && old(plans)[planId].planHash == planHash
                          && old(plans)[planId].expiresAt >= now && |old(plans)[planId].core.candidates| > 0
      ensures r.Done? ==> out == Upto(|items|) && |items| == |old(plans)[planId].core.candidates|
      ensures r.Done? ==> q !in temporaries
      ensures r.Done? ==> q == QuarantinePath(FirstRoot(allowedRoots, old(plans)[planId].core.root).value, quarantineId)
      ensures r.Done? ==>
        var core := Core(quarantineId, planId, planHash, old(plans)[planId].core.root, now, items);
        manifests == old(manifests)[q := Manifest(core, digest(core), false)]
      ensures w.Calm? && old(Ready(planId, planHash, now, quarantineId)) ==> r.Done?
    {
      hide Conserved, Displaced, Separate, Target, Upto, Parented, ManifestOk, PlanOk, ItemsOf, SameText, Sweep,
           AllIntact;
      r, q, items, out := Failed(0), [], [], {};
      NothingLeft(disk.loc);
      var ok, plan := ConsumePlan(planId, planHash, now);
      if !ok { return; }
      var root, cs := plan.core.root, plan.core.candidates;
      if !RequestedRootOk(root) { return; }
      if w.Anything? {
        if * { return; }
      }
      var allowed := AllowedRootFor(root);
      ok := VerifyAll(root, cs, w);
      if !ok { return; }
      var directory;
      ok, directory := MakeQuarantineDirectory(allowed.value, quarantineId, w);
      ParentedMore(disk.files.Keys, old(dirs), dirs);
      if !ok { return; }
      q := directory;
      NoneInNewDirectory(disk.files.Keys, old(dirs), q);
      var core := Core(quarantineId, planId, planHash, root, now, []);
      r, items, out := QuarantineFiles(plan, core, directory, w);
      if r.Done? { MovedAreDistinct(old(disk.loc).Values, items, cs, q); }
    }

    // ----- Restore -----

    method LoadManifest(quarantineId: string, w: Faults) returns (found: Option<Path>)
      ensures found.Some? ==> found == FirstManifest(allowedRoots, manifests.Keys, quarantineId)
      ensures !w.Anything? ==> found == FirstManifest(allowedRoots, manifests.Keys, quarantineId)
    {
      if w.Anything? {
        if * { return None; }
      }
      for k := 0 to |allowedRoots|
        invariant FirstManifest(allowedRoots[k..], manifests.Keys, quarantineId)
               == FirstManifest(allowedRoots, manifests.Keys, quarantineId)
      {
        assert allowedRoots[k..][0] == allowedRoots[k] && allowedRoots[k..][1..] == allowedRoots[k + 1..];
        var q := QuarantinePath(allowedRoots[k], quarantineId);
        if q in manifests { return Some(q); }
      }
      assert allowedRoots[|allowedRoots|..] == [];
      return None;
    }

    // The item goes from inside the quarantine directory back below the scanned root.
    predicate ItemRestorable(it: Item, q: Path, root: Path)
      reads this, disk
    {
      && PathsOk(it.move, q, root, dirs)
      && it.move.to in disk.files && MatchesSnapshot(disk.files[it.move.to], it.snapshot)
    }

    // The first pass of restore: every destination must be free.
    method VerifyItems(items: seq<Item>, q: Path, root: Path, w: Faults) returns (ok: bool)
      ensures ok ==> forall i :: 0 <= i < |items| ==>
                       ItemRestorable(items[i], q, root) && items[i].move.from !in disk.files
      ensures (!w.Anything? && forall i :: 0 <= i < |items| ==>
                 ItemRestorable(items[i], q, root) && items[i].move.from !in disk.files) ==> ok
    {
      hide ItemRestorable;
      ok := true;
      for k := 0 to |items|
        invariant ok && forall i :: 0 <= i < k ==>
                          ItemRestorable(items[i], q, root) && items[i].move.from !in disk.files
      {
        if w.Anything? {
          if * { return false; }
        }
        ok := ItemRestorable(items[k], q, root) && items[k].move.from !in disk.files;
        if !ok { return; }
      }
    }

    // One pass of the restore loop.  The destination is not looked at again: it
    // is free because it was, and no earlier item went there.
    method RestoreOne(it: Item, q: Path, root: Path, restored: seq<Item>, w: Faults, ghost start: Arrangement)
      returns (ok: bool, restored': seq<Item>)
      requires InProgress(start, restored)
      requires it.move.to in start.files && it.move.from !in start.files
      requires it.move.to in disk.files && disk.files[it.move.to] == start.files[it.move.to]
      requires it.move.from !in disk.files
      modifies disk
      ensures InProgress(start, restored')
      ensures restored' == restored || restored' == restored + [Back(it)]
      ensures ok ==> |restored'| == |restored| + 1 && Holds(start.files, it.move.to, it.snapshot)
      ensures !w.Anything? && PathsOk(it.move, q, root, dirs) && Holds(start.files, it.move.to, it.snapshot) ==> ok
    {
      hide InProgress, MatchesSnapshot, PathsOk;
      restored' := restored;
      if w.Anything? {
        if * { return false, restored; }
      }
      if !ItemRestorable(it, q, root) { return false, restored; }
      ok, restored' := MakeMove(Back(it), restored, w, start);
      if ok {
        ok := Holds(disk.files, it.move.from, it.snapshot);
        if w.Anything? {
          if * { ok := false; }
        }
      }
    }

    // One pass, for the item whose turn it is.
    method RestoreNext(items: seq<Item>, k: nat, q: Path, root: Path, restored: seq<Item>, w: Faults,
                       ghost start: Arrangement)
      returns (ok: bool, restored': seq<Item>)
      requires InProgress(start, restored) && k < |items| && restored == BackAll(items)[..k]
      requires DistinctMoves(Moves(items))
      requires items[k].move.to in start.files && items[k].move.from !in start.files
      modifies disk
      ensures InProgress(start, restored') && restored' <= BackAll(items)
      ensures ok ==> restored' == BackAll(items)[..k + 1] && Holds(start.files, items[k].move.to, items[k].snapshot)
      ensures !w.Anything? && AllInPlace(start.files, items) && AllPathsOk(items, q, root, dirs) ==> ok
    {
      hide InProgress, BackAll, AllPathsOk, PathsOk, AllInPlace, Holds, DistinctMoves;
      NextUntouched(start, restored, items, k);
      if AllInPlace(start.files, items) && AllPathsOk(items, q, root, dirs) {
        OneInPlace(start.files, items, q, root, dirs, k);
      }
      assert BackAll(items)[..k] <= BackAll(items) && BackAll(items)[..k + 1] <= BackAll(items);
      ok, restored' := RestoreOne(items[k], q, root, restored, w, start);
    }

    // The restore loop, to its end or to the first failure.
    method MoveBack(items: seq<Item>, q: Path, root: Path, w: Faults, ghost start: Arrangement)
      returns (ok: bool, restored: seq<Item>)
      requires disk.Valid() && start == disk.Now() && DistinctMoves(Moves(items))
      requires forall i :: 0 <= i < |items| ==>
                 items[i].move.to in start.files && items[i].move.from !in start.files
      modifies disk
      ensures InProgress(start, restored) && restored <= BackAll(items)
      ensures ok ==> restored == BackAll(items) && AllInPlace(start.files, items)
      ensures !w.Anything? && AllInPlace(start.files, items) && AllPathsOk(items, q, root, dirs) ==> ok
    {
      hide InProgress, BackAll, AllPathsOk, PathsOk, AllInPlace, Holds, DistinctMoves, HeldUpto;
      restored, ok := [], true;
      BatchStarts(start);
      NoneHeld(start.files, items);
      for k := 0 to |items|
        invariant InProgress(start, restored) && restored == BackAll(items)[..k]
        invariant HeldUpto(start.files, items, k)
      {
        ok, restored := RestoreNext(items, k, q, root, restored, w, start);
        if !ok { return; }
        OneMoreHeld(start.files, items, k);
      }
      AllRestored(start.files, items);
    }

    // The next item is still in the quarantine directory, and its original path still free.
    lemma {:induction false} NextUntouched(start: Arrangement, restored: seq<Item>, items: seq<Item>, k: nat)
      requires InProgress(start, restored) && k < |items| && restored == BackAll(items)[..k]
      requires DistinctMoves(Moves(items))
      requires items[k].move.to in start.files && items[k].move.from !in start.files
      ensures BackAll(items)[..k + 1] == restored + [Back(items[k])]
      ensures items[k].move.to in disk.files && disk.files[items[k].move.to] == start.files[items[k].move.to]
      ensures items[k].move.from !in disk.files
    {
      hide InProgress, BackAll, DistinctMoves;
      NextBack(items, k);
      Untouched(start, restored, items[k].move.to);
      StillFree(start, restored, items[k].move.from);
    }

    lemma {:induction false} RestoredOk(q: Path, m: Manifest)
      requires ManifestOk(q, m, dirs)
      ensures ManifestOk(q, m.(restored := true), dirs)
    {
      hide DistinctMoves, Protected, PathsOk;
    }

    method RecordRestore(q: Path, w: Faults) returns (ok: bool)
      requires RecordsOk() && q in manifests && !manifests[q].restored
      modifies this`manifests, this`temporaries, this`reopened
      ensures RecordsOk() && (ok ==> q !in old(temporaries))
      ensures manifests == if ok then old(manifests)[q := old(manifests)[q].(restored := true)] else old(manifests)
      ensures reopened == if ok then old(reopened) + {q} else old(reopened)
      ensures old(temporaries) <= temporaries <= old(temporaries) + {q}
      ensures w.Calm? && q !in old(temporaries) ==> ok
      ensures w.WriteBreaks? && q !in old(temporaries) ==> !ok && q in temporaries
    {
      hide PlanOk, ManifestOk;
      RestoredOk(q, manifests[q]);
      ok := WriteManifest(q, manifests[q].(restored := true), w);
      if ok {
        reopened := reopened + {q};
      }
    }

    // The file-system part of restore.
    method RestoreFiles(q: Path, w: Faults) returns (r: Outcome, ghost restored: seq<Item>, ghost out: set<nat>)
      requires Valid() && q in manifests && !manifests[q].restored
      modifies this`manifests, this`temporaries, this`reopened, disk
      ensures Valid() && Left(Moves(restored), out) && out <= Upto(|restored|)
      ensures restored <= BackAll(old(manifests)[q].core.items)
      ensures old(temporaries) <= temporaries <= old(temporaries) + {q}
      ensures r.Failed? ==> r.rollbackErrors == |out| && manifests == old(manifests) && reopened == old(reopened)
      ensures r.Failed? && r.rollbackErrors == 0 ==> disk.loc == old(disk.loc)
      ensures r.Failed? && !w.Anything? ==> r.rollbackErrors == 0
      ensures r.Done? ==> out == Upto(|restored|) && restored == BackAll(old(manifests)[q].core.items)
      ensures r.Done? ==> manifests == old(manifests)[q := old(manifests)[q].(restored := true)]
                          && reopened == old(reopened) + {q}
      ensures r.Done? ==> q !in old(temporaries) && AllInPlace(old(disk.files), old(manifests)[q].core.items)
      ensures q !in old(temporaries) && AllInPlace(old(disk.files), old(manifests)[q].core.items) ==>
        (w.Calm? ==> r.Done?) && (w.WriteBreaks? ==> r.Failed? && q in temporaries)
    {
      hide Conserved, Displaced, Separate, Target, Upto, Parented, MatchesSnapshot, PlanOk, AllInPlace, BackAll,
           PathsOk, Sweep;
      ghost var start := disk.Now();
      r, restored, out := Failed(0), [], {};
      NothingLeft(start.loc);
      FilesAreValues(disk.home, disk.files, disk.loc);
      var m := manifests[q];
      var items := m.core.items;
      if AllInPlace(start.files, items) { InPlaceMeans(start.files, items); }
      var ok := VerifyItems(items, q, m.core.root, w);
      if !ok { return; }
      var moved;
      ok, moved := MoveBack(items, q, m.core.root, w, start);
      restored, out, r := moved, Upto(|moved|), Done;
      hide RecordsOk;
      if ok {
        ok := RecordRestore(q, w);
      }
      if !ok {
        r, out := Abandon(moved, w, start);
      }
      FilesAreValues(disk.home, disk.files, disk.loc);
      BackParented(moved, items, q, m.core.root, dirs);
      ParentedAfter(start.loc, disk.loc, Moves(moved), out, dirs);
    }

    // Exactly what a call without faults needs to succeed, the absence of manifest.tmp included.
    ghost predicate Restorable(quarantineId: string, manifestHash: string)
      reads this, disk
    {
      var found := FirstManifest(allowedRoots, manifests.Keys, quarantineId);
      && found.Some?
      && var m := manifests[found.value];
      && !m.restored && SameText(m.manifestHash, manifestHash) && SameText(digest(m.core), manifestHash)
      && RequestedRootOk(m.core.root) && AllInPlace(disk.files, m.core.items) && found.value !in temporaries
    }

    /**
     * Restore.  A successful call makes exactly the opposite moves of the
     * manifest, at most once per quarantine, and only while no earlier failed
     * write has left manifest.tmp behind; a failed one is rolled back.  A call
     * without faults succeeds exactly when the quarantine is restorable; one whose
     * manifest write breaks leaves manifest.tmp.
     */
    method Restore(quarantineId: string, manifestHash: string, w: Faults)
      returns (r: Outcome, q: Path, ghost restored: seq<Item>, ghost out: set<nat>)
      requires Valid()
      modifies this`manifests, this`temporaries, this`reopened, disk
      ensures Valid() && Left(Moves(restored), out) && out <= Upto(|restored|)
      ensures restored != [] ==> q in old(manifests) && restored <= BackAll(old(manifests)[q].core.items)
      ensures old(temporaries) <= temporaries <= old(temporaries) + {q}
      ensures r.Failed? ==> r.rollbackErrors == |out| && manifests == old(manifests) && reopened == old(reopened)
      ensures r.Failed? && r.rollbackErrors == 0 ==> disk.loc == old(disk.loc)
      ensures r.Failed? && !w.Anything? ==> r.rollbackErrors == 0
      ensures r.Done? ==> Some(q) == FirstManifest(allowedRoots, old(manifests).Keys, quarantineId)
      ensures r.Done? ==> old(Restorable(quarantineId, manifestHash))
      ensures r.Done? ==>
        var m := old(manifests)[q];
        && q in old(manifests) && manifestHash != "" && m.manifestHash == digest(m.core) == manifestHash
        && RequestedRootOk(m.core.root)
      ensures r.Done? ==> q !in old(reopened) && reopened == old(reopened) + {q} && q !in old(temporaries)
      ensures r.Done? ==> out == Upto(|restored|) && restored == BackAll(old(manifests)[q].core.items)
                          && manifests == old(manifests)[q := old(manifests)[q].(restored := true)]
      ensures w.Calm? && old(Restorable(quarantineId, manifestHash)) ==> r.Done?
      ensures w.WriteBreaks? && old(Restorable(quarantineId, manifestHash)) ==>
        r.Failed? && Some(q) == FirstManifest(allowedRoots, old(manifests).Keys, quarantineId) && q in temporaries
    {
      hide Conserved, Displaced, Separate, Target, Upto, Parented, ManifestOk, PlanOk, AllInPlace, BackAll, SameText;
      r, q, restored, out := Failed(0), [], [], {};
      NothingLeft(disk.loc);
      var found := LoadManifest(quarantineId, w);
      if found.None? { return; }
      var m := manifests[found.value];
      if m.restored || !SameText(m.manifestHash, manifestHash) || !SameText(digest(m.core), manifestHash) { return; }
      if !RequestedRootOk(m.core.root) { return; }
      if w.Anything? {
        if * { return; }
      }
      q := found.value;
      r, restored, out := RestoreFiles(q, w);
    }
  }

  // ----- Lemmas on values -----

  lemma {:induction false} NoItems(cs: seq<Candidate>, q: Path)
    ensures ItemsOf([], cs, q)
  {
  }

  lemma {:induction false} HeldIn(files: Files, p: Path, c: Candidate)
    requires Holds(files, p, c)
    ensures p in files
  {
  }

  lemma {:induction false} ChildOf(q: Path, name: string)
    ensures InDirectory(q + [name], q)
  {
  }

  lemma {:induction false} ItemsGrow(items: seq<Item>, cs: seq<Candidate>, q: Path, k: nat, name: string)
    requires ItemsOf(items, cs, q) && |items| == k < |cs| && Numerals.Numbering(k + 1) <= name
    ensures ItemsOf(items + [Item(Move(cs[k].path, q + [name]), cs[k])], cs, q)
  {
    hide Numerals.Numbering;
    ChildOf(q, name);
  }

  lemma {:induction false} BelowRoot(root: Path, p: Path)
    requires Reached(root, p)
    ensures p != [] && Within(Parent(p), root)
  {
  }

  lemma {:induction false} InsideDirectory(p: Path, q: Path)
    requires InDirectory(p, q)
    ensures Within(p, q)
  {
  }

  // A plan all of whose candidates were moved named no file twice.
  lemma {:induction false} MovedAreDistinct(starts: set<Path>, items: seq<Item>, cs: seq<Candidate>, q: Path)
    requires ItemsOf(items, cs, q) && |items| == |cs| && Separate(starts, Moves(items))
    ensures DistinctCandidates(cs)
  {
    hide Numerals.Numbering, InDirectory;
    forall i, j | 0 <= i < j < |cs| ensures cs[i].path != cs[j].path {
      assert Moves(items)[i].from == cs[i].path && Moves(items)[j].from == cs[j].path;
    }
  }

  lemma {:induction false} NextBack(items: seq<Item>, k: nat)
    requires k < |items| && DistinctMoves(Moves(items))
    ensures BackAll(items)[..k + 1] == BackAll(items)[..k] + [Back(items[k])]
    ensures forall i :: 0 <= i < k ==> BackAll(items)[..k][i].move.to != items[k].move.from
    ensures forall i :: 0 <= i < k ==> BackAll(items)[..k][i].move.from != items[k].move.to
  {
    hide BackAll, Moves;
    var r := BackAll(items);
    assert r[..k + 1] == r[..k] + [r[k]];
    forall i | 0 <= i < k
      ensures r[..k][i].move.to != items[k].move.from && r[..k][i].move.from != items[k].move.to
    {
      assert r[..k][i] == r[i] == Back(items[i]);
      assert Moves(items)[i].from != Moves(items)[k].from && Moves(items)[i].to != Moves(items)[k].to;
    }
  }

  predicate AllPathsOk(items: seq<Item>, q: Path, root: Path, dirs: set<Path>) {
    forall i :: 0 <= i < |items| ==> Service.PathsOk(items[i].move, q, root, dirs)
  }

  lemma {:induction false} OneInPlace(files: Files, items: seq<Item>, q: Path, root: Path, dirs: set<Path>, k: nat)
    requires AllInPlace(files, items) && AllPathsOk(items, q, root, dirs) && k < |items|
    ensures Holds(files, items[k].move.to, items[k].snapshot) && Service.PathsOk(items[k].move, q, root, dirs)
  {
    assert InPlace(files, items[k]);
  }

  predicate HeldUpto(files: Files, items: seq<Item>, k: nat)
    requires k <= |items|
  {
    forall i :: 0 <= i < k ==> Holds(files, items[i].move.to, items[i].snapshot)
  }

  lemma {:induction false} NoneHeld(files: Files, items: seq<Item>)
    ensures HeldUpto(files, items, 0)
  {
  }

  lemma {:induction false} OneMoreHeld(files: Files, items: seq<Item>, k: nat)
    requires k < |items| && HeldUpto(files, items, k) && Holds(files, items[k].move.to, items[k].snapshot)
    ensures HeldUpto(files, items, k + 1)
  {
  }

  lemma {:induction false} AllRestored(files: Files, items: seq<Item>)
    requires HeldUpto(files, items, |items|)
    requires forall i :: 0 <= i < |items| ==> items[i].move.from !in files
    ensures AllInPlace(files, items) && BackAll(items)[..|items|] == BackAll(items)
  {
  }

  lemma {:induction false} InPlaceMeans(files: Files, items: seq<Item>)
    requires AllInPlace(files, items)
    ensures forall i :: 0 <= i < |items| ==>
      && items[i].move.from !in files && items[i].move.to in files
      && MatchesSnapshot(files[items[i].move.to], items[i].snapshot)
  {
    hide MatchesSnapshot;
    forall i | 0 <= i < |items|
      ensures items[i].move.from !in files && items[i].move.to in files
              && MatchesSnapshot(files[items[i].move.to], items[i].snapshot)
    {
      assert InPlace(files, items[i]);
    }
  }

  lemma {:induction false} BackParented(restored: seq<Item>, items: seq<Item>, q: Path, root: Path, dirs: set<Path>)
    requires restored <= BackAll(items)
    requires AllPathsOk(items, q, root, dirs)
    ensures forall i :: 0 <= i < |restored| ==> Moves(restored)[i].to != [] && Parent(Moves(restored)[i].to) in dirs
  {
    hide BackAll, Moves;
    forall i | 0 <= i < |restored|
      ensures Moves(restored)[i].to != [] && Parent(Moves(restored)[i].to) in dirs
    {
      assert restored[i] == BackAll(items)[i] == Back(items[i]);
      assert Service.PathsOk(items[i].move, q, root, dirs);
    }
  }

  // Every path of `ps` has a known directory as its parent.
  ghost predicate Parented(ps: set<Path>, dirs: set<Path>) {
    forall p :: p in ps ==> p != [] && Parent(p) in dirs
  }

  lemma {:induction false} ParentedMore(ps: set<Path>, dirs: set<Path>, more: set<Path>)
    requires Parented(ps, dirs) && dirs <= more
    ensures Parented(ps, more)
  {
  }

  lemma {:induction false} NoneInNewDirectory(ps: set<Path>, dirs: set<Path>, q: Path)
    requires Parented(ps, dirs) && q !in dirs
    ensures forall p :: p in ps ==> !InDirectory(p, q)
  {
  }

  lemma {:induction false} NothingLeft(loc: Loc)
    ensures Separate(loc.Values, []) && Displaced(loc, loc, [], {}) && Moves([]) == []
  {
    DisplacedNone(loc, loc, []);
  }

  lemma {:induction false} ItemsParented(items: seq<Item>, cs: seq<Candidate>, q: Path)
    requires ItemsOf(items, cs, q)
    ensures forall i :: 0 <= i < |items| ==> Moves(items)[i].to != [] && Parent(Moves(items)[i].to) == q
  {
  }

  lemma {:induction false} ParentedAfter(start: Loc, loc: Loc, moves: seq<Move>, out: set<nat>, dirs: set<Path>)
    requires Parented(start.Values, dirs) && Displaced(start, loc, moves, out)
    requires forall i :: 0 <= i < |moves| ==> moves[i].to != [] && Parent(moves[i].to) in dirs
    ensures Parented(loc.Values, dirs)
  {
    hide Displaced;
    forall p | p in loc.Values ensures p != [] && Parent(p) in dirs {
      ValuesBound(start, loc, moves, out, p);
    }
  }

  lemma {:induction false} EligibleMeans(c: Candidate, root: Path, cutoff: int, guarded: seq<Path>, limits: Limits)
    requires Eligible(c, root, cutoff, guarded, limits)
    ensures Reached(root, c.path) && !Protected(guarded, c.path)
  {
  }
}
