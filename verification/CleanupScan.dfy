/**
 * The bounded scan for cleanup candidates: a top-down walk that never enters a
 * symlink or a quarantine directory, and nested loops that stop early on any of
 * four budgets.
 */
module CleanupScan {
  import opened Wrappers
  import opened Relocation

  const QUARANTINE_DIR_NAME := ".safeopsagent-quarantine"

  // The configured budgets (SAFE_CLEANUP_MAX_*).
  datatype Limits = Limits(scanFiles: nat, files: nat, fileBytes: nat, totalBytes: nat)

  datatype Kind = Regular | Symlink | Special

  // A directory entry that is not a directory, as lstat and the suffix test see it.
  datatype Entry = Entry(name: string, kind: Kind, allowedSuffix: bool, owned: bool, file: File)

  datatype Dir = Dir(name: string, symlink: bool, entries: seq<Entry>, subdirs: seq<Dir>)

  // A file met by the walk.
  datatype Seen = Seen(path: Path, entry: Entry)

  datatype Candidate = Candidate(path: Path, size: nat, inode: nat, device: nat, mtime: int)

  predicate Within(path: Path, root: Path) {
    root <= path
  }

  predicate Protected(guarded: seq<Path>, path: Path) {
    exists i :: 0 <= i < |guarded| && Within(path, guarded[i])
  }

  // ----- The walk -----

  // dirs[:] keeps directories that are neither symlinks nor quarantine directories.
  predicate Safe(d: Dir) {
    !d.symlink && d.name != QUARANTINE_DIR_NAME
  }

  function SeenIn(path: Path, entries: seq<Entry>): (r: seq<Seen>)
    ensures |r| == |entries|
    ensures forall i :: 0 <= i < |r| ==> r[i] == Seen(path + [entries[i].name], entries[i])
  {
    if entries == [] then [] else [Seen(path + [entries[0].name], entries[0])] + SeenIn(path, entries[1..])
  }

  // os.walk, top-down: the files of each directory visited, in visiting order.
  function Walk(path: Path, d: Dir): seq<seq<Seen>>
    decreases d, 1
  {
    [SeenIn(path, d.entries)] + WalkAll(path, d.subdirs)
  }

  function WalkAll(path: Path, ds: seq<Dir>): seq<seq<Seen>>
    decreases ds, 0
  {
    if ds == [] then []
    else (if Safe(ds[0]) then Walk(path + [ds[0].name], ds[0]) else []) + WalkAll(path, ds[1..])
  }

  // Below `root`, with no quarantine directory on the way down.
  ghost predicate Reached(root: Path, path: Path) {
    && |root| < |path| && root <= path
    && forall i :: |root| <= i < |path| - 1 ==> path[i] != QUARANTINE_DIR_NAME
  }

  ghost predicate AllReached(root: Path, steps: seq<seq<Seen>>) {
    forall i, j :: 0 <= i < |steps| && 0 <= j < |steps[i]| ==> Reached(root, steps[i][j].path)
  }

  ghost predicate CleanPath(root: Path, path: Path) {
    root <= path && forall i :: |root| <= i < |path| ==> path[i] != QUARANTINE_DIR_NAME
  }

  /** The walk stays below the requested root and outside quarantine directories. */
  lemma {:induction false} WalkReaches(root: Path, path: Path, d: Dir)
    requires CleanPath(root, path)
    ensures AllReached(root, Walk(path, d))
    decreases d, 1
  {
    WalkAllReaches(root, path, d.subdirs);
  }

  lemma {:induction false} WalkAllReaches(root: Path, path: Path, ds: seq<Dir>)
    requires CleanPath(root, path)
    ensures AllReached(root, WalkAll(path, ds))
    decreases ds, 0
  {
    if ds != [] {
      WalkAllReaches(root, path, ds[1..]);
      if Safe(ds[0]) {
        WalkReaches(root, path + [ds[0].name], ds[0]);
      }
    }
  }

  // What the walk is to find: a file `rel` names from `d`, through directories that are neither
  // symlinks nor quarantine directories.
  predicate Found(d: Dir, rel: Path, e: Entry)
    decreases |rel|, 0
  {
    if |rel| == 0 then false
    else if |rel| == 1 then exists i :: 0 <= i < |d.entries| && d.entries[i] == e && e.name == rel[0]
    else FoundBelow(d.subdirs, rel, e)
  }

  predicate FoundBelow(ds: seq<Dir>, rel: Path, e: Entry)
    requires |rel| > 1
    decreases |rel| - 1, |ds| + 1
  {
    && ds != []
    && (|| (!ds[0].symlink && ds[0].name == rel[0] != QUARANTINE_DIR_NAME && Found(ds[0], rel[1..], e))
        || FoundBelow(ds[1..], rel, e))
  }

  /** The walk meets exactly those files. */
  lemma {:induction false} WalkFinds(path: Path, d: Dir, s: Seen)
    ensures s in Concat(Walk(path, d)) <==>
            path <= s.path && |path| < |s.path| && Found(d, s.path[|path|..], s.entry)
    decreases d, 1
  {
    var here := SeenIn(path, d.entries);
    ConcatBoth([here], WalkAll(path, d.subdirs));
    ConcatOne(here);
    WalkAllFinds(path, d.subdirs, s);
    SeenInFinds(path, d.entries, s);
  }

  lemma {:induction false} SeenInFinds(path: Path, entries: seq<Entry>, s: Seen)
    ensures s in SeenIn(path, entries) <==>
            && path <= s.path && |s.path| == |path| + 1
            && exists i :: 0 <= i < |entries| && entries[i] == s.entry && s.entry.name == s.path[|path|]
  {
    var seen := SeenIn(path, entries);
    if path <= s.path && |s.path| == |path| + 1 {
      assert s.path == path + [s.path[|path|]];
      if i :| 0 <= i < |entries| && entries[i] == s.entry && s.entry.name == s.path[|path|] {
        assert seen[i] == s;
      }
    }
    if s in seen {
      var i :| 0 <= i < |seen| && seen[i] == s;
      assert entries[i] == s.entry;
    }
  }

  lemma {:induction false} WalkAllFinds(path: Path, ds: seq<Dir>, s: Seen)
    ensures s in Concat(WalkAll(path, ds)) <==>
            path <= s.path && |path| + 1 < |s.path| && FoundBelow(ds, s.path[|path|..], s.entry)
    decreases ds, 0
  {
    if ds != [] {
      WalkAllFinds(path, ds[1..], s);
      var below := path + [ds[0].name];
      if Safe(ds[0]) {
        ConcatBoth(Walk(below, ds[0]), WalkAll(path, ds[1..]));
        WalkFinds(below, ds[0], s);
        BelowOne(path, ds[0].name, s.path);
      } else {
        assert [] + WalkAll(path, ds[1..]) == WalkAll(path, ds[1..]);
      }
    }
  }

  lemma {:induction false} BelowOne(path: Path, name: string, p: Path)
    ensures path + [name] <= p && |path| + 1 < |p| <==> path <= p && |path| + 1 < |p| && p[|path|..][0] == name
    ensures path <= p && |path| + 1 < |p| ==> p[|path| + 1..] == p[|path|..][1..]
  {
    if path <= p && |path| + 1 < |p| && p[|path|] == name {
      assert p[..|path| + 1] == path + [name];
    }
  }

  // ----- Candidates -----

  // `_candidate` and the per-file size test; None covers silent and warned skips alike.
  function CandidateOf(s: Seen, cutoff: int, guarded: seq<Path>, limits: Limits): Option<Candidate> {
    var f := s.entry.file;
    if Protected(guarded, s.path) then None
    else if !s.entry.allowedSuffix then None
    else if s.entry.kind != Regular then None
    else if f.links != 1 then None
    else if !s.entry.owned then None
    else if f.mtime > cutoff then None
    else if f.size > limits.fileBytes then None
    else Some(Candidate(s.path, f.size, f.inode, f.device, f.mtime))
  }

  // A file that may be cleaned up, by its own fields.
  predicate Qualifies(s: Seen, cutoff: int, guarded: seq<Path>, limits: Limits) {
    && s.entry.kind.Regular? && s.entry.allowedSuffix && s.entry.owned && s.entry.file.links == 1
    && s.entry.file.mtime <= cutoff && s.entry.file.size <= limits.fileBytes
    && forall i :: 0 <= i < |guarded| ==> !(guarded[i] <= s.path)
  }

  // Path and snapshot are the file's own.
  predicate IsSnapshot(c: Candidate, s: Seen) {
    && c.path == s.path && c.size == s.entry.file.size && c.mtime == s.entry.file.mtime
    && c.inode == s.entry.file.inode && c.device == s.entry.file.device
  }

  lemma {:induction false} CandidateExactly(s: Seen, cutoff: int, guarded: seq<Path>, limits: Limits)
    ensures var c := CandidateOf(s, cutoff, guarded, limits);
            && (c.Some? <==> Qualifies(s, cutoff, guarded, limits))
            && (c.Some? ==> IsSnapshot(c.value, s))
  {
  }

  function TotalSize(cs: seq<Candidate>): nat {
    if cs == [] then 0 else TotalSize(cs[..|cs| - 1]) + cs[|cs| - 1].size
  }

  function Concat(steps: seq<seq<Seen>>): seq<Seen> {
    if steps == [] then [] else Concat(steps[..|steps| - 1]) + steps[|steps| - 1]
  }

  // The candidates come from distinct positions of `all`, in order.
  ghost predicate Picked(cs: seq<Candidate>, all: seq<Seen>, at: seq<nat>, cutoff: int, guarded: seq<Path>,
                         limits: Limits) {
    && |at| == |cs|
    && (forall k :: 0 <= k < |at| ==> at[k] < |all| && CandidateOf(all[at[k]], cutoff, guarded, limits) == Some(cs[k]))
    && (forall j, k :: 0 <= j < k < |at| ==> at[j] < at[k])
  }

  // Every file so far that qualifies was taken.
  ghost predicate NoneMissed(at: seq<nat>, all: seq<Seen>, cutoff: int, guarded: seq<Path>, limits: Limits) {
    forall i :: 0 <= i < |all| && CandidateOf(all[i], cutoff, guarded, limits).Some? ==> i in at
  }

  // The running totals of the scan.
  datatype Progress = Progress(candidates: seq<Candidate>, totalBytes: nat, scannedFiles: nat)

  ghost predicate WithinBudgets(p: Progress, maxFiles: nat, limits: Limits) {
    && p.totalBytes == TotalSize(p.candidates) <= limits.totalBytes
    && |p.candidates| <= maxFiles
    && |p.candidates| <= p.scannedFiles <= limits.scanFiles
  }

  predicate NotLess(p: Progress, q: Progress) {
    && p.totalBytes <= q.totalBytes
    && |p.candidates| <= |q.candidates|
    && p.scannedFiles <= q.scannedFiles
  }

  // A reason to have stopped before the end of the walk.
  ghost predicate Exhausted(p: Progress, all: seq<Seen>, cutoff: int, guarded: seq<Path>, maxFiles: nat,
                            limits: Limits) {
    || p.scannedFiles == limits.scanFiles
    || |p.candidates| == maxFiles
    || p.totalBytes == limits.totalBytes
    || exists i :: 0 <= i < |all| && TooBig(all[i], p.totalBytes, cutoff, guarded, limits)
  }

  predicate TooBig(s: Seen, totalBytes: nat, cutoff: int, guarded: seq<Path>, limits: Limits) {
    var c := CandidateOf(s, cutoff, guarded, limits);
    c.Some? && totalBytes + c.value.size > limits.totalBytes
  }

  lemma {:induction false} PickOne(cs: seq<Candidate>, all: seq<Seen>, at: seq<nat>, s: Seen, cutoff: int,
                                   guarded: seq<Path>, limits: Limits)
    requires Picked(cs, all, at, cutoff, guarded, limits)
    ensures Picked(cs, all + [s], at, cutoff, guarded, limits)
    ensures var c := CandidateOf(s, cutoff, guarded, limits);
            c.Some? ==> Picked(cs + [c.value], all + [s], at + [|all|], cutoff, guarded, limits)
  {
    hide CandidateOf;
  }

  lemma {:induction false} MissNone(at: seq<nat>, all: seq<Seen>, s: Seen, cutoff: int, guarded: seq<Path>,
                                    limits: Limits)
    requires NoneMissed(at, all, cutoff, guarded, limits)
    ensures CandidateOf(s, cutoff, guarded, limits).None? ==> NoneMissed(at, all + [s], cutoff, guarded, limits)
    ensures NoneMissed(at + [|all|], all + [s], cutoff, guarded, limits)
  {
    hide CandidateOf;
  }

  // The inner loop: one directory's files.  `stopped` says that it was left by a break.
  method ScanDirectory(seen: seq<Seen>, before: Progress, cutoff: int, guarded: seq<Path>, maxFiles: nat,
                       limits: Limits, ghost past: seq<Seen>, ghost at0: seq<nat>)
    returns (p: Progress, stopped: bool, ghost at: seq<nat>)
    requires WithinBudgets(before, maxFiles, limits) && |before.candidates| < maxFiles
    requires Picked(before.candidates, past, at0, cutoff, guarded, limits)
    ensures WithinBudgets(p, maxFiles, limits) && NotLess(before, p)
    ensures Picked(p.candidates, past + seen, at, cutoff, guarded, limits)
    ensures !stopped && NoneMissed(at0, past, cutoff, guarded, limits) ==>
              NoneMissed(at, past + seen, cutoff, guarded, limits)
    ensures stopped ==> Exhausted(p, past + seen, cutoff, guarded, maxFiles, limits)
  {
    hide CandidateOf, Picked, NoneMissed;
    p, stopped, at := before, false, at0;
    assert past + seen[..0] == past;
    for i := 0 to |seen|
      invariant WithinBudgets(p, maxFiles, limits) && |p.candidates| < maxFiles && NotLess(before, p)
      invariant Picked(p.candidates, past + seen[..i], at, cutoff, guarded, limits)
      invariant NoneMissed(at0, past, cutoff, guarded, limits) ==>
                  NoneMissed(at, past + seen[..i], cutoff, guarded, limits)
    {
      if p.scannedFiles >= limits.scanFiles {
        PickedMore(p.candidates, past + seen[..i], at, past + seen, cutoff, guarded, limits);
        return p, true, at;
      }
      p := p.(scannedFiles := p.scannedFiles + 1);
      var c := CandidateOf(seen[i], cutoff, guarded, limits);
      assert past + seen[..i + 1] == past + seen[..i] + [seen[i]];
      PickOne(p.candidates, past + seen[..i], at, seen[i], cutoff, guarded, limits);
      if NoneMissed(at0, past, cutoff, guarded, limits) {
        MissNone(at, past + seen[..i], seen[i], cutoff, guarded, limits);
      }
      if c.None? {
        continue;
      }
      if p.totalBytes + c.value.size > limits.totalBytes {
        assert (past + seen)[|past| + i] == seen[i];
        assert TooBig((past + seen)[|past| + i], p.totalBytes, cutoff, guarded, limits);
        PickedMore(p.candidates, past + seen[..i], at, past + seen, cutoff, guarded, limits);
        return p, true, at;
      }
      assert (p.candidates + [c.value])[..|p.candidates|] == p.candidates;
      at := at + [|past| + i];
      p := Progress(p.candidates + [c.value], p.totalBytes + c.value.size, p.scannedFiles);
      if |p.candidates| >= maxFiles {
        PickedMore(p.candidates, past + seen[..i + 1], at, past + seen, cutoff, guarded, limits);
        return p, true, at;
      }
    }
    assert past + seen[..|seen|] == past + seen;
  }

  lemma {:induction false} PickedMore(cs: seq<Candidate>, all: seq<Seen>, at: seq<nat>, more: seq<Seen>, cutoff: int,
                                      guarded: seq<Path>, limits: Limits)
    requires Picked(cs, all, at, cutoff, guarded, limits) && all <= more
    ensures Picked(cs, more, at, cutoff, guarded, limits)
  {
    hide CandidateOf;
  }

  lemma {:induction false} ConcatNext(steps: seq<seq<Seen>>, i: nat)
    requires i < |steps|
    ensures Concat(steps[..i + 1]) == Concat(steps[..i]) + steps[i]
  {
    assert steps[..i + 1][..i] == steps[..i];
  }

  lemma {:induction false} ConcatPrefix(steps: seq<seq<Seen>>, i: nat)
    requires i <= |steps|
    ensures Concat(steps[..i]) <= Concat(steps)
  {
    if i < |steps| {
      var init := steps[..|steps| - 1];
      assert init[..i] == steps[..i];
      ConcatPrefix(init, i);
    } else {
      assert steps[..i] == steps;
    }
  }

  lemma {:induction false} ExhaustedMore(p: Progress, q: Progress, all: seq<Seen>, more: seq<Seen>, cutoff: int,
                                         guarded: seq<Path>, maxFiles: nat, limits: Limits)
    requires Exhausted(p, all, cutoff, guarded, maxFiles, limits) && all <= more
    requires WithinBudgets(q, maxFiles, limits) && NotLess(p, q)
    ensures Exhausted(q, more, cutoff, guarded, maxFiles, limits)
  {
    hide CandidateOf;
    if i :| 0 <= i < |all| && TooBig(all[i], p.totalBytes, cutoff, guarded, limits) {
      assert TooBig(more[i], q.totalBytes, cutoff, guarded, limits);
    }
  }

  // ----- The whole scan -----

  datatype Result = Refused | Scanned(progress: Progress)

  // What every candidate of a scan of `root` satisfies.
  ghost predicate Eligible(c: Candidate, root: Path, cutoff: int, guarded: seq<Path>, limits: Limits) {
    && Reached(root, c.path)
    && !Protected(guarded, c.path)
    && c.size <= limits.fileBytes
    && c.mtime <= cutoff
  }

  // The candidates of a walk, and why any file that qualifies is not among them.
  ghost predicate Selection(p: Progress, all: seq<Seen>, cutoff: int, guarded: seq<Path>, maxFiles: nat,
                            limits: Limits) {
    exists at ::
      && Picked(p.candidates, all, at, cutoff, guarded, limits)
      && (Exhausted(p, all, cutoff, guarded, maxFiles, limits) || NoneMissed(at, all, cutoff, guarded, limits))
  }

  /**
   * The scan: candidates in walk order, each from its own file of the walk,
   * within every budget; a qualifying file is left out only for a used-up budget.
   */
  method Scan(root: Path, tree: Dir, minAgeHours: int, maxFiles: int, now: int, guarded: seq<Path>, limits: Limits)
    returns (r: Result)
    ensures r.Refused? <==> !(1 <= minAgeHours <= 24 * 365 && 1 <= maxFiles <= limits.files)
    ensures r.Scanned? ==> WithinBudgets(r.progress, maxFiles, limits)
    ensures r.Scanned? ==>
              Selection(r.progress, Concat(Walk(root, tree)), now - minAgeHours * 3600, guarded, maxFiles, limits)
  {
    if minAgeHours < 1 || minAgeHours > 24 * 365 || maxFiles < 1 || maxFiles > limits.files {
      return Refused;
    }
    hide CandidateOf, Picked, NoneMissed, Exhausted, TooBig;
    var cutoff := now - minAgeHours * 3600;
    var steps := Walk(root, tree);
    var p := Progress([], 0, 0);
    ghost var at: seq<nat>, limited := [], false;
    NothingPicked(cutoff, guarded, limits);
    for i := 0 to |steps|
      invariant WithinBudgets(p, maxFiles, limits) && |p.candidates| < maxFiles
      invariant Picked(p.candidates, Concat(steps[..i]), at, cutoff, guarded, limits)
      invariant limited ==> Exhausted(p, Concat(steps[..i]), cutoff, guarded, maxFiles, limits)
      invariant !limited ==> NoneMissed(at, Concat(steps[..i]), cutoff, guarded, limits)
    {
      ghost var past := Concat(steps[..i]);
      ConcatNext(steps, i);
      var q, stopped, at' := ScanDirectory(steps[i], p, cutoff, guarded, maxFiles, limits, past, at);
      if limited {
        ExhaustedMore(p, q, past, past + steps[i], cutoff, guarded, maxFiles, limits);
      }
      p, at, limited := q, at', limited || stopped;
      if |p.candidates| >= maxFiles || p.scannedFiles >= limits.scanFiles || p.totalBytes >= limits.totalBytes {
        ConcatPrefix(steps, i + 1);
        PickedMore(p.candidates, Concat(steps[..i + 1]), at, Concat(steps), cutoff, guarded, limits);
        BudgetExhausts(p, Concat(steps), cutoff, guarded, maxFiles, limits);
        return Scanned(p);
      }
    }
    assert steps[..|steps|] == steps;
    return Scanned(p);
  }

  lemma {:induction false} NothingPicked(cutoff: int, guarded: seq<Path>, limits: Limits)
    ensures Picked([], Concat([]), [], cutoff, guarded, limits)
    ensures NoneMissed([], Concat([]), cutoff, guarded, limits)
  {
  }

  lemma {:induction false} BudgetExhausts(p: Progress, all: seq<Seen>, cutoff: int, guarded: seq<Path>, maxFiles: nat,
                                          limits: Limits)
    requires WithinBudgets(p, maxFiles, limits)
    requires |p.candidates| >= maxFiles || p.scannedFiles >= limits.scanFiles || p.totalBytes >= limits.totalBytes
    ensures Exhausted(p, all, cutoff, guarded, maxFiles, limits)
  {
    hide CandidateOf;
  }

  lemma {:induction false} ConcatReached(root: Path, steps: seq<seq<Seen>>, i: nat)
    requires AllReached(root, steps) && i < |Concat(steps)|
    ensures Reached(root, Concat(steps)[i].path)
  {
    hide Reached;
    var init, last := steps[..|steps| - 1], steps[|steps| - 1];
    if i < |Concat(init)| {
      assert forall k :: 0 <= k < |init| ==> init[k] == steps[k];
      ConcatReached(root, init, i);
    } else {
      assert Concat(steps)[i] == last[i - |Concat(init)|];
    }
  }

  /**
   * Every candidate lies strictly below the scanned root, outside quarantine
   * directories, and is the snapshot of a file of the tree that qualifies: regular,
   * of an allowed suffix, owned, with one link, old and small enough, and outside
   * protected assets.
   */
  lemma {:induction false} SelectionEligible(p: Progress, root: Path, tree: Dir, cutoff: int, guarded: seq<Path>,
                                             maxFiles: nat, limits: Limits, k: nat) returns (s: Seen)
    requires Selection(p, Concat(Walk(root, tree)), cutoff, guarded, maxFiles, limits) && k < |p.candidates|
    ensures Eligible(p.candidates[k], root, cutoff, guarded, limits)
    ensures root <= s.path && Found(tree, s.path[|root|..], s.entry)
    ensures Qualifies(s, cutoff, guarded, limits) && IsSnapshot(p.candidates[k], s)
  {
    hide Reached, Exhausted, NoneMissed, Walk, Found, CandidateOf, Protected;
    var all := Concat(Walk(root, tree));
    var at :| Picked(p.candidates, all, at, cutoff, guarded, limits);
    WalkReaches(root, root, tree) by { WholeRootClean(root); }
    s := all[at[k]];
    assert CandidateOf(s, cutoff, guarded, limits) == Some(p.candidates[k]);
    CandidateExactly(s, cutoff, guarded, limits);
    Unprotected(guarded, s.path);
    ConcatReached(root, Walk(root, tree), at[k]);
    WalkFinds(root, tree, s);
  }

  lemma {:induction false} Unprotected(guarded: seq<Path>, p: Path)
    ensures Protected(guarded, p) <==> exists i :: 0 <= i < |guarded| && guarded[i] <= p
  {
  }

  /**
   * Where no budget was used up, every file of the tree that qualifies is a
   * candidate, with its own snapshot.
   */
  lemma {:induction false} SelectionComplete(p: Progress, root: Path, tree: Dir, cutoff: int, guarded: seq<Path>,
                                             maxFiles: nat, limits: Limits, s: Seen) returns (k: nat)
    requires Selection(p, Concat(Walk(root, tree)), cutoff, guarded, maxFiles, limits)
    requires p.scannedFiles != limits.scanFiles && |p.candidates| != maxFiles && p.totalBytes != limits.totalBytes
    requires forall t: Seen :: root <= t.path && Found(tree, t.path[|root|..], t.entry)
                               && Qualifies(t, cutoff, guarded, limits) ==>
               p.totalBytes + t.entry.file.size <= limits.totalBytes
    requires root <= s.path && Found(tree, s.path[|root|..], s.entry) && Qualifies(s, cutoff, guarded, limits)
    ensures k < |p.candidates| && IsSnapshot(p.candidates[k], s)
  {
    hide Walk, Found, CandidateOf, Qualifies, Exhausted;
    var all := Concat(Walk(root, tree));
    var at :| Picked(p.candidates, all, at, cutoff, guarded, limits)
              && (Exhausted(p, all, cutoff, guarded, maxFiles, limits) || NoneMissed(at, all, cutoff, guarded, limits));
    NotExhausted(p, root, tree, cutoff, guarded, maxFiles, limits);
    WalkFinds(root, tree, s);
    assert |root| < |s.path| by { FoundLonger(tree, s.path[|root|..], s.entry); }
    var i :| 0 <= i < |all| && all[i] == s;
    CandidateExactly(s, cutoff, guarded, limits);
    k :| 0 <= k < |at| && at[k] == i;
  }

  lemma {:induction false} FoundLonger(d: Dir, rel: Path, e: Entry)
    requires Found(d, rel, e)
    ensures |rel| > 0
  {
  }

  lemma {:induction false} NotExhausted(p: Progress, root: Path, tree: Dir, cutoff: int, guarded: seq<Path>,
                                        maxFiles: nat, limits: Limits)
    requires p.scannedFiles != limits.scanFiles && |p.candidates| != maxFiles && p.totalBytes != limits.totalBytes
    requires forall t: Seen :: root <= t.path && Found(tree, t.path[|root|..], t.entry)
                               && Qualifies(t, cutoff, guarded, limits) ==>
               p.totalBytes + t.entry.file.size <= limits.totalBytes
    ensures !Exhausted(p, Concat(Walk(root, tree)), cutoff, guarded, maxFiles, limits)
  {
    hide Walk, Found, CandidateOf, Qualifies;
    var all := Concat(Walk(root, tree));
    forall i | 0 <= i < |all| ensures !TooBig(all[i], p.totalBytes, cutoff, guarded, limits) {
      CandidateExactly(all[i], cutoff, guarded, limits);
      WalkFinds(root, tree, all[i]);
    }
  }

  /** The total is the sum of the sizes. */
  lemma {:induction false} TotalSizeAdds(a: seq<Candidate>, b: seq<Candidate>, c: Candidate)
    ensures TotalSize([c]) == c.size && TotalSize(a + b) == TotalSize(a) + TotalSize(b)
  {
    assert [c][..0] == [];
    if b == [] {
      assert a + b == a;
    } else {
      assert (a + b)[..|a + b| - 1] == a + b[..|b| - 1];
      TotalSizeAdds(a, b[..|b| - 1], c);
    }
  }

  lemma {:induction false} WholeRootClean(root: Path)
    ensures CleanPath(root, root)
  {
  }

  // ----- No file twice -----

  // As in any file system, no directory has two entries, or two subdirectories, of one name.
  predicate WellNamed(d: Dir)
    decreases d, 1
  {
    && (forall i, j :: 0 <= i < j < |d.entries| ==> d.entries[i].name != d.entries[j].name)
    && DistinctDirs(d.subdirs) && AllWellNamed(d.subdirs)
  }

  predicate AllWellNamed(ds: seq<Dir>)
    decreases ds, 0
  {
    ds == [] || (WellNamed(ds[0]) && AllWellNamed(ds[1..]))
  }

  predicate DistinctDirs(ds: seq<Dir>) {
    forall i, j :: 0 <= i < j < |ds| ==> ds[i].name != ds[j].name
  }

  ghost predicate DistinctPaths(all: seq<Seen>) {
    forall i, j :: 0 <= i < j < |all| ==> all[i].path != all[j].path
  }

  predicate HasDir(ds: seq<Dir>, name: string) {
    exists k :: 0 <= k < |ds| && ds[k].name == name
  }

  // Every file is below `path`, through one of the directories `ds`.
  ghost predicate Through(all: seq<Seen>, path: Path, ds: seq<Dir>) {
    forall i :: 0 <= i < |all| ==>
      |all[i].path| >= |path| + 2 && path <= all[i].path && HasDir(ds, all[i].path[|path|])
  }

  // Every file is strictly below `path`.
  ghost predicate Below(all: seq<Seen>, path: Path) {
    forall i :: 0 <= i < |all| ==> |all[i].path| > |path| && path <= all[i].path
  }

  lemma {:induction false} ConcatBoth(a: seq<seq<Seen>>, b: seq<seq<Seen>>)
    ensures Concat(a + b) == Concat(a) + Concat(b)
  {
    if b == [] {
      assert a + b == a;
    } else {
      assert (a + b)[..|a + b| - 1] == a + b[..|b| - 1];
      ConcatBoth(a, b[..|b| - 1]);
    }
  }

  lemma {:induction false} ConcatOne(a: seq<Seen>)
    ensures Concat([a]) == a
  {
    assert [a][..0] == [];
  }

  lemma {:induction false} DistinctBoth(a: seq<Seen>, b: seq<Seen>)
    requires DistinctPaths(a) && DistinctPaths(b)
    requires forall i, j :: 0 <= i < |a| && 0 <= j < |b| ==> a[i].path != b[j].path
    ensures DistinctPaths(a + b)
  {
  }

  /** A walk meets no path twice. */
  lemma {:induction false} WalkDistinct(path: Path, d: Dir)
    requires WellNamed(d)
    ensures DistinctPaths(Concat(Walk(path, d))) && Below(Concat(Walk(path, d)), path)
    decreases d, 1
  {
    var here, deeper := SeenIn(path, d.entries), Concat(WalkAll(path, d.subdirs));
    WalkAllDistinct(path, d.subdirs);
    ConcatBoth([here], WalkAll(path, d.subdirs));
    ConcatOne(here);
    SeenDistinct(path, d.entries);
    DistinctBoth(here, deeper);
  }

  lemma {:induction false} SeenDistinct(path: Path, entries: seq<Entry>)
    requires forall i, j :: 0 <= i < j < |entries| ==> entries[i].name != entries[j].name
    ensures DistinctPaths(SeenIn(path, entries)) && Below(SeenIn(path, entries), path)
    ensures forall i :: 0 <= i < |entries| ==> |SeenIn(path, entries)[i].path| == |path| + 1
  {
    var seen := SeenIn(path, entries);
    forall i, j | 0 <= i < j < |entries| ensures seen[i].path != seen[j].path {
      assert seen[i].path[|path|] == entries[i].name && seen[j].path[|path|] == entries[j].name;
    }
  }

  lemma {:induction false} WalkAllDistinct(path: Path, ds: seq<Dir>)
    requires AllWellNamed(ds) && DistinctDirs(ds)
    ensures DistinctPaths(Concat(WalkAll(path, ds))) && Through(Concat(WalkAll(path, ds)), path, ds)
    decreases ds, 0
  {
    if ds != [] {
      WalkAllDistinct(path, ds[1..]);
      var rest := Concat(WalkAll(path, ds[1..]));
      ThroughMore(rest, path, ds);
      if Safe(ds[0]) {
        var below := path + [ds[0].name];
        WalkDistinct(below, ds[0]);
        var first := Concat(Walk(below, ds[0]));
        ConcatBoth(Walk(below, ds[0]), WalkAll(path, ds[1..]));
        BelowFirst(first, rest, path, ds);
        DistinctBoth(first, rest);
      } else {
        assert WalkAll(path, ds) == [] + WalkAll(path, ds[1..]) == WalkAll(path, ds[1..]);
      }
    }
  }

  lemma {:induction false} ThroughMore(rest: seq<Seen>, path: Path, ds: seq<Dir>)
    requires ds != [] && Through(rest, path, ds[1..])
    ensures Through(rest, path, ds)
  {
    forall i | 0 <= i < |rest| ensures HasDir(ds, rest[i].path[|path|]) {
      var k :| 0 <= k < |ds[1..]| && ds[1..][k].name == rest[i].path[|path|];
      assert ds[k + 1].name == rest[i].path[|path|];
    }
  }

  lemma {:induction false} BelowFirst(first: seq<Seen>, rest: seq<Seen>, path: Path, ds: seq<Dir>)
    requires ds != [] && DistinctDirs(ds) && Below(first, path + [ds[0].name])
    requires Through(rest, path, ds[1..]) && Through(rest, path, ds)
    ensures Through(first + rest, path, ds)
    ensures forall i, j :: 0 <= i < |first| && 0 <= j < |rest| ==> first[i].path != rest[j].path
  {
    var below := path + [ds[0].name];
    forall i | 0 <= i < |first|
      ensures |first[i].path| >= |path| + 2 && path <= first[i].path && first[i].path[|path|] == ds[0].name
    {
      assert first[i].path[..|below|] == below;
      assert below[|path|] == ds[0].name;
      assert below[..|path|] == path;
    }
    forall j | 0 <= j < |rest| ensures rest[j].path[|path|] != ds[0].name {
      var k :| 0 <= k < |ds[1..]| && ds[1..][k].name == rest[j].path[|path|];
      assert ds[k + 1].name != ds[0].name;
    }
  }

  // Where no path is met twice, no candidate is listed twice.
  lemma {:induction false} PickedDistinct(p: Progress, all: seq<Seen>, cutoff: int, guarded: seq<Path>, maxFiles: nat,
                                          limits: Limits)
    requires Selection(p, all, cutoff, guarded, maxFiles, limits) && DistinctPaths(all)
    ensures forall j, k :: 0 <= j < k < |p.candidates| ==> p.candidates[j].path != p.candidates[k].path
  {
    hide Exhausted, NoneMissed;
    var at :| Picked(p.candidates, all, at, cutoff, guarded, limits);
    forall j, k | 0 <= j < k < |p.candidates|
      ensures p.candidates[j].path != p.candidates[k].path
    {
      assert at[j] < at[k];
      assert CandidateOf(all[at[j]], cutoff, guarded, limits) == Some(p.candidates[j]);
      assert CandidateOf(all[at[k]], cutoff, guarded, limits) == Some(p.candidates[k]);
    }
  }

  /** No candidate of a scan is listed twice. */
  lemma {:induction false} SelectionDistinct(p: Progress, root: Path, tree: Dir, cutoff: int, guarded: seq<Path>,
                                             maxFiles: nat, limits: Limits)
    requires Selection(p, Concat(Walk(root, tree)), cutoff, guarded, maxFiles, limits) && WellNamed(tree)
    ensures forall j, k :: 0 <= j < k < |p.candidates| ==> p.candidates[j].path != p.candidates[k].path
  {
    hide Selection, Walk, WellNamed, DistinctPaths;
    WalkDistinct(root, tree);
    PickedDistinct(p, Concat(Walk(root, tree)), cutoff, guarded, maxFiles, limits);
  }
}
