/**
 * Files under renaming.  A file store is described by where each original file
 * now is: `loc` maps the path a file had at the start to its current path.
 *
 * Main results: a rename onto a free path loses nothing (`RenameConserves`),
 * and a batch of moves followed by the opposite batch is the identity
 * (`RoundTrip`).
 */
module Relocation {
  // A resolved path, as its components below the file-system root.
  type Path = seq<string>

  // What lstat shows of a regular file.
  datatype File = File(device: nat, inode: nat, size: nat, mtime: int, links: nat)

  type Files = map<Path, File>
  type Loc = map<Path, Path>

  datatype Move = Move(from: Path, to: Path)

  // os.replace(src, dst): whatever was at `dst` is gone.
  function Rename(files: Files, src: Path, dst: Path): Files
    requires src in files
  {
    (files - {src})[dst := files[src]]
  }

  function Moved(loc: Loc, src: Path, dst: Path): Loc {
    map h | h in loc :: if loc[h] == src then dst else loc[h]
  }

  // Every file of `home`, unchanged, at exactly one path of `files`, and nothing else there.
  ghost predicate Conserved(home: Files, files: Files, loc: Loc) {
    && loc.Keys == home.Keys
    && (forall h :: h in loc ==> loc[h] in files && files[loc[h]] == home[h])
    && (forall p :: p in files ==> exists h :: h in loc && loc[h] == p)
    && (forall h, k :: h in loc && k in loc && loc[h] == loc[k] ==> h == k)
  }

  lemma {:induction false} RenameCovers(home: Files, files: Files, loc: Loc, src: Path, dst: Path, p: Path)
    requires Conserved(home, files, loc) && src in files && dst !in files && p in Rename(files, src, dst)
    ensures exists h :: h in loc && Moved(loc, src, dst)[h] == p
  {
    var q := if p == dst then src else p;
    var h :| h in loc && loc[h] == q;
    assert Moved(loc, src, dst)[h] == p;
  }

  lemma {:induction false} RenameKeeps(home: Files, files: Files, loc: Loc, src: Path, dst: Path, h: Path)
    requires Conserved(home, files, loc) && src in files && dst !in files && h in loc
    ensures var p := Moved(loc, src, dst)[h]; p in Rename(files, src, dst) && Rename(files, src, dst)[p] == home[h]
  {
  }

  lemma {:induction false} RenameInjective(home: Files, files: Files, loc: Loc, src: Path, dst: Path, h: Path, k: Path)
    requires Conserved(home, files, loc) && src in files && dst !in files && h in loc && k in loc
    requires Moved(loc, src, dst)[h] == Moved(loc, src, dst)[k]
    ensures h == k
  {
    assert loc[h] != dst && loc[k] != dst;
  }

  /** Renaming onto a free path moves one file and conserves all. */
  lemma {:induction false} RenameConserves(home: Files, files: Files, loc: Loc, src: Path, dst: Path)
    requires Conserved(home, files, loc) && src in files && dst !in files
    ensures Conserved(home, Rename(files, src, dst), Moved(loc, src, dst))
  {
    hide Rename, Moved;
    var files', loc' := Rename(files, src, dst), Moved(loc, src, dst);
    MovedKeys(loc, src, dst);
    forall p | p in files' ensures exists h :: h in loc' && loc'[h] == p {
      RenameCovers(home, files, loc, src, dst, p);
    }
    forall h | h in loc' ensures loc'[h] in files' && files'[loc'[h]] == home[h] {
      RenameKeeps(home, files, loc, src, dst, h);
    }
    forall h, k | h in loc' && k in loc' && loc'[h] == loc'[k] ensures h == k {
      RenameInjective(home, files, loc, src, dst, h, k);
    }
  }

  lemma {:induction false} MovedKeys(loc: Loc, src: Path, dst: Path)
    ensures Moved(loc, src, dst).Keys == loc.Keys
  {
  }

  /** Where the files are determines the store. */
  lemma {:induction false} LocDetermines(home: Files, f: Files, g: Files, loc: Loc)
    requires Conserved(home, f, loc) && Conserved(home, g, loc)
    ensures f == g
  {
    assert f.Keys <= g.Keys;
    assert g.Keys <= f.Keys;
  }

  // ----- Batches of moves -----

  // The moves start at paths in `starts`, end at paths outside it, and never meet.
  ghost predicate Separate(starts: set<Path>, moves: seq<Move>) {
    && (forall i :: 0 <= i < |moves| ==> moves[i].from in starts && moves[i].to !in starts)
    && (forall i, j :: 0 <= i < j < |moves| ==> moves[i].from != moves[j].from && moves[i].to != moves[j].to)
  }

  // Where the file that began at `p` is, once the moves numbered in `out` are made.
  function Target(p: Path, moves: seq<Move>, out: set<nat>): Path {
    if moves == [] then p
    else
      var last := |moves| - 1;
      if last in out && moves[last].from == p then moves[last].to else Target(p, moves[..last], out)
  }

  // From `start`, exactly the moves numbered in `out` have been made.
  ghost predicate Displaced(start: Loc, loc: Loc, moves: seq<Move>, out: set<nat>) {
    loc.Keys == start.Keys && forall h :: h in start ==> loc[h] == Target(start[h], moves, out)
  }

  function Upto(n: nat): (s: set<nat>)
    ensures forall i: nat :: i in s <==> i < n
  {
    if n == 0 then {} else Upto(n - 1) + {n - 1}
  }

  /** A file of a batch is at its first path or at the target of its own move; any other file has not moved. */
  lemma {:induction false} TargetCases(p: Path, moves: seq<Move>, out: set<nat>)
    ensures (Target(p, moves, out) == p && forall i :: 0 <= i < |moves| && i in out ==> moves[i].from != p) ||
            (exists i :: 0 <= i < |moves| && i in out && moves[i].from == p && moves[i].to == Target(p, moves, out))
  {
    if moves != [] {
      var last := |moves| - 1;
      if last in out && moves[last].from == p {
      } else {
        TargetCases(p, moves[..last], out);
      }
    }
  }

  lemma {:induction false} TargetAgree(p: Path, moves: seq<Move>, out: set<nat>, out': set<nat>)
    requires forall i :: 0 <= i < |moves| && moves[i].from == p ==> (i in out <==> i in out')
    ensures Target(p, moves, out) == Target(p, moves, out')
  {
    if moves != [] {
      TargetAgree(p, moves[..|moves| - 1], out, out');
    }
  }

  lemma {:induction false} TargetOf(starts: set<Path>, moves: seq<Move>, out: set<nat>, k: nat)
    requires Separate(starts, moves) && k < |moves|
    ensures Target(moves[k].from, moves, out) == if k in out then moves[k].to else moves[k].from
  {
    TargetCases(moves[k].from, moves, out);
  }

  lemma {:induction false} TargetSnoc(p: Path, moves: seq<Move>, m: Move, out: set<nat>)
    ensures Target(p, moves + [m], out) == if |moves| in out && m.from == p then m.to else Target(p, moves, out)
  {
    assert (moves + [m])[..|moves|] == moves;
  }

  lemma {:induction false} SeparateSnoc(starts: set<Path>, moves: seq<Move>, m: Move)
    requires Separate(starts, moves + [m])
    ensures Separate(starts, moves) && m.from in starts && m.to !in starts
    ensures forall i :: 0 <= i < |moves| ==> moves[i].from != m.from && moves[i].to != m.to && moves[i].to != m.from
  {
    var all := moves + [m];
    assert all[|moves|] == m;
    assert forall i :: 0 <= i < |moves| ==> all[i] == moves[i];
  }

  // The effect of one more move, on one path.
  lemma {:induction false} TargetMore(starts: set<Path>, moves: seq<Move>, m: Move, p: Path)
    requires Separate(starts, moves + [m]) && p in starts
    ensures var t := Target(p, moves, Upto(|moves|));
            Target(p, moves + [m], Upto(|moves| + 1)) == if t == m.from then m.to else t
  {
    hide Target, Separate, Upto;
    var n := |moves|;
    SeparateSnoc(starts, moves, m);
    TargetSnoc(p, moves, m, Upto(n + 1));
    TargetAgree(p, moves, Upto(n), Upto(n + 1));
    TargetCases(p, moves, Upto(n));
  }

  // The effect of undoing one move, on one path.
  lemma {:induction false} TargetLess(starts: set<Path>, moves: seq<Move>, out: set<nat>, k: nat, p: Path)
    requires Separate(starts, moves) && k in out && k < |moves| && p in starts
    ensures var t := Target(p, moves, out);
            Target(p, moves, out - {k}) == if t == moves[k].to then moves[k].from else t
  {
    TargetCases(p, moves, out);
    if p == moves[k].from {
      TargetOf(starts, moves, out, k);
      TargetOf(starts, moves, out - {k}, k);
    } else {
      TargetAgree(p, moves, out, out - {k});
    }
  }

  lemma {:induction false} TargetNowhere(p: Path, moves: seq<Move>)
    ensures Target(p, moves, {}) == p
  {
    if moves != [] {
      TargetNowhere(p, moves[..|moves| - 1]);
    }
  }

  lemma {:induction false} DisplacedNone(start: Loc, loc: Loc, moves: seq<Move>)
    ensures Displaced(start, loc, moves, {}) <==> loc == start
  {
    forall h | h in start ensures Target(start[h], moves, {}) == start[h] {
      TargetNowhere(start[h], moves);
    }
  }

  /** One more move of a batch. */
  lemma {:induction false} DisplacedMore(start: Loc, loc: Loc, moves: seq<Move>, m: Move)
    requires Separate(start.Values, moves + [m]) && Displaced(start, loc, moves, Upto(|moves|))
    ensures Displaced(start, Moved(loc, m.from, m.to), moves + [m], Upto(|moves| + 1))
  {
    hide Target, Separate;
    forall h | h in start
      ensures Moved(loc, m.from, m.to)[h] == Target(start[h], moves + [m], Upto(|moves| + 1))
    {
      assert start[h] in start.Values;
      TargetMore(start.Values, moves, m, start[h]);
    }
  }

  /** One move of a batch undone. */
  lemma {:induction false} DisplacedLess(start: Loc, loc: Loc, moves: seq<Move>, out: set<nat>, k: nat)
    requires Separate(start.Values, moves) && Displaced(start, loc, moves, out) && k in out && k < |moves|
    ensures Displaced(start, Moved(loc, moves[k].to, moves[k].from), moves, out - {k})
  {
    hide Target, Separate;
    forall h | h in start
      ensures Moved(loc, moves[k].to, moves[k].from)[h] == Target(start[h], moves, out - {k})
    {
      assert start[h] in start.Values;
      TargetLess(start.Values, moves, out, k, start[h]);
    }
  }

  function Opposite(moves: seq<Move>): (r: seq<Move>)
    ensures |r| == |moves|
    ensures forall i :: 0 <= i < |moves| ==> r[i] == Move(moves[i].to, moves[i].from)
  {
    if moves == [] then [] else [Move(moves[0].to, moves[0].from)] + Opposite(moves[1..])
  }

  lemma {:induction false} TargetRoundTrip(starts: set<Path>, moves: seq<Move>, p: Path)
    requires Separate(starts, moves) && p in starts
    ensures var all := Upto(|moves|); Target(Target(p, moves, all), Opposite(moves), all) == p
  {
    var all, back := Upto(|moves|), Opposite(moves);
    var t := Target(p, moves, all);
    TargetCases(p, moves, all);
    TargetCases(t, back, all);
    if i :| 0 <= i < |moves| && moves[i].from == p && moves[i].to == t {
      assert back[i].from == t;
    }
  }

  /**
   * A batch made, then the opposite batch: every file is back where it was,
   * provided it was not moved in between.
   */
  lemma {:induction false} RoundTrip(start: Loc, after: Loc, later: Loc, end: Loc, moves: seq<Move>, h: Path)
    requires Separate(start.Values, moves) && Displaced(start, after, moves, Upto(|moves|))
    requires Displaced(later, end, Opposite(moves), Upto(|moves|))
    requires h in start && h in later && later[h] == after[h]
    ensures end[h] == start[h]
  {
    hide Target, Separate;
    assert start[h] in start.Values;
    TargetRoundTrip(start.Values, moves, start[h]);
  }
}
