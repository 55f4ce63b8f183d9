/**
 * The file store that cleanup works on, and its all-or-nothing batches of moves.
 *
 * Which system calls may fail is a parameter.  `home` and `loc` are ghost: what
 * was there at the start, and where each of those files is now.
 */
module CleanupMoves {
  import opened Relocation

  lemma {:induction false} FilesAreValues(home: Files, files: Files, loc: Loc)
    requires Conserved(home, files, loc)
    ensures files.Keys == loc.Values
  {
    forall p | p in files ensures p in loc.Values {
      var h :| h in loc && loc[h] == p;
    }
  }

  // What may go wrong during a call: nothing, the writing of the manifest half-way, or anything at any step.
  datatype Faults = Calm | WriteBreaks | Anything

  // What is where at one moment, and which of the first files that is.
  datatype Arrangement = Arrangement(files: Files, loc: Loc)

  // While a move of the batch is made, its target is taken and its start is free.
  lemma {:induction false} OutIsFree(start: Loc, loc: Loc, moves: seq<Move>, out: set<nat>, k: nat)
    requires Separate(start.Values, moves) && Displaced(start, loc, moves, out) && k in out && k < |moves|
    ensures moves[k].to in loc.Values && moves[k].from !in loc.Values
  {
    hide Target;
    assert moves[k].from in start.Values;
    var h :| h in start && start[h] == moves[k].from;
    TargetOf(start.Values, moves, out, k);
    assert loc[h] == moves[k].to;
    if moves[k].from in loc.Values {
      var g :| g in loc && loc[g] == moves[k].from;
      assert start[g] in start.Values;
      TargetCases(start[g], moves, out);
    }
  }

  lemma {:induction false} ValuesBound(start: Loc, loc: Loc, moves: seq<Move>, out: set<nat>, p: Path)
    requires Displaced(start, loc, moves, out) && p in loc.Values
    ensures p in start.Values || exists i :: 0 <= i < |moves| && p == moves[i].to
  {
    hide Target;
    var g :| g in loc && loc[g] == p;
    assert start[g] in start.Values;
    TargetCases(start[g], moves, out);
  }

  // A file still at its start, moved to a path that is and was free, extends the batch.
  lemma {:induction false} SeparateGrow(start: Loc, loc: Loc, moves: seq<Move>, m: Move)
    requires Separate(start.Values, moves) && Displaced(start, loc, moves, Upto(|moves|))
    requires m.from in start.Values && m.from in loc.Values && m.to !in start.Values && m.to !in loc.Values
    ensures Separate(start.Values, moves + [m])
  {
    hide Target, Displaced;
    forall i | 0 <= i < |moves|
      ensures moves[i].from != m.from && moves[i].to != m.to
    {
      OutIsFree(start, loc, moves, Upto(|moves|), i);
    }
  }

  /** Once the moves numbered in `out` are made, the file that was at `p` is, unchanged, at the target of `p`. */
  lemma {:induction false} FileFollows(home: Files, a: Arrangement, b: Arrangement, moves: seq<Move>, out: set<nat>,
                                       p: Path)
    requires Conserved(home, a.files, a.loc) && Conserved(home, b.files, b.loc)
    requires Displaced(a.loc, b.loc, moves, out) && p in a.files
    ensures var t := Target(p, moves, out); t in b.files && b.files[t] == a.files[p]
  {
    hide Target;
    var h :| h in a.loc && a.loc[h] == p;
    assert b.loc[h] == Target(p, moves, out);
  }

  /** A file of a batch is at exactly one of the two paths of its move, and unchanged. */
  lemma {:induction false} FileStands(home: Files, a: Arrangement, b: Arrangement, moves: seq<Move>, out: set<nat>,
                                      k: nat)
    requires Conserved(home, a.files, a.loc) && Conserved(home, b.files, b.loc)
    requires Separate(a.loc.Values, moves) && Displaced(a.loc, b.loc, moves, out) && k < |moves|
    ensures moves[k].from in a.files
    ensures k in out ==> moves[k].from !in b.files && moves[k].to in b.files
                         && b.files[moves[k].to] == a.files[moves[k].from]
    ensures k !in out ==> moves[k].from in b.files && moves[k].to !in b.files
                          && b.files[moves[k].from] == a.files[moves[k].from]
  {
    hide Target, Conserved, Displaced;
    FilesAreValues(home, a.files, a.loc);
    FilesAreValues(home, b.files, b.loc);
    TargetOf(a.loc.Values, moves, out, k);
    FileFollows(home, a, b, moves, out, moves[k].from);
    if k in out {
      OutIsFree(a.loc, b.loc, moves, out, k);
    } else {
      TargetIsFree(a.loc, b.loc, moves, out, k);
    }
  }

  lemma {:induction false} TargetIsFree(start: Loc, loc: Loc, moves: seq<Move>, out: set<nat>, k: nat)
    requires Separate(start.Values, moves) && Displaced(start, loc, moves, out) && k !in out && k < |moves|
    ensures moves[k].to !in loc.Values
  {
    hide Target;
    if moves[k].to in loc.Values {
      var g :| g in loc && loc[g] == moves[k].to;
      assert start[g] in start.Values;
      TargetCases(start[g], moves, out);
    }
  }

  // The moves standing once those numbered from `i` on have been tried: the `failed` of them, and all before.
  ghost predicate Standing(out: set<nat>, i: nat, n: nat, failed: nat) {
    && i <= n && Upto(i) <= out <= Upto(n)
    && |out| == i + failed
  }

  lemma {:induction false} AllStand(n: nat)
    ensures Standing(Upto(n), n, n, 0)
  {
    UptoSize(n);
  }

  lemma {:induction false} UptoSize(n: nat)
    ensures |Upto(n)| == n
  {
    if n > 0 { UptoSize(n - 1); }
  }

  lemma {:induction false} OneTried(out: set<nat>, i: nat, n: nat, failed: nat)
    requires Standing(out, i + 1, n, failed)
    ensures i in out && i < n
    ensures Standing(out, i, n, failed + 1) && Standing(out - {i}, i, n, failed)
  {
  }

  lemma {:induction false} AllTried(out: set<nat>, n: nat, failed: nat)
    requires Standing(out, 0, n, failed)
    ensures out <= Upto(n) && failed == |out| && (failed == 0 ==> out == {})
  {
  }

  class Disk {
    var files: Files
    ghost var loc: Loc
    ghost const home: Files

    constructor (files: Files)
      ensures this.files == files && home == files && Valid()
      ensures loc.Keys == files.Keys && forall h :: h in loc ==> loc[h] == h
    {
      this.files, this.home := files, files;
      this.loc := map p | p in files :: p;
    }

    ghost predicate Valid()
      reads this
    {
      Conserved(home, files, loc)
    }

    ghost function Now(): Arrangement
      reads this
    {
      Arrangement(files, loc)
    }

    /** os.replace onto a path that is free: all or nothing, and possibly nothing. */
    method Replace(src: Path, dst: Path, w: Faults) returns (ok: bool)
      requires Valid() && dst !in files
      modifies this
      ensures Valid()
      ensures !w.Anything? && src in old(files) ==> ok
      ensures ok ==> src in old(files) && files == Rename(old(files), src, dst) && loc == Moved(old(loc), src, dst)
      ensures !ok ==> files == old(files) && loc == old(loc)
    {
      if src !in files { return false; }
      if w.Anything? {
        if * { return false; }
      }
      RenameConserves(home, files, loc, src, dst);
      loc := Moved(loc, src, dst);
      files := Rename(files, src, dst);
      return true;
    }

    // One step of a rollback.
    method Undo(moves: seq<Move>, i: nat, w: Faults, ghost start: Loc, ghost out: set<nat>) returns (failed: bool)
      requires Valid() && Separate(start.Values, moves) && Displaced(start, loc, moves, out)
      requires i in out && i < |moves|
      modifies this
      ensures Valid() && Displaced(start, loc, moves, if failed then out else out - {i})
      ensures !w.Anything? ==> !failed
    {
      hide Conserved, Displaced, Separate;
      var source, destination := moves[i].to, moves[i].from;
      OutIsFree(start, loc, moves, out, i);
      FilesAreValues(home, files, loc);
      failed := false;
      if source in files && destination !in files {
        DisplacedLess(start, loc, moves, out, i);
        var ok := Replace(source, destination, w);
        failed := !ok;
      }
    }

    /**
     * Rollback, newest move first; a failed move is counted and left.  The
     * moves still made afterwards are exactly the counted ones, so without
     * errors every file is back.
     */
    method RollBack(moves: seq<Move>, w: Faults, ghost start: Loc) returns (errors: nat, ghost out: set<nat>)
      requires Valid() && Separate(start.Values, moves) && Displaced(start, loc, moves, Upto(|moves|))
      modifies this
      ensures Valid() && Displaced(start, loc, moves, out)
      ensures errors == |out| && out <= Upto(|moves|)
      ensures errors == 0 ==> loc == start
      ensures !w.Anything? ==> errors == 0
    {
      hide Conserved, Displaced, Separate, Target, Upto, Standing;
      var i := |moves|;
      errors, out := 0, Upto(i);
      AllStand(i);
      while i > 0
        invariant 0 <= i <= |moves|
        invariant Valid() && Displaced(start, loc, moves, out)
        invariant Standing(out, i, |moves|, errors) && (!w.Anything? ==> errors == 0)
      {
        i := i - 1;
        OneTried(out, i, |moves|, errors);
        var failed := Undo(moves, i, w, start, out);
        if failed {
          errors := errors + 1;
        } else {
          out := out - {i};
        }
      }
      AllTried(out, |moves|, errors);
      if errors == 0 { DisplacedNone(start, loc, moves); }
    }
  }
}
