/**
 * The module freshness walk of `DBTool.check_module_timestamps`: the latest
 * modification time of the `.py`, `.xml` and `.csv` files below a module
 * directory, found recursively; any entry that is neither a directory nor a
 * regular file stops the walk with an error.
 */
module ModuleWalk {
  import opened Wrappers
  import opened Strings
  import opened FileSystem

  datatype WalkError =
    | NoSuchEntry(name: string)   // os.stat / os.listdir on a missing path
    | ListedNonDirectory          // os.listdir on something that is not a directory
    | UnknownFileMode(name: string)

  /** Only files whose name ends in one of these extensions carry a timestamp. */
  predicate HasTrackedExtension(name: string)
  {
    EndsWith(name, ".py") || EndsWith(name, ".xml") || EndsWith(name, ".csv")
  }

  /** What one listed entry contributes (`file_mtime` in the loop body). */
  function Contribution(name: string, e: Entry): Result<int, WalkError>
    decreases e, 2, 0
  {
    match e
    case Dir(_) => TreeMtime(e, 0)
    case File(t) => Success(if HasTrackedExtension(name) then t else 0)
    case Other => Failure(UnknownFileMode(name))
  }

  /** `check_module_timestamps(path, mtime)` over the entry found at `path`. */
  function TreeMtime(e: Entry, mtime: int): Result<int, WalkError>
    decreases e, 1, 0
  {
    match e
    case Dir(cs) => Scan(e, |cs|, mtime)
    case _ => Failure(ListedNonDirectory)
  }

  /** The value of the loop variable `mtime` after the first `n` listed entries. */
  function Scan(e: Entry, n: nat, mtime: int): Result<int, WalkError>
    requires e.Dir? && n <= |e.children|
    decreases e, 0, n
  {
    if n == 0 then Success(mtime)
    else
      match Scan(e, n - 1, mtime)
      case Failure(err) => Failure(err)
      case Success(acc) =>
        match Contribution(e.children[n - 1].0, e.children[n - 1].1)
        case Failure(err) => Failure(err)
        case Success(t) => Success(if t > acc then t else acc)
  }

  lemma {:induction false} ScanFailureSticks(e: Entry, i: nat, n: nat, mtime: int)
    requires e.Dir? && i <= n <= |e.children|
    requires Scan(e, i, mtime).Failure?
    ensures Scan(e, n, mtime) == Scan(e, i, mtime)
    decreases n
  {
    if n > i {
      ScanFailureSticks(e, i, n - 1, mtime);
    }
  }

  /**
   * The walk as the source writes it: a loop over the listing that updates
   * `mtime`, recursing (with the default `mtime` of 0) into directories.
   */
  method CheckModuleTimestamps(e: Entry, mtime: int) returns (r: Result<int, WalkError>)
    ensures r == TreeMtime(e, mtime)
    decreases e
  {
    if !e.Dir? {
      return Failure(ListedNonDirectory);
    }
    var acc := mtime;
    var i := 0;
    while i < |e.children|
      invariant 0 <= i <= |e.children|
      invariant Scan(e, i, mtime) == Success(acc)
    {
      var (name, child) := e.children[i];
      var fileMtime := 0;
      if child.Dir? {
        var sub := CheckModuleTimestamps(child, 0);
        if sub.Failure? {
          ScanFailureSticks(e, i + 1, |e.children|, mtime);
          return sub;
        }
        fileMtime := sub.value;
      } else if child.File? {
        if HasTrackedExtension(name) {
          fileMtime := child.mtime;
        }
      } else {
        ScanFailureSticks(e, i + 1, |e.children|, mtime);
        return Failure(UnknownFileMode(name));
      }
      if fileMtime > acc {
        acc := fileMtime;
      }
      i := i + 1;
    }
    return Success(acc);
  }

  // ---------------------------------------------------------------------
  // Reference definitions, independent of the loop: which entries of a tree
  // are of an unknown kind, and which modification times are tracked.

  /** Some entry among the first `n` listed, or below them, is neither a directory nor a file. */
  ghost predicate UnknownWithin(e: Entry, n: nat)
    requires e.Dir? && n <= |e.children|
    decreases e, 0
  {
    exists i | 0 <= i < n :: UnknownAt(e.children[i].1)
  }

  ghost predicate UnknownAt(c: Entry)
    decreases c, 1
  {
    c.Other? || (c.Dir? && UnknownWithin(c, |c.children|))
  }

  /** `t` is the mtime of a tracked file among the first `n` listed entries or below them. */
  ghost predicate TrackedWithin(e: Entry, n: nat, t: int)
    requires e.Dir? && n <= |e.children|
    decreases e, 0
  {
    exists i | 0 <= i < n :: TrackedAt(e.children[i].0, e.children[i].1, t)
  }

  ghost predicate TrackedAt(name: string, c: Entry, t: int)
    decreases c, 1
  {
    (c.File? && HasTrackedExtension(name) && c.mtime == t)
    || (c.Dir? && TrackedWithin(c, |c.children|, t))
  }

  /**
   * The walk fails exactly when the tree holds an entry of unknown kind;
   * otherwise, starting from a non-negative `mtime`, it returns the maximum
   * of `mtime` and the mtimes of all tracked files in the tree.
   */
  lemma {:induction false} TreeMtimeIsMaximum(e: Entry, mtime: int)
    requires e.Dir? && mtime >= 0
    ensures TreeMtime(e, mtime).Success? <==> !UnknownAt(e)
    ensures TreeMtime(e, mtime).Success? ==>
      var r := TreeMtime(e, mtime).value;
      && r >= mtime
      && (forall t | TrackedAt("", e, t) :: t <= r)
      && (r == mtime || TrackedAt("", e, r))
    decreases e, 1
  {
    ScanIsMaximum(e, |e.children|, mtime);
  }

  lemma {:induction false} ScanIsMaximum(e: Entry, n: nat, mtime: int)
    requires e.Dir? && n <= |e.children| && mtime >= 0
    ensures Scan(e, n, mtime).Success? <==> !UnknownWithin(e, n)
    ensures Scan(e, n, mtime).Success? ==>
      var r := Scan(e, n, mtime).value;
      && r >= mtime
      && (forall t | TrackedWithin(e, n, t) :: t <= r)
      && (r == mtime || TrackedWithin(e, n, r))
    decreases e, 0, n
  {
    if n > 0 {
      ScanIsMaximum(e, n - 1, mtime);
      var (name, c) := e.children[n - 1];
      ContributionIsMaximum(name, c);
      var prev := Scan(e, n - 1, mtime);
      var contrib := Contribution(name, c);
      // the entries within n are those within n - 1 and entry n - 1
      assert UnknownWithin(e, n) <==> UnknownWithin(e, n - 1) || UnknownAt(c) by {
        if UnknownWithin(e, n) {
          var i :| 0 <= i < n && UnknownAt(e.children[i].1);
          if i < n - 1 { assert UnknownWithin(e, n - 1); }
        }
      }
      assert forall t :: TrackedWithin(e, n, t) <==> TrackedWithin(e, n - 1, t) || TrackedAt(name, c, t) by {
        forall t ensures TrackedWithin(e, n, t) ==> TrackedWithin(e, n - 1, t) || TrackedAt(name, c, t) {
          if TrackedWithin(e, n, t) {
            var i :| 0 <= i < n && TrackedAt(e.children[i].0, e.children[i].1, t);
            if i < n - 1 { assert TrackedWithin(e, n - 1, t); }
          }
        }
      }
    }
  }

  /** What a single listed entry contributes, described by the reference definitions. */
  lemma {:induction false} ContributionIsMaximum(name: string, c: Entry)
    ensures Contribution(name, c).Success? <==> !UnknownAt(c)
    ensures Contribution(name, c).Success? ==>
      var t := Contribution(name, c).value;
      && (forall u | TrackedAt(name, c, u) :: u <= t)
      && ((t == 0 && c.Dir?) || (t == 0 && c.File? && !HasTrackedExtension(name)) || TrackedAt(name, c, t))
    decreases c, 2
  {
    match c
    case Dir(cs) =>
      TreeMtimeIsMaximum(c, 0);
      assert forall u :: TrackedAt(name, c, u) <==> TrackedAt("", c, u);
    case File(t) =>
    case Other =>
  }
}
