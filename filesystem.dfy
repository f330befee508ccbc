/**
 * A directory tree as `os.stat` sees it: symbolic links are already
 * resolved, so every entry is a directory (its listing, in `os.listdir`
 * order), a regular file with its modification time, or some other kind of
 * entry (device, socket, fifo, dangling link).  Where links matter (the
 * attachment restore), they are kept beside the tree, not in it; see
 * module Attachments.
 */
module FileSystem {
  import opened Wrappers

  /** A path relative to the root of a tree, one name per component. */
  type Path = seq<string>

  datatype Entry =
    | Dir(children: seq<(string, Entry)>)
    | File(mtime: int)
    | Other

  datatype FsError = NotADirectory | AlreadyExists

  /** The position of the first child called `name`. */
  function ChildIndex(cs: seq<(string, Entry)>, name: string): (r: Option<nat>)
    ensures r.Some? ==> r.value < |cs| && cs[r.value].0 == name
    ensures r.Some? ==> forall j | 0 <= j < r.value :: cs[j].0 != name
    ensures r.None? <==> forall j | 0 <= j < |cs| :: cs[j].0 != name
  {
    if cs == [] then None
    else if cs[0].0 == name then Some(0)
    else match ChildIndex(cs[1..], name)
      case Some(i) => Some(i + 1)
      case None => None
  }

  /** `os.listdir`: the names in a directory, in listing order. */
  function Names(cs: seq<(string, Entry)>): (r: seq<string>)
    ensures |r| == |cs| && forall i | 0 <= i < |cs| :: r[i] == cs[i].0
  {
    if cs == [] then [] else [cs[0].0] + Names(cs[1..])
  }

  /** The entry found by following `p` from `e`, if there is one. */
  function Lookup(e: Entry, p: Path): Option<Entry>
  {
    if p == [] then Some(e)
    else match e
      case Dir(cs) =>
        (match ChildIndex(cs, p[0])
         case Some(i) => Lookup(cs[i].1, p[1..])
         case None => None)
      case _ => None
  }

  /** `os.path.isdir`. */
  predicate IsDirAt(e: Entry, p: Path)
  {
    Lookup(e, p).Some? && Lookup(e, p).value.Dir?
  }

  /** `os.path.isfile`. */
  predicate IsFileAt(e: Entry, p: Path)
  {
    Lookup(e, p).Some? && Lookup(e, p).value.File?
  }

  /** A chain of fresh directories along `p` ending in `x`. */
  function Build(p: Path, x: Entry): Entry
  {
    if p == [] then x else Dir([(p[0], Build(p[1..], x))])
  }

  /**
   * Places `x` at `p`, creating the missing parent directories the way
   * `mkdir -p` does; fails when a component on the way is not a directory.
   */
  function Put(e: Entry, p: Path, x: Entry): Result<Entry, FsError>
  {
    if p == [] then Success(x)
    else match e
      case Dir(cs) =>
        (match ChildIndex(cs, p[0])
         case None => Success(Dir(cs + [(p[0], Build(p[1..], x))]))
         case Some(i) =>
           (match Put(cs[i].1, p[1..], x)
            case Success(c) => Success(Dir(cs[i := (p[0], c)]))
            case Failure(err) => Failure(err)))
      case _ => Failure(NotADirectory)
  }

  lemma {:induction false} LookupBuild(p: Path, x: Entry)
    ensures Lookup(Build(p, x), p) == Some(x)
  {
    if p != [] {
      LookupBuild(p[1..], x);
    }
  }

  lemma {:induction false} LookupBuildElsewhere(p: Path, x: Entry, q: Path)
    requires !(q <= p) && !(p <= q)
    ensures Lookup(Build(p, x), q) == None
  {
    if q[0] == p[0] {
      LookupBuildElsewhere(p[1..], x, q[1..]);
    }
  }

  /** After a successful `Put`, the new entry is found at its path. */
  lemma {:induction false} PutThenLookup(e: Entry, p: Path, x: Entry)
    requires Put(e, p, x).Success?
    ensures Lookup(Put(e, p, x).value, p) == Some(x)
  {
    if p != [] {
      var cs := e.children;
      match ChildIndex(cs, p[0])
      case None =>
        var cs' := cs + [(p[0], Build(p[1..], x))];
        ChildIndexIsFirst(cs', p[0], |cs|);
        LookupBuild(p[1..], x);
      case Some(i) =>
        var c := Put(cs[i].1, p[1..], x).value;
        ChildIndexOfRenamedless(cs, i, c, p[0]);
        PutThenLookup(cs[i].1, p[1..], x);
    }
  }

  /** A `Put` leaves every path that is neither above nor below its own untouched. */
  lemma {:induction false} PutKeepsUnrelated(e: Entry, p: Path, x: Entry, q: Path)
    requires Put(e, p, x).Success?
    requires !(q <= p) && !(p <= q)
    ensures Lookup(Put(e, p, x).value, q) == Lookup(e, q)
  {
    var cs := e.children;
    var p', q' := p[1..], q[1..];
    assert p == [p[0]] + p' && q == [q[0]] + q';
    match ChildIndex(cs, p[0])
    case None =>
      var cs' := cs + [(p[0], Build(p', x))];
      if q[0] == p[0] {
        ChildIndexIsFirst(cs', q[0], |cs|);
        LookupBuildElsewhere(p', x, q');
      } else {
        assert ChildIndex(cs', q[0]) == ChildIndex(cs, q[0]) by {
          ChildIndexOfAppend(cs, p[0], Build(p', x), q[0]);
        }
      }
    case Some(i) =>
      var c := Put(cs[i].1, p', x).value;
      var cs' := cs[i := (p[0], c)];
      ChildIndexOfRenamedless(cs, i, c, q[0]);
      if q[0] == p[0] {
        PutKeepsUnrelated(cs[i].1, p', x, q');
      }
  }

  lemma ChildIndexIsFirst(cs: seq<(string, Entry)>, name: string, k: nat)
    requires k < |cs| && cs[k].0 == name
    requires forall j | 0 <= j < k :: cs[j].0 != name
    ensures ChildIndex(cs, name) == Some(k)
  {
    assert ChildIndex(cs, name).Some?;
  }

  lemma ChildIndexOfAppend(cs: seq<(string, Entry)>, n: string, c: Entry, m: string)
    requires m != n
    ensures ChildIndex(cs + [(n, c)], m) == ChildIndex(cs, m)
  {
    var cs' := cs + [(n, c)];
    match ChildIndex(cs, m)
    case None =>
      assert forall j | 0 <= j < |cs'| :: cs'[j].0 != m by {
        forall j | 0 <= j < |cs'| ensures cs'[j].0 != m {
          if j < |cs| { assert cs'[j] == cs[j]; }
        }
      }
    case Some(k) =>
      ChildIndexIsFirst(cs', m, k);
  }

  lemma ChildIndexOfRenamedless(cs: seq<(string, Entry)>, i: nat, c: Entry, m: string)
    requires i < |cs|
    ensures ChildIndex(cs[i := (cs[i].0, c)], m) == ChildIndex(cs, m)
  {
    var cs' := cs[i := (cs[i].0, c)];
    assert forall j | 0 <= j < |cs| :: cs'[j].0 == cs[j].0;
    match ChildIndex(cs, m)
    case None =>
    case Some(k) =>
      ChildIndexIsFirst(cs', m, k);
  }

  /** Below a missing path nothing is found either. */
  lemma {:induction false} LookupBelowMissing(e: Entry, p: Path, q: Path)
    requires Lookup(e, p) == None && p <= q
    ensures Lookup(e, q) == None
  {
    if p != [] && e.Dir? {
      match ChildIndex(e.children, p[0])
      case None =>
      case Some(i) =>
        assert q[1..][..|p| - 1] == p[1..];
        LookupBelowMissing(e.children[i].1, p[1..], q[1..]);
    }
  }

  /** Everything above an entry that is found is a directory. */
  lemma {:induction false} FoundBelowIsDir(e: Entry, p: Path, q: Path)
    requires Lookup(e, p).Some? && q < p
    ensures IsDirAt(e, q)
  {
    if q != [] {
      var i := ChildIndex(e.children, p[0]).value;
      assert q[0] == p[0] && q[1..] < p[1..];
      FoundBelowIsDir(e.children[i].1, p[1..], q[1..]);
    }
  }

  /** `Put` cannot go through an entry that is not a directory. */
  lemma {:induction false} PutThroughNonDirFails(e: Entry, q: Path, y: Entry, p: Path, x: Entry)
    requires Lookup(e, q) == Some(y) && !y.Dir?
    requires q < p
    ensures Put(e, p, x).Failure?
  {
    if q == [] {
    } else {
      var i := ChildIndex(e.children, q[0]).value;
      assert p[0] == q[0];
      assert q[1..] < p[1..];
      PutThroughNonDirFails(e.children[i].1, q[1..], y, p[1..], x);
    }
  }

  /**
   * Placing an entry at a free path never replaces an existing file or
   * other non-directory entry: `unzip -n` and `mkdir -p` do not clobber.
   */
  lemma PutKeepsNonDirs(e: Entry, p: Path, x: Entry, q: Path)
    requires Lookup(e, p) == None && Put(e, p, x).Success?
    requires Lookup(e, q).Some? && !Lookup(e, q).value.Dir?
    ensures Lookup(Put(e, p, x).value, q) == Lookup(e, q)
  {
    if p <= q {
      LookupBelowMissing(e, p, q);
    } else if q <= p {
      assert q != p;
      PutThroughNonDirFails(e, q, Lookup(e, q).value, p, x);
    } else {
      PutKeepsUnrelated(e, p, x, q);
    }
  }

  /** Along its own path, a chain of fresh directories holds a directory at every proper prefix. */
  lemma {:induction false} LookupBuildPrefix(p: Path, x: Entry, q: Path)
    requires q < p
    ensures Lookup(Build(p, x), q).Some? && Lookup(Build(p, x), q).value.Dir?
  {
    if q != [] {
      assert q[1..] < p[1..];
      LookupBuildPrefix(p[1..], x, q[1..]);
    }
  }

  /** After a successful `Put`, every proper prefix of its path is a directory. */
  lemma {:induction false} PutMakesAncestorsDirs(e: Entry, p: Path, x: Entry, q: Path)
    requires Put(e, p, x).Success? && q < p
    ensures IsDirAt(Put(e, p, x).value, q)
  {
    if q != [] {
      var cs := e.children;
      assert q[0] == p[0] && q[1..] < p[1..];
      match ChildIndex(cs, p[0])
      case None =>
        var cs' := cs + [(p[0], Build(p[1..], x))];
        ChildIndexIsFirst(cs', p[0], |cs|);
        if q[1..] == [] {
        } else {
          LookupBuildPrefix(p[1..], x, q[1..]);
        }
      case Some(i) =>
        var c := Put(cs[i].1, p[1..], x).value;
        ChildIndexOfRenamedless(cs, i, c, p[0]);
        if q[1..] != [] {
          PutMakesAncestorsDirs(cs[i].1, p[1..], x, q[1..]);
        } else {
          assert p[1..] != [];
        }
    }
  }

  /** Placing an entry at a free path removes nothing that was there. */
  lemma PutKeepsPresent(e: Entry, p: Path, x: Entry, q: Path)
    requires Lookup(e, p) == None && Put(e, p, x).Success?
    requires Lookup(e, q).Some?
    ensures Lookup(Put(e, p, x).value, q).Some?
  {
    if p <= q {
      LookupBelowMissing(e, p, q);
    } else if q <= p {
      PutMakesAncestorsDirs(e, p, x, q);
    } else {
      PutKeepsUnrelated(e, p, x, q);
    }
  }

  /** Placing below an empty directory creates the chain of directories. */
  lemma PutIntoEmpty(name: string, rest: Path, x: Entry)
    ensures Put(Dir([]), [name] + rest, x) == Success(Dir([(name, Build(rest, x))]))
  {
    assert ([name] + rest)[1..] == rest;
    assert [] + [(name, Build(rest, x))] == [(name, Build(rest, x))];
  }

  /** Placing below a directory's only child descends into it. */
  lemma PutIntoOnlyChild(name: string, c: Entry, rest: Path, x: Entry)
    requires Put(c, rest, x).Success?
    ensures Put(Dir([(name, c)]), [name] + rest, x) == Success(Dir([(name, Put(c, rest, x).value)]))
  {
    assert ([name] + rest)[1..] == rest;
    assert ChildIndex([(name, c)], name) == Some(0);
    assert [(name, c)][0 := (name, Put(c, rest, x).value)] == [(name, Put(c, rest, x).value)];
  }

  lemma LookupOnlyChild(name: string, c: Entry, other: string, rest: Path)
    ensures Lookup(Dir([(name, c)]), [other] + rest) == if other == name then Lookup(c, rest) else None
  {
    assert ([other] + rest)[1..] == rest;
    assert other != name ==> ChildIndex([(name, c)][1..], other) == None;
  }
}
